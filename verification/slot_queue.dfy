/** The older queue of `index.js` (`Queue` and `Lease`). It has the same shape
    as the lease queue, but admission is synchronous: when a waiter's condition
    holds, its action (taking a slot) runs at once, inside the scan, before the
    next waiter's condition is evaluated. That is what makes the capacity bound hold here. */
module SlotQueue {
  import opened Sequences

  /** The queue's fixed `maximum`. */
  const Maximum := 10

  /** `reserveSlot` waiters take a slot; `waitForEmpty` waiters drain. */
  datatype Kind = Slot | Drain

  /** A registered `Lease`; `id` tells callers apart. */
  datatype Ticket = Ticket(id: nat, kind: Kind)

  /** `activeCount` and the registered waiters, in insertion order. */
  datatype Slots = Slots(active: int, waiters: seq<Ticket>)

  /** The outcome of a scan: the count after every admitted action ran, the
      waiters kept, and the waiters admitted, each in insertion order. */
  datatype ScanResult = ScanResult(active: int, kept: seq<Ticket>, admitted: seq<Ticket>)

  /** The condition each kind tests. */
  predicate Fits(k: Kind, active: int) {
    match k
    case Slot => active < Maximum
    case Drain => active == 0
  }

  /** The count after the kind's action: a slot is taken, a drain does nothing. */
  function Apply(k: Kind, active: int): int {
    match k
    case Slot => active + 1
    case Drain => active
  }

  /** The slot tickets among `ws`, in order. */
  function SlotTickets(ws: seq<Ticket>): seq<Ticket> {
    if |ws| == 0 then []
    else (if ws[0].kind == Slot then [ws[0]] else []) + SlotTickets(ws[1..])
  }

  /** The drain tickets among `ws`, in order. */
  function DrainTickets(ws: seq<Ticket>): seq<Ticket> {
    if |ws| == 0 then []
    else (if ws[0].kind == Drain then [ws[0]] else []) + DrainTickets(ws[1..])
  }

  /** The number of slot tickets. */
  function SlotCount(ws: seq<Ticket>): nat {
    |SlotTickets(ws)|
  }

  /** The drain tickets that find the count at zero when the count starts at
      `active` and each earlier slot ticket has added one. */
  function ZeroDrains(ws: seq<Ticket>, active: int): seq<Ticket> {
    if |ws| == 0 then []
    else
      (if ws[0].kind == Drain && active == 0 then [ws[0]] else [])
      + ZeroDrains(ws[1..], active + (if ws[0].kind == Slot then 1 else 0))
  }

  /** How many of `available` slot tickets find a free slot from `active` on. */
  function SlotsTaken(active: int, available: nat): nat {
    if active >= Maximum then 0
    else if available < Maximum - active then available
    else Maximum - active
  }

  /** The capacity bound, and nobody waits who could go: a registered slot
      waiter means every slot is taken, a registered drain waiter means some
      slot is. */
  predicate Valid(q: Slots) {
    && 0 <= q.active <= Maximum
    && (forall w | w in q.waiters && w.kind == Slot :: q.active == Maximum)
    && (forall w | w in q.waiters && w.kind == Drain :: q.active != 0)
  }

  /** A fresh queue. */
  function Init(): (q: Slots)
    ensures Valid(q) && q.active == 0 && q.waiters == []
  {
    Slots(0, [])
  }

  lemma SlotTicketsPrefix(w: Ticket, ws: seq<Ticket>)
    ensures SlotTickets([w] + ws) == (if w.kind == Slot then [w] else []) + SlotTickets(ws)
    ensures SlotCount([w] + ws) == (if w.kind == Slot then 1 else 0) + SlotCount(ws)
    ensures DrainTickets([w] + ws) == (if w.kind == Drain then [w] else []) + DrainTickets(ws)
  {
    assert ([w] + ws)[1..] == ws;
  }

  /** Once the count is positive no drain finds it at zero again. */
  lemma {:induction false} NoZeroDrainsAbove(ws: seq<Ticket>, active: int)
    requires active > 0
    ensures ZeroDrains(ws, active) == []
  {
    if |ws| > 0 {
      NoZeroDrainsAbove(ws[1..], active + (if ws[0].kind == Slot then 1 else 0));
    }
  }

  /** The loop of `leaseDone`: each waiter's condition in turn is evaluated on the
      current count, and an admitted waiter's action runs before the next test. */
  function Scan(ws: seq<Ticket>, active: int): (r: ScanResult)
    ensures multiset(r.kept) + multiset(r.admitted) == multiset(ws)
    ensures Subsequence(r.kept, ws) && Subsequence(r.admitted, ws)
    ensures r.active == active + SlotCount(r.admitted)
    ensures active <= Maximum ==> r.active <= Maximum
    ensures 0 <= active ==> forall w | w in r.kept :: !Fits(w.kind, r.active)
  {
    if |ws| == 0 then ScanResult(active, [], [])
    else
      assert ws == [ws[0]] + ws[1..];
      var w := ws[0];
      if Fits(w.kind, active) then
        var rest := Scan(ws[1..], Apply(w.kind, active));
        SlotTicketsPrefix(w, rest.admitted);
        ScanResult(rest.active, rest.kept, [w] + rest.admitted)
      else
        var rest := Scan(ws[1..], active);
        ScanResult(rest.active, [w] + rest.kept, rest.admitted)
  }

  /** One step of the scan: the first waiter is admitted or kept, and the rest
      is scanned from the count it leaves. */
  lemma ScanStep(ws: seq<Ticket>, active: int)
    requires |ws| > 0
    ensures Fits(ws[0].kind, active) ==>
      var rest := Scan(ws[1..], Apply(ws[0].kind, active));
      Scan(ws, active).admitted == [ws[0]] + rest.admitted && Scan(ws, active).kept == rest.kept
    ensures !Fits(ws[0].kind, active) ==>
      var rest := Scan(ws[1..], active);
      Scan(ws, active).admitted == rest.admitted && Scan(ws, active).kept == [ws[0]] + rest.kept
  {
  }

  /** As many slot waiters are admitted as there are free slots, or all of
      them if there are fewer. */
  lemma {:induction false} ScanSlotCount(ws: seq<Ticket>, active: int)
    ensures SlotCount(Scan(ws, active).admitted) == SlotsTaken(active, SlotCount(ws))
  {
    if |ws| > 0 {
      var w := ws[0];
      assert ws == [w] + ws[1..];
      SlotTicketsPrefix(w, ws[1..]);
      ScanStep(ws, active);
      if Fits(w.kind, active) {
        ScanSlotCount(ws[1..], Apply(w.kind, active));
        SlotTicketsPrefix(w, Scan(ws[1..], Apply(w.kind, active)).admitted);
      } else {
        ScanSlotCount(ws[1..], active);
      }
    }
  }

  lemma ConsSlices(w: Ticket, t: seq<Ticket>, n: nat)
    requires n <= |t|
    ensures ([w] + t)[..n + 1] == [w] + t[..n] && ([w] + t)[n + 1..] == t[n..]
  {
  }

  /** The slot waiters admitted are the earliest ones. */
  lemma {:induction false} ScanAdmitsFirstSlots(ws: seq<Ticket>, active: int)
    ensures var r := Scan(ws, active);
      && SlotCount(r.admitted) <= SlotCount(ws)
      && SlotTickets(r.admitted) == SlotTickets(ws)[..SlotCount(r.admitted)]
  {
    if |ws| > 0 {
      var w := ws[0];
      var t := SlotTickets(ws[1..]);
      assert ws == [w] + ws[1..];
      SlotTicketsPrefix(w, ws[1..]);
      ScanStep(ws, active);
      if Fits(w.kind, active) {
        var rest := Scan(ws[1..], Apply(w.kind, active));
        ScanAdmitsFirstSlots(ws[1..], Apply(w.kind, active));
        SlotTicketsPrefix(w, rest.admitted);
        if w.kind == Slot {
          ConsSlices(w, t, SlotCount(rest.admitted));
        }
      } else {
        var rest := Scan(ws[1..], active);
        ScanAdmitsFirstSlots(ws[1..], active);
        if w.kind == Slot {
          ScanSlotCount(ws[1..], active);
          assert SlotsTaken(active, SlotCount(ws[1..])) == 0;
          assert SlotTickets(rest.admitted) == [];
        } else {
          assert SlotTickets(ws) == t;
        }
      }
    }
  }

  /** The slot waiters kept are the ones after those admitted, in order. */
  predicate KeepsLaterSlots(ws: seq<Ticket>, active: int) {
    var r := Scan(ws, active);
    && SlotCount(r.admitted) <= SlotCount(ws)
    && SlotTickets(r.kept) == SlotTickets(ws)[SlotCount(r.admitted)..]
  }

  lemma KeepsLaterWhenFits(ws: seq<Ticket>, active: int)
    requires |ws| > 0 && Fits(ws[0].kind, active)
    requires KeepsLaterSlots(ws[1..], Apply(ws[0].kind, active))
    ensures KeepsLaterSlots(ws, active)
  {
    var w := ws[0];
    var h := if w.kind == Slot then [w] else [];
    var t := SlotTickets(ws[1..]);
    var rest := Scan(ws[1..], Apply(w.kind, active));
    var n := SlotCount(rest.admitted);
    assert ws == [w] + ws[1..];
    SlotTicketsPrefix(w, ws[1..]);
    ScanStep(ws, active);
    SlotTicketsPrefix(w, rest.admitted);
    assert SlotTickets(ws) == h + t;
    assert SlotCount(Scan(ws, active).admitted) == |h| + n;
    DropAfterHead(h, t, n);
  }

  lemma DropAfterHead(h: seq<Ticket>, t: seq<Ticket>, n: nat)
    requires n <= |t|
    ensures (h + t)[|h| + n..] == t[n..]
  {
  }

  lemma KeepsLaterWhenBlocked(ws: seq<Ticket>, active: int)
    requires |ws| > 0 && !Fits(ws[0].kind, active)
    requires KeepsLaterSlots(ws[1..], active)
    ensures KeepsLaterSlots(ws, active)
  {
    var w := ws[0];
    var t := SlotTickets(ws[1..]);
    var rest := Scan(ws[1..], active);
    assert ws == [w] + ws[1..];
    SlotTicketsPrefix(w, ws[1..]);
    ScanStep(ws, active);
    SlotTicketsPrefix(w, rest.kept);
    if w.kind == Slot {
      ScanSlotCount(ws[1..], active);
      assert SlotsTaken(active, SlotCount(ws[1..])) == 0;
      assert SlotCount(rest.admitted) == 0;
      assert ([w] + t)[0..] == [w] + t[0..];
    } else {
      assert SlotTickets(ws) == t;
    }
  }

  lemma {:induction false} ScanKeepsLaterSlots(ws: seq<Ticket>, active: int)
    ensures KeepsLaterSlots(ws, active)
  {
    if |ws| > 0 {
      if Fits(ws[0].kind, active) {
        ScanKeepsLaterSlots(ws[1..], Apply(ws[0].kind, active));
        KeepsLaterWhenFits(ws, active);
      } else {
        ScanKeepsLaterSlots(ws[1..], active);
        KeepsLaterWhenBlocked(ws, active);
      }
    }
  }

  /** The scan serves slot waiters first come, first served: the slot tickets
      admitted are the earliest ones, as many as there are free slots, and the
      rest stay in order. */
  lemma ScanTakesFirstSlots(ws: seq<Ticket>, active: int)
    ensures var r := Scan(ws, active);
      && SlotCount(r.admitted) == SlotsTaken(active, SlotCount(ws))
      && SlotTickets(r.admitted) == SlotTickets(ws)[..SlotCount(r.admitted)]
      && SlotTickets(r.kept) == SlotTickets(ws)[SlotCount(r.admitted)..]
  {
    ScanSlotCount(ws, active);
    ScanAdmitsFirstSlots(ws, active);
    ScanKeepsLaterSlots(ws, active);
  }

  /** With one slot free and two slot waiters, the earlier one gets it. */
  lemma FirstSlotWaiterServed()
    ensures Scan([Ticket(0, Slot), Ticket(1, Slot)], Maximum - 1).admitted == [Ticket(0, Slot)]
    ensures Scan([Ticket(0, Slot), Ticket(1, Slot)], Maximum - 1).kept == [Ticket(1, Slot)]
  {
    var ws := [Ticket(0, Slot), Ticket(1, Slot)];
    assert ws[1..] == [Ticket(1, Slot)];
    assert ws[1..][1..] == [];
  }

  /** The scan lets a drain waiter through exactly when the count it sees is
      zero: the drains admitted are those reached at count zero, in order. */
  lemma {:induction false} ScanAdmitsZeroDrains(ws: seq<Ticket>, active: int)
    ensures DrainTickets(Scan(ws, active).admitted) == ZeroDrains(ws, active)
  {
    if |ws| > 0 {
      var w := ws[0];
      var next := active + (if w.kind == Slot then 1 else 0);
      assert ZeroDrains(ws, active) == (if w.kind == Drain && active == 0 then [w] else []) + ZeroDrains(ws[1..], next);
      ScanStep(ws, active);
      if Fits(w.kind, active) {
        var rest := Scan(ws[1..], Apply(w.kind, active));
        assert Apply(w.kind, active) == next;
        ScanAdmitsZeroDrains(ws[1..], next);
        SlotTicketsPrefix(w, rest.admitted);
      } else {
        ScanAdmitsZeroDrains(ws[1..], active);
        if w.kind == Slot {
          NoZeroDrainsAbove(ws[1..], next);
          NoZeroDrainsAbove(ws[1..], active);
        }
      }
    }
  }

  /** `leaseDone`: one slot fewer, then the scan; admitted waiters leave the
      set, the others stay in order. */
  function LeaseDone(q: Slots): (r: (Slots, seq<Ticket>))
    ensures r.0.active == q.active - 1 + SlotCount(r.1)
    ensures multiset(r.0.waiters) + multiset(r.1) == multiset(q.waiters)
    ensures Subsequence(r.0.waiters, q.waiters) && Subsequence(r.1, q.waiters)
    ensures q.active >= 1 ==> forall w | w in r.0.waiters :: !Fits(w.kind, r.0.active)
  {
    var s := Scan(q.waiters, q.active - 1);
    (Slots(s.active, s.kept), s.admitted)
  }

  /** `waitForLease`: a lease whose condition holds has its action run at
      once, with no scan; otherwise it is registered and nothing else changes. */
  function WaitForLease(q: Slots, w: Ticket): (r: (Slots, bool))
    ensures r.1 <==> Fits(w.kind, q.active)
    ensures r.1 ==> r.0 == Slots(Apply(w.kind, q.active), q.waiters)
    ensures !r.1 ==> r.0 == Slots(q.active, q.waiters + [w])
  {
    if Fits(w.kind, q.active) then (Slots(Apply(w.kind, q.active), q.waiters), true)
    else (Slots(q.active, q.waiters + [w]), false)
  }

  /** `reserveSlot`: admitted and counted at once when a slot is free,
      otherwise registered with the count unchanged. */
  function ReserveSlot(q: Slots, id: nat): (r: (Slots, bool))
    ensures r.1 <==> q.active < Maximum
    ensures r.1 ==> r.0.active == q.active + 1 && r.0.waiters == q.waiters
    ensures !r.1 ==> r.0.active == q.active && r.0.waiters == q.waiters + [Ticket(id, Slot)]
  {
    WaitForLease(q, Ticket(id, Slot))
  }

  /** `waitForEmpty`: returns at once, changing nothing, on an idle queue;
      otherwise registered. */
  function WaitForEmpty(q: Slots, id: nat): (r: (Slots, bool))
    ensures r.1 <==> q.active == 0
    ensures r.1 ==> r.0 == q
    ensures !r.1 ==> r.0.active == q.active && r.0.waiters == q.waiters + [Ticket(id, Drain)]
  {
    WaitForLease(q, Ticket(id, Drain))
  }

  /** `reserveSlot` keeps the capacity bound and leaves nobody waiting who
      could go. */
  lemma ReserveSlotPreservesValid(q: Slots, id: nat)
    requires Valid(q)
    ensures Valid(ReserveSlot(q, id).0)
  {
  }

  lemma WaitForEmptyPreservesValid(q: Slots, id: nat)
    requires Valid(q)
    ensures Valid(WaitForEmpty(q, id).0)
  {
  }

  /** Returning an outstanding lease keeps the capacity bound and leaves
      nobody waiting who could go. */
  lemma {:induction false} LeaseDonePreservesValid(q: Slots)
    requires Valid(q) && q.active >= 1
    ensures Valid(LeaseDone(q).0)
  {
    var r := LeaseDone(q).0;
    assert r.active <= Maximum by {
      assert Scan(q.waiters, q.active - 1).active <= Maximum;
    }
    forall w | w in r.waiters
      ensures w.kind == Slot ==> r.active == Maximum
      ensures w.kind == Drain ==> r.active != 0
    {
      assert !Fits(w.kind, r.active);
    }
  }

  /** An admitted slot ticket is counted. */
  lemma {:induction false} SlotCounted(ws: seq<Ticket>, w: Ticket)
    requires w in ws && w.kind == Slot
    ensures SlotCount(ws) >= 1
  {
    if ws[0] != w {
      SlotCounted(ws[1..], w);
    }
  }

  /** A full queue with slot waiters stays full after a lease is returned: the
      freed slot goes straight to a waiter, within the same call. */
  lemma {:induction false} FreedSlotRefilled(q: Slots, w: Ticket)
    requires Valid(q) && q.active == Maximum && w in q.waiters && w.kind == Slot
    ensures LeaseDone(q).0.active == Maximum
  {
    var (r, admitted) := LeaseDone(q);
    LeaseDonePreservesValid(q);
    assert w in multiset(r.waiters) + multiset(admitted);
    if w in admitted {
      SlotCounted(admitted, w);
    }
  }
}
