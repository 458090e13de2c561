/** The unit-lease queue of `lease-queue.ts`: a counting gate whose callers wait
    on a condition over the count.

    Admission is two-phase. A scan of the waiters only resolves the promises of
    those whose condition holds; the count is raised later, when the resolved
    `takeLease` call resumes. A call whose condition already holds also resumes
    later, because `await` always suspends. The state therefore keeps, besides
    the registered waiters, the calls that have been resolved but not resumed,
    and any of them may resume next. */
module LeaseQueue {
  import opened Sequences

  /** The two conditions callers wait on: a free lease, or an idle queue. */
  datatype Kind = Lease | Empty

  /** A suspended caller; `id` tells callers apart. */
  datatype Waiter = Waiter(id: nat, kind: Kind)

  /** `active`, `maximum` and the registered waiters of the class, plus the
      resolved calls whose continuations have not run yet. */
  datatype Gate = Gate(active: int, maximum: int, pending: seq<Waiter>, ready: seq<Waiter>)

  /** The limit used when the constructor is given none. */
  const DefaultMaximum := 10

  /** The condition a waiter of kind `k` tests. */
  predicate Holds(k: Kind, active: int, maximum: int) {
    match k
    case Lease => active < maximum
    case Empty => active == 0
  }

  /** No registered waiter's condition holds: every one that could go was let go. */
  predicate Settled(g: Gate) {
    forall w | w in g.pending :: !Holds(w.kind, g.active, g.maximum)
  }

  /** All callers still suspended, registered or resolved. */
  function Suspended(g: Gate): multiset<Waiter> {
    multiset(g.pending) + multiset(g.ready)
  }

  /** A fresh queue: no lease out and nobody waiting. */
  function Init(maximum: int): (g: Gate)
    ensures g.active == 0 && g.maximum == maximum
    ensures Suspended(g) == multiset{} && Settled(g)
  {
    Gate(0, maximum, [], [])
  }

  /** The constructor called without a limit. */
  function InitDefault(): (g: Gate)
    ensures g.active == 0 && g.maximum == 10
    ensures Suspended(g) == multiset{} && Settled(g)
  {
    Init(DefaultMaximum)
  }

  /** The scan of the waiters against one fixed count: the waiters split into
      those kept and those resolved, both in registration order. */
  function Partition(ws: seq<Waiter>, active: int, maximum: int): (r: (seq<Waiter>, seq<Waiter>))
    ensures forall w | w in r.0 :: !Holds(w.kind, active, maximum)
    ensures forall w | w in r.1 :: Holds(w.kind, active, maximum)
    ensures multiset(r.0) + multiset(r.1) == multiset(ws)
    ensures Subsequence(r.0, ws) && Subsequence(r.1, ws)
  {
    if |ws| == 0 then ([], [])
    else
      var rest := Partition(ws[1..], active, maximum);
      assert ws == [ws[0]] + ws[1..];
      if Holds(ws[0].kind, active, maximum) then (rest.0, [ws[0]] + rest.1)
      else ([ws[0]] + rest.0, rest.1)
  }

  /** When every waiter's condition holds, the scan resolves them all, in order. */
  lemma {:induction false} PartitionWhenAllHold(ws: seq<Waiter>, active: int, maximum: int)
    requires forall w | w in ws :: Holds(w.kind, active, maximum)
    ensures Partition(ws, active, maximum) == ([], ws)
  {
    if |ws| > 0 {
      PartitionWhenAllHold(ws[1..], active, maximum);
      assert ws == [ws[0]] + ws[1..];
    }
  }

  /** `informWaiters`: resolve every waiter whose condition holds now. */
  function Inform(g: Gate): (r: Gate)
    ensures r.active == g.active && r.maximum == g.maximum
    ensures Settled(r) && Suspended(r) == Suspended(g)
    ensures Subsequence(r.pending, g.pending)
    ensures |r.ready| >= |g.ready| && r.ready[..|g.ready|] == g.ready
    ensures forall w | w in r.ready[|g.ready|..] :: Holds(w.kind, g.active, g.maximum)
    ensures forall w | w in g.pending && Holds(w.kind, g.active, g.maximum) :: w in r.ready
  {
    var (kept, resolved) := Partition(g.pending, g.active, g.maximum);
    var r := Gate(g.active, g.maximum, kept, g.ready + resolved);
    assert r.ready[|g.ready|..] == resolved;
    forall w | w in g.pending && Holds(w.kind, g.active, g.maximum)
      ensures w in r.ready
    {
      assert w in multiset(kept) + multiset(resolved);
    }
    r
  }

  /** `waitFor`: a caller whose condition already holds is not registered and
      resumes on its own; otherwise exactly one waiter is registered. */
  function WaitFor(g: Gate, w: Waiter): (r: Gate)
    ensures r.active == g.active && r.maximum == g.maximum
    ensures Suspended(r) == Suspended(g) + multiset{w}
    ensures Holds(w.kind, g.active, g.maximum) ==> r.pending == g.pending && r.ready == g.ready + [w]
    ensures !Holds(w.kind, g.active, g.maximum) ==> r.pending == g.pending + [w] && r.ready == g.ready
  {
    if Holds(w.kind, g.active, g.maximum) then g.(ready := g.ready + [w])
    else g.(pending := g.pending + [w])
  }

  /** The call of `takeLease`, up to its first suspension. */
  function TakeLease(g: Gate, id: nat): (r: Gate)
    ensures r.active == g.active && r.maximum == g.maximum
    ensures Suspended(r) == Suspended(g) + multiset{Waiter(id, Lease)}
    ensures g.active < g.maximum ==> r.pending == g.pending && r.ready == g.ready + [Waiter(id, Lease)]
    ensures g.active >= g.maximum ==> r.pending == g.pending + [Waiter(id, Lease)] && r.ready == g.ready
  {
    WaitFor(g, Waiter(id, Lease))
  }

  /** The call of `waitForEmpty`, up to its suspension. */
  function WaitForEmpty(g: Gate, id: nat): (r: Gate)
    ensures r.active == g.active && r.maximum == g.maximum
    ensures Suspended(r) == Suspended(g) + multiset{Waiter(id, Empty)}
    ensures g.active == 0 ==> r.pending == g.pending && r.ready == g.ready + [Waiter(id, Empty)]
    ensures g.active != 0 ==> r.pending == g.pending + [Waiter(id, Empty)] && r.ready == g.ready
  {
    WaitFor(g, Waiter(id, Empty))
  }

  /** `releaseLease`: one less lease out, then a scan. Any lease's release is
      this same queue-wide step, so nothing refuses a second release. */
  function Release(g: Gate): (r: Gate)
    ensures r.active == g.active - 1 && r.maximum == g.maximum
    ensures Settled(r) && Suspended(r) == Suspended(g)
    ensures Subsequence(r.pending, g.pending)
    ensures |r.ready| >= |g.ready| && r.ready[..|g.ready|] == g.ready
    ensures forall w | w in r.ready[|g.ready|..] :: Holds(w.kind, g.active - 1, g.maximum)
    ensures forall w | w in g.pending && Holds(w.kind, g.active - 1, g.maximum) :: w in r.ready
  {
    Inform(g.(active := g.active - 1))
  }

  /** The sequence without its element at `i`. */
  function Without(ws: seq<Waiter>, i: nat): (r: seq<Waiter>)
    requires i < |ws|
    ensures multiset(r) + multiset{ws[i]} == multiset(ws)
  {
    assert ws == ws[..i] + [ws[i]] + ws[i + 1..];
    ws[..i] + ws[i + 1..]
  }

  /** The continuation of the resolved call at `ready[i]` runs: a lease call
      takes its lease (one more out) and scans; an empty call just returns. */
  function Resume(g: Gate, i: nat): (r: (Gate, Waiter))
    requires i < |g.ready|
    ensures r.1 == g.ready[i] && r.0.maximum == g.maximum
    ensures Suspended(r.0) + multiset{r.1} == Suspended(g)
    ensures r.1.kind == Lease ==> r.0.active == g.active + 1 && Settled(r.0)
    ensures r.1.kind == Lease ==> Subsequence(r.0.pending, g.pending)
    ensures r.1.kind == Lease ==>
      |r.0.ready| >= |g.ready| - 1 && r.0.ready[..|g.ready| - 1] == Without(g.ready, i)
    ensures r.1.kind == Lease ==>
      forall w | w in r.0.ready[|g.ready| - 1..] :: Holds(w.kind, g.active + 1, g.maximum)
    ensures r.1.kind == Empty ==> r.0.active == g.active && r.0.pending == g.pending
    ensures r.1.kind == Empty ==> r.0.ready == Without(g.ready, i)
  {
    var w := g.ready[i];
    var rest := g.(ready := Without(g.ready, i));
    match w.kind
    case Lease => (Inform(rest.(active := g.active + 1)), w)
    case Empty => (rest, w)
  }

  /** Every step keeps the registered waiters settled. */
  lemma SettledPreserved(g: Gate, w: Waiter, i: nat)
    ensures Settled(g) ==> Settled(WaitFor(g, w))
    ensures Settled(Release(g))
    ensures Settled(g) && i < |g.ready| ==> Settled(Resume(g, i).0)
  {
  }

  /** One scan lets through every registered lease caller, all against the
      same count, since none has taken its lease yet. */
  lemma {:induction false} ReleaseResolvesAllLeaseWaiters(g: Gate)
    requires g.active - 1 < g.maximum
    ensures forall w | w in g.pending && w.kind == Lease :: w in Release(g).ready
  {
    forall w | w in g.pending && w.kind == Lease
      ensures w in Release(g).ready
    {
      assert Holds(w.kind, g.active - 1, g.maximum);
    }
  }

  /** Two resolved lease calls that both resume add two leases, whatever the
      count was when they were resolved. */
  lemma ResumeTwoLeases(g: Gate)
    requires |g.ready| == 2 && g.ready[0].kind == Lease && g.ready[1].kind == Lease
    ensures Resume(Resume(g, 0).0, 0).0.active == g.active + 2
  {
    var (g1, w1) := Resume(g, 0);
    assert Without(g.ready, 0) == [g.ready[1]];
    assert |g1.ready| >= 1 && g1.ready[0] == g.ready[1];
  }

  /** Two callers of a one-lease queue, both admitted at once: after both
      resume, two leases are out. The bound `active <= maximum` does not hold. */
  lemma TwoImmediateLeasesOvershoot()
    ensures var g := TakeLease(TakeLease(Init(1), 0), 1);
      |g.ready| == 2 && Resume(Resume(g, 0).0, 0).0.active == 2
  {
    var g1 := TakeLease(Init(1), 0);
    assert g1.active == 0 && g1.maximum == 1 && g1.ready == [] + [Waiter(0, Lease)];
    var g := TakeLease(g1, 1);
    assert g.ready == [Waiter(0, Lease)] + [Waiter(1, Lease)];
    ResumeTwoLeases(g);
  }

  /** With the queue full and two lease callers registered, one release
      resolves both against the same count. */
  lemma ReleaseResolvesBoth(m: int)
    ensures Release(Gate(m, m, [Waiter(0, Lease), Waiter(1, Lease)], [])).ready == [Waiter(0, Lease), Waiter(1, Lease)]
  {
    var ws := [Waiter(0, Lease), Waiter(1, Lease)];
    PartitionWhenAllHold(ws, m - 1, m);
    assert [] + ws == ws;
  }

  /** The same overshoot after a release: after the two callers let through by
      one release resume, the queue holds one lease more than its maximum. */
  lemma ReleaseOvershoots(m: int)
    ensures var r := Release(Gate(m, m, [Waiter(0, Lease), Waiter(1, Lease)], []));
      |r.ready| == 2 && Resume(Resume(r, 0).0, 0).0.active == m + 1
  {
    var r := Release(Gate(m, m, [Waiter(0, Lease), Waiter(1, Lease)], []));
    ReleaseResolvesBoth(m);
    ResumeTwoLeases(r);
  }

  /** Releasing twice takes two leases back, whether or not two were given. */
  lemma ReleaseTwice(g: Gate)
    ensures Release(Release(g)).active == g.active - 2
    ensures Suspended(Release(Release(g))) == Suspended(g)
  {
  }
}
