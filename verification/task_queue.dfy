/** `TaskQueue` of `task-queue.ts`: runs workers with at most `maximum` leases
    of a lease queue out at a time, counting the `queue` calls not yet admitted.

    Each `queue` call goes through three suspensions: it waits for its lease,
    then the continuation after `await takeLease()` runs, which starts the worker
    and ends the call; the lease is released when the worker settles. Each
    `waitForEmpty` call waits on the lease queue and, when resumed, tests
    `waiting`, returning or waiting again. */
module TaskQueue {
  import opened LeaseQueue

  /** The lease queue, the `waiting` counter, the callers holding a lease whose
      continuation has not run, the started workers, and the `waitForEmpty`
      callers resumed by the lease queue and about to test `waiting`. */
  datatype Tasks = Tasks(gate: Gate, waiting: int, leased: seq<nat>, running: multiset<nat>, checking: seq<nat>)

  /** The number of lease callers among the waiters. */
  function LeaseCount(ws: seq<Waiter>): nat {
    if |ws| == 0 then 0
    else (if ws[0].kind == Lease then 1 else 0) + LeaseCount(ws[1..])
  }

  /** The lease callers still suspended in the lease queue. */
  function Unadmitted(g: Gate): nat {
    LeaseCount(g.pending + g.ready)
  }

  /** `waiting` counts exactly the `queue` calls not yet past their lease, and
      the lease count is the number of leases held by callers and workers. */
  predicate Accounted(t: Tasks) {
    && t.waiting == Unadmitted(t.gate) + |t.leased|
    && t.gate.active == |t.leased| + |t.running|
    && Settled(t.gate)
  }

  lemma {:induction false} LeaseCountAppend(a: seq<Waiter>, b: seq<Waiter>)
    ensures LeaseCount(a + b) == LeaseCount(a) + LeaseCount(b)
  {
    if |a| > 0 {
      LeaseCountAppend(a[1..], b);
      assert (a + b)[0] == a[0] && (a + b)[1..] == a[1..] + b;
      assert LeaseCount(a + b) == (if a[0].kind == Lease then 1 else 0) + LeaseCount(a[1..] + b);
    } else {
      assert a + b == b;
    }
  }

  /** One waiter's share of the count. */
  function Share(w: Waiter): nat {
    if w.kind == Lease then 1 else 0
  }

  lemma LeaseCountSplit(x: seq<Waiter>, w: Waiter, y: seq<Waiter>)
    ensures LeaseCount(x + [w] + y) == LeaseCount(x + y) + Share(w)
  {
    LeaseCountAppend(x + [w], y);
    LeaseCountAppend(x, [w]);
    LeaseCountAppend(x, y);
    assert [w][1..] == [];
  }

  /** Taking the waiter at `k` out lowers the count by its own share. */
  lemma LeaseCountWithout(b: seq<Waiter>, k: nat)
    requires k < |b|
    ensures LeaseCount(b) == LeaseCount(b[..k] + b[k + 1..]) + Share(b[k])
  {
    assert b == b[..k] + [b[k]] + b[k + 1..];
    LeaseCountSplit(b[..k], b[k], b[k + 1..]);
  }

  /** Two permutations stay permutations once a shared element is taken out. */
  lemma RemoveShared(a: seq<Waiter>, b: seq<Waiter>, k: nat)
    requires |a| > 0 && k < |b| && b[k] == a[0] && multiset(a) == multiset(b)
    ensures multiset(a[1..]) == multiset(b[..k] + b[k + 1..])
  {
    var rest := b[..k] + b[k + 1..];
    assert b == b[..k] + [b[k]] + b[k + 1..];
    assert multiset(b) == multiset(rest) + multiset{a[0]};
    assert a == [a[0]] + a[1..];
    assert multiset(a) == multiset(a[1..]) + multiset{a[0]};
    assert multiset(rest) == multiset(rest) + multiset{a[0]} - multiset{a[0]};
    assert multiset(a[1..]) == multiset(a[1..]) + multiset{a[0]} - multiset{a[0]};
  }

  /** The count depends only on which waiters there are, not on their order. */
  lemma {:induction false} LeaseCountPermutation(a: seq<Waiter>, b: seq<Waiter>)
    requires multiset(a) == multiset(b)
    ensures LeaseCount(a) == LeaseCount(b)
  {
    if |a| > 0 {
      assert a[0] in multiset(b);
      var k :| 0 <= k < |b| && b[k] == a[0];
      RemoveShared(a, b, k);
      LeaseCountPermutation(a[1..], b[..k] + b[k + 1..]);
      LeaseCountWithout(b, k);
    } else {
      assert |b| == |multiset(b)| == 0;
    }
  }

  /** A lease queue step that suspends one more caller `w` adds one unadmitted
      caller exactly when `w` is a lease caller; one that only rearranges the
      suspended callers adds none. */
  lemma UnadmittedAdd(g: Gate, r: Gate, w: Waiter)
    requires Suspended(r) == Suspended(g) + multiset{w}
    ensures Unadmitted(r) == Unadmitted(g) + (if w.kind == Lease then 1 else 0)
  {
    LeaseCountPermutation(r.pending + r.ready, g.pending + g.ready + [w]);
    LeaseCountAppend(g.pending + g.ready, [w]);
  }

  lemma UnadmittedSame(g: Gate, r: Gate)
    requires Suspended(r) == Suspended(g)
    ensures Unadmitted(r) == Unadmitted(g)
  {
    LeaseCountPermutation(r.pending + r.ready, g.pending + g.ready);
  }

  /** With no lease caller counted, none is suspended. */
  lemma {:induction false} NoLeaseCallers(ws: seq<Waiter>)
    requires LeaseCount(ws) == 0
    ensures forall w | w in ws :: w.kind == Empty
  {
    if |ws| > 0 {
      NoLeaseCallers(ws[1..]);
    }
  }

  /** The constructor: a lease queue of the given maximum, nothing waiting. */
  function Init(maximum: int): (t: Tasks)
    ensures Accounted(t) && t.gate.maximum == maximum && t.waiting == 0
  {
    Tasks(LeaseQueue.Init(maximum), 0, [], multiset{}, [])
  }

  /** The call of `queue`, up to its wait for a lease. */
  function Queue(t: Tasks, id: nat): (r: Tasks)
    ensures r.waiting == t.waiting + 1 && r.gate.active == t.gate.active
    ensures r.gate.maximum == t.gate.maximum
    ensures Suspended(r.gate) == Suspended(t.gate) + multiset{Waiter(id, Lease)}
    ensures Accounted(t) ==> Accounted(r)
  {
    var r := t.(waiting := t.waiting + 1, gate := TakeLease(t.gate, id));
    UnadmittedAdd(t.gate, r.gate, Waiter(id, Lease));
    SettledPreserved(t.gate, Waiter(id, Lease), 0);
    r
  }

  /** The lease call of `ready[i]` resumes and takes its lease: one more lease
      out, `waiting` not yet changed. */
  function Admit(t: Tasks, i: nat): (r: Tasks)
    requires i < |t.gate.ready| && t.gate.ready[i].kind == Lease
    ensures r.waiting == t.waiting && r.gate.active == t.gate.active + 1
    ensures r.gate.maximum == t.gate.maximum
    ensures r.leased == t.leased + [t.gate.ready[i].id] && r.running == t.running
    ensures Accounted(t) ==> Accounted(r)
  {
    var (g, w) := Resume(t.gate, i);
    UnadmittedAdd(g, t.gate, w);
    t.(gate := g, leased := t.leased + [w.id])
  }

  /** The continuation of the `queue` call holding `leased[j]`: one less caller
      waiting, its worker started; the call returns here, before the worker
      finishes. */
  function Start(t: Tasks, j: nat): (r: Tasks)
    requires j < |t.leased|
    ensures r.waiting == t.waiting - 1 && r.gate == t.gate
    ensures r.running == t.running + multiset{t.leased[j]}
    ensures multiset(r.leased) + multiset{t.leased[j]} == multiset(t.leased)
    ensures Accounted(t) ==> Accounted(r)
  {
    var rest := t.leased[..j] + t.leased[j + 1..];
    assert t.leased == t.leased[..j] + [t.leased[j]] + t.leased[j + 1..];
    t.(waiting := t.waiting - 1, leased := rest, running := t.running + multiset{t.leased[j]})
  }

  /** A started worker settles, fulfilled or rejected alike, and its lease is
      released, once. */
  function Finish(t: Tasks, id: nat): (r: Tasks)
    requires id in t.running
    ensures r.running[id] == t.running[id] - 1 && r.running + multiset{id} == t.running
    ensures r.gate.active == t.gate.active - 1 && r.waiting == t.waiting
    ensures r.gate.maximum == t.gate.maximum
    ensures Accounted(t) ==> Accounted(r)
  {
    var r := t.(running := t.running - multiset{id}, gate := Release(t.gate));
    UnadmittedSame(t.gate, r.gate);
    r
  }

  /** A `waitForEmpty` call, or its next loop iteration, waits on the lease
      queue; neither the counter nor the leases change. */
  function WaitForEmpty(t: Tasks, id: nat): (r: Tasks)
    ensures r.waiting == t.waiting && r.gate.active == t.gate.active
    ensures r.gate.maximum == t.gate.maximum && r.leased == t.leased && r.running == t.running
    ensures Suspended(r.gate) == Suspended(t.gate) + multiset{Waiter(id, Empty)}
    ensures Accounted(t) ==> Accounted(r)
  {
    var r := t.(gate := LeaseQueue.WaitForEmpty(t.gate, id));
    UnadmittedAdd(t.gate, r.gate, Waiter(id, Empty));
    SettledPreserved(t.gate, Waiter(id, Empty), 0);
    r
  }

  /** The empty call of `ready[i]` resumes in the lease queue; its caller is
      now about to test `waiting`. */
  function Observe(t: Tasks, i: nat): (r: Tasks)
    requires i < |t.gate.ready| && t.gate.ready[i].kind == Empty
    ensures r.waiting == t.waiting && r.gate.active == t.gate.active
    ensures r.gate.maximum == t.gate.maximum && r.leased == t.leased && r.running == t.running
    ensures r.checking == t.checking + [t.gate.ready[i].id]
    ensures Accounted(t) ==> Accounted(r)
  {
    var (g, w) := Resume(t.gate, i);
    UnadmittedAdd(g, t.gate, w);
    t.(gate := g, checking := t.checking + [w.id])
  }

  /** The loop test of the `waitForEmpty` caller `checking[j]`: it returns
      (`true`) when no `queue` call is waiting, and otherwise waits on the lease
      queue again. Neither outcome changes the counter or the leases. */
  function Check(t: Tasks, j: nat): (r: (Tasks, bool))
    requires j < |t.checking|
    ensures r.1 <==> t.waiting == 0
    ensures r.0.waiting == t.waiting && r.0.gate.active == t.gate.active
    ensures r.0.gate.maximum == t.gate.maximum && r.0.leased == t.leased && r.0.running == t.running
    ensures r.1 ==> r.0.gate == t.gate
    ensures !r.1 ==> Suspended(r.0.gate) == Suspended(t.gate) + multiset{Waiter(t.checking[j], Empty)}
    ensures Accounted(t) ==> Accounted(r.0)
  {
    var rest := t.(checking := t.checking[..j] + t.checking[j + 1..]);
    if t.waiting == 0 then (rest, true)
    else (WaitForEmpty(rest, t.checking[j]), false)
  }

  /** When `waitForEmpty` returns, every `queue` call made so far has got past
      its lease: none waits for one, none holds one without having started
      its worker. */
  lemma {:induction false} ReturnMeansAllAdmitted(t: Tasks, j: nat)
    requires Accounted(t) && j < |t.checking| && Check(t, j).1
    ensures forall w | w in t.gate.pending :: w.kind == Empty
    ensures forall w | w in t.gate.ready :: w.kind == Empty
    ensures t.leased == []
  {
    LeaseCountAppend(t.gate.pending, t.gate.ready);
    NoLeaseCallers(t.gate.pending);
    NoLeaseCallers(t.gate.ready);
  }

  /** The first half of a run on a one-lease queue: task 0 holds the lease
      and runs, task 1 waits for the lease, and caller 2 waits for the queue
      to drain. */
  function BusyPending(): (t: Tasks)
    ensures Accounted(t) && t.gate.maximum == 1 && t.gate.active == 1 && t.waiting == 1
    ensures t.gate.pending == [Waiter(1, Lease), Waiter(2, Empty)] && t.gate.ready == []
    ensures t.running == multiset{0} && t.leased == [] && t.checking == []
  {
    var t1 := Queue(Init(1), 0);
    assert t1.gate.ready == [Waiter(0, Lease)] && t1.gate.pending == [];
    var t2 := Admit(t1, 0);
    assert Without(t1.gate.ready, 0) == [];
    assert t2.gate.ready == [] && t2.gate.pending == [] && t2.leased == [0];
    var t3 := Start(t2, 0);
    assert t3.leased == [] && t3.running == multiset{0};
    WaitForEmpty(Queue(t3, 1), 2)
  }

  /** A run in which `waitForEmpty` returns while a worker still runs. When
      task 0 finishes, the release resolves task 1 and caller 2 together.
      Task 1 takes the lease and starts before caller 2 tests `waiting`,
      which is zero by then. */
  function BusyReturn(): (t: Tasks)
    ensures Accounted(t) && t.checking == [2] && Check(t, 0).1
    ensures t.gate.active == 1 && t.running == multiset{1}
  {
    var t5 := BusyPending();
    PartitionWhenAllHold(t5.gate.pending, 0, 1);
    var t6 := Finish(t5, 0);
    assert t6.gate.ready == [Waiter(1, Lease), Waiter(2, Empty)] && t6.gate.pending == [];
    assert t6.running == multiset{};
    var t7 := Admit(t6, 0);
    assert Without(t6.gate.ready, 0) == [Waiter(2, Empty)];
    assert t7.gate.ready == [Waiter(2, Empty)] && t7.leased == [1];
    var t8 := Start(t7, 0);
    assert t8.leased == [] && t8.waiting == 0;
    Observe(t8, 0)
  }

  /** The loop test of `waitForEmpty` as evidently intended: it also waits
      again while any lease is out, so it returns only once every worker has
      finished. */
  function CheckIdle(t: Tasks, j: nat): (r: (Tasks, bool))
    requires j < |t.checking|
    ensures r.1 <==> t.waiting == 0 && t.gate.active == 0
    ensures r.0.waiting == t.waiting && r.0.gate.active == t.gate.active
    ensures r.0.gate.maximum == t.gate.maximum && r.0.leased == t.leased && r.0.running == t.running
    ensures r.1 ==> r.0.gate == t.gate
    ensures !r.1 ==> Suspended(r.0.gate) == Suspended(t.gate) + multiset{Waiter(t.checking[j], Empty)}
    ensures Accounted(t) ==> Accounted(r.0)
  {
    var rest := t.(checking := t.checking[..j] + t.checking[j + 1..]);
    if t.waiting == 0 && t.gate.active == 0 then (rest, true)
    else (WaitForEmpty(rest, t.checking[j]), false)
  }

  /** When the corrected `waitForEmpty` returns, all queued work has started
      and finished: no lease is out, no worker runs, and nobody waits for a
      lease. */
  lemma {:induction false} IdleReturnMeansAllDone(t: Tasks, j: nat)
    requires Accounted(t) && j < |t.checking| && CheckIdle(t, j).1
    ensures t.gate.active == 0 && t.running == multiset{} && t.leased == []
    ensures forall w | w in t.gate.pending + t.gate.ready :: w.kind == Empty
  {
    NoLeaseCallers(t.gate.pending + t.gate.ready);
  }

  /** The corrected test does not return in the run above. */
  lemma IdleCheckWaitsOnBusyReturn()
    ensures !CheckIdle(BusyReturn(), 0).1
  {
  }
}
