// Every step of the call protocol keeps its invariant; so in every run each
// call is executed exactly once, in order, and before it returns.
module RpcSafety {
  import opened Options
  import opened RpcMachine

  // ---- callers' steps ----

  lemma BeginOwners(size: nat, s: State, t: nat, index: int, buffer: int, a: nat, garbage: Request)
    requires Inv(s) && Enabled(s, Begin(t, index, buffer, Some(a), garbage))
    ensures OwnersOk(Apply(size, s, Begin(t, index, buffer, Some(a), garbage)))
  {
    var s' := Apply(size, s, Begin(t, index, buffer, Some(a), garbage));
    SentBelow(s);
    forall u | u in s'.callers ensures CallerOk(s', u) {
      assert CallerOk(s, u);
    }
    forall b | Spinning(s, b) ensures Spinning(s', b) {
      SpinnerStays(s, s', t, b);
    }
  }

  lemma SentBelow(s: State)
    requires LogsOk(s)
    ensures forall k | k in s.sent :: k.id < s.next
    ensures forall k | k in s.executed :: k in s.sent
  {
  }

  /** A caller at another point than AtSpin moves no spinner. */
  lemma SpinnerStays(s: State, s': State, t: nat, b: nat)
    requires Spinning(s, b) && t in s.callers && !s.callers[t].AtSpin? && t in s'.callers
    requires s'.callers == s.callers[t := s'.callers[t]] && (b in s.heap ==> b in s'.heap)
    ensures Spinning(s', b)
  {
    var u :| u in s.callers && s.callers[u].AtSpin? && s.callers[u].a == b;
    assert u in s'.callers && s'.callers[u].AtSpin? && s'.callers[u].a == b;
  }

  lemma SameCalls(heap: map<nat, Request>, heap': map<nat, Request>, blocks: seq<nat>)
    requires forall i | 0 <= i < |blocks| ::
               blocks[i] in heap && blocks[i] in heap' && CallOf(heap[blocks[i]]) == CallOf(heap'[blocks[i]])
    ensures Calls(heap, blocks) == Calls(heap', blocks)
  {
  }

  lemma BeginLogs(size: nat, s: State, t: nat, index: int, buffer: int, a: nat, garbage: Request)
    requires Inv(s) && Enabled(s, Begin(t, index, buffer, Some(a), garbage))
    ensures LogsOk(Apply(size, s, Begin(t, index, buffer, Some(a), garbage)))
  {
    var s' := Apply(size, s, Begin(t, index, buffer, Some(a), garbage));
    assert Pending(s') == Pending(s);
    SameCalls(s.heap, s'.heap, Pending(s));
  }

  lemma FillKeeps(size: nat, s: State, t: nat)
    requires Inv(s) && Enabled(s, Fill(t)) && Sound(size, s, Fill(t))
    ensures Inv(Apply(size, s, Fill(t)))
  {
    var s' := Apply(size, s, Fill(t));
    assert CallerOk(s, t);
    assert Pending(s') == Pending(s);
    assert forall i | 0 <= i < |Pending(s)| :: Pending(s)[i] != s.callers[t].a;
    SameCalls(s.heap, s'.heap, Pending(s));
    forall u | u in s'.callers ensures CallerOk(s', u) {
      assert CallerOk(s, u);
    }
    forall b | Spinning(s, b) ensures Spinning(s', b) {
      SpinnerStays(s, s', t, b);
    }
  }

  lemma EnqueueOwners(size: nat, s: State, t: nat)
    requires Inv(s) && Enabled(s, Enqueue(t)) && Sound(size, s, Enqueue(t))
    ensures OwnersOk(Apply(size, s, Enqueue(t)))
  {
    var s', a := Apply(size, s, Enqueue(t)), s.callers[t].a;
    hide LogsOk;
    assert CallerOk(s, t);
    assert Pending(s') == Pending(s) + [a];
    assert s'.sent[|s.sent|] == s.callers[t].k;
    forall u | u in s'.callers ensures CallerOk(s', u) {
      assert CallerOk(s, u);
      assert u != t && !s.callers[u].Idle? ==> s.callers[u].a != a && s.callers[u].k.id != s.callers[t].k.id;
    }
    forall b | Spinning(s, b) ensures Spinning(s', b) {
      SpinnerStays(s, s', t, b);
    }
    assert s'.callers[t].AtSpin? && s'.callers[t].a == a;
    assert Spinning(s', a);
  }

  lemma EnqueueLogs(size: nat, s: State, t: nat)
    requires Inv(s) && Enabled(s, Enqueue(t)) && Sound(size, s, Enqueue(t))
    ensures LogsOk(Apply(size, s, Enqueue(t)))
  {
    var s', a := Apply(size, s, Enqueue(t)), s.callers[t].a;
    assert CallerOk(s, t);
    assert Pending(s') == Pending(s) + [a];
    assert Calls(s'.heap, Pending(s')) == Calls(s.heap, Pending(s)) + [s.callers[t].k];
  }

  lemma AcquireKeeps(size: nat, s: State, t: nat)
    requires Inv(s) && Enabled(s, Acquire(t)) && Sound(size, s, Acquire(t))
    ensures Inv(Apply(size, s, Acquire(t)))
  {
    var s', a := Apply(size, s, Acquire(t)), s.callers[t].a;
    assert CallerOk(s, t);
    assert Pending(s') == Pending(s);
    SameCalls(s.heap, s'.heap, Pending(s));
    forall u | u in s'.callers ensures CallerOk(s', u) {
      assert CallerOk(s, u);
    }
    forall b | Spinning(s, b) && b != a ensures Spinning(s', b) {
      SpinnerElsewhere(s, s', t, b);
    }
  }

  /** A step of caller t does not move a spinner on another block. */
  lemma SpinnerElsewhere(s: State, s': State, t: nat, b: nat)
    requires Spinning(s, b) && t in s.callers && (!s.callers[t].Idle? ==> s.callers[t].a != b) && t in s'.callers
    requires s'.callers == s.callers[t := s'.callers[t]] && (b in s.heap ==> b in s'.heap)
    ensures Spinning(s', b)
  {
    var u :| u in s.callers && s.callers[u].AtSpin? && s.callers[u].a == b;
    assert u in s'.callers && s'.callers[u].AtSpin? && s'.callers[u].a == b;
  }

  lemma ReleaseKeeps(size: nat, s: State, t: nat)
    requires Inv(s) && Enabled(s, Release(t)) && Sound(size, s, Release(t))
    ensures Inv(Apply(size, s, Release(t)))
  {
    var s', a := Apply(size, s, Release(t)), s.callers[t].a;
    assert CallerOk(s, t);
    assert Pending(s') == Pending(s);
    assert forall i | 0 <= i < |Pending(s)| :: Pending(s)[i] != a;
    SameCalls(s.heap, s'.heap, Pending(s));
    forall u | u in s'.callers ensures CallerOk(s', u) {
      assert CallerOk(s, u);
    }
    forall b | Spinning(s, b) && b != a ensures Spinning(s', b) {
      SpinnerElsewhere(s, s', t, b);
    }
  }

  // ---- the worker's steps ----

  lemma SpinnerSame(s: State, s': State, b: nat)
    requires Spinning(s, b) && s'.callers == s.callers && (b in s.heap ==> b in s'.heap)
    ensures Spinning(s', b)
  {
  }

  lemma DequeueKeeps(size: nat, s: State)
    requires Inv(s) && Enabled(s, Dequeue)
    ensures Inv(Apply(size, s, Dequeue))
  {
    var s' := Apply(size, s, Dequeue);
    assert Pending(s') == Pending(s);
    forall u | u in s'.callers ensures CallerOk(s', u) {
      assert CallerOk(s, u);
    }
    forall b | Spinning(s, b) ensures Spinning(s', b) {
      SpinnerSame(s, s', b);
    }
  }

  lemma ExecuteOwners(size: nat, s: State)
    requires Inv(s) && Enabled(s, Execute) && Sound(size, s, Execute)
    ensures OwnersOk(Apply(size, s, Execute))
  {
    var s' := Apply(size, s, Execute);
    hide LogsOk;
    assert Pending(s) == [s.worker.a] + Pending(s');
    forall u | u in s'.callers ensures CallerOk(s', u) {
      assert CallerOk(s, u);
    }
    forall b | Spinning(s, b) ensures Spinning(s', b) {
      SpinnerSame(s, s', b);
    }
  }

  lemma ExecuteLogs(size: nat, s: State)
    requires Inv(s) && Enabled(s, Execute) && Sound(size, s, Execute)
    ensures LogsOk(Apply(size, s, Execute))
  {
    hide OwnersOk;
    var s' := Apply(size, s, Execute);
    assert Pending(s) == [s.worker.a] + Pending(s');
    assert forall i | 0 <= i < |Pending(s')| :: Pending(s')[i] == Pending(s)[i + 1];
    assert Calls(s.heap, Pending(s)) == [CallOf(s.heap[s.worker.a])] + Calls(s'.heap, Pending(s'));
  }

  lemma UnlockKeeps(size: nat, s: State)
    requires Inv(s) && Enabled(s, Unlock) && Sound(size, s, Unlock)
    ensures Inv(Apply(size, s, Unlock))
  {
    var s' := Apply(size, s, Unlock);
    assert Pending(s') == Pending(s);
    SameCalls(s.heap, s'.heap, Pending(s));
    forall u | u in s'.callers ensures CallerOk(s', u) {
      assert CallerOk(s, u);
    }
    forall b | Spinning(s, b) ensures Spinning(s', b) {
      SpinnerSame(s, s', b);
    }
  }

  // ---- soundness ----

  predicate Owner(s: State, t: nat, a: nat) { t in s.callers && s.callers[t].AtSpin? && s.callers[t].a == a }

  ghost predicate OwnedBy(s: State, ts: set<nat>, a: nat) { exists t: nat :: t in ts && Owner(s, t, a) }

  /** Blocks that distinct spinning callers own are no more than the callers. */
  lemma {:induction false} QueueFits(s: State, q: seq<nat>, ts: set<nat>)
    requires forall i, j | 0 <= i < j < |q| :: q[i] != q[j]
    requires forall i | 0 <= i < |q| :: OwnedBy(s, ts, q[i])
    ensures |q| <= |ts|
    decreases |q|
  {
    if q != [] {
      var n := |q| - 1;
      assert OwnedBy(s, ts, q[n]);
      var t: nat :| t in ts && Owner(s, t, q[n]);
      forall i | 0 <= i < n ensures OwnedBy(s, ts - {t}, q[..n][i]) {
        assert OwnedBy(s, ts, q[i]);
        var u: nat :| u in ts && Owner(s, u, q[i]);
        assert u in ts - {t} && Owner(s, u, q[..n][i]);
      }
      QueueFits(s, q[..n], ts - {t});
    }
  }

  /** A caller that is about to enqueue is not among the owners of queued blocks. */
  lemma QueueHasRoom(s: State, t: nat)
    requires OwnersOk(s) && t in s.callers && s.callers[t].AtEnqueue?
    ensures |s.queue| < |s.callers|
  {
    hide CallerOk;
    var others := s.callers.Keys - {t};
    forall i | 0 <= i < |s.queue| ensures OwnedBy(s, others, s.queue[i]) {
      assert Spinning(s, s.queue[i]);
      var u :| u in s.callers && s.callers[u].AtSpin? && s.callers[u].a == s.queue[i];
      assert u in others && Owner(s, u, s.queue[i]);
    }
    QueueFits(s, s.queue, others);
    assert |s.callers.Keys| == |s.callers|;
  }

  lemma StepIsSound(size: nat, s: State, step: Step)
    requires Inv(s) && Enabled(s, step) && |s.callers| <= size
    ensures Sound(size, s, step)
  {
    match step
    case Fill(t) => assert CallerOk(s, t);
    case Enqueue(t) => QueueHasRoom(s, t);
    case Acquire(t) => assert CallerOk(s, t);
    case Release(t) => assert CallerOk(s, t);
    case _ =>
  }

  lemma StepKeeps(size: nat, s: State, step: Step)
    requires Inv(s) && Enabled(s, step) && Sound(size, s, step)
    ensures Inv(Apply(size, s, step))
    ensures Apply(size, s, step).callers.Keys == s.callers.Keys
  {
    hide OwnersOk, LogsOk;
    match step
    case Begin(t, index, buffer, block, garbage) =>
      if block.Some? {
        BeginOwners(size, s, t, index, buffer, block.value, garbage);
        BeginLogs(size, s, t, index, buffer, block.value, garbage);
      }
    case Fill(t) => FillKeeps(size, s, t);
    case Enqueue(t) => EnqueueOwners(size, s, t); EnqueueLogs(size, s, t);
    case Acquire(t) => AcquireKeeps(size, s, t);
    case Release(t) => ReleaseKeeps(size, s, t);
    case Dequeue => DequeueKeeps(size, s);
    case Execute => ExecuteOwners(size, s); ExecuteLogs(size, s);
    case Unlock => UnlockKeeps(size, s);
  }

  // ---- runs ----

  ghost predicate Init(s: State) {
    && (forall t | t in s.callers :: s.callers[t].Idle?)
    && s.worker.Waiting? && s.queue == [] && s.heap == map[] && s.next == 0
    && s.sent == [] && s.executed == [] && s.returned == {}
  }

  /** The state after the steps, or None if a request found the queue full or a
      freed block was touched.  A step that cannot be taken waits. */
  ghost function Run(size: nat, s: State, steps: seq<Step>): Option<State>
    decreases |steps|
  {
    if steps == [] then Some(s)
    else if !Enabled(s, steps[0]) then Run(size, s, steps[1..])
    else if !Sound(size, s, steps[0]) then None
    else Run(size, Apply(size, s, steps[0]), steps[1..])
  }

  lemma {:induction false} RunKeeps(size: nat, s: State, steps: seq<Step>)
    requires Inv(s) && |s.callers.Keys| <= size
    ensures Run(size, s, steps).Some? && Inv(Run(size, s, steps).value)
    decreases |steps|
  {
    hide Inv, Enabled, Sound, Apply;
    if steps != [] {
      if Enabled(s, steps[0]) {
        assert |s.callers.Keys| == |s.callers|;
        StepIsSound(size, s, steps[0]);
        StepKeeps(size, s, steps[0]);
        RunKeeps(size, Apply(size, s, steps[0]), steps[1..]);
      } else {
        RunKeeps(size, s, steps[1..]);
      }
    }
  }

  lemma InitKeeps(s: State)
    requires Init(s)
    ensures Inv(s)
  {
  }

  /** With no more callers than the queue has places, in every interleaving the
      queue is never found full and no freed or unallocated block is touched. */
  lemma NeverAborts(size: nat, s: State, steps: seq<Step>)
    requires Init(s) && |s.callers.Keys| <= size
    ensures Run(size, s, steps).Some?
  {
    InitKeeps(s);
    RunKeeps(size, s, steps);
  }

  /** Requests are executed in the order in which they were enqueued, no call
      twice; and every call that has returned was executed, with the ocall index
      and buffer that its caller gave. */
  lemma ExactlyOnceInOrder(size: nat, s0: State, steps: seq<Step>, s: State)
    requires Init(s0) && |s0.callers.Keys| <= size && Run(size, s0, steps) == Some(s)
    ensures |s.executed| <= |s.sent| && s.executed == s.sent[..|s.executed|]
    ensures forall i, j | 0 <= i < j < |s.executed| :: s.executed[i].id != s.executed[j].id
    ensures forall k | k in s.returned :: k in s.executed
    ensures forall t | t in s.callers && s.callers[t].AtFree? :: s.callers[t].k in s.executed
  {
    InitKeeps(s0);
    RunKeeps(size, s0, steps);
    LogsAreOrdered(s);
  }

  lemma LogsAreOrdered(s: State)
    requires Inv(s)
    ensures |s.executed| <= |s.sent| && s.executed == s.sent[..|s.executed|]
    ensures forall i, j | 0 <= i < j < |s.executed| :: s.executed[i].id != s.executed[j].id
    ensures forall k | k in s.returned :: k in s.executed
    ensures forall t | t in s.callers && s.callers[t].AtFree? :: s.callers[t].k in s.executed
  {
    forall i | 0 <= i < |s.executed| ensures s.executed[i] == s.sent[i] {}
    forall t | t in s.callers && s.callers[t].AtFree? ensures s.callers[t].k in s.executed {
      assert CallerOk(s, t);
    }
  }

  /** No request is freed while it is queued or held by the worker. */
  lemma NoEarlyFree(size: nat, s0: State, steps: seq<Step>, s: State, t: nat)
    requires Init(s0) && |s0.callers.Keys| <= size && Run(size, s0, steps) == Some(s)
    requires t in s.callers && s.callers[t].AtFree?
    ensures s.callers[t].a !in s.queue && !InWorker(s, s.callers[t].a)
    ensures (forall i | 0 <= i < |s.queue| :: s.queue[i] in s.heap) && (!s.worker.Waiting? ==> s.worker.a in s.heap)
  {
    InitKeeps(s0);
    RunKeeps(size, s0, steps);
    assert CallerOk(s, t);
    assert forall i | 0 <= i < |s.queue| :: Spinning(s, s.queue[i]);
  }

  /** A caller that spins can stop at once, or the worker can move. */
  lemma NobodyWaitsForNothing(size: nat, s0: State, steps: seq<Step>, s: State, t: nat)
    requires Init(s0) && |s0.callers.Keys| <= size && Run(size, s0, steps) == Some(s)
    requires t in s.callers && s.callers[t].AtSpin?
    ensures Enabled(s, Acquire(t)) || Enabled(s, Dequeue) || Enabled(s, Execute) || Enabled(s, Unlock)
  {
    InitKeeps(s0);
    RunKeeps(size, s0, steps);
    assert CallerOk(s, t);
  }

  // ---- the bound is exact ----

  lemma {:induction false} RunAppend(size: nat, s: State, steps: seq<Step>, step: Step)
    requires Run(size, s, steps).Some? && Enabled(Run(size, s, steps).value, step)
    ensures var s1 := Run(size, s, steps).value;
            Run(size, s, steps + [step]) == if Sound(size, s1, step) then Some(Apply(size, s1, step)) else None
    decreases |steps|
  {
    hide Enabled, Sound, Apply;
    if steps == [] {
      assert steps + [step] == [step];
      assert [step][1..] == [];
    } else {
      assert (steps + [step])[1..] == steps[1..] + [step];
      if Enabled(s, steps[0]) {
        RunAppend(size, Apply(size, s, steps[0]), steps[1..], step);
      } else {
        RunAppend(size, s, steps[1..], step);
      }
    }
  }

  /** The callers of ts have enqueued their requests and the worker has not moved. */
  ghost predicate Filled(s: State, ts: set<nat>) {
    && ts <= s.callers.Keys && |s.queue| == |ts|
    && (forall t | t in s.callers :: if t in ts then s.callers[t].AtSpin? else s.callers[t].Idle?)
    && (forall a: nat :: a in s.heap <==> a < |ts|)
  }

  lemma OneMore(size: nat, s0: State, steps: seq<Step>, ts: set<nat>, t: nat) returns (more: seq<Step>)
    requires Run(size, s0, steps).Some? && Filled(Run(size, s0, steps).value, ts)
    requires t in Run(size, s0, steps).value.callers && t !in ts
    ensures |ts| < size ==> Run(size, s0, more).Some? && Filled(Run(size, s0, more).value, ts + {t})
    ensures |ts| < size ==> Run(size, s0, more).value.callers.Keys == Run(size, s0, steps).value.callers.Keys
    ensures |ts| >= size ==> Run(size, s0, more) == None
  {
    var s := Run(size, s0, steps).value;
    var begin := Begin(t, 0, 0, Some(|ts|), Request(0, 0, false, 0));
    RunAppend(size, s0, steps, begin);
    var s1 := Apply(size, s, begin);
    RunAppend(size, s0, steps + [begin], Fill(t));
    var s2 := Apply(size, s1, Fill(t));
    RunAppend(size, s0, steps + [begin] + [Fill(t)], Enqueue(t));
    more := steps + [begin] + [Fill(t)] + [Enqueue(t)];
  }

  lemma {:induction false} FillQueue(size: nat, s0: State, ts: set<nat>) returns (steps: seq<Step>)
    requires Init(s0) && ts <= s0.callers.Keys && |ts| <= size
    ensures Run(size, s0, steps).Some? && Filled(Run(size, s0, steps).value, ts)
    ensures Run(size, s0, steps).value.callers.Keys == s0.callers.Keys
    decreases |ts|
  {
    if t :| t in ts {
      var before := FillQueue(size, s0, ts - {t});
      steps := OneMore(size, s0, before, ts - {t}, t);
      assert ts - {t} + {t} == ts;
    } else {
      steps := [];
      assert ts == {};
    }
  }

  lemma SomeOutside(all: set<nat>, part: set<nat>) returns (x: nat)
    requires part <= all && |part| < |all|
    ensures x in all && x !in part
  {
    var rest := all - part;
    assert part + rest == all;
    x :| x in rest;
  }

  lemma {:induction false} SubsetOfSize(all: set<nat>, k: nat) returns (ts: set<nat>)
    requires k <= |all|
    ensures ts <= all && |ts| == k
    decreases k
  {
    if k == 0 {
      ts := {};
    } else {
      var rest := SubsetOfSize(all, k - 1);
      var x := SomeOutside(all, rest);
      ts := rest + {x};
    }
  }

  /** The queue is never found full in any run exactly when there are no more
      callers than it has places: one caller more can abort the program. */
  lemma NeverAbortsIff(size: nat, s0: State)
    requires Init(s0)
    ensures (forall steps :: Run(size, s0, steps).Some?) <==> |s0.callers.Keys| <= size
  {
    if |s0.callers.Keys| <= size {
      forall steps ensures Run(size, s0, steps).Some? {
        NeverAborts(size, s0, steps);
      }
    } else {
      var ts := SubsetOfSize(s0.callers.Keys, size);
      var t := SomeOutside(s0.callers.Keys, ts);
      var before := FillQueue(size, s0, ts);
      var steps := OneMore(size, s0, before, ts, t);
      assert Run(size, s0, steps) == None;
    }
  }
}
