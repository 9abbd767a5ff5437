// Which calls are executed and return, in terms of the steps of a run alone: the
// arguments of each call, and the order in which the callers enqueue.
module RpcOrigins {
  import opened Options
  import opened RpcMachine
  import opened RpcSafety

  /** What an observer of the callers writes down: the index and buffer of each
      call that got a block, in order; which call each caller is in; the calls in
      the order of their enqueue; and those that have returned. */
  datatype Record = Record(calls: seq<(int, int)>, mine: map<nat, nat>, order: seq<nat>, finished: set<nat>)

  function Noted(l: Record, step: Step): Record {
    match step
    case Begin(t, index, buffer, block, garbage) =>
      if block.None? then l else l.(calls := l.calls + [(index, buffer)], mine := l.mine[t := |l.calls|])
    case Enqueue(t) => if t in l.mine then l.(order := l.order + [l.mine[t]]) else l
    case Release(t) => if t in l.mine then l.(finished := l.finished + {l.mine[t]}) else l
    case _ => l
  }

  ghost function RecordOf(size: nat, s: State, steps: seq<Step>, l: Record): Record
    decreases |steps|
  {
    if steps == [] || (Enabled(s, steps[0]) && !Sound(size, s, steps[0])) then l
    else if !Enabled(s, steps[0]) then RecordOf(size, s, steps[1..], l)
    else RecordOf(size, Apply(size, s, steps[0]), steps[1..], Noted(l, steps[0]))
  }

  /** The call is number i of the record. */
  predicate IsCall(l: Record, i: nat, k: Call) {
    i < |l.calls| && k.id == i && k.index == l.calls[i].0 && k.buffer == l.calls[i].1
  }

  ghost predicate CallersAgree(s: State, l: Record) {
    forall t | t in s.callers && !s.callers[t].Idle? :: t in l.mine && IsCall(l, l.mine[t], s.callers[t].k)
  }

  ghost predicate SentAgrees(s: State, l: Record) {
    |s.sent| == |l.order| && forall i | 0 <= i < |s.sent| :: IsCall(l, l.order[i], s.sent[i])
  }

  ghost predicate ReturnedAgrees(s: State, l: Record) {
    && (forall k | k in s.returned :: k.id in l.finished && IsCall(l, k.id, k))
    && (forall i | i in l.finished :: exists k :: k in s.returned && k.id == i)
  }

  ghost predicate Agrees(s: State, l: Record) {
    |l.calls| == s.next && CallersAgree(s, l) && SentAgrees(s, l) && ReturnedAgrees(s, l)
  }

  lemma StepAgrees(size: nat, s: State, step: Step, l: Record)
    requires Enabled(s, step) && Sound(size, s, step) && Agrees(s, l)
    ensures Agrees(Apply(size, s, step), Noted(l, step))
  {
    var s', l' := Apply(size, s, step), Noted(l, step);
    assert CallersAgree(s', l');
    assert SentAgrees(s', l');
    forall i | i in l'.finished ensures exists k :: k in s'.returned && k.id == i {
      if i in l.finished {
        var k :| k in s.returned && k.id == i;
        assert k in s'.returned;
      } else {
        assert s.callers[step.t].k in s'.returned;
      }
    }
  }

  lemma {:induction false} RunAgrees(size: nat, s: State, steps: seq<Step>, l: Record)
    requires Inv(s) && |s.callers.Keys| <= size && Agrees(s, l)
    ensures Run(size, s, steps).Some? && Inv(Run(size, s, steps).value)
    ensures Agrees(Run(size, s, steps).value, RecordOf(size, s, steps, l))
    decreases |steps|
  {
    hide Inv, Agrees, Enabled, Sound, Apply, Noted;
    if steps != [] {
      if Enabled(s, steps[0]) {
        assert |s.callers.Keys| == |s.callers|;
        StepIsSound(size, s, steps[0]);
        StepKeeps(size, s, steps[0]);
        StepAgrees(size, s, steps[0], l);
        RunAgrees(size, Apply(size, s, steps[0]), steps[1..], Noted(l, steps[0]));
      } else {
        RunAgrees(size, s, steps[1..], l);
      }
    }
  }

  /** The worker executes the calls with the arguments that their callers gave, in
      the order in which the callers enqueued them.  The calls that have returned
      are those of the callers that have returned, each after it was executed. */
  lemma OwnArguments(size: nat, s0: State, steps: seq<Step>, s: State)
    requires Init(s0) && |s0.callers.Keys| <= size && Run(size, s0, steps) == Some(s)
    ensures var l := RecordOf(size, s0, steps, Record([], map[], [], {}));
            && |s.executed| <= |l.order| && (forall i | 0 <= i < |s.executed| :: IsCall(l, l.order[i], s.executed[i]))
            && (forall i | i in l.finished :: exists j :: 0 <= j < |s.executed| && l.order[j] == i)
            && (forall t | t in s.callers && s.callers[t].AtFree? ::
                  t in l.mine && exists j :: 0 <= j < |s.executed| && l.order[j] == l.mine[t])
  {
    InitKeeps(s0);
    var l := Record([], map[], [], {});
    RunAgrees(size, s0, steps, l);
    ExecutedAgrees(s, RecordOf(size, s0, steps, l));
  }

  lemma ExecutedAgrees(s: State, l: Record)
    requires Inv(s) && Agrees(s, l)
    ensures |s.executed| <= |l.order| && forall i | 0 <= i < |s.executed| :: IsCall(l, l.order[i], s.executed[i])
    ensures forall i | i in l.finished :: exists j :: 0 <= j < |s.executed| && l.order[j] == i
    ensures forall t | t in s.callers && s.callers[t].AtFree? ::
              t in l.mine && exists j :: 0 <= j < |s.executed| && l.order[j] == l.mine[t]
  {
    hide OwnersOk;
    LogsAreOrdered(s);
    assert forall i | 0 <= i < |s.executed| :: s.executed[i] == s.sent[i];
    forall i | i in l.finished ensures exists j :: 0 <= j < |s.executed| && l.order[j] == i {
      var k :| k in s.returned && k.id == i;
      var j :| 0 <= j < |s.executed| && s.executed[j] == k;
      assert IsCall(l, l.order[j], s.executed[j]);
    }
    forall t | t in s.callers && s.callers[t].AtFree?
      ensures t in l.mine && exists j :: 0 <= j < |s.executed| && l.order[j] == l.mine[t]
    {
      var j :| 0 <= j < |s.executed| && s.executed[j] == s.callers[t].k;
      assert IsCall(l, l.order[j], s.executed[j]);
    }
  }
}
