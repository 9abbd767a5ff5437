// The number of threads that the slack allows is exact: with one thread more
// there is a run in which the list of free frames is found empty.
module SuvmSlack {
  import opened Options
  import opened SuvmMachine
  import opened SuvmSafety

  /** The same machine; its steps do not ask how many threads there are. */
  function Unbound(c: Config): Config { c.(threads := {}) }

  lemma SameFault(c: Config, s: State, t: nat, nonce: int)
    requires Fit(c) && FaultEnabled(c, s, t)
    ensures Fit(Unbound(c)) && FaultEnabled(Unbound(c), s, t) && FaultSound(Unbound(c), s, t) == FaultSound(c, s, t)
    ensures FaultSound(c, s, t) ==> FaultStep(Unbound(c), s, t, nonce) == FaultStep(c, s, t, nonce)
  {
  }

  lemma SameEnabled(c: Config, s: State, step: Step)
    requires Fit(c)
    ensures Fit(Unbound(c)) && Enabled(Unbound(c), s, step) == Enabled(c, s, step)
  {
  }

  lemma SameStep(c: Config, s: State, step: Step)
    requires Fit(c)
    ensures Fit(Unbound(c)) && Enabled(Unbound(c), s, step) == Enabled(c, s, step)
    ensures Enabled(c, s, step) ==> Sound(Unbound(c), s, step) == Sound(c, s, step)
    ensures Enabled(c, s, step) && Sound(c, s, step) ==> Apply(Unbound(c), s, step) == Apply(c, s, step)
  {
    SameEnabled(c, s, step);
    if step.Fault? && Enabled(c, s, step) {
      SameFault(c, s, step.t, step.nonce);
    }
    hide Fit, FaultEnabled, FaultSound, FaultStep;
  }

  lemma {:induction false} SameRun(c: Config, s: State, steps: seq<Step>)
    requires Fit(c)
    ensures Fit(Unbound(c)) && Run(Unbound(c), s, steps) == Run(c, s, steps)
    decreases |steps|
  {
    hide Enabled, Sound, Apply;
    if steps != [] {
      SameStep(c, s, steps[0]);
      if !Enabled(c, s, steps[0]) {
        SameRun(c, s, steps[1..]);
      } else if Sound(c, s, steps[0]) {
        SameRun(c, Apply(c, s, steps[0]), steps[1..]);
      }
    }
  }

  /** The step can be taken, no assertion fails, and it leads to r. */
  ghost predicate Takes(c: Config, s: State, step: Step, r: State)
    requires Fit(c)
  {
    Enabled(c, s, step) && Sound(c, s, step) && Apply(c, s, step) == r
  }

  /** One step more. */
  lemma {:induction false} RunOn(c: Config, s: State, steps: seq<Step>, step: Step)
    requires Fit(c) && Run(c, s, steps).Some? && Enabled(c, Run(c, s, steps).value, step)
    ensures var s1 := Run(c, s, steps).value;
            Run(c, s, steps + [step]) == if Sound(c, s1, step) then Some(Apply(c, s1, step)) else None
    decreases |steps|
  {
    hide Enabled, Sound, Apply;
    if steps == [] {
      assert steps + [step] == [step] && [step][1..] == [];
    } else {
      assert (steps + [step])[0] == steps[0] && (steps + [step])[1..] == steps[1..] + [step];
      RunOn(c, if Enabled(c, s, steps[0]) then Apply(c, s, steps[0]) else s, steps[1..], step);
    }
  }

  lemma RunTakes(c: Config, s: State, steps: seq<Step>, r: State, step: Step, r': State)
    requires Fit(c) && Run(c, s, steps) == Some(r) && Takes(c, r, step, r')
    ensures Run(c, s, steps + [step]) == Some(r')
  {
    hide Enabled, Sound, Apply, Run;
    RunOn(c, s, steps, step);
  }

  /** k pages, the first ones of the store, are cached, and the threads of busy
      have each taken a frame for one of the next pages. */
  ghost predicate Stage(c: Config, s: State, k: nat, busy: set<nat>) {
    && s.lock == map[] && s.crypto == map[] && s.size == k == |s.queue|
    && (forall p | p in s.cache :: 0 <= p < k)
    && |s.free| + k + |busy| == c.cap
    && (forall i | 0 <= i < |s.free| :: s.free[i] in s.frames && !s.frames[s.free[i]].dirty)
    && busy <= s.threads.Keys && (forall t | t in s.threads && t !in busy :: s.threads[t].pc.Idle?)
    && (forall p | 0 <= p < c.npages :: p in s.refc)
    && (forall a | a in s.aptrs :: a < k + |busy| && PageOf(s.aptrs[a]) < k + |busy|)
  }

  /** The state in which the thread, with its Aptr on page p, is at pc. */
  function At(s: State, t: nat, p: nat, pc: Pc, pin: bool): State
    requires t in s.threads
  {
    s.(aptrs := s.aptrs[p := Aptr(t, p, 0, 0, false, None, pin, false)], threads := s.threads[t := Thread(pc, p, p)])
  }

  lemma NewPage(c: Config, p: nat, t: nat)
    requires c.pageSize > 0
    ensures NewAptr(c, t, p * c.pageSize) == Aptr(t, p, -1, c.pageSize, false, None, false, false)
    ensures Shifted(c, NewAptr(c, t, p * c.pageSize)) == Aptr(t, p, 0, 0, false, None, false, false)
  {
    SplitAddress(c.pageSize, p, 0, p * c.pageSize / c.pageSize, p * c.pageSize % c.pageSize);
    SplitAddress(c.pageSize, 1, 0, c.pageSize / c.pageSize, c.pageSize % c.pageSize);
  }

  lemma Begins(c: Config, s: State, k: nat, busy: set<nat>, t: nat)
    requires Fit(c) && Stage(c, s, k, busy) && t in s.threads && t !in busy && k + |busy| < c.npages
    ensures var p := k + |busy|;
            var s1 := s.(aptrs := s.aptrs[p := NewAptr(c, t, p * c.pageSize)]);
            && Takes(c, s, Construct(t, p, p * c.pageSize), s1)
            && Takes(c, s1, BeginFault(t, p), At(s, t, p, AtInc, false))
  {
    NewPage(c, k + |busy|, t);
  }

  lemma CountStep(c: Config, s: State, t: nat, p: nat)
    requires Fit(c) && t in s.threads && s.threads[t] == Thread(AtInc, p, p) && s.lock == map[] && p in s.refc
    requires p in s.aptrs && Pins(s, p) == {}
    ensures Takes(c, s, Fault(t, 0), Increment(s, t))
  {
  }

  lemma MissStep(c: Config, s: State, t: nat, p: nat)
    requires Fit(c) && t in s.threads && s.threads[t] == Thread(AtGet, p, p) && s.lock == map[]
    requires p in s.aptrs && p !in s.cache
    ensures Takes(c, s, Fault(t, 0), SetPc(s, t, AtTest))
  {
  }

  lemma TestStep(c: Config, s: State, t: nat, p: nat)
    requires Fit(c) && t in s.threads && s.threads[t] == Thread(AtTest, p, p) && p in s.aptrs
    requires s.size < c.cap - c.slack
    ensures Takes(c, s, Fault(t, 0), SetPc(s, t, AtPop))
  {
  }

  lemma NotPinned(s: State, t: nat, p: nat, pc: Pc)
    requires t in s.threads && forall a | a in s.aptrs :: PageOf(s.aptrs[a]) < p
    ensures Pins(At(s, t, p, pc, false), p) == {}
  {
  }

  /** From its count to the point where it is about to take a frame. */
  lemma Misses(c: Config, s: State, t: nat, p: nat)
    returns (s1: State, s2: State, r: State)
    requires Fit(c) && t in s.threads && s.threads[t] == Thread(AtInc, p, p) && s.lock == map[] && p in s.refc
    requires p in s.aptrs && s.aptrs[p].link == None && Pins(s, p) == {} && p !in s.cache && s.size < c.cap - c.slack
    ensures Takes(c, s, Fault(t, 0), s1) && Takes(c, s1, Fault(t, 0), s2) && Takes(c, s2, Fault(t, 0), r)
    ensures r == SetPc(s, t, AtPop).(aptrs := s.aptrs[p := s.aptrs[p].(pin := true)], refc := r.refc)
    ensures r.refc.Keys == s.refc.Keys
  {
    hide Takes, Pins;
    CountStep(c, s, t, p);
    s1 := Increment(s, t);
    MissStep(c, s1, t, p);
    s2 := SetPc(s1, t, AtTest);
    TestStep(c, s2, t, p);
    r := SetPc(s2, t, AtPop);
  }

  lemma RunThrice(c: Config, s0: State, before: seq<Step>, s: State, x: Step, s1: State, s2: State, r: State)
    returns (steps: seq<Step>)
    requires Fit(c) && Run(c, s0, before) == Some(s) && Takes(c, s, x, s1) && Takes(c, s1, x, s2) && Takes(c, s2, x, r)
    ensures Run(c, s0, steps) == Some(r)
  {
    hide Takes, Run;
    RunTakes(c, s0, before, s, x, s1);
    RunTakes(c, s0, before + [x], s1, x, s2);
    RunTakes(c, s0, before + [x] + [x], s2, x, r);
    steps := before + [x] + [x] + [x];
  }

  /** What the steps of a fault on the next page need. */
  lemma StageFacts(c: Config, s: State, k: nat, busy: set<nat>)
    requires Stage(c, s, k, busy) && k + |busy| < c.npages
    ensures s.lock == map[] && s.crypto == map[] && s.size == k == |s.queue|
    ensures k + |busy| in s.refc && k + |busy| !in s.cache && k + |busy| !in s.aptrs
  {
  }

  lemma StageFrame(c: Config, s: State, k: nat, busy: set<nat>)
    requires Stage(c, s, k, busy)
    ensures |s.free| + k + |busy| == c.cap
    ensures s.free != [] ==> s.free[|s.free| - 1] in s.frames && !s.frames[s.free[|s.free| - 1]].dirty
  {
  }

  /** A thread makes an Aptr to the first byte of the next page and faults on it. */
  lemma Aims(c: Config, s0: State, before: seq<Step>, s: State, k: nat, busy: set<nat>, t: nat)
    returns (steps: seq<Step>)
    requires Fit(c) && Run(c, s0, before) == Some(s)
    requires Stage(c, s, k, busy) && t in s.threads && t !in busy && k + |busy| < c.npages
    ensures Run(c, s0, steps) == Some(At(s, t, k + |busy|, AtInc, false))
    ensures Pins(At(s, t, k + |busy|, AtInc, false), k + |busy|) == {}
  {
    hide Takes, Run, NewAptr, Pins;
    var p := k + |busy|;
    var s1 := s.(aptrs := s.aptrs[p := NewAptr(c, t, p * c.pageSize)]);
    var s2 := At(s, t, p, AtInc, false);
    Begins(c, s, k, busy, t);
    NotPinned(s, t, p, AtInc);
    RunTakes(c, s0, before, s, Construct(t, p, p * c.pageSize), s1);
    RunTakes(c, s0, before + [Construct(t, p, p * c.pageSize)], s1, BeginFault(t, p), s2);
    steps := before + [Construct(t, p, p * c.pageSize)] + [BeginFault(t, p)];
  }

  /** Up to the point where it is about to take a frame. */
  lemma Opens(c: Config, s0: State, before: seq<Step>, s: State, k: nat, busy: set<nat>, t: nat)
    returns (steps: seq<Step>, r: State)
    requires Fit(c) && Run(c, s0, before) == Some(s)
    requires Stage(c, s, k, busy) && t in s.threads && t !in busy && k < c.cap - c.slack && k + |busy| < c.npages
    ensures Run(c, s0, steps) == Some(r)
    ensures r == At(s, t, k + |busy|, AtPop, true).(refc := r.refc) && r.refc.Keys == s.refc.Keys
  {
    hide Takes, Run, Pins, Fit, Stage;
    var p := k + |busy|;
    StageFacts(c, s, k, busy);
    var aimed := Aims(c, s0, before, s, k, busy, t);
    var s2 := At(s, t, p, AtInc, false);
    var s3, s4;
    s3, s4, r := Misses(c, s2, t, p);
    steps := RunThrice(c, s0, aimed, s2, Fault(t, 0), s3, s4, r);
  }

  // ---- from there on ----

  lemma PopStep(c: Config, s: State, t: nat, p: nat)
    requires Fit(c) && t in s.threads && s.threads[t] == Thread(AtPop, p, p) && p in s.aptrs
    ensures Enabled(c, s, Fault(t, 0)) && (Sound(c, s, Fault(t, 0)) <==> s.free != [])
    ensures s.free != [] ==> Takes(c, s, Fault(t, 0), Pop(s, t))
  {
  }

  /** One thread more has taken a frame. */
  lemma Holds(c: Config, s0: State, before: seq<Step>, s: State, k: nat, busy: set<nat>, t: nat)
    returns (steps: seq<Step>, r: State)
    requires Fit(c) && Run(c, s0, before) == Some(s)
    requires Stage(c, s, k, busy) && t in s.threads && t !in busy && k < c.cap - c.slack && k + |busy| < c.npages
    ensures s.free == [] ==> Run(c, s0, steps) == None
    ensures s.free != [] ==>
      Run(c, s0, steps) == Some(r) && Stage(c, r, k, busy + {t}) && r.threads.Keys == s.threads.Keys
  {
    hide Takes, Run, Enabled, Sound, Apply, Fit;
    var s1;
    steps, s1 := Opens(c, s0, before, s, k, busy, t);
    PopStep(c, s1, t, k + |busy|);
    RunOn(c, s0, steps, Fault(t, 0));
    if s.free != [] {
      r := Pop(s1, t);
      RunTakes(c, s0, steps, s1, Fault(t, 0), r);
    } else {
      r := s;
    }
    steps := steps + [Fault(t, 0)];
  }

  lemma LoadStep(c: Config, s: State, t: nat, p: nat, f: nat)
    requires Fit(c) && t in s.threads && s.threads[t] == Thread(AtLoad(f), p, p) && p in s.aptrs
    requires s.crypto == map[] && f in s.frames && !s.frames[f].dirty
    ensures Takes(c, s, Fault(t, 0), SetPc(s, t, AtAdd(f)))
  {
  }

  lemma AddStep(c: Config, s: State, t: nat, p: nat, f: nat)
    requires Fit(c) && t in s.threads && s.threads[t] == Thread(AtAdd(f), p, p) && p in s.aptrs
    requires s.lock == map[] && p !in s.cache
    ensures Takes(c, s, Fault(t, 0), Add(c, s, t, f))
  {
  }

  lemma CountedStep(c: Config, s: State, t: nat, p: nat, f: nat)
    requires Fit(c) && t in s.threads && s.threads[t] == Thread(AtCount(f), p, p) && p in s.aptrs
    ensures Takes(c, s, Fault(t, 0), Count(s, t, f))
  {
  }

  lemma EnqueueStep(c: Config, s: State, t: nat, p: nat, f: nat)
    requires Fit(c) && t in s.threads && s.threads[t] == Thread(AtEnqueue(f), p, p) && p in s.aptrs
    requires |s.queue| < c.cap
    ensures Takes(c, s, Fault(t, 0), Enqueue(c, s, t, f))
  {
  }

  /** One page more is cached. */
  lemma Fills(c: Config, s0: State, before: seq<Step>, s: State, k: nat, t: nat)
    returns (steps: seq<Step>, r: State)
    requires Fit(c) && Run(c, s0, before) == Some(s)
    requires Stage(c, s, k, {}) && t in s.threads && k < c.cap - c.slack && k < c.npages
    ensures Run(c, s0, steps) == Some(r) && Stage(c, r, k + 1, {}) && r.threads.Keys == s.threads.Keys
  {
    hide Takes, Run, Enabled, Sound, Apply, Fit, Stage;
    StageFacts(c, s, k, {});
    StageFrame(c, s, k, {});
    var s1;
    steps, s1 := Opens(c, s0, before, s, k, {}, t);
    PopStep(c, s1, t, k);
    var s2 := Pop(s1, t);
    RunTakes(c, s0, steps, s1, Fault(t, 0), s2);
    steps := steps + [Fault(t, 0)];
    steps, r := Keeps(c, s0, steps, s2, t, k, s2.threads[t].pc.f);
    StageOn(c, s, s1, s2, r, t, k);
  }

  /** The rest of the fault, when no other thread has added the page. */
  lemma Keeps(c: Config, s0: State, before: seq<Step>, s: State, t: nat, p: nat, f: nat)
    returns (steps: seq<Step>, r: State)
    requires Fit(c) && Run(c, s0, before) == Some(s)
    requires t in s.threads && s.threads[t] == Thread(AtLoad(f), p, p) && p in s.aptrs
    requires s.crypto == map[] && s.lock == map[] && f in s.frames && !s.frames[f].dirty && p !in s.cache
    requires |s.queue| < c.cap
    ensures Run(c, s0, steps) == Some(r)
    ensures r == s.(threads := s.threads[t := Thread(Idle, p, p)], aptrs := r.aptrs, cache := s.cache[p := f],
                    size := s.size + 1, queue := s.queue + [p], own := r.own, loc := r.loc)
    ensures r.aptrs == s.aptrs[p := s.aptrs[p].(link := Some(f))]
  {
    hide Takes, Run, Enabled, Sound, Apply;
    LoadStep(c, s, t, p, f);
    var s1 := SetPc(s, t, AtAdd(f));
    RunTakes(c, s0, before, s, Fault(t, 0), s1);
    AddStep(c, s1, t, p, f);
    var s2 := Add(c, s1, t, f);
    RunTakes(c, s0, before + [Fault(t, 0)], s1, Fault(t, 0), s2);
    CountedStep(c, s2, t, p, f);
    var s3 := Count(s2, t, f);
    RunTakes(c, s0, before + [Fault(t, 0)] + [Fault(t, 0)], s2, Fault(t, 0), s3);
    EnqueueStep(c, s3, t, p, f);
    r := Enqueue(c, s3, t, f);
    steps := before + [Fault(t, 0)] + [Fault(t, 0)] + [Fault(t, 0)];
    RunTakes(c, s0, steps, s3, Fault(t, 0), r);
    steps := steps + [Fault(t, 0)];
  }

  lemma StageOn(c: Config, s: State, s1: State, s2: State, r: State, t: nat, k: nat)
    requires Stage(c, s, k, {}) && t in s.threads && s.free != []
    requires s1 == At(s, t, k, AtPop, true).(refc := s1.refc) && s1.refc.Keys == s.refc.Keys && s2 == Pop(s1, t)
    requires r == s2.(threads := s2.threads[t := Thread(Idle, k, k)], aptrs := r.aptrs, cache := r.cache,
                      size := s2.size + 1, queue := s2.queue + [k], own := r.own, loc := r.loc)
    requires r.cache.Keys == s2.cache.Keys + {k as int}
    requires k in r.aptrs && r.aptrs == s2.aptrs[k := r.aptrs[k]] && PageOf(r.aptrs[k]) == k
    ensures Stage(c, r, k + 1, {})
  {
  }

  // ---- the bound ----

  lemma StartStage(c: Config, s0: State)
    requires Init(c, s0)
    ensures Stage(c, s0, 0, {})
  {
  }

  lemma {:induction false} FillTo(c: Config, s0: State, t: nat, k: nat) returns (steps: seq<Step>, s: State)
    requires Fit(c) && Stage(c, s0, 0, {}) && t in s0.threads && k <= c.cap - c.slack && k <= c.npages
    ensures Run(c, s0, steps) == Some(s) && Stage(c, s, k, {}) && s.threads.Keys == s0.threads.Keys
    decreases k
  {
    hide Stage, Run, Fit;
    if k == 0 {
      steps, s := [], s0;
      RunEnds(c, s0);
    } else {
      var before, s1 := FillTo(c, s0, t, k - 1);
      steps, s := Fills(c, s0, before, s1, k - 1, t);
    }
  }

  lemma RunEnds(c: Config, s: State)
    requires Fit(c)
    ensures Run(c, s, []) == Some(s)
  {
  }

  /** The threads of busy have each taken a frame. */
  lemma {:induction false} HoldAll(c: Config, s0: State, before: seq<Step>, s: State, k: nat, busy: set<nat>)
    returns (steps: seq<Step>, r: State)
    requires Fit(c) && Run(c, s0, before) == Some(s) && Stage(c, s, k, {}) && busy <= s.threads.Keys
    requires k < c.cap - c.slack && k + |busy| <= c.cap < c.npages
    ensures Run(c, s0, steps) == Some(r) && Stage(c, r, k, busy) && r.threads.Keys == s.threads.Keys
    decreases |busy|
  {
    hide Run, Fit;
    if t :| t in busy {
      var ss, s1 := HoldAll(c, s0, before, s, k, busy - {t});
      steps, r := Holds(c, s0, ss, s1, k, busy - {t}, t);
      assert busy - {t} + {t} == busy;
    } else {
      steps, r := before, s;
      assert busy == {};
    }
  }

  lemma {:induction false} Choose(all: set<nat>, k: nat) returns (some: set<nat>)
    requires k <= |all|
    ensures some <= all && |some| == k
    decreases |all|
  {
    if k == |all| {
      some := all;
    } else {
      var x :| x in all;
      some := Choose(all - {x}, k);
    }
  }

  lemma TooMany(c: Config, s0: State) returns (steps: seq<Step>)
    requires Fit(c) && Stage(c, s0, 0, {}) && c.slack < c.cap < c.npages && |s0.threads.Keys| > c.slack + 1
    ensures Run(c, s0, steps) == None
  {
    hide Run, Fit, Stage;
    var t :| t in s0.threads.Keys;
    var k := c.cap - c.slack - 1;
    var before, s := FillTo(c, s0, t, k);
    var busy := Choose(s0.threads.Keys, c.slack + 1);
    var held, s1 := HoldAll(c, s0, before, s, k, busy);
    NoneFree(c, s1, k, busy);
    var rest := s0.threads.Keys - busy;
    assert busy + rest == s0.threads.Keys;
    var u :| u in rest;
    var s2;
    steps, s2 := Holds(c, s0, held, s1, k, busy, u);
  }

  lemma NoneFree(c: Config, s: State, k: nat, busy: set<nat>)
    requires Stage(c, s, k, busy) && k + |busy| == c.cap
    ensures s.free == []
  {
  }

  /** With a cache that holds the slack and a frame for each thread, and a larger
      store, no assertion fails in any run exactly when there are at most slack + 1
      threads: one more, and the list of free frames can be found empty. */
  lemma SlackIsExact(c: Config, s0: State)
    requires Fit(Unbound(c)) && Init(c, s0) && c.slack + |c.threads| <= c.cap < c.npages
    ensures (forall steps :: Run(Unbound(c), s0, steps).Some?) <==> |c.threads| <= c.slack + 1
  {
    hide Run, Stage;
    if |c.threads| <= c.slack + 1 {
      forall steps ensures Run(Unbound(c), s0, steps).Some? {
        SameRun(c, s0, steps);
        NoAssertionFails(c, s0, steps);
      }
    } else {
      StartStage(c, s0);
      SameStage(c, s0);
      var steps := TooMany(Unbound(c), s0);
      assert !Run(Unbound(c), s0, steps).Some?;
    }
  }

  lemma SameStage(c: Config, s: State)
    requires Stage(c, s, 0, {})
    ensures Stage(Unbound(c), s, 0, {})
  {
  }
}
