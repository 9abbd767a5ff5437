// The paging protocol when one thread faults and the others are idle: it never
// waits, the eviction loop ends, and the queue is rotated.
module SuvmAlone {
  import opened Options
  import opened PageCacheModel
  import opened SuvmMachine
  import opened SuvmSteps
  import opened SuvmInvariant
  import opened SuvmEviction
  import opened SuvmLoading
  import opened SuvmAptrs
  import opened SuvmSafety

  // ---- runs ----

  /** Some run leads from s to s'. */
  ghost predicate Reaches(c: Config, s: State, s': State)
    requires Fit(c)
  {
    exists steps :: Run(c, s, steps) == Some(s')
  }

  lemma {:induction false} RunAppend(c: Config, s: State, steps: seq<Step>, step: Step)
    requires Fit(c) && Run(c, s, steps).Some?
    requires Enabled(c, Run(c, s, steps).value, step) && Sound(c, Run(c, s, steps).value, step)
    ensures Run(c, s, steps + [step]) == Some(Apply(c, Run(c, s, steps).value, step))
    decreases |steps|
  {
    hide Fit, Enabled, Sound, Apply;
    if steps == [] {
      assert steps + [step] == [step];
      assert Run(c, Apply(c, s, step), [step][1..]) == Some(Apply(c, s, step));
    } else {
      assert (steps + [step])[1..] == steps[1..] + [step];
      if Enabled(c, s, steps[0]) {
        RunAppend(c, Apply(c, s, steps[0]), steps[1..], step);
      } else {
        RunAppend(c, s, steps[1..], step);
      }
    }
  }

  lemma ReachesNothing(c: Config, s: State)
    requires Fit(c)
    ensures Reaches(c, s, s)
  {
    assert Run(c, s, []) == Some(s);
  }

  lemma ReachesStep(c: Config, s: State, s': State, step: Step)
    requires Fit(c) && Reaches(c, s, s') && Enabled(c, s', step) && Sound(c, s', step)
    ensures Reaches(c, s, Apply(c, s', step))
  {
    hide Fit, Enabled, Sound, Apply, Run;
    var steps :| Run(c, s, steps) == Some(s');
    RunAppend(c, s, steps, step);
  }

  // ---- no waiting ----

  ghost predicate Alone(s: State, t: nat) {
    t in s.threads && forall u | u in s.threads && u != t :: s.threads[u].pc.Idle?
  }

  lemma AloneHoldsNoLock(c: Config, s: State, t: nat)
    requires Fit(c) && Inv(c, s) && Alone(s, t) && LockedPage(s.threads[t]) == None
    ensures s.lock == map[]
  {
    hide Contents, PlacesOk, FramesOk, CountsOk;
    assert forall b :: b !in s.lock;
  }

  // ---- a page to evict ----

  predicate OnPage(s: State, i: nat, p: int) { i in s.aptrs && PageOf(s.aptrs[i]) == p }

  /** Pages that each have some Aptr of ids on them are no more than ids. */
  lemma {:induction false} PinnedPages(s: State, pages: set<int>, ids: set<nat>)
    requires forall p | p in pages :: exists i: nat :: i in ids && OnPage(s, i, p)
    ensures |pages| <= |ids|
  {
    if p :| p in pages {
      assert exists i: nat :: i in ids && OnPage(s, i, p);
      var i: nat :| i in ids && OnPage(s, i, p);
      forall q | q in pages - {p} ensures exists j: nat :: j in ids - {i} && OnPage(s, j, q) {
        var j: nat :| j in ids && OnPage(s, j, q);
        assert j in ids - {i};
      }
      PinnedPages(s, pages - {p}, ids - {i});
    } else {
      assert pages == {};
    }
  }

  lemma FullyPinned(c: Config, s: State, a: nat)
    requires Contents(c, s) && a in s.aptrs && !s.aptrs[a].pin
    requires forall p | p in s.cache :: p in s.refc ==> s.refc[p] != 0
    ensures |s.cache| <= |s.aptrs| - 1
  {
    var ids := s.aptrs.Keys - {a};
    forall p | p in s.cache.Keys ensures exists i: nat :: i in ids && OnPage(s, i, p) {
      CachedPinned(c, s, p);
      var i :| i in Pins(s, p);
      assert i in ids && OnPage(s, i, p);
    }
    hide Contents;
    PinnedPages(s, s.cache.Keys, ids);
    assert |s.cache.Keys| == |s.cache| && |s.aptrs.Keys| == |s.aptrs|;
  }

  /** A fault on page p needs no frame, or needs no eviction, or finds a page to evict. */
  ghost predicate HasRoom(c: Config, s: State, p: int) {
    p in s.cache || s.size < c.cap - c.slack || exists q :: q in s.cache && q in s.refc && s.refc[q] == 0
  }

  /** The fault of Aptr a, made by t alone, will find a page to evict if it needs one. */
  ghost predicate CanFault(c: Config, s: State, t: nat, a: nat)
    requires Fit(c) && a in s.aptrs
  {
    HasRoom(c, Begun(c, s, t, a), PageOf(Shifted(c, s.aptrs[a])))
  }

  lemma BegunKeeps(c: Config, s: State, t: nat, a: nat)
    requires Fit(c) && a in s.aptrs && Enabled(c, s, BeginFault(t, a))
    requires Inv(c, s)
    ensures Inv(c, Begun(c, s, t, a)) && Reaches(c, s, Begun(c, s, t, a))
  {
    hide Inv, Reaches, Fit;
    BeginKeeps(c, s, t, a);
    ReachesNothing(c, s);
    ReachesStep(c, s, s, BeginFault(t, a));
  }

  /** It always will when there are no more Aptrs than cap - slack. */
  lemma RoomSuffices(c: Config, s: State, t: nat, a: nat)
    requires Fit(c) && a in s.aptrs && Alone(s, t) && Enabled(c, s, BeginFault(t, a)) && |s.aptrs| <= c.cap - c.slack
    requires Inv(c, s)
    ensures CanFault(c, s, t, a)
  {
    hide Contents, LocksOk, FramesOk, PlacesOk, CountsOk;
    var s' := Begun(c, s, t, a);
    BegunKeeps(c, s, t, a);
    AllQueued(c, s, t);
    CachedCounted(c, s');
    assert s'.aptrs.Keys == s.aptrs.Keys;
    assert |s'.aptrs| == |s'.aptrs.Keys| && |s.aptrs| == |s.aptrs.Keys|;
    if forall q | q in s'.cache :: s'.refc[q] != 0 {
      FullyPinned(c, s', a);
    }
  }

  lemma CachedCounted(c: Config, s: State)
    requires Contents(c, s)
    ensures forall p | p in s.cache :: p in s.refc
  {
  }

  lemma CachedPinned(c: Config, s: State, p: int)
    requires Contents(c, s) && p in s.cache && (p in s.refc ==> s.refc[p] != 0)
    ensures Pins(s, p) != {}
  {
  }

  /** Alone and not evicting, a thread sees every cached page on the queue. */
  lemma AllQueued(c: Config, s: State, t: nat)
    requires Fit(c) && Inv(c, s) && Alone(s, t) && PageInHand(s.threads[t]) == None && !HoldsPage(s.threads[t].pc)
    ensures forall p | p in s.cache :: p in s.queue
    ensures forall p | p in s.queue :: p in s.cache
    ensures |s.cache| == |s.queue| == s.size
  {
    hide Contents, LocksOk, FramesOk;
    NoneWith(s.threads, HoldsPage);
    forall p | p in s.loc ensures p in s.queue {
      assert s.loc[p].Queued?;
    }
    DistinctSize(s.queue);
    assert forall p | p in s.queue :: p in s.loc.Keys;
    assert Set(s.queue) == s.loc.Keys;
    assert |s.cache| == |s.cache.Keys|;
  }

  // ---- one thread's steps in a row ----

  lemma {:induction false} RunConcat(c: Config, s: State, xs: seq<Step>, ys: seq<Step>)
    requires Fit(c) && Run(c, s, xs).Some?
    ensures Run(c, s, xs + ys) == Run(c, Run(c, s, xs).value, ys)
    decreases |xs|
  {
    hide Fit, Enabled, Sound, Apply;
    if xs == [] {
      assert xs + ys == ys;
    } else {
      assert (xs + ys)[1..] == xs[1..] + ys;
      if Enabled(c, s, xs[0]) {
        RunConcat(c, Apply(c, s, xs[0]), xs[1..], ys);
      } else {
        RunConcat(c, s, xs[1..], ys);
      }
    }
  }

  lemma ReachesOn(c: Config, s: State, s': State, s'': State)
    requires Fit(c) && Reaches(c, s, s') && Reaches(c, s', s'')
    ensures Reaches(c, s, s'')
  {
    hide Fit, Run;
    var xs :| Run(c, s, xs) == Some(s');
    var ys :| Run(c, s', ys) == Some(s'');
    RunConcat(c, s, xs, ys);
  }

  /** From s a run leads to s', in which only thread t and its Aptr a have
      moved on and no byte has been written. */
  ghost predicate Onward(c: Config, s: State, s': State, t: nat)
    requires Fit(c) && t in s.threads
  {
    && Inv(c, s') && Reaches(c, s, s') && s'.mem == s.mem && s'.aptrs.Keys == s.aptrs.Keys
    && t in s'.threads && s'.threads == s.threads[t := s.threads[t].(pc := s'.threads[t].pc)]
    && (forall b | b in s.aptrs && b != s.threads[t].a :: s'.aptrs[b] == s.aptrs[b])
    && (s.threads[t].a in s.aptrs ==> SamePlace(s.aptrs[s.threads[t].a], s'.aptrs[s.threads[t].a]))
  }

  lemma OnwardFrom(c: Config, s: State, t: nat)
    requires Fit(c) && Inv(c, s) && t in s.threads
    ensures Onward(c, s, s, t)
  {
    hide Inv, Reaches;
    ReachesNothing(c, s);
  }

  lemma OnwardOn(c: Config, s: State, s': State, s'': State, t: nat)
    requires Fit(c) && t in s.threads && Onward(c, s, s', t) && t in s'.threads && Onward(c, s', s'', t)
    ensures Onward(c, s, s'', t)
  {
    hide Inv, Reaches;
    ReachesOn(c, s, s', s'');
  }

  /** A fault step of t that can be taken does not fail and leads onward. */
  lemma Advance(c: Config, s: State, t: nat, nonce: int)
    requires Fit(c) && Inv(c, s) && FaultEnabled(c, s, t)
    ensures FaultSound(c, s, t) && Onward(c, s, FaultStep(c, s, t, nonce), t)
  {
    hide Inv, FaultSound, FaultStep, Reaches;
    FaultIsSound(c, s, t);
    FaultKeeps(c, s, t, nonce);
    ReachesNothing(c, s);
    ReachesStep(c, s, s, Fault(t, nonce));
    assert t in s.threads;
    hide FaultEnabled;
  }

  lemma IncrementOnward(c: Config, s: State, t: nat)
    requires Fit(c) && Inv(c, s) && t in s.threads && s.threads[t].a in s.aptrs && s.threads[t].pc.AtInc? &&
             LockFree(c, s, s.threads[t].p) && |Pins(s, s.threads[t].p)| < 255
    ensures s.threads[t].p in s.refc && Onward(c, s, Increment(s, t), t)
  {
    hide Inv, Onward;
    Advance(c, s, t, 0);
  }

  lemma LookupOnward(c: Config, s: State, t: nat)
    requires Fit(c) && Inv(c, s) && t in s.threads && s.threads[t].a in s.aptrs && s.threads[t].pc.AtGet? &&
             LockFree(c, s, s.threads[t].p)
    ensures Onward(c, s, Lookup(s, t), t)
  {
    hide Inv, Onward;
    Advance(c, s, t, 0);
  }

  lemma TestSizeOnward(c: Config, s: State, t: nat)
    requires Fit(c) && Inv(c, s) && t in s.threads && s.threads[t].a in s.aptrs && s.threads[t].pc.AtTest?
    ensures Onward(c, s, TestSize(c, s, t), t)
  {
    hide Inv, Onward;
    Advance(c, s, t, 0);
  }

  lemma DequeueOnward(c: Config, s: State, t: nat)
    requires Fit(c) && Inv(c, s) && t in s.threads && s.threads[t].a in s.aptrs && s.threads[t].pc.AtDequeue?
    ensures s.queue != [] && Onward(c, s, Dequeue(s, t), t)
  {
    hide Inv, Onward;
    Advance(c, s, t, 0);
  }

  lemma LockBucketOnward(c: Config, s: State, t: nat, q: int)
    requires Fit(c) && Inv(c, s) && t in s.threads && s.threads[t].a in s.aptrs && s.threads[t].pc == AtLock(q) &&
             LockFree(c, s, q)
    ensures Onward(c, s, LockBucket(c, s, t, q), t)
  {
    hide Inv, Onward;
    Advance(c, s, t, 0);
  }

  lemma CheckCountOnward(c: Config, s: State, t: nat, q: int)
    requires Fit(c) && Inv(c, s) && t in s.threads && s.threads[t].a in s.aptrs && s.threads[t].pc == AtCheck(q)
    ensures q in s.refc && (s.refc[q] <= 0 ==> q in s.cache) && Onward(c, s, CheckCount(c, s, t, q), t)
  {
    hide Inv, Onward;
    Advance(c, s, t, 0);
  }

  lemma RequeueOnward(c: Config, s: State, t: nat, q: int)
    requires Fit(c) && Inv(c, s) && t in s.threads && s.threads[t].a in s.aptrs && s.threads[t].pc == AtRequeue(q)
    ensures Onward(c, s, Requeue(s, t, q), t)
  {
    hide Inv, Onward;
    Advance(c, s, t, 0);
  }

  lemma ClearDirtyOnward(c: Config, s: State, t: nat, q: int, f: nat, nonce: int)
    requires Fit(c) && Inv(c, s) && t in s.threads && s.threads[t].a in s.aptrs && s.threads[t].pc == AtClear(q, f)
    ensures f in s.frames && Onward(c, s, ClearDirty(s, t, q, f, nonce), t)
  {
    hide Inv, Onward;
    Advance(c, s, t, nonce);
  }

  lemma SealOnward(c: Config, s: State, t: nat, q: int, f: nat)
    requires Fit(c) && Inv(c, s) && t in s.threads && s.threads[t].a in s.aptrs && s.threads[t].pc == AtSeal(q, f)
    ensures f in s.frames && q in s.crypto && Onward(c, s, Seal(c, s, t, q, f), t)
  {
    hide Inv, Onward;
    Advance(c, s, t, 0);
  }

  lemma UncountOnward(c: Config, s: State, t: nat, q: int, f: nat)
    requires Fit(c) && Inv(c, s) && t in s.threads && s.threads[t].a in s.aptrs && s.threads[t].pc == AtUncount(q, f)
    ensures Onward(c, s, Uncount(s, t, q, f), t)
  {
    hide Inv, Onward;
    Advance(c, s, t, 0);
  }

  lemma UnlinkOnward(c: Config, s: State, t: nat, q: int, f: nat)
    requires Fit(c) && Inv(c, s) && t in s.threads && s.threads[t].a in s.aptrs && s.threads[t].pc == AtUnlink(q, f)
    ensures q in s.cache && Onward(c, s, Unlink(c, s, t, q, f), t)
  {
    hide Inv, Onward;
    Advance(c, s, t, 0);
  }

  lemma PushOnward(c: Config, s: State, t: nat, f: nat)
    requires Fit(c) && Inv(c, s) && t in s.threads && s.threads[t].a in s.aptrs && s.threads[t].pc == AtPush(f)
    ensures Onward(c, s, Push(s, t, f), t)
  {
    hide Inv, Onward;
    Advance(c, s, t, 0);
  }

  lemma PopOnward(c: Config, s: State, t: nat)
    requires Fit(c) && Inv(c, s) && t in s.threads && s.threads[t].a in s.aptrs && s.threads[t].pc.AtPop?
    ensures s.free != [] && Onward(c, s, Pop(s, t), t)
  {
    hide Inv, Onward;
    Advance(c, s, t, 0);
  }

  lemma LoadOnward(c: Config, s: State, t: nat, f: nat)
    requires Fit(c) && Inv(c, s) && t in s.threads && s.threads[t].a in s.aptrs && s.threads[t].pc == AtLoad(f)
    ensures f in s.frames && (s.threads[t].p in s.crypto ==> Sealed(c, s, s.threads[t].p)) &&
            Onward(c, s, Load(c, s, t, f), t)
  {
    hide Inv, Onward;
    Advance(c, s, t, 0);
  }

  lemma AddOnward(c: Config, s: State, t: nat, f: nat)
    requires Fit(c) && Inv(c, s) && t in s.threads && s.threads[t].a in s.aptrs && s.threads[t].pc == AtAdd(f) &&
             LockFree(c, s, s.threads[t].p)
    ensures Onward(c, s, Add(c, s, t, f), t)
  {
    hide Inv, Onward;
    Advance(c, s, t, 0);
  }

  lemma CountOnward(c: Config, s: State, t: nat, f: nat)
    requires Fit(c) && Inv(c, s) && t in s.threads && s.threads[t].a in s.aptrs && s.threads[t].pc == AtCount(f)
    ensures Onward(c, s, Count(s, t, f), t)
  {
    hide Inv, Onward;
    Advance(c, s, t, 0);
  }

  lemma EnqueueOnward(c: Config, s: State, t: nat, f: nat)
    requires Fit(c) && Inv(c, s) && t in s.threads && s.threads[t].a in s.aptrs && s.threads[t].pc == AtEnqueue(f)
    ensures Onward(c, s, Enqueue(c, s, t, f), t)
  {
    hide Inv, Onward;
    Advance(c, s, t, 0);
  }

  // ---- choosing the page to evict ----

  lemma QueuedPlace(c: Config, s: State, q: int)
    requires Fit(c) && Inv(c, s) && q in s.queue
    ensures q in s.loc && s.loc[q] == Queued
  {
  }

  /** Taking the oldest page, finding it pinned and putting it back. */
  lemma RotateOnce(c: Config, s: State, t: nat)
    requires Fit(c) && Inv(c, s) && Alone(s, t) && s.threads[t].pc.AtDequeue? && s.threads[t].a in s.aptrs
    requires s.queue != [] && s.queue[0] in s.refc && s.refc[s.queue[0]] > 0
    ensures Onward(c, s, s.(queue := s.queue[1..] + [s.queue[0]]), t)
  {
    hide Inv, Onward;
    var q := s.queue[0];
    DequeueOnward(c, s, t);
    var s1 := Dequeue(s, t);
    OnwardInv(c, s, s1, t);
    AloneHoldsNoLock(c, s1, t);
    LockBucketOnward(c, s1, t, q);
    var s2 := LockBucket(c, s1, t, q);
    OnwardOn(c, s, s1, s2, t);
    OnwardInv(c, s, s2, t);
    CheckCountOnward(c, s2, t, q);
    var s3 := CheckCount(c, s2, t, q);
    OnwardOn(c, s, s2, s3, t);
    OnwardInv(c, s, s3, t);
    RequeueOnward(c, s3, t, q);
    OnwardOn(c, s, s3, Requeue(s3, t, q), t);
    AloneHoldsNoLock(c, s, t);
    QueuedPlace(c, s, q);
    Restored(c, s, t);
  }

  lemma OnwardInv(c: Config, s: State, s': State, t: nat)
    requires Fit(c) && t in s.threads && Onward(c, s, s', t)
    ensures Inv(c, s') && t in s'.threads && (Alone(s, t) ==> Alone(s', t))
  {
    hide Inv;
  }

  lemma Restored(c: Config, s: State, t: nat)
    requires Fit(c) && t in s.threads && s.threads[t].pc.AtDequeue? && s.lock == map[]
    requires s.queue != [] && s.queue[0] in s.refc && s.refc[s.queue[0]] > 0
    requires s.queue[0] in s.loc && s.loc[s.queue[0]] == Queued
    ensures var q := s.queue[0];
            Requeue(CheckCount(c, LockBucket(c, Dequeue(s, t), t, q), t, q), t, q) == s.(queue := s.queue[1..] + [q])
  {
    var q := s.queue[0];
    var s' := Requeue(CheckCount(c, LockBucket(c, Dequeue(s, t), t, q), t, q), t, q);
    assert s'.threads == s.threads;
    assert s'.loc == s.loc;
    assert s'.lock == s.lock;
  }

  lemma RotationStep(queue: seq<int>, k: nat)
    requires k < |queue|
    ensures Rotation(queue, k)[0] == queue[k]
    ensures Rotation(queue, k + 1) == Rotation(queue, k)[1..] + [queue[k]]
  {
    var w := queue[k + 1..] + queue[..k];
    assert Rotation(queue, k) == [queue[k]] + w;
    assert Rotation(queue, k + 1) == w + [queue[k]];
  }

  /** The eviction loop passes over the pinned pages at the front of the queue. */
  lemma {:induction false} RotateAll(c: Config, s: State, t: nat, k: nat)
    requires Fit(c) && Inv(c, s) && Alone(s, t) && s.threads[t].pc.AtDequeue? && s.threads[t].a in s.aptrs
    requires k < |s.queue| && forall i | 0 <= i < k :: s.queue[i] in s.refc && s.refc[s.queue[i]] > 0
    ensures Onward(c, s, s.(queue := Rotation(s.queue, k)), t)
  {
    hide Inv, Onward, Rotation;
    if k == 0 {
      NoRotation(s.queue);
      assert s.(queue := Rotation(s.queue, 0)) == s;
      OnwardFrom(c, s, t);
    } else {
      RotateAll(c, s, t, k - 1);
      var s1 := s.(queue := Rotation(s.queue, k - 1));
      OnwardInv(c, s, s1, t);
      RotationStep(s.queue, k - 1);
      RotateOnce(c, s1, t);
      OnwardOn(c, s, s1, s.(queue := Rotation(s.queue, k)), t);
    }
  }

  lemma {:induction false} FirstIndex(queue: seq<int>, counts: seq<int>, k: nat) returns (j: nat)
    requires k <= |queue| && forall i | 0 <= i < |queue| :: 0 <= queue[i] < |counts| && counts[queue[i]] >= 0
    requires forall i | 0 <= i < k :: counts[queue[i]] > 0
    requires exists q :: q in queue && 0 <= q < |counts| && counts[q] == 0
    ensures FirstUnpinned(queue, counts, j)
    decreases |queue| - k
  {
    if k < |queue| && counts[queue[k]] == 0 {
      j := k;
    } else {
      j := FirstIndex(queue, counts, k + 1);
    }
  }

  /** The state in which a thread has chosen page j of its queue and locked its bucket. */
  ghost function Chosen(c: Config, s: State, t: nat, j: nat): State
    requires c.nbuckets > 0 && t in s.threads && j < |s.queue|
    requires s.queue[j] in s.refc && s.refc[s.queue[j]] <= 0 && s.queue[j] in s.cache
  {
    var q := s.queue[j];
    RotationStep(s.queue, j);
    CheckCount(c, LockBucket(c, Dequeue(s.(queue := Rotation(s.queue, j)), t), t, q), t, q)
  }

  // ---- what a fault finds at its steps ----

  lemma FaultFacts(c: Config, s: State, t: nat)
    requires Fit(c) && Inv(c, s) && t in s.threads && !s.threads[t].pc.Idle?
    ensures s.threads[t].a in s.aptrs && 0 <= s.threads[t].p < c.npages && s.threads[t].p in s.refc
  {
    assert ThreadOk(c, s, t);
  }

  lemma FrameInRange(c: Config, s: State, f: nat)
    requires Fit(c) && Inv(c, s) && f in s.frames
    ensures f < c.cap
  {
  }

  lemma RoomOnQueue(c: Config, s: State, t: nat)
    requires Fit(c) && Inv(c, s) && t in s.threads && s.threads[t].pc.AtAdd?
    ensures |s.queue| < c.cap
  {
    hide With, Contents, LocksOk, PlacesOk, FramesOk;
    InWith(s.threads, t, HoldsFrame);
  }

  /** The page that a thread is evicting is cached, in its frame, and off the queue. */
  lemma EvictFacts(c: Config, s: State, t: nat, q: int, f: nat)
    requires Fit(c) && Inv(c, s) && t in s.threads
    requires s.threads[t].pc == AtClear(q, f) || s.threads[t].pc == AtUncount(q, f)
    ensures q in s.cache && q !in s.queue && 0 <= q < c.npages && f in s.frames && f < c.cap
  {
    hide LocksOk, CountsOk, FramesOk, MemoryOk, AptrsOk, Counted, CleanOk, FlightsOk;
    FlightHere(c, s, t);
  }

  /** A page to evict, as the program's arrays show it. */
  lemma VictimExists(c: Config, s: State, t: nat, counts: seq<int>) returns (j: nat)
    requires Fit(c) && Inv(c, s) && Alone(s, t) && s.threads[t].pc.AtDequeue?
    requires |counts| == c.npages && forall p | 0 <= p < c.npages :: p in s.refc && s.refc[p] == counts[p]
    requires exists q :: q in s.cache && q in s.refc && s.refc[q] == 0
    ensures FirstUnpinned(s.queue, counts, j) && j < |s.queue| && s.queue[j] in s.cache
    ensures s.queue[j] in s.refc && s.refc[s.queue[j]] == 0
  {
    hide LocksOk, PlacesOk, FramesOk, CountsOk;
    AllQueued(c, s, t);
    RefcNatural(c, s);
    hide Contents;
    forall i | 0 <= i < |s.queue| ensures 0 <= s.queue[i] < |counts| && counts[s.queue[i]] >= 0 {
      assert s.queue[i] in s.queue;
    }
    var q :| q in s.cache && q in s.refc && s.refc[q] == 0;
    assert q in s.queue && 0 <= q < |counts| && counts[q] == 0;
    j := FirstIndex(s.queue, counts, 0);
  }

  lemma RefcNatural(c: Config, s: State)
    requires Contents(c, s)
    ensures forall p | p in s.refc :: 0 <= p < c.npages && s.refc[p] >= 0
    ensures forall p | p in s.cache :: p in s.refc
  {
  }

  lemma ChosenOnward(c: Config, s: State, t: nat, counts: seq<int>, j: nat)
    requires Fit(c) && Inv(c, s) && Alone(s, t) && s.threads[t].pc.AtDequeue? && s.threads[t].a in s.aptrs
    requires |counts| == c.npages && forall p | 0 <= p < c.npages :: p in s.refc && s.refc[p] == counts[p]
    requires FirstUnpinned(s.queue, counts, j) && s.queue[j] in s.cache
    ensures Onward(c, s, Chosen(c, s, t, j), t)
    ensures Chosen(c, s, t, j).threads[t].pc == AtClear(s.queue[j], s.cache[s.queue[j]])
  {
    hide Inv, Onward, Rotation;
    var q := s.queue[j];
    RotateAll(c, s, t, j);
    RotationStep(s.queue, j);
    var s1 := s.(queue := Rotation(s.queue, j));
    OnwardInv(c, s, s1, t);
    DequeueOnward(c, s1, t);
    var s2 := Dequeue(s1, t);
    OnwardInv(c, s1, s2, t);
    OnwardOn(c, s, s1, s2, t);
    AloneHoldsNoLock(c, s2, t);
    LockBucketOnward(c, s2, t, q);
    var s3 := LockBucket(c, s2, t, q);
    OnwardInv(c, s2, s3, t);
    OnwardOn(c, s, s2, s3, t);
    CheckCountOnward(c, s3, t, q);
    OnwardOn(c, s, s3, CheckCount(c, s3, t, q), t);
  }

  /** Writing a dirty page back. */
  lemma WriteBackOnward(c: Config, s: State, t: nat, q: int, f: nat, nonce: int)
    requires Fit(c) && Inv(c, s) && t in s.threads && s.threads[t].a in s.aptrs && s.threads[t].pc == AtClear(q, f)
    requires f in s.frames && s.frames[f].dirty
    ensures Onward(c, s, Seal(c, ClearDirty(s, t, q, f, nonce), t, q, f), t)
  {
    hide Inv, Onward;
    ClearDirtyOnward(c, s, t, q, f, nonce);
    var s1 := ClearDirty(s, t, q, f, nonce);
    OnwardInv(c, s, s1, t);
    SealOnward(c, s1, t, q, f);
    OnwardOn(c, s, s1, Seal(c, s1, t, q, f), t);
  }

  /** Taking the page out of the cache and its frame to the free list. */
  lemma DropOnward(c: Config, s: State, t: nat, q: int, f: nat)
    requires Fit(c) && Inv(c, s) && t in s.threads && s.threads[t].a in s.aptrs && s.threads[t].pc == AtUncount(q, f)
    ensures Onward(c, s, Push(Unlink(c, Uncount(s, t, q, f), t, q, f), t, f), t)
  {
    hide Inv, Onward;
    UncountOnward(c, s, t, q, f);
    var s1 := Uncount(s, t, q, f);
    OnwardInv(c, s, s1, t);
    UnlinkOnward(c, s1, t, q, f);
    var s2 := Unlink(c, s1, t, q, f);
    OnwardInv(c, s1, s2, t);
    OnwardOn(c, s, s1, s2, t);
    PushOnward(c, s2, t, f);
    OnwardOn(c, s, s2, Push(s2, t, f), t);
  }

  /** Alone, a thread at AtDequeue can go on to AtPop: what each call of the
      program finds, and that the calls together are a run. */
  lemma EvictionPlan(c: Config, s: State, t: nat, counts: seq<int>, nonce: int) returns (j: nat)
    requires Fit(c) && Inv(c, s) && Alone(s, t) && s.threads[t].pc.AtDequeue?
    requires |counts| == c.npages && forall p | 0 <= p < c.npages :: p in s.refc && s.refc[p] == counts[p]
    requires exists q :: q in s.cache && q in s.refc && s.refc[q] == 0
    ensures FirstUnpinned(s.queue, counts, j) && j < |s.queue| && s.queue[j] in s.cache
    ensures s.queue[j] in s.refc && s.refc[s.queue[j]] == 0
    ensures var q, f, s1 := s.queue[j], s.cache[s.queue[j]], Chosen(c, s, t, j);
            && t in s1.threads && s1.threads[t].pc == AtClear(q, f) && s1.cache == s.cache
            && q !in s1.queue && 0 <= q < c.npages && f in s1.frames && f < c.cap
            && Onward(c, s, Evicted(c, s1, t, q, f, nonce), t)
            && Evicted(c, s1, t, q, f, nonce).threads[t].pc.AtPop?
            && Evicted(c, s1, t, q, f, nonce).cache.Keys <= s.cache.Keys
  {
    hide Inv, Onward, FirstUnpinned, Evicted;
    FaultFacts(c, s, t);
    j := VictimExists(c, s, t, counts);
    ChosenOnward(c, s, t, counts, j);
    var q, f, s1 := s.queue[j], s.cache[s.queue[j]], Chosen(c, s, t, j);
    assert s1.cache == s.cache;
    hide Chosen;
    OnwardInv(c, s, s1, t);
    OnwardAptr(c, s, s1, t);
    EvictFacts(c, s1, t, q, f);
    EvictedOnward(c, s1, t, q, f, nonce);
    OnwardOn(c, s, s1, Evicted(c, s1, t, q, f, nonce), t);
  }

  /** The state after a try_add that succeeds and the final link. */
  ghost function Added(c: Config, s: State, t: nat, f: nat): State
    requires c.nbuckets > 0 && t in s.threads && s.threads[t].a in s.aptrs && s.threads[t].p !in s.cache
  {
    var s1 := Add(c, s, t, f);
    var s2 := Count(s1, t, f);
    Enqueue(c, s2, t, f)
  }

  lemma AddedFields(c: Config, s: State, t: nat, f: nat)
    requires c.nbuckets > 0 && t in s.threads && s.threads[t].a in s.aptrs && s.threads[t].p !in s.cache
    ensures var s' := Added(c, s, t, f);
            var a, p := s.threads[t].a, s.threads[t].p;
            && s'.aptrs == s.aptrs[a := s.aptrs[a].(link := Some(f))] && s'.refc == s.refc
            && s'.cache == s.cache[p := f] && s'.size == s.size + 1 && s'.queue == s.queue + [p] && s'.free == s.free
            && s'.frames == s.frames && s'.crypto == s.crypto && s'.ram == s.ram && t in s'.threads
  {
  }

  /** Adding the page, counting and queueing it, and linking the Aptr. */
  lemma AddOnwardAll(c: Config, s: State, t: nat, f: nat)
    requires Fit(c) && Inv(c, s) && Alone(s, t) && s.threads[t].a in s.aptrs && s.threads[t].pc == AtAdd(f)
    requires s.threads[t].p !in s.cache
    ensures Onward(c, s, Added(c, s, t, f), t) && Added(c, s, t, f).threads[t].pc.Idle?
    ensures s.threads[t].a in Added(c, s, t, f).aptrs && Added(c, s, t, f).aptrs[s.threads[t].a].link == Some(f)
  {
    hide Inv, Onward;
    AloneHoldsNoLock(c, s, t);
    AddOnward(c, s, t, f);
    var s1 := Add(c, s, t, f);
    OnwardInv(c, s, s1, t);
    CountOnward(c, s1, t, f);
    var s2 := Count(s1, t, f);
    OnwardInv(c, s1, s2, t);
    OnwardOn(c, s, s1, s2, t);
    EnqueueOnward(c, s2, t, f);
    OnwardOn(c, s, s2, Enqueue(c, s2, t, f), t);
  }

  /** The state after the first half of try_evict_page. */
  ghost function Cleared(c: Config, s: State, t: nat, q: int, f: nat, nonce: int): (r: State)
    requires t in s.threads && f in s.frames
    ensures t in r.threads && r.threads[t].pc == AtUncount(q, f) && r.cache == s.cache && r.queue == s.queue
  {
    if s.frames[f].dirty then WrittenBack(c, s, t, q, f, nonce) else ClearDirty(s, t, q, f, nonce)
  }

  ghost function WrittenBack(c: Config, s: State, t: nat, q: int, f: nat, nonce: int): (r: State)
    requires t in s.threads && f in s.frames && s.frames[f].dirty
    ensures t in r.threads && r.threads[t].pc == AtUncount(q, f) && r.cache == s.cache && r.queue == s.queue
  {
    Seal(c, ClearDirty(s, t, q, f, nonce), t, q, f)
  }

  /** The state after try_evict_page. */
  ghost function Evicted(c: Config, s: State, t: nat, q: int, f: nat, nonce: int): State
    requires c.nbuckets > 0 && t in s.threads && f in s.frames
  {
    Push(Unlink(c, Uncount(Cleared(c, s, t, q, f, nonce), t, q, f), t, q, f), t, f)
  }

  lemma ClearedOnward(c: Config, s: State, t: nat, q: int, f: nat, nonce: int)
    requires Fit(c) && Inv(c, s) && t in s.threads && s.threads[t].a in s.aptrs && s.threads[t].pc == AtClear(q, f)
    requires f in s.frames
    ensures Onward(c, s, Cleared(c, s, t, q, f, nonce), t)
  {
    hide Inv, Onward, ClearDirty, Seal;
    if s.frames[f].dirty {
      WriteBackOnward(c, s, t, q, f, nonce);
    } else {
      ClearDirtyOnward(c, s, t, q, f, nonce);
    }
  }

  lemma EvictedOnward(c: Config, s: State, t: nat, q: int, f: nat, nonce: int)
    requires Fit(c) && Inv(c, s) && t in s.threads && s.threads[t].a in s.aptrs && s.threads[t].pc == AtClear(q, f)
    requires f in s.frames
    ensures Onward(c, s, Evicted(c, s, t, q, f, nonce), t)
    ensures Evicted(c, s, t, q, f, nonce).threads[t].pc == AtPop
    ensures Evicted(c, s, t, q, f, nonce).cache == s.cache - {q}
  {
    hide Inv, Onward, Cleared;
    var s2 := Cleared(c, s, t, q, f, nonce);
    ClearedOnward(c, s, t, q, f, nonce);
    OnwardInv(c, s, s2, t);
    OnwardAptr(c, s, s2, t);
    DropOnward(c, s2, t, q, f);
    OnwardOn(c, s, s2, Evicted(c, s, t, q, f, nonce), t);
  }

  lemma OnwardAptr(c: Config, s: State, s': State, t: nat)
    requires Fit(c) && t in s.threads && Onward(c, s, s', t) && s.threads[t].a in s.aptrs
    ensures t in s'.threads && s'.threads[t].a == s.threads[t].a && s'.threads[t].p == s.threads[t].p
    ensures s'.threads[t].a in s'.aptrs
  {
    hide Inv, Reaches;
  }

  lemma TestPlan(c: Config, s: State, t: nat)
    requires Fit(c) && Inv(c, s) && Alone(s, t) && s.threads[t].pc.AtTest?
    ensures var s' := TestSize(c, s, t); Onward(c, s, s', t) && Inv(c, s') && Alone(s', t)
  {
    hide Inv, Onward;
    FaultFacts(c, s, t);
    TestSizeOnward(c, s, t);
    OnwardInv(c, s, TestSize(c, s, t), t);
  }

  lemma PopPlan(c: Config, s: State, t: nat)
    requires Fit(c) && Inv(c, s) && Alone(s, t) && s.threads[t].pc.AtPop?
    ensures s.free != []
    ensures var s1 := Pop(s, t); Onward(c, s, s1, t) && Inv(c, s1) && Alone(s1, t)
    ensures var s1, f := Pop(s, t), s.free[|s.free| - 1];
            t in s1.threads && s1.threads[t] == s.threads[t].(pc := AtLoad(f)) && s1.cache == s.cache
    ensures s.free[|s.free| - 1] < c.cap && s.free[|s.free| - 1] in s.frames
  {
    hide Inv, Onward;
    FaultFacts(c, s, t);
    PopOnward(c, s, t);
    OnwardInv(c, s, Pop(s, t), t);
    OnwardAptr(c, s, Pop(s, t), t);
    LoadOnward(c, Pop(s, t), t, s.free[|s.free| - 1]);
    FrameInRange(c, s, s.free[|s.free| - 1]);
  }

  lemma LoadPlan(c: Config, s: State, t: nat, f: nat)
    requires Fit(c) && Inv(c, s) && Alone(s, t) && s.threads[t].pc == AtLoad(f) && s.threads[t].p !in s.cache
    ensures f in s.frames && f < c.cap && 0 <= s.threads[t].p < c.npages && s.threads[t].a in s.aptrs
    ensures s.threads[t].p in s.crypto ==> Sealed(c, s, s.threads[t].p)
    ensures var s' := Load(c, s, t, f);
            && Onward(c, s, s', t) && Inv(c, s') && Alone(s', t) && t in s'.threads &&
               s'.threads[t] == s.threads[t].(pc := AtAdd(f))
            && s'.threads[t].a in s'.aptrs && s'.cache == s.cache && |s'.queue| < c.cap
  {
    hide Inv, Onward, Sealed;
    FaultFacts(c, s, t);
    LoadOnward(c, s, t, f);
    FrameInRange(c, s, f);
    var s' := Load(c, s, t, f);
    OnwardInv(c, s, s', t);
    OnwardAptr(c, s, s', t);
    RoomOnQueue(c, s', t);
  }

  lemma LookupPlan(c: Config, s: State, t: nat)
    requires Fit(c) && Inv(c, s) && Alone(s, t) && s.threads[t].pc.AtGet?
    ensures s.threads[t].a in s.aptrs && Onward(c, s, Lookup(s, t), t) && Inv(c, Lookup(s, t)) && Alone(Lookup(s, t), t)
  {
    hide Inv, Onward;
    FaultFacts(c, s, t);
    AloneHoldsNoLock(c, s, t);
    LookupOnward(c, s, t);
    OnwardInv(c, s, Lookup(s, t), t);
  }

  lemma HitPlan(c: Config, s: State, t: nat)
    requires Fit(c) && t in s.threads && s.threads[t].a in s.aptrs && s.threads[t].p in s.cache
    ensures var s', a := Lookup(s, t), s.threads[t].a;
            t in s'.threads && s'.threads[t].pc.Idle? && a in s'.aptrs && s'.aptrs[a].link.Some?
  {
  }

  lemma MissPlan(c: Config, s: State, t: nat)
    requires Fit(c) && t in s.threads && s.threads[t].a in s.aptrs && s.threads[t].p !in s.cache
    ensures var s', p := Lookup(s, t), s.threads[t].p;
            && s' == s.(threads := s'.threads) && t in s'.threads && s'.threads[t] == s.threads[t].(pc := AtTest)
            && (HasRoom(c, s, p) ==> HasRoom(c, s', p))
  {
  }

  /** What a fault finds when it starts. */
  lemma BeginPlan(c: Config, s: State, t: nat, a: nat)
    requires Fit(c) && a in s.aptrs && t in s.threads && AllIdle(s)
    requires CanFault(c, s, t, a) && |Pins(s, PageOf(Shifted(c, s.aptrs[a])))| < 255
    requires Enabled(c, s, BeginFault(t, a))
    requires Inv(c, s)
    ensures s.aptrs[a].pin == s.aptrs[a].link.Some? && (s.aptrs[a].pin ==> 0 <= PageOf(s.aptrs[a]) < c.npages)
    ensures var s1 := Begun(c, s, t, a);
            && s1.threads[t].a == a && PageOf(s1.aptrs[a]) == s1.threads[t].p
            && HasRoom(c, s1, s1.threads[t].p)
            && Reaches(c, s, s1) && Inv(c, s1) && Alone(s1, t) && s1.threads[t].pc.AtInc? && s1.threads[t].a in s1.aptrs
            && 0 <= s1.threads[t].p < c.npages && s1.threads[t].p in s1.refc
            && LockFree(c, s1, s1.threads[t].p) && |Pins(s1, s1.threads[t].p)| < 255
  {
    hide Inv, Reaches;
    var s1 := Begun(c, s, t, a);
    BegunKeeps(c, s, t, a);
    IdleAptr(c, s, a);
    FaultFacts(c, s1, t);
    AloneHoldsNoLock(c, s1, t);
    assert Pins(s1, s1.threads[t].p) <= Pins(s, s1.threads[t].p);
    SubsetSize(Pins(s1, s1.threads[t].p), Pins(s, s1.threads[t].p));
  }

  lemma IdleAptr(c: Config, s: State, a: nat)
    requires Fit(c) && Inv(c, s) && a in s.aptrs && AllIdle(s)
    ensures s.aptrs[a].pin == s.aptrs[a].link.Some? && (s.aptrs[a].pin ==> 0 <= PageOf(s.aptrs[a]) < c.npages)
    ensures s.aptrs[a].owner in s.threads
  {
    assert AptrOk(c, s, a);
  }

  lemma CountPlan(c: Config, s: State, t: nat)
    requires Fit(c) && Inv(c, s) && Alone(s, t) && s.threads[t].pc.AtInc? && s.threads[t].a in s.aptrs
    requires LockFree(c, s, s.threads[t].p) && |Pins(s, s.threads[t].p)| < 255
    ensures s.threads[t].p in s.refc
    ensures var s' := Increment(s, t);
            && Onward(c, s, s', t) && Inv(c, s') && Alone(s', t) && t in s'.threads &&
               s'.threads[t] == s.threads[t].(pc := AtGet)
            && s'.cache == s.cache && s'.size == s.size && s'.threads[t].pc.AtGet?
    ensures HasRoom(c, s, s.threads[t].p) ==> HasRoom(c, Increment(s, t), s.threads[t].p)
  {
    hide Inv, Onward;
    IncrementOnward(c, s, t);
    OnwardInv(c, s, Increment(s, t), t);
    var p := s.threads[t].p;
    assert forall q | q in s.cache && q in s.refc && s.refc[q] == 0 && p !in s.cache :: Increment(s, t).refc[q] == 0;
  }

  /** Between s and s' the Aptr a has been faulted in, and nothing else that a
      caller can see has changed. */
  ghost predicate FaultDone(c: Config, s: State, s': State, a: nat) {
    && a in s.aptrs && s'.aptrs.Keys == s.aptrs.Keys && s'.mem == s.mem && s'.threads.Keys == s.threads.Keys
    && s'.aptrs[a].link.Some? && InPage(c, s'.aptrs[a].offset) && Addr(c, s'.aptrs[a]) == Addr(c, s.aptrs[a])
    && s'.aptrs[a].hint == s.aptrs[a].hint && s'.aptrs[a].owner == s.aptrs[a].owner
    && forall b | b in s.aptrs && b != a :: s'.aptrs[b] == s.aptrs[b]
  }

  lemma FaultEnds(c: Config, s: State, s1: State, s': State, t: nat, a: nat)
    requires Fit(c) && a in s.aptrs && t in s.threads && (s.aptrs[a].pin ==> PageOf(s.aptrs[a]) in s.refc)
    requires s1 == Begun(c, s, t, a) && Reaches(c, s, s1) && Onward(c, s1, s', t)
    requires s'.threads[t].pc.Idle? && a in s'.aptrs && s'.aptrs[a].link.Some?
    requires AllIdle(s)
    ensures Reaches(c, s, s') && FaultDone(c, s, s', a) && Inv(c, s') && AllIdle(s')
  {
    hide Inv, Reaches;
    ReachesOn(c, s, s1, s');
    ShiftKeepsAddress(c, s.aptrs[a]);
  }

  /** An Aptr that needs no fault is linked. */
  lemma DoneNothing(c: Config, s: State, t: nat, a: nat)
    requires Fit(c) && Inv(c, s) && Owned(s, t, a) && AllIdle(s)
    ensures InPage(c, s.aptrs[a].offset) ==> FaultDone(c, s, s, a)
    ensures Reaches(c, s, s)
  {
    hide Reaches;
    ReachesNothing(c, s);
    LinkedIsCached(c, s, a);
  }

  /** What a dereference finds once its Aptr is linked. */
  lemma DerefPlan(c: Config, s0: State, s: State, t: nat, a: nat)
    requires Fit(c) && Inv(c, s) && t in s.threads && FaultDone(c, s0, s, a) && Reaches(c, s0, s)
    requires AllIdle(s) && a in s0.aptrs && s0.aptrs[a].owner == t
    ensures a in s.aptrs && s.aptrs[a].link.Some? && s.aptrs[a].link.value in s.frames && s.aptrs[a].link.value < c.cap
    ensures var s' := Marked(s, a);
            && Inv(c, s') && Reaches(c, s0, s') && FaultDone(c, s0, s', a) && s'.threads == s.threads
            && a in s'.aptrs && s'.aptrs[a].link == s.aptrs[a].link && (s'.aptrs[a].hint ==> s'.aptrs[a].wr)
  {
    hide Inv, Reaches;
    LinkedIsCached(c, s, a);
    FrameInRange(c, s, s.aptrs[a].link.value);
    DerefKeeps(c, s, t, a);
    ReachesStep(c, s0, s, Deref(t, a));
    MarkedHint(c, s, a);
  }

  /** A set hint marks the Aptr; and an Aptr that is not marked again stays as it is. */
  lemma MarkedHint(c: Config, s: State, a: nat)
    requires a in s.aptrs && s.aptrs[a].link.Some? && s.aptrs[a].link.value in s.frames
    ensures s.aptrs[a].hint ==> Marked(s, a).aptrs[a].wr
  {
  }

  // ---- the steps on Aptrs of an idle thread ----

  /** A step that can be taken does not fail, and keeps the invariant. */
  lemma TakeStep(c: Config, s: State, step: Step)
    requires Fit(c) && Inv(c, s) && Enabled(c, s, step)
    ensures Sound(c, s, step) && Inv(c, Apply(c, s, step)) && Reaches(c, s, Apply(c, s, step))
  {
    hide Inv, Enabled, Sound, Apply, Reaches;
    StepIsSound(c, s, step);
    StepKeeps(c, s, step);
    ReachesNothing(c, s);
    ReachesStep(c, s, s, step);
  }

  ghost predicate AllIdle(s: State) { forall t | t in s.threads :: s.threads[t].pc.Idle? }

  lemma ConstructPlan(c: Config, s: State, t: nat, a: nat, x: nat)
    requires Fit(c) && Inv(c, s) && AllIdle(s) && t in s.threads && a !in s.aptrs
    ensures var s' := s.(aptrs := s.aptrs[a := NewAptr(c, t, x)]);
            Inv(c, s') && Reaches(c, s, s') && Addr(c, s'.aptrs[a]) == x
  {
    hide Inv, Reaches;
    TakeStep(c, s, Construct(t, a, x));
    ConstructAddress(c, s, t, a, x);
  }

  lemma CopyPlan(c: Config, s: State, t: nat, a: nat, src: nat)
    requires Fit(c) && Inv(c, s) && AllIdle(s) && Owned(s, t, src) && a !in s.aptrs
    requires !(0 - c.pageSize <= s.aptrs[src].offset < 0)
    ensures var s' := s.(aptrs := s.aptrs[a := CopyAptr(c, t, s.aptrs[src])]);
            Inv(c, s') && Reaches(c, s, s') && Addr(c, s'.aptrs[a]) == Addr(c, s.aptrs[src])
  {
    hide Inv, Reaches;
    TakeStep(c, s, Copy(t, a, src));
    CopyKeepsAddress(c, s, t, a, src);
  }

  lemma HintPlan(c: Config, s: State, t: nat, a: nat, h: bool)
    requires Fit(c) && Inv(c, s) && AllIdle(s) && Owned(s, t, a)
    ensures Inv(c, Hinted(s, a, h)) && Reaches(c, s, Hinted(s, a, h))
  {
    hide Inv, Reaches;
    TakeStep(c, s, Hint(t, a, h));
  }

  lemma MovePlan(c: Config, s: State, t: nat, a: nat, d: int)
    requires Fit(c) && Inv(c, s) && AllIdle(s) && Owned(s, t, a)
    requires s.aptrs[a].link.None? ==> !InPage(c, s.aptrs[a].offset + d)
    ensures Inv(c, Moved(s, a, d)) && Reaches(c, s, Moved(s, a, d))
  {
    hide Inv, Reaches;
    TakeStep(c, s, Move(t, a, d));
  }

  lemma DestroyPlan(c: Config, s: State, t: nat, a: nat)
    requires Fit(c) && Inv(c, s) && AllIdle(s) && Owned(s, t, a)
    ensures s.aptrs[a].pin == s.aptrs[a].link.Some? && (s.aptrs[a].pin ==> 0 <= PageOf(s.aptrs[a]) < c.npages)
    ensures s.aptrs[a].pin ==> PageOf(s.aptrs[a]) in s.refc
    ensures Inv(c, Destroyed(s, a)) && Reaches(c, s, Destroyed(s, a))
  {
    hide Inv, Reaches;
    IdleAptr(c, s, a);
    AllCounted(c, s);
    AloneHoldsNoLock(c, s, t);
    TakeStep(c, s, Destroy(t, a));
  }

  lemma AllCounted(c: Config, s: State)
    requires Fit(c) && Inv(c, s)
    ensures forall p :: p in s.refc <==> 0 <= p < c.npages
  {
  }

  lemma WritePlan(c: Config, s: State, t: nat, a: nat, off: int, v: int)
    requires Fit(c) && Inv(c, s) && AllIdle(s) && Owned(s, t, a) && s.aptrs[a].wr && InPage(c, off)
    ensures s.aptrs[a].link.Some? && s.aptrs[a].link.value in s.frames
    ensures off < |s.frames[s.aptrs[a].link.value].text|
    ensures Inv(c, Stored(s, a, off, v)) && Reaches(c, s, Stored(s, a, off, v))
  {
    hide Inv, Reaches;
    TakeStep(c, s, Write(t, a, off, v));
  }
}
