// Every step of the paging protocol keeps its invariant.
module SuvmInvariant {
  import opened Options
  import opened SuvmMachine
  import opened SuvmSteps

  /** Thread t moves inside a fault to program point pc, and nothing that an
      Aptr or the stored contents depend on changes. */
  ghost predicate Quiet(s: State, s': State, t: nat, pc: Pc) {
    && t in s.threads && s'.threads == s.threads[t := s.threads[t].(pc := pc)]
    && s'.aptrs == s.aptrs && s'.refc == s.refc && s'.cache == s.cache && s'.frames == s.frames
    && s'.crypto == s.crypto && s'.ram == s.ram && s'.mem == s.mem
    && s'.own.Keys == s.own.Keys
    && (forall f | f in s.own :: s.own[f].Caching? ==> s'.own[f].Caching?)
    && !s.threads[t].pc.Idle? && !s.threads[t].pc.AtInc? && !s.threads[t].pc.AtSeal?
    && !pc.Idle? && !pc.AtInc? && !pc.AtSeal? && !pc.AtAdd?
  }

  lemma QuietShape(c: Config, s: State, s': State, t: nat, pc: Pc)
    requires Quiet(s, s', t, pc) && Shape(c, s)
    ensures Shape(c, s')
  {
    forall u | u in s'.threads ensures ThreadOk(c, s', u) {
      assert ThreadOk(c, s, u) && ThreadOk(c, s, t);
    }
  }

  lemma SamePins(s: State, s': State)
    requires s'.aptrs == s.aptrs && s'.refc == s.refc && Counted(s)
    ensures Counted(s')
  {
    forall p ensures Pins(s', p) == Pins(s, p) {}
  }

  lemma QuietAptrs(c: Config, s: State, s': State, t: nat, pc: Pc)
    requires Quiet(s, s', t, pc) && AptrsOk(c, s)
    ensures AptrsOk(c, s')
  {
    forall a | a in s'.aptrs ensures AptrOk(c, s', a) {
      assert AptrOk(c, s, a);
      assert Faulting(s', a) == Faulting(s, a);
    }
  }

  lemma QuietFlights(s: State, s': State, t: nat, pc: Pc)
    requires Quiet(s, s', t, pc) && FlightsOk(s) && t in s'.threads && FlightOk(s', t)
    ensures FlightsOk(s')
  {
    forall u | u in s'.threads ensures FlightOk(s', u) {
      assert FlightOk(s, u);
    }
  }

  /** Entering or leaving AtSeal is all that Sealing depends on. */
  lemma SameSealing(s: State, s': State, t: nat, x: Thread)
    requires t in s.threads && s'.threads == s.threads[t := x] && !s.threads[t].pc.AtSeal? && !x.pc.AtSeal?
    ensures forall p :: Sealing(s', p) == Sealing(s, p)
  {
    forall p ensures Sealing(s', p) == Sealing(s, p) {
      if Sealing(s, p) {
        var u :| u in s.threads && s.threads[u].pc.AtSeal? && s.threads[u].pc.q == p;
        assert s'.threads[u] == s.threads[u];
      }
      if Sealing(s', p) {
        var u :| u in s'.threads && s'.threads[u].pc.AtSeal? && s'.threads[u].pc.q == p;
        assert s'.threads[u] == s.threads[u];
      }
    }
  }

  lemma SameMemory(c: Config, s: State, s': State, t: nat, x: Thread)
    requires MemoryOk(c, s) && t in s.threads && s'.threads == s.threads[t := x]
    requires !s.threads[t].pc.AtSeal? && !x.pc.AtSeal? && !x.pc.AtAdd?
    requires s'.cache == s.cache && s'.frames == s.frames && s'.crypto == s.crypto && s'.ram == s.ram && s'.mem == s.mem
    ensures MemoryOk(c, s')
  {
    SameSealing(s, s', t, x);
    hide Sealing;
    forall p ensures PageOk(c, s', p) {
      assert PageOk(c, s, p);
    }
    forall u | u in s'.threads ensures LoadOk(c, s', u) {
      assert LoadOk(c, s, u);
    }
    forall p, off | (p, off) in s'.mem ensures ByteAt(c, s', p, off, s'.mem[(p, off)]) {
      assert ByteAt(c, s, p, off, s.mem[(p, off)]);
    }
  }

  lemma QuietKeeps(c: Config, s: State, s': State, t: nat, pc: Pc)
    requires Quiet(s, s', t, pc) && Contents(c, s) && t in s'.threads && FlightOk(s', t)
    ensures Contents(c, s')
  {
    QuietShape(c, s, s', t, pc);
    SamePins(s, s');
    QuietAptrs(c, s, s', t, pc);
    QuietFlights(s, s', t, pc);
    SameMemory(c, s, s', t, s.threads[t].(pc := pc));
    hide Shape, Counted, AptrsOk, FlightsOk, MemoryOk;
  }

  lemma FlightHere(c: Config, s: State, t: nat)
    requires Contents(c, s) && t in s.threads
    ensures FlightOk(s, t)
  {
  }

  lemma CountNatural(c: Config, s: State, p: int)
    requires Contents(c, s) && p in s.refc
    ensures s.refc[p] >= 0
  {
  }

  lemma CachedFrame(c: Config, s: State, p: int)
    requires Contents(c, s) && FramesOk(s.threads, s.free, s.own, s.cache) && p in s.cache
    ensures s.cache[p] in s.frames
  {
  }

  // ---- steps that change no contents ----

  lemma TestKeeps(c: Config, s: State, t: nat)
    requires Fit(c) && Inv(c, s) && t in s.threads && s.threads[t].pc.AtTest?
    ensures Inv(c, TestSize(c, s, t)) && Confined(s, TestSize(c, s, t), t)
  {
    hide Contents, LocksOk, PlacesOk, FramesOk, CountsOk;
    var s' := TestSize(c, s, t);
    var x := s'.threads[t];
    LockNeutral(c, s.threads, s.lock, t, x);
    PlaceNeutral(s.threads, s.queue, s.loc, t, x);
    FrameNeutral(s.threads, s.free, s.own, s.cache, t, x);
    assert s.threads.Keys == c.threads by { ThreadsAre(c, s); }
    CountsTest(c, s.threads, t, x, |s.free|, s.size, |s.queue|);
    QuietKeeps(c, s, s', t, x.pc);
  }

  lemma DequeueKeeps(c: Config, s: State, t: nat)
    requires Fit(c) && Inv(c, s) && t in s.threads && s.threads[t].pc.AtDequeue? && s.queue != []
    ensures Inv(c, Dequeue(s, t)) && Confined(s, Dequeue(s, t), t)
  {
    hide Contents, LocksOk, PlacesOk, FramesOk, CountsOk;
    var s' := Dequeue(s, t);
    var x := s'.threads[t];
    LockNeutral(c, s.threads, s.lock, t, x);
    PlaceTaken(s.threads, s.queue, s.loc, t, x);
    FrameNeutral(s.threads, s.free, s.own, s.cache, t, x);
    CountsMove(c, s.threads, t, x, |s.free|, s.size, |s.queue|, |s'.free|, s'.size, |s'.queue|);
    QuietKeeps(c, s, s', t, x.pc);
  }

  lemma LockBucketKeeps(c: Config, s: State, t: nat, q: int)
    requires Fit(c) && Inv(c, s) && t in s.threads && s.threads[t].pc == AtLock(q) && LockFree(c, s, q)
    ensures Inv(c, LockBucket(c, s, t, q)) && Confined(s, LockBucket(c, s, t, q), t)
  {
    hide Contents, LocksOk, PlacesOk, FramesOk, CountsOk;
    var s' := LockBucket(c, s, t, q);
    var x := s'.threads[t];
    LockTaken(c, s.threads, s.lock, t, x, q);
    PlaceNeutral(s.threads, s.queue, s.loc, t, x);
    FrameNeutral(s.threads, s.free, s.own, s.cache, t, x);
    CountsMove(c, s.threads, t, x, |s.free|, s.size, |s.queue|, |s'.free|, s'.size, |s'.queue|);
    QuietKeeps(c, s, s', t, x.pc);
  }

  lemma CheckPinnedKeeps(c: Config, s: State, t: nat, q: int)
    requires Fit(c) && Inv(c, s) && t in s.threads && s.threads[t].pc == AtCheck(q) && q in s.refc && s.refc[q] > 0
    ensures Inv(c, CheckCount(c, s, t, q)) && Confined(s, CheckCount(c, s, t, q), t)
  {
    hide Contents, LocksOk, PlacesOk, FramesOk, CountsOk;
    var s' := CheckCount(c, s, t, q);
    var x := s'.threads[t];
    LockGiven(c, s.threads, s.lock, t, x, q);
    PlaceNeutral(s.threads, s.queue, s.loc, t, x);
    FrameNeutral(s.threads, s.free, s.own, s.cache, t, x);
    CountsMove(c, s.threads, t, x, |s.free|, s.size, |s.queue|, |s'.free|, s'.size, |s'.queue|);
    QuietKeeps(c, s, s', t, x.pc);
  }

  lemma CheckUnpinnedKeeps(c: Config, s: State, t: nat, q: int)
    requires Fit(c) && Inv(c, s) && t in s.threads && s.threads[t].pc == AtCheck(q) && q in s.refc &&
             s.refc[q] <= 0 && q in s.cache
    ensures Inv(c, CheckCount(c, s, t, q)) && Confined(s, CheckCount(c, s, t, q), t)
  {
    hide Contents, LocksOk, PlacesOk, FramesOk, CountsOk;
    var s' := CheckCount(c, s, t, q);
    var x := s'.threads[t];
    CountNatural(c, s, q);
    CachedFrame(c, s, q);
    LockNeutral(c, s.threads, s.lock, t, x);
    PlaceNeutral(s.threads, s.queue, s.loc, t, x);
    FrameNeutral(s.threads, s.free, s.own, s.cache, t, x);
    CountsMove(c, s.threads, t, x, |s.free|, s.size, |s.queue|, |s'.free|, s'.size, |s'.queue|);
    QuietKeeps(c, s, s', t, x.pc);
  }

  lemma RequeueKeeps(c: Config, s: State, t: nat, q: int)
    requires Fit(c) && Inv(c, s) && t in s.threads && s.threads[t].pc == AtRequeue(q)
    ensures Inv(c, Requeue(s, t, q)) && Confined(s, Requeue(s, t, q), t)
  {
    hide Contents, LocksOk, PlacesOk, FramesOk, CountsOk;
    var s' := Requeue(s, t, q);
    var x := s'.threads[t];
    LockNeutral(c, s.threads, s.lock, t, x);
    PlacePut(s.threads, s.queue, s.loc, t, x, q);
    FrameNeutral(s.threads, s.free, s.own, s.cache, t, x);
    CountsMove(c, s.threads, t, x, |s.free|, s.size, |s.queue|, |s'.free|, s'.size, |s'.queue|);
    QuietKeeps(c, s, s', t, x.pc);
  }

  lemma UncountKeeps(c: Config, s: State, t: nat, q: int, f: nat)
    requires Fit(c) && Inv(c, s) && t in s.threads && s.threads[t].pc == AtUncount(q, f)
    ensures Inv(c, Uncount(s, t, q, f)) && Confined(s, Uncount(s, t, q, f), t)
  {
    hide Contents, LocksOk, PlacesOk, FramesOk, CountsOk;
    var s' := Uncount(s, t, q, f);
    var x := s'.threads[t];
    FlightHere(c, s, t);
    LockNeutral(c, s.threads, s.lock, t, x);
    PlaceNeutral(s.threads, s.queue, s.loc, t, x);
    FrameNeutral(s.threads, s.free, s.own, s.cache, t, x);
    CountsMove(c, s.threads, t, x, |s.free|, s.size, |s.queue|, |s'.free|, s'.size, |s'.queue|);
    QuietKeeps(c, s, s', t, x.pc);
  }

  lemma PushKeeps(c: Config, s: State, t: nat, f: nat)
    requires Fit(c) && Inv(c, s) && t in s.threads && s.threads[t].pc == AtPush(f)
    ensures Inv(c, Push(s, t, f)) && Confined(s, Push(s, t, f), t)
  {
    hide Contents, LocksOk, PlacesOk, FramesOk, CountsOk;
    var s' := Push(s, t, f);
    var x := s'.threads[t];
    LockNeutral(c, s.threads, s.lock, t, x);
    PlaceNeutral(s.threads, s.queue, s.loc, t, x);
    FramePushed(s.threads, s.free, s.own, s.cache, t, x, f);
    CountsMove(c, s.threads, t, x, |s.free|, s.size, |s.queue|, |s'.free|, s'.size, |s'.queue|);
    QuietKeeps(c, s, s', t, x.pc);
  }

  lemma PopKeeps(c: Config, s: State, t: nat)
    requires Fit(c) && Inv(c, s) && t in s.threads && s.threads[t].pc.AtPop? && s.free != []
    ensures Inv(c, Pop(s, t)) && Confined(s, Pop(s, t), t)
  {
    hide Contents, LocksOk, PlacesOk, FramesOk, CountsOk;
    var s' := Pop(s, t);
    var x := s'.threads[t];
    LockNeutral(c, s.threads, s.lock, t, x);
    PlaceNeutral(s.threads, s.queue, s.loc, t, x);
    FramePopped(s.threads, s.free, s.own, s.cache, t, x);
    CountsMove(c, s.threads, t, x, |s.free|, s.size, |s.queue|, |s'.free|, s'.size, |s'.queue|);
    QuietKeeps(c, s, s', t, x.pc);
  }

  lemma CountKeeps(c: Config, s: State, t: nat, f: nat)
    requires Fit(c) && Inv(c, s) && t in s.threads && s.threads[t].pc == AtCount(f)
    ensures Inv(c, Count(s, t, f)) && Confined(s, Count(s, t, f), t)
  {
    hide Contents, LocksOk, PlacesOk, FramesOk, CountsOk;
    var s' := Count(s, t, f);
    var x := s'.threads[t];
    FlightHere(c, s, t);
    LockNeutral(c, s.threads, s.lock, t, x);
    PlaceNeutral(s.threads, s.queue, s.loc, t, x);
    FrameNeutral(s.threads, s.free, s.own, s.cache, t, x);
    CountsMove(c, s.threads, t, x, |s.free|, s.size, |s.queue|, |s'.free|, s'.size, |s'.queue|);
    QuietKeeps(c, s, s', t, x.pc);
  }

  lemma RegetKeeps(c: Config, s: State, t: nat, f: nat)
    requires Fit(c) && Inv(c, s) && t in s.threads && s.threads[t].pc == AtReget(f) && s.threads[t].p in s.cache
    ensures Inv(c, Reget(s, t, f)) && Confined(s, Reget(s, t, f), t)
  {
    hide Contents, LocksOk, PlacesOk, FramesOk, CountsOk;
    var s' := Reget(s, t, f);
    var x := s'.threads[t];
    LockNeutral(c, s.threads, s.lock, t, x);
    PlaceNeutral(s.threads, s.queue, s.loc, t, x);
    FrameNeutral(s.threads, s.free, s.own, s.cache, t, x);
    CountsMove(c, s.threads, t, x, |s.free|, s.size, |s.queue|, |s'.free|, s'.size, |s'.queue|);
    QuietKeeps(c, s, s', t, x.pc);
  }

  lemma ClearCleanKeeps(c: Config, s: State, t: nat, q: int, f: nat, nonce: int)
    requires Fit(c) && Inv(c, s) && t in s.threads && s.threads[t].pc == AtClear(q, f) && f in s.frames &&
             !s.frames[f].dirty
    ensures Inv(c, ClearDirty(s, t, q, f, nonce)) && Confined(s, ClearDirty(s, t, q, f, nonce), t)
  {
    hide Contents, LocksOk, PlacesOk, FramesOk, CountsOk;
    var s' := ClearDirty(s, t, q, f, nonce);
    var x := s'.threads[t];
    FlightHere(c, s, t);
    LockNeutral(c, s.threads, s.lock, t, x);
    PlaceNeutral(s.threads, s.queue, s.loc, t, x);
    FrameNeutral(s.threads, s.free, s.own, s.cache, t, x);
    CountsMove(c, s.threads, t, x, |s.free|, s.size, |s.queue|, |s'.free|, s'.size, |s'.queue|);
    QuietKeeps(c, s, s', t, x.pc);
  }

  lemma AddHitKeeps(c: Config, s: State, t: nat, f: nat)
    requires Fit(c) && Inv(c, s) && t in s.threads && s.threads[t].pc == AtAdd(f) && s.threads[t].p in s.cache
    ensures Inv(c, Add(c, s, t, f)) && Confined(s, Add(c, s, t, f), t)
  {
    hide Contents, LocksOk, PlacesOk, FramesOk, CountsOk;
    var s' := Add(c, s, t, f);
    var x := s'.threads[t];
    LockNeutral(c, s.threads, s.lock, t, x);
    PlaceNeutral(s.threads, s.queue, s.loc, t, x);
    FrameNeutral(s.threads, s.free, s.own, s.cache, t, x);
    CountsMove(c, s.threads, t, x, |s.free|, s.size, |s.queue|, |s'.free|, s'.size, |s'.queue|);
    QuietKeeps(c, s, s', t, x.pc);
  }

  lemma LookupMissKeeps(c: Config, s: State, t: nat)
    requires Fit(c) && Inv(c, s) && t in s.threads && s.threads[t].pc.AtGet? && s.threads[t].a in s.aptrs &&
             s.threads[t].p !in s.cache
    ensures Inv(c, Lookup(s, t)) && Confined(s, Lookup(s, t), t)
  {
    hide Contents, LocksOk, PlacesOk, FramesOk, CountsOk;
    var s' := Lookup(s, t);
    var x := s'.threads[t];
    LockNeutral(c, s.threads, s.lock, t, x);
    PlaceNeutral(s.threads, s.queue, s.loc, t, x);
    FrameNeutral(s.threads, s.free, s.own, s.cache, t, x);
    CountsMove(c, s.threads, t, x, |s.free|, s.size, |s.queue|, |s'.free|, s'.size, |s'.queue|);
    QuietKeeps(c, s, s', t, x.pc);
  }

  // ---- steps that finish a fault ----

  /** Thread t leaves its fault with its Aptr linked to frame f. */
  ghost predicate Linking(s: State, s': State, t: nat, f: nat) {
    && t in s.threads && s'.threads == s.threads[t := s.threads[t].(pc := Idle)]
    && s.threads[t].a in s.aptrs
    && s'.aptrs == s.aptrs[s.threads[t].a := s.aptrs[s.threads[t].a].(link := Some(f))]
    && s'.refc == s.refc && s'.cache == s.cache && s'.frames == s.frames
    && s'.crypto == s.crypto && s'.ram == s.ram && s'.mem == s.mem
    && s'.own.Keys == s.own.Keys
    && (forall f | f in s.own :: s.own[f].Caching? ==> s'.own[f].Caching?)
    && !s.threads[t].pc.Idle? && !s.threads[t].pc.AtInc? && !s.threads[t].pc.AtSeal?
    && s.threads[t].p in s.cache && s.cache[s.threads[t].p] == f
  }

  lemma LinkShape(c: Config, s: State, s': State, t: nat, f: nat)
    requires Linking(s, s', t, f) && Shape(c, s)
    ensures Shape(c, s')
  {
    forall u | u in s'.threads ensures ThreadOk(c, s', u) {
      assert ThreadOk(c, s, u);
    }
  }

  lemma LinkPins(s: State, s': State, t: nat, f: nat)
    requires Linking(s, s', t, f) && Counted(s)
    ensures Counted(s')
  {
    forall p ensures Pins(s', p) == Pins(s, p) {}
  }

  lemma LinkAptrs(c: Config, s: State, s': State, t: nat, f: nat)
    requires Linking(s, s', t, f) && Shape(c, s) && AptrsOk(c, s)
    ensures AptrsOk(c, s')
  {
    forall a | a in s'.aptrs ensures AptrOk(c, s', a) {
      assert AptrOk(c, s, a) && ThreadOk(c, s, t);
      if a != s.threads[t].a {
        assert Faulting(s', a) == Faulting(s, a);
      }
    }
  }

  lemma LinkFlights(s: State, s': State, t: nat, f: nat)
    requires Linking(s, s', t, f) && FlightsOk(s)
    ensures FlightsOk(s')
  {
    forall u | u in s'.threads ensures FlightOk(s', u) {
      assert FlightOk(s, u);
    }
  }

  lemma LinkKeeps(c: Config, s: State, s': State, t: nat, f: nat)
    requires Linking(s, s', t, f) && Contents(c, s)
    ensures Contents(c, s')
  {
    LinkShape(c, s, s', t, f);
    LinkPins(s, s', t, f);
    LinkAptrs(c, s, s', t, f);
    LinkFlights(s, s', t, f);
    SameMemory(c, s, s', t, s.threads[t].(pc := Idle));
    hide Shape, Counted, AptrsOk, FlightsOk, MemoryOk;
  }

  lemma LookupHitKeeps(c: Config, s: State, t: nat)
    requires Fit(c) && Inv(c, s) && t in s.threads && s.threads[t].pc.AtGet? && s.threads[t].a in s.aptrs &&
             s.threads[t].p in s.cache
    ensures Inv(c, Lookup(s, t)) && Confined(s, Lookup(s, t), t)
  {
    hide Contents, LocksOk, PlacesOk, FramesOk, CountsOk;
    var s' := Lookup(s, t);
    var x := s'.threads[t];
    LockNeutral(c, s.threads, s.lock, t, x);
    PlaceNeutral(s.threads, s.queue, s.loc, t, x);
    FrameNeutral(s.threads, s.free, s.own, s.cache, t, x);
    CountsMove(c, s.threads, t, x, |s.free|, s.size, |s.queue|, |s'.free|, s'.size, |s'.queue|);
    LinkKeeps(c, s, s', t, s.cache[x.p]);
  }

  lemma EnqueueKeeps(c: Config, s: State, t: nat, f: nat)
    requires Fit(c) && Inv(c, s) && t in s.threads && s.threads[t].pc == AtEnqueue(f) && s.threads[t].a in s.aptrs
    ensures Inv(c, Enqueue(c, s, t, f)) && Confined(s, Enqueue(c, s, t, f), t)
  {
    hide Contents, LocksOk, PlacesOk, FramesOk, CountsOk;
    var s' := Enqueue(c, s, t, f);
    var x := s'.threads[t];
    FlightHere(c, s, t);
    LockGiven(c, s.threads, s.lock, t, x, x.p);
    PlacePut(s.threads, s.queue, s.loc, t, x, x.p);
    FrameNeutral(s.threads, s.free, s.own, s.cache, t, x);
    CountsMove(c, s.threads, t, x, |s.free|, s.size, |s.queue|, |s'.free|, s'.size, |s'.queue|);
    LinkKeeps(c, s, s', t, f);
  }

  lemma GiveBackKeeps(c: Config, s: State, t: nat, f: nat, found: nat)
    requires Fit(c) && Inv(c, s) && t in s.threads && s.threads[t].pc == AtReturn(f, found) && s.threads[t].a in s.aptrs
    ensures Inv(c, GiveBack(s, t, f, found)) && Confined(s, GiveBack(s, t, f, found), t)
  {
    hide Contents, LocksOk, PlacesOk, FramesOk, CountsOk;
    var s' := GiveBack(s, t, f, found);
    var x := s'.threads[t];
    FlightHere(c, s, t);
    LockNeutral(c, s.threads, s.lock, t, x);
    PlaceNeutral(s.threads, s.queue, s.loc, t, x);
    FramePushed(s.threads, s.free, s.own, s.cache, t, x, f);
    CountsMove(c, s.threads, t, x, |s.free|, s.size, |s.queue|, |s'.free|, s'.size, |s'.queue|);
    LinkKeeps(c, s, s', t, found);
  }
}
