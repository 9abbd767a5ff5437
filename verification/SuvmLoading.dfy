// The steps that fill a frame and add it to the page cache keep the invariant
// of the paging protocol.
module SuvmLoading {
  import opened Options
  import opened SuvmMachine
  import opened SuvmSteps
  import opened SuvmInvariant
  import opened SuvmEviction

  /** A frame in a thread's hands is cached nowhere and in no other's hands. */
  ghost predicate InOneHand(s: State, t: nat, f: nat) {
    && t in s.threads && f in s.own && !s.own[f].Caching?
    && (forall p | p in s.cache :: s.cache[p] != f)
    && (forall u | u in s.threads && u != t :: FrameInHand(s.threads[u]) != Some(f))
  }

  lemma HandsApart(s: State, t: nat, f: nat)
    requires FramesOk(s.threads, s.free, s.own, s.cache) && t in s.threads && FrameInHand(s.threads[t]) == Some(f)
    ensures InOneHand(s, t, f)
  {
  }

  /** The page of a counted fault is not being written back. */
  lemma PinnedNotSealing(c: Config, s: State, t: nat)
    requires Contents(c, s) && t in s.threads && !s.threads[t].pc.Idle? && !s.threads[t].pc.AtInc?
    ensures s.threads[t].p in s.refc && s.refc[s.threads[t].p] > 0 && !Sealing(s, s.threads[t].p)
  {
    var p := s.threads[t].p;
    assert ThreadOk(c, s, t);
    assert s.refc[p] > 0 by {
      if s.refc[p] == 0 {
        Unpinned(c, s, p);
        assert false;
      }
      CountNatural(c, s, p);
    }
    forall u | u in s.threads ensures !(s.threads[u].pc.AtSeal? && s.threads[u].pc.q == p) {
      assert FlightOk(s, u);
    }
  }

  // ---- filling the frame ----

  lemma LoadShape(c: Config, s: State, t: nat, f: nat)
    requires Shape(c, s) && Counted(s) && CleanOk(s) && t in s.threads && s.threads[t].pc == AtLoad(f) && f in s.frames
    requires var p := s.threads[t].p; p in s.crypto ==> Sealed(c, s, p) && |Text(c, s, p)| == c.pageSize
    ensures var s' := Load(c, s, t, f); Shape(c, s') && Counted(s') && CleanOk(s')
  {
    var s' := Load(c, s, t, f);
    hide Sealed, Text;
    forall u | u in s'.threads ensures ThreadOk(c, s', u) {
      assert ThreadOk(c, s, u);
    }
    SamePins(s, s');
  }

  lemma LoadAptrs(c: Config, s: State, t: nat, f: nat)
    requires AptrsOk(c, s) && t in s.threads && s.threads[t].pc == AtLoad(f) && f in s.frames
    requires var p := s.threads[t].p; p in s.crypto ==> Sealed(c, s, p)
    ensures AptrsOk(c, Load(c, s, t, f))
  {
    var s' := Load(c, s, t, f);
    hide Sealed, Text;
    forall a | a in s'.aptrs ensures AptrOk(c, s', a) {
      assert AptrOk(c, s, a);
      assert Faulting(s', a) == Faulting(s, a);
    }
  }

  lemma LoadFlights(c: Config, s: State, t: nat, f: nat)
    requires FlightsOk(s) && t in s.threads && s.threads[t].pc == AtLoad(f) && f in s.frames
    requires var p := s.threads[t].p; p in s.crypto ==> Sealed(c, s, p)
    ensures FlightsOk(Load(c, s, t, f))
  {
    var s' := Load(c, s, t, f);
    hide Sealed, Text;
    forall u | u in s'.threads ensures FlightOk(s', u) {
      assert FlightOk(s, u);
    }
  }

  lemma LoadMemory(c: Config, s: State, t: nat, f: nat)
    requires MemoryOk(c, s) && InOneHand(s, t, f) && s.threads[t].pc == AtLoad(f) && f in s.frames
    requires var p := s.threads[t].p; p in s.crypto ==> Sealed(c, s, p)
    ensures MemoryOk(c, Load(c, s, t, f))
  {
    var s' := Load(c, s, t, f);
    SameSealing(s, s', t, s'.threads[t]);
    hide Sealing;
    forall p ensures PageOk(c, s', p) {
      assert PageOk(c, s, p);
    }
    forall u | u in s'.threads ensures LoadOk(c, s', u) {
      assert LoadOk(c, s, u);
      assert u != t ==> FrameInHand(s.threads[u]) != Some(f);
    }
    forall p, off | (p, off) in s'.mem ensures ByteAt(c, s', p, off, s'.mem[(p, off)]) {
      assert ByteAt(c, s, p, off, s.mem[(p, off)]);
    }
  }

  lemma LoadContents(c: Config, s: State, t: nat, f: nat)
    requires Contents(c, s) && InOneHand(s, t, f) && s.threads[t].pc == AtLoad(f) && f in s.frames
    ensures s.threads[t].p in s.crypto ==> Sealed(c, s, s.threads[t].p)
    ensures Contents(c, Load(c, s, t, f))
  {
    assert t in s.threads;
    PinnedNotSealing(c, s, t);
    assert PageOk(c, s, s.threads[t].p);
    hide Shape, Counted, AptrsOk, CleanOk, FlightsOk, MemoryOk, InOneHand, Sealed, Text, Sealing;
    LoadShape(c, s, t, f);
    LoadAptrs(c, s, t, f);
    LoadFlights(c, s, t, f);
    LoadMemory(c, s, t, f);
  }

  lemma LoadKeeps(c: Config, s: State, t: nat, f: nat)
    requires Fit(c) && Inv(c, s) && t in s.threads && s.threads[t].pc == AtLoad(f) && f in s.frames
    requires s.threads[t].p in s.crypto ==> Sealed(c, s, s.threads[t].p)
    ensures Inv(c, Load(c, s, t, f)) && Confined(s, Load(c, s, t, f), t)
  {
    hide Sealed, Text, InOneHand, Contents, LocksOk, PlacesOk, FramesOk, CountsOk;
    var s' := Load(c, s, t, f);
    var x := s'.threads[t];
    HandsApart(s, t, f);
    LockNeutral(c, s.threads, s.lock, t, x);
    PlaceNeutral(s.threads, s.queue, s.loc, t, x);
    FrameNeutral(s.threads, s.free, s.own, s.cache, t, x);
    CountsMove(c, s.threads, t, x, |s.free|, s.size, |s.queue|, |s'.free|, s'.size, |s'.queue|);
    LoadContents(c, s, t, f);
  }

  // ---- adding the page ----

  lemma AddShape(c: Config, s: State, t: nat, f: nat)
    requires Fit(c) && Shape(c, s) && Counted(s) && CleanOk(s) && InOneHand(s, t, f)
    requires s.threads[t].pc == AtAdd(f) && s.threads[t].p !in s.cache
    ensures var s' := Add(c, s, t, f); Shape(c, s') && Counted(s') && CleanOk(s')
  {
    var s' := Add(c, s, t, f);
    assert ThreadOk(c, s, t);
    forall u | u in s'.threads ensures ThreadOk(c, s', u) {
      assert ThreadOk(c, s, u);
    }
    SamePins(s, s');
  }

  lemma AddAptrs(c: Config, s: State, t: nat, f: nat)
    requires Fit(c) && AptrsOk(c, s) && t in s.threads && s.threads[t].pc == AtAdd(f) && s.threads[t].p !in s.cache
    ensures AptrsOk(c, Add(c, s, t, f))
  {
    var s' := Add(c, s, t, f);
    forall a | a in s'.aptrs ensures AptrOk(c, s', a) {
      assert AptrOk(c, s, a);
      assert Faulting(s', a) == Faulting(s, a);
    }
  }

  lemma AddFlights(c: Config, s: State, t: nat, f: nat)
    requires Fit(c) && FlightsOk(s) && t in s.threads && s.threads[t].pc == AtAdd(f) && s.threads[t].p !in s.cache
    ensures FlightsOk(Add(c, s, t, f))
  {
    var s' := Add(c, s, t, f);
    forall u | u in s'.threads ensures FlightOk(s', u) {
      assert FlightOk(s, u);
    }
  }

  lemma AddMemory(c: Config, s: State, t: nat, f: nat)
    requires Fit(c) && MemoryOk(c, s) && t in s.threads && s.threads[t].pc == AtAdd(f) && f in s.frames
    requires s.threads[t].p !in s.cache && !Sealing(s, s.threads[t].p)
    ensures MemoryOk(c, Add(c, s, t, f))
  {
    var s' := Add(c, s, t, f);
    SameSealing(s, s', t, s'.threads[t]);
    assert LoadOk(c, s, t);
    hide Sealing;
    forall p ensures PageOk(c, s', p) {
      assert PageOk(c, s, p);
    }
    forall u | u in s'.threads ensures LoadOk(c, s', u) {
      assert LoadOk(c, s, u);
    }
    forall p, off | (p, off) in s'.mem ensures ByteAt(c, s', p, off, s'.mem[(p, off)]) {
      assert ByteAt(c, s, p, off, s.mem[(p, off)]);
    }
  }

  lemma AddContents(c: Config, s: State, t: nat, f: nat)
    requires Fit(c) && Contents(c, s) && InOneHand(s, t, f) && s.threads[t].pc == AtAdd(f) && s.threads[t].p !in s.cache
    ensures Contents(c, Add(c, s, t, f))
  {
    assert t in s.threads && f in s.frames;
    PinnedNotSealing(c, s, t);
    hide Shape, Counted, AptrsOk, CleanOk, FlightsOk, MemoryOk, InOneHand, Sealing;
    AddShape(c, s, t, f);
    AddAptrs(c, s, t, f);
    AddFlights(c, s, t, f);
    AddMemory(c, s, t, f);
  }

  lemma AddMissKeeps(c: Config, s: State, t: nat, f: nat)
    requires Fit(c) && Inv(c, s) && t in s.threads && s.threads[t].pc == AtAdd(f) &&
             LockFree(c, s, s.threads[t].p) && s.threads[t].p !in s.cache
    ensures Inv(c, Add(c, s, t, f)) && Confined(s, Add(c, s, t, f), t)
  {
    hide InOneHand, Contents, LocksOk, PlacesOk, FramesOk, CountsOk;
    var s' := Add(c, s, t, f);
    var x := s'.threads[t];
    HandsApart(s, t, f);
    LockTaken(c, s.threads, s.lock, t, x, x.p);
    PlaceAdded(s.threads, s.queue, s.loc, t, x, x.p);
    FrameCached(s.threads, s.free, s.own, s.cache, t, x, f, x.p);
    CountsMove(c, s.threads, t, x, |s.free|, s.size, |s.queue|, |s'.free|, s'.size, |s'.queue|);
    AddContents(c, s, t, f);
  }

  // ---- every step of a fault ----

  lemma EvictKeeps(c: Config, s: State, t: nat, nonce: int)
    requires Fit(c) && Inv(c, s) && FaultEnabled(c, s, t) && FaultSound(c, s, t) && MakesRoom(s.threads[t].pc)
    ensures Inv(c, EvictStep(c, s, t, nonce)) && Confined(s, EvictStep(c, s, t, nonce), t)
  {
    hide Inv, Confined;
    match s.threads[t].pc
    case AtDequeue => DequeueKeeps(c, s, t);
    case AtLock(q) => LockBucketKeeps(c, s, t, q);
    case AtCheck(q) => if s.refc[q] > 0 { CheckPinnedKeeps(c, s, t, q); } else { CheckUnpinnedKeeps(c, s, t, q); }
    case AtRequeue(q) => RequeueKeeps(c, s, t, q);
    case AtClear(q, f) =>
      if s.frames[f].dirty { ClearDirtyKeeps(c, s, t, q, f, nonce); } else { ClearCleanKeeps(c, s, t, q, f, nonce); }
    case AtSeal(q, f) => SealKeeps(c, s, t, q, f);
    case AtUncount(q, f) => UncountKeeps(c, s, t, q, f);
    case AtUnlink(q, f) => UnlinkKeeps(c, s, t, q, f);
    case AtPush(f) => PushKeeps(c, s, t, f);
  }

  lemma FillKeeps(c: Config, s: State, t: nat)
    requires Fit(c) && Inv(c, s) && FaultEnabled(c, s, t) && FaultSound(c, s, t) && !MakesRoom(s.threads[t].pc)
    ensures Inv(c, FillStep(c, s, t)) && Confined(s, FillStep(c, s, t), t)
  {
    hide Inv, Confined;
    match s.threads[t].pc
    case AtInc => IncrementKeeps(c, s, t);
    case AtGet => if s.threads[t].p in s.cache { LookupHitKeeps(c, s, t); } else { LookupMissKeeps(c, s, t); }
    case AtTest => TestKeeps(c, s, t);
    case AtPop => PopKeeps(c, s, t);
    case AtLoad(f) => LoadKeeps(c, s, t, f);
    case AtAdd(f) => if s.threads[t].p in s.cache { AddHitKeeps(c, s, t, f); } else { AddMissKeeps(c, s, t, f); }
    case AtCount(f) => CountKeeps(c, s, t, f);
    case AtEnqueue(f) => EnqueueKeeps(c, s, t, f);
    case AtReget(f) => RegetKeeps(c, s, t, f);
    case AtReturn(f, found) => GiveBackKeeps(c, s, t, f, found);
  }

  lemma FaultKeeps(c: Config, s: State, t: nat, nonce: int)
    requires Fit(c) && Inv(c, s) && FaultEnabled(c, s, t) && FaultSound(c, s, t)
    ensures Inv(c, FaultStep(c, s, t, nonce)) && Confined(s, FaultStep(c, s, t, nonce), t)
  {
    hide Inv, Confined, EvictStep, FillStep;
    if MakesRoom(s.threads[t].pc) { EvictKeeps(c, s, t, nonce); } else { FillKeeps(c, s, t); }
  }
}
