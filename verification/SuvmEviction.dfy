// The steps of a fault that change reference counts or contents keep the
// invariant of the paging protocol.
module SuvmEviction {
  import opened Options
  import opened SuvmMachine
  import opened SuvmSteps
  import opened SuvmInvariant

  // ---- what keeps other threads away from a page or frame ----

  /** A page that is counted zero is no pinned Aptr's, and no thread that has
      counted its fault is on it. */
  lemma Unpinned(c: Config, s: State, q: int)
    requires Contents(c, s) && q in s.refc && s.refc[q] == 0
    ensures forall a | a in s.aptrs && s.aptrs[a].pin :: PageOf(s.aptrs[a]) != q
    ensures forall u | u in s.threads && !s.threads[u].pc.Idle? && !s.threads[u].pc.AtInc? :: s.threads[u].p != q
  {
    hide MemoryOk, FlightsOk, CleanOk;
    forall a | a in s.aptrs && s.aptrs[a].pin ensures PageOf(s.aptrs[a]) != q {
      assert PageOf(s.aptrs[a]) == q ==> a in Pins(s, q);
    }
    forall u | u in s.threads && !s.threads[u].pc.Idle? && !s.threads[u].pc.AtInc? ensures s.threads[u].p != q {
      assert ThreadOk(c, s, u) && AptrOk(c, s, s.threads[u].a);
    }
  }

  lemma OneHand(th: map<nat, Thread>, queue: seq<int>, loc: map<int, Place>, t: nat, q: int)
    requires PlacesOk(th, queue, loc) && t in th && PageInHand(th[t]) == Some(q)
    ensures forall u | u in th && u != t :: PageInHand(th[u]) != Some(q)
  {
  }

  lemma OneFrame(th: map<nat, Thread>, free: seq<nat>, own: map<nat, FrameOwner>, cache: map<int, nat>, q: int)
    requires FramesOk(th, free, own, cache) && q in cache
    ensures forall p | p in cache && p != q :: cache[p] != cache[q]
    ensures forall u | u in th :: FrameInHand(th[u]) != Some(cache[q])
    ensures cache[q] in own && own[cache[q]].Caching?
  {
  }

  // ---- counting the fault ----

  lemma IncrementShape(c: Config, s: State, t: nat)
    requires Shape(c, s) && AptrsOk(c, s) && t in s.threads && s.threads[t].pc.AtInc?
    requires s.threads[t].a in s.aptrs && s.threads[t].p in s.refc
    ensures Shape(c, Increment(s, t))
  {
    var s' := Increment(s, t);
    forall u | u in s'.threads ensures ThreadOk(c, s', u) {
      assert ThreadOk(c, s, u);
    }
  }

  lemma IncrementCounted(c: Config, s: State, t: nat)
    requires Shape(c, s) && AptrsOk(c, s) && Counted(s) && t in s.threads && s.threads[t].pc.AtInc?
    requires s.threads[t].a in s.aptrs && s.threads[t].p in s.refc && |Pins(s, s.threads[t].p)| < 255
    ensures Counted(Increment(s, t))
  {
    var s', a, p := Increment(s, t), s.threads[t].a, s.threads[t].p;
    assert ThreadOk(c, s, t) && AptrOk(c, s, a);
    forall q | q in s'.refc ensures s'.refc[q] == |Pins(s', q)| && |Pins(s', q)| <= 255 {
      if q == p {
        assert Pins(s', q) == Pins(s, q) + {a};
      } else {
        assert Pins(s', q) == Pins(s, q);
      }
    }
  }

  lemma IncrementAptrs(c: Config, s: State, t: nat)
    requires Shape(c, s) && AptrsOk(c, s) && t in s.threads && s.threads[t].pc.AtInc?
    requires s.threads[t].a in s.aptrs && s.threads[t].p in s.refc
    ensures AptrsOk(c, Increment(s, t))
  {
    var s' := Increment(s, t);
    assert ThreadOk(c, s, t);
    forall a | a in s'.aptrs ensures AptrOk(c, s', a) {
      assert AptrOk(c, s, a);
      assert Faulting(s', a) == Faulting(s, a);
    }
  }

  /** Evictors hold the bucket lock of their page, and the lock of p is free. */
  lemma IncrementFlights(c: Config, s: State, t: nat)
    requires Fit(c) && FlightsOk(s) && LocksOk(c, s.threads, s.lock) && t in s.threads && s.threads[t].pc.AtInc?
    requires s.threads[t].a in s.aptrs && s.threads[t].p in s.refc && LockFree(c, s, s.threads[t].p)
    ensures FlightsOk(Increment(s, t))
  {
    var s' := Increment(s, t);
    forall u | u in s'.threads ensures FlightOk(s', u) {
      assert FlightOk(s, u) && LockHeld(c, s.threads, s.lock, u);
    }
  }

  lemma IncrementContents(c: Config, s: State, t: nat)
    requires Fit(c) && Contents(c, s) && LocksOk(c, s.threads, s.lock) && t in s.threads && s.threads[t].pc.AtInc?
    requires s.threads[t].a in s.aptrs && s.threads[t].p in s.refc && LockFree(c, s, s.threads[t].p)
    requires |Pins(s, s.threads[t].p)| < 255
    ensures Contents(c, Increment(s, t))
  {
    IncrementShape(c, s, t);
    IncrementCounted(c, s, t);
    IncrementAptrs(c, s, t);
    IncrementFlights(c, s, t);
    SameMemory(c, s, Increment(s, t), t, s.threads[t].(pc := AtGet));
    hide Shape, Counted, AptrsOk, FlightsOk, MemoryOk;
  }

  lemma IncrementKeeps(c: Config, s: State, t: nat)
    requires Fit(c) && Inv(c, s) && t in s.threads && s.threads[t].pc.AtInc? && FaultEnabled(c, s, t) &&
             FaultSound(c, s, t)
    ensures Inv(c, Increment(s, t)) && Confined(s, Increment(s, t), t)
  {
    hide Contents, LocksOk, PlacesOk, FramesOk, CountsOk;
    var s' := Increment(s, t);
    var x := s'.threads[t];
    LockNeutral(c, s.threads, s.lock, t, x);
    PlaceNeutral(s.threads, s.queue, s.loc, t, x);
    FrameNeutral(s.threads, s.free, s.own, s.cache, t, x);
    CountsMove(c, s.threads, t, x, |s.free|, s.size, |s.queue|, |s'.free|, s'.size, |s'.queue|);
    IncrementContents(c, s, t);
  }

  // ---- clearing the dirty bit ----

  /** What an evictor of q from f can rely on. */
  ghost predicate SoleHolder(s: State, t: nat, q: int, f: nat) {
    && t in s.threads && q in s.refc && s.refc[q] == 0 && q in s.cache && s.cache[q] == f && f in s.frames
    && (forall a | a in s.aptrs && s.aptrs[a].pin :: PageOf(s.aptrs[a]) != q)
    && (forall u | u in s.threads && !s.threads[u].pc.Idle? && !s.threads[u].pc.AtInc? :: s.threads[u].p != q || u == t)
    && (forall u | u in s.threads && u != t :: PageInHand(s.threads[u]) != Some(q))
    && (forall p | p in s.cache && p != q :: s.cache[p] != f)
    && (forall u | u in s.threads :: FrameInHand(s.threads[u]) != Some(f))
    && f in s.own && s.own[f].Caching?
  }

  lemma EvictsAlone(c: Config, s: State, t: nat, q: int, f: nat)
    requires Fit(c) && Inv(c, s) && t in s.threads && PageInHand(s.threads[t]) == Some(q) && Evictable(s, q, f)
    ensures SoleHolder(s, t, q, f)
  {
    hide Contents, PlacesOk, FramesOk, LocksOk, CountsOk;
    Unpinned(c, s, q);
    OneHand(s.threads, s.queue, s.loc, t, q);
    OneFrame(s.threads, s.free, s.own, s.cache, q);
  }

  lemma ClearAptrs(c: Config, s: State, t: nat, q: int, f: nat, nonce: int)
    requires AptrsOk(c, s) && SoleHolder(s, t, q, f) && s.threads[t].pc == AtClear(q, f) && s.frames[f].dirty
    ensures AptrsOk(c, ClearDirty(s, t, q, f, nonce))
  {
    var s' := ClearDirty(s, t, q, f, nonce);
    forall a | a in s'.aptrs ensures AptrOk(c, s', a) {
      assert AptrOk(c, s, a);
      assert Faulting(s', a) == Faulting(s, a);
    }
  }

  lemma ClearShape(c: Config, s: State, t: nat, q: int, f: nat, nonce: int)
    requires Shape(c, s) && Counted(s) && CleanOk(s) && SoleHolder(s, t, q, f)
    requires s.threads[t].pc == AtClear(q, f) && s.frames[f].dirty
    ensures var s' := ClearDirty(s, t, q, f, nonce); Shape(c, s') && Counted(s') && CleanOk(s')
  {
    var s' := ClearDirty(s, t, q, f, nonce);
    forall u | u in s'.threads ensures ThreadOk(c, s', u) {
      assert ThreadOk(c, s, u);
    }
    SamePins(s, s');
  }

  lemma ClearFlights(c: Config, s: State, t: nat, q: int, f: nat, nonce: int)
    requires FlightsOk(s) && SoleHolder(s, t, q, f) && s.threads[t].pc == AtClear(q, f) && s.frames[f].dirty
    ensures FlightsOk(ClearDirty(s, t, q, f, nonce))
  {
    var s' := ClearDirty(s, t, q, f, nonce);
    forall u | u in s'.threads ensures FlightOk(s', u) {
      assert FlightOk(s, u);
    }
  }

  lemma SealingOf(s: State, s': State, t: nat, x: Thread, q: int)
    requires t in s.threads && s'.threads == s.threads[t := x]
    requires s.threads[t].pc.AtSeal? ==> s.threads[t].pc.q == q
    requires x.pc.AtSeal? ==> x.pc.q == q
    ensures forall p | p != q :: Sealing(s', p) == Sealing(s, p)
  {
    forall p | p != q ensures Sealing(s', p) == Sealing(s, p) {
      if Sealing(s, p) {
        var u :| u in s.threads && s.threads[u].pc.AtSeal? && s.threads[u].pc.q == p;
        assert s'.threads[u] == s.threads[u];
      }
      if Sealing(s', p) {
        var u :| u in s'.threads && s'.threads[u].pc.AtSeal? && s'.threads[u].pc.q == p;
        assert s'.threads[u] == s.threads[u];
      }
    }
  }

  lemma ClearMemory(c: Config, s: State, t: nat, q: int, f: nat, nonce: int)
    requires MemoryOk(c, s) && SoleHolder(s, t, q, f) && s.threads[t].pc == AtClear(q, f) && s.frames[f].dirty
    ensures MemoryOk(c, ClearDirty(s, t, q, f, nonce))
  {
    var s' := ClearDirty(s, t, q, f, nonce);
    SealingOf(s, s', t, s'.threads[t], q);
    assert Sealing(s', q) by { assert s'.threads[t].pc == AtSeal(q, f); }
    hide Sealing;
    forall p ensures PageOk(c, s', p) {
      assert PageOk(c, s, p);
    }
    forall u | u in s'.threads ensures LoadOk(c, s', u) {
      assert LoadOk(c, s, u);
      assert s'.threads[u].pc.AtAdd? ==> s'.threads[u].p != q && FrameInHand(s'.threads[u]) != Some(f);
    }
    forall p, off | (p, off) in s'.mem ensures ByteAt(c, s', p, off, s'.mem[(p, off)]) {
      assert ByteAt(c, s, p, off, s.mem[(p, off)]);
    }
  }

  lemma ClearContents(c: Config, s: State, t: nat, q: int, f: nat, nonce: int)
    requires Contents(c, s) && SoleHolder(s, t, q, f) && s.threads[t].pc == AtClear(q, f) && s.frames[f].dirty
    ensures Contents(c, ClearDirty(s, t, q, f, nonce))
  {
    assert f in s.frames && t in s.threads;
    hide Shape, Counted, AptrsOk, CleanOk, FlightsOk, MemoryOk, SoleHolder;
    ClearAptrs(c, s, t, q, f, nonce);
    ClearShape(c, s, t, q, f, nonce);
    ClearFlights(c, s, t, q, f, nonce);
    ClearMemory(c, s, t, q, f, nonce);
  }

  lemma ClearDirtyKeeps(c: Config, s: State, t: nat, q: int, f: nat, nonce: int)
    requires Fit(c) && Inv(c, s) && t in s.threads && s.threads[t].pc == AtClear(q, f) && f in s.frames &&
             s.frames[f].dirty
    ensures Inv(c, ClearDirty(s, t, q, f, nonce)) && Confined(s, ClearDirty(s, t, q, f, nonce), t)
  {
    hide Contents, SoleHolder, LocksOk, PlacesOk, FramesOk, CountsOk;
    var s' := ClearDirty(s, t, q, f, nonce);
    var x := s'.threads[t];
    FlightHere(c, s, t);
    EvictsAlone(c, s, t, q, f);
    LockNeutral(c, s.threads, s.lock, t, x);
    PlaceNeutral(s.threads, s.queue, s.loc, t, x);
    FrameNeutral(s.threads, s.free, s.own, s.cache, t, x);
    CountsMove(c, s.threads, t, x, |s.free|, s.size, |s.queue|, |s'.free|, s'.size, |s'.queue|);
    assert Contents(c, s') by {
      ClearContents(c, s, t, q, f, nonce);
    }
  }

  // ---- writing the page back ----

  lemma SealRest(c: Config, s: State, t: nat, q: int, f: nat)
    requires Shape(c, s) && Counted(s) && AptrsOk(c, s) && CleanOk(s) && FlightsOk(s)
    requires t in s.threads && s.threads[t].pc == AtSeal(q, f) && f in s.frames && q in s.crypto
    ensures var s' := Seal(c, s, t, q, f);
            Shape(c, s') && Counted(s') && AptrsOk(c, s') && CleanOk(s') && FlightsOk(s')
  {
    var s' := Seal(c, s, t, q, f);
    forall u | u in s'.threads ensures ThreadOk(c, s', u) {
      assert ThreadOk(c, s, u);
    }
    forall u | u in s'.threads ensures FlightOk(s', u) {
      assert FlightOk(s, u) && FlightOk(s, t);
    }
    forall a | a in s'.aptrs ensures AptrOk(c, s', a) {
      assert AptrOk(c, s, a);
      assert Faulting(s', a) == Faulting(s, a);
    }
    SamePins(s, s');
  }

  /** What the cipher gives back is the text of the frame. */
  lemma SealedText(c: Config, s: State, t: nat, q: int, f: nat)
    requires Fit(c) && SoleHolder(s, t, q, f) && s.threads[t].pc == AtSeal(q, f) && q in s.crypto
    ensures var s' := Seal(c, s, t, q, f);
            && Sealed(c, s', q) && Text(c, s', q) == s.frames[f].text
            && forall p :: Sealing(s', p) == if p == q then false else Sealing(s, p)
  {
    var s' := Seal(c, s, t, q, f);
    SealingOf(s, s', t, s'.threads[t], q);
    hide Sealing;
    var pt, n := s.frames[f].text, s.crypto[q].nonce;
    assert c.dec(c.enc(pt, n).0, n, c.enc(pt, n).1) == Some(pt);
  }

  lemma SealMemory(c: Config, s: State, t: nat, q: int, f: nat)
    requires Fit(c) && Shape(c, s) && MemoryOk(c, s) && SoleHolder(s, t, q, f)
    requires s.threads[t].pc == AtSeal(q, f) && q in s.crypto
    ensures MemoryOk(c, Seal(c, s, t, q, f))
  {
    hide Fit, Sealing;
    var s' := Seal(c, s, t, q, f);
    SealedText(c, s, t, q, f);
    forall p ensures PageOk(c, s', p) {
      assert PageOk(c, s, p);
    }
    forall u | u in s'.threads ensures LoadOk(c, s', u) {
      assert LoadOk(c, s, u);
      assert s'.threads[u].pc.AtAdd? ==> s'.threads[u].p != q;
    }
    forall p, off | (p, off) in s'.mem ensures ByteAt(c, s', p, off, s'.mem[(p, off)]) {
      assert ByteAt(c, s, p, off, s.mem[(p, off)]);
    }
  }

  lemma SealContents(c: Config, s: State, t: nat, q: int, f: nat)
    requires Fit(c) && Contents(c, s) && SoleHolder(s, t, q, f) && s.threads[t].pc == AtSeal(q, f) && q in s.crypto
    ensures Contents(c, Seal(c, s, t, q, f))
  {
    assert f in s.frames && t in s.threads;
    hide Shape, Counted, AptrsOk, CleanOk, FlightsOk, MemoryOk, SoleHolder;
    SealRest(c, s, t, q, f);
    SealMemory(c, s, t, q, f);
  }

  lemma SealKeeps(c: Config, s: State, t: nat, q: int, f: nat)
    requires Fit(c) && Inv(c, s) && t in s.threads && s.threads[t].pc == AtSeal(q, f) && f in s.frames && q in s.crypto
    ensures Inv(c, Seal(c, s, t, q, f)) && Confined(s, Seal(c, s, t, q, f), t)
  {
    hide Contents, SoleHolder, LocksOk, PlacesOk, FramesOk, CountsOk;
    var s' := Seal(c, s, t, q, f);
    var x := s'.threads[t];
    FlightHere(c, s, t);
    EvictsAlone(c, s, t, q, f);
    LockNeutral(c, s.threads, s.lock, t, x);
    PlaceNeutral(s.threads, s.queue, s.loc, t, x);
    FrameNeutral(s.threads, s.free, s.own, s.cache, t, x);
    CountsMove(c, s.threads, t, x, |s.free|, s.size, |s.queue|, |s'.free|, s'.size, |s'.queue|);
    SealContents(c, s, t, q, f);
  }

  // ---- taking the page out of the cache ----

  lemma UnlinkShape(c: Config, s: State, t: nat, q: int, f: nat)
    requires Fit(c) && Shape(c, s) && Counted(s) && CleanOk(s) && FlightsOk(s) && SoleHolder(s, t, q, f)
    requires s.threads[t].pc == AtUnlink(q, f)
    ensures var s' := Unlink(c, s, t, q, f); Shape(c, s') && Counted(s') && CleanOk(s')
  {
    var s' := Unlink(c, s, t, q, f);
    assert FlightOk(s, t);
    forall u | u in s'.threads ensures ThreadOk(c, s', u) {
      assert ThreadOk(c, s, u);
    }
    SamePins(s, s');
  }

  lemma UnlinkAptrs(c: Config, s: State, t: nat, q: int, f: nat)
    requires Fit(c) && AptrsOk(c, s) && SoleHolder(s, t, q, f) && s.threads[t].pc == AtUnlink(q, f)
    ensures AptrsOk(c, Unlink(c, s, t, q, f))
  {
    var s' := Unlink(c, s, t, q, f);
    forall a | a in s'.aptrs ensures AptrOk(c, s', a) {
      assert AptrOk(c, s, a);
      assert Faulting(s', a) == Faulting(s, a);
    }
  }

  lemma UnlinkFlights(c: Config, s: State, t: nat, q: int, f: nat)
    requires Fit(c) && FlightsOk(s) && SoleHolder(s, t, q, f) && s.threads[t].pc == AtUnlink(q, f)
    ensures FlightsOk(Unlink(c, s, t, q, f))
  {
    var s' := Unlink(c, s, t, q, f);
    forall u | u in s'.threads ensures FlightOk(s', u) {
      assert FlightOk(s, u);
      assert u != t ==> PageInHand(s.threads[u]) != Some(q);
    }
  }

  /** The page is clean and not being written back, so its stored text is current. */
  lemma UnlinkMemory(c: Config, s: State, t: nat, q: int, f: nat)
    requires Fit(c) && MemoryOk(c, s) && FlightsOk(s) && SoleHolder(s, t, q, f) && s.threads[t].pc == AtUnlink(q, f)
    ensures MemoryOk(c, Unlink(c, s, t, q, f))
  {
    var s' := Unlink(c, s, t, q, f);
    SameSealing(s, s', t, s'.threads[t]);
    assert !Sealing(s, q);
    assert FlightOk(s, t) && PageOk(c, s, q);
    hide Sealing;
    forall p ensures PageOk(c, s', p) {
      assert PageOk(c, s, p);
    }
    forall u | u in s'.threads ensures LoadOk(c, s', u) {
      assert LoadOk(c, s, u);
    }
    forall p, off | (p, off) in s'.mem ensures ByteAt(c, s', p, off, s'.mem[(p, off)]) {
      assert ByteAt(c, s, p, off, s.mem[(p, off)]);
    }
  }

  lemma UnlinkContents(c: Config, s: State, t: nat, q: int, f: nat)
    requires Fit(c) && Contents(c, s) && SoleHolder(s, t, q, f) && s.threads[t].pc == AtUnlink(q, f)
    ensures Contents(c, Unlink(c, s, t, q, f))
  {
    assert t in s.threads;
    hide Shape, Counted, AptrsOk, CleanOk, FlightsOk, MemoryOk, SoleHolder;
    UnlinkShape(c, s, t, q, f);
    UnlinkAptrs(c, s, t, q, f);
    UnlinkFlights(c, s, t, q, f);
    UnlinkMemory(c, s, t, q, f);
  }

  lemma UnlinkKeeps(c: Config, s: State, t: nat, q: int, f: nat)
    requires Fit(c) && Inv(c, s) && t in s.threads && s.threads[t].pc == AtUnlink(q, f)
    ensures Inv(c, Unlink(c, s, t, q, f)) && Confined(s, Unlink(c, s, t, q, f), t)
  {
    hide Contents, SoleHolder, LocksOk, PlacesOk, FramesOk, CountsOk;
    var s' := Unlink(c, s, t, q, f);
    var x := s'.threads[t];
    FlightHere(c, s, t);
    EvictsAlone(c, s, t, q, f);
    LockGiven(c, s.threads, s.lock, t, x, q);
    PlaceDropped(s.threads, s.queue, s.loc, t, x, q);
    FrameUncached(s.threads, s.free, s.own, s.cache, t, x, f, q);
    CountsMove(c, s.threads, t, x, |s.free|, s.size, |s.queue|, |s'.free|, s'.size, |s'.queue|);
    UnlinkContents(c, s, t, q, f);
  }
}
