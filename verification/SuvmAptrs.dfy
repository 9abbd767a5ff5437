// The steps that construct, copy, move, dereference, write through and destroy
// Aptrs keep the invariant of the paging protocol; so every run keeps it.
module SuvmAptrs {
  import opened Options
  import opened SuvmMachine
  import opened SuvmSteps
  import opened SuvmInvariant
  import opened SuvmEviction
  import opened SuvmLoading

  // ---- construct, copy, move, hint ----

  /** The Aptr a of an idle thread becomes y, with the same pin and link. */
  ghost predicate Reaimed(c: Config, s: State, s': State, a: nat, y: Aptr) {
    && s' == s.(aptrs := s.aptrs[a := y])
    && y.owner in s.threads && s.threads[y.owner].pc.Idle?
    && (a in s.aptrs ==>
          && y.owner == s.aptrs[a].owner && y.pin == s.aptrs[a].pin && y.link == s.aptrs[a].link
          && y.wr == s.aptrs[a].wr && PageOf(y) == PageOf(s.aptrs[a]))
    && (a !in s.aptrs ==> !y.pin && y.link.None? && !y.wr)
    && (y.link.None? ==> !InPage(c, y.offset))
  }

  lemma ReaimedAptrs(c: Config, s: State, s': State, a: nat, y: Aptr)
    requires Reaimed(c, s, s', a, y) && AptrsOk(c, s)
    ensures AptrsOk(c, s')
  {
    forall b | b in s'.aptrs ensures AptrOk(c, s', b) {
      assert b in s.aptrs ==> AptrOk(c, s, b);
      assert b != a ==> Faulting(s', b) == Faulting(s, b);
    }
  }

  lemma ReaimedRest(c: Config, s: State, s': State, a: nat, y: Aptr)
    requires Reaimed(c, s, s', a, y) && Shape(c, s) && Counted(s) && FlightsOk(s) && MemoryOk(c, s)
    ensures Shape(c, s') && Counted(s') && FlightsOk(s') && MemoryOk(c, s')
  {
    hide Sealing, Sealed, Text;
    forall u | u in s'.threads ensures ThreadOk(c, s', u) && FlightOk(s', u) {
      assert ThreadOk(c, s, u) && FlightOk(s, u);
    }
    forall p ensures Pins(s', p) == Pins(s, p) {}
    assert MemoryOk(c, s') by { UntouchedMemory(c, s, s'); }
  }

  /** The contents do not depend on Aptrs, counts, lists and locks. */
  lemma UntouchedMemory(c: Config, s: State, s': State)
    requires MemoryOk(c, s) && s'.threads == s.threads
    requires s'.cache == s.cache && s'.frames == s.frames && s'.crypto == s.crypto && s'.ram == s.ram && s'.mem == s.mem
    ensures MemoryOk(c, s')
  {
    forall p ensures Sealing(s', p) == Sealing(s, p) {}
    hide Sealing;
    forall p ensures PageOk(c, s', p) {
      assert PageOk(c, s, p);
    }
    forall u | u in s'.threads ensures LoadOk(c, s', u) {
      assert LoadOk(c, s, u);
    }
    forall p, off | (p, off) in s'.mem ensures ByteAt(c, s', p, off, s'.mem[(p, off)]) {
      assert ByteAt(c, s, p, off, s.mem[(p, off)]);
    }
  }

  lemma ReaimedKeeps(c: Config, s: State, s': State, a: nat, y: Aptr)
    requires Fit(c) && Inv(c, s) && Reaimed(c, s, s', a, y)
    ensures Inv(c, s')
  {
    ReaimedAptrs(c, s, s', a, y);
    ReaimedRest(c, s, s', a, y);
    hide Shape, Counted, AptrsOk, FlightsOk, MemoryOk, LocksOk, PlacesOk, FramesOk, CountsOk;
  }

  // ---- dereference and write ----

  /** The frame of a linked Aptr caches its page alone, and nobody evicts it. */
  ghost predicate LinkedAlone(s: State, a: nat) {
    && a in s.aptrs && s.aptrs[a].link.Some?
    && var p, f := PageOf(s.aptrs[a]), s.aptrs[a].link.value;
       && p in s.cache && s.cache[p] == f && f in s.frames && f in s.own && s.own[f].Caching?
       && p in s.refc && s.refc[p] > 0
       && (forall q | q in s.cache && q != p :: s.cache[q] != f)
       && (forall u | u in s.threads :: FrameInHand(s.threads[u]) != Some(f))
  }

  lemma PinnedIsCounted(c: Config, s: State, a: nat)
    requires Contents(c, s) && a in s.aptrs && s.aptrs[a].pin
    ensures PageOf(s.aptrs[a]) in s.refc && s.refc[PageOf(s.aptrs[a])] > 0
  {
    var p := PageOf(s.aptrs[a]);
    assert AptrOk(c, s, a);
    assert a in Pins(s, p);
  }

  lemma LinkIsAlone(c: Config, s: State, a: nat)
    requires Fit(c) && Inv(c, s) && a in s.aptrs && s.aptrs[a].link.Some?
    ensures LinkedAlone(s, a)
  {
    hide PlacesOk, FramesOk, LocksOk, CountsOk, MemoryOk, FlightsOk;
    assert AptrOk(c, s, a);
    PinnedIsCounted(c, s, a);
    OneFrame(s.threads, s.free, s.own, s.cache, PageOf(s.aptrs[a]));
    CachedFrame(c, s, PageOf(s.aptrs[a]));
  }

  /** The frame of the linked Aptr a gets new data g, and a is marked when w. */
  function Touched(s: State, a: nat, g: FrameData, w: bool): State
    requires a in s.aptrs && s.aptrs[a].link.Some?
  {
    s.(aptrs := s.aptrs[a := s.aptrs[a].(wr := w)], frames := s.frames[s.aptrs[a].link.value := g])
  }

  lemma TouchedAptrs(c: Config, s: State, a: nat, g: FrameData, w: bool)
    requires LinkedAlone(s, a) && Shape(c, s) && AptrsOk(c, s) && |g.text| == c.pageSize && g.dirty
    ensures Shape(c, Touched(s, a, g, w)) && AptrsOk(c, Touched(s, a, g, w))
  {
    var s' := Touched(s, a, g, w);
    forall u | u in s'.threads ensures ThreadOk(c, s', u) {
      assert ThreadOk(c, s, u);
    }
    forall b | b in s'.aptrs ensures AptrOk(c, s', b) {
      assert AptrOk(c, s, b);
      assert Faulting(s', b) == Faulting(s, b);
    }
  }

  lemma TouchedFlights(c: Config, s: State, a: nat, g: FrameData, w: bool)
    requires LinkedAlone(s, a) && Counted(s) && CleanOk(s) && FlightsOk(s)
    ensures var s' := Touched(s, a, g, w); Counted(s') && CleanOk(s') && FlightsOk(s')
  {
    var s' := Touched(s, a, g, w);
    forall p ensures Pins(s', p) == Pins(s, p) {}
    forall u | u in s'.threads ensures FlightOk(s', u) {
      assert FlightOk(s, u);
    }
  }

  lemma DerefMemory(c: Config, s: State, a: nat)
    requires LinkedAlone(s, a) && MemoryOk(c, s)
    ensures MemoryOk(c, Touched(s, a, s.frames[s.aptrs[a].link.value].(dirty := true), true))
  {
    var s' := Touched(s, a, s.frames[s.aptrs[a].link.value].(dirty := true), true);
    forall p ensures Sealing(s', p) == Sealing(s, p) {}
    hide Sealing;
    forall p ensures PageOk(c, s', p) {
      assert PageOk(c, s, p);
    }
    forall u | u in s'.threads ensures LoadOk(c, s', u) {
      assert LoadOk(c, s, u);
    }
    forall p, off | (p, off) in s'.mem ensures ByteAt(c, s', p, off, s'.mem[(p, off)]) {
      assert ByteAt(c, s, p, off, s.mem[(p, off)]);
    }
  }

  lemma DerefKeeps(c: Config, s: State, t: nat, a: nat)
    requires Fit(c) && Inv(c, s) && Enabled(c, s, Deref(t, a)) && Sound(c, s, Deref(t, a))
    ensures Inv(c, Apply(c, s, Deref(t, a)))
  {
    var f := s.aptrs[a].link.value;
    if s.aptrs[a].hint {
      LinkIsAlone(c, s, a);
      var g := s.frames[f].(dirty := true);
      assert Apply(c, s, Deref(t, a)) == Touched(s, a, g, true);
      TouchedAptrs(c, s, a, g, true);
      TouchedFlights(c, s, a, g, true);
      DerefMemory(c, s, a);
      hide Shape, Counted, AptrsOk, CleanOk, FlightsOk, MemoryOk, LocksOk, PlacesOk, FramesOk, CountsOk;
    }
  }

  lemma WriteMemory(c: Config, s: State, s': State, a: nat, off: int, v: int)
    requires LinkedAlone(s, a) && MemoryOk(c, s) && 0 <= PageOf(s.aptrs[a]) < c.npages
    requires s.frames[s.aptrs[a].link.value].dirty && 0 <= off < |s.frames[s.aptrs[a].link.value].text|
    requires var x := s.frames[s.aptrs[a].link.value];
             s' == Touched(s, a, x.(text := x.text[off := v]), s.aptrs[a].wr)
                    .(mem := s.mem[(PageOf(s.aptrs[a]), off) := v])
    ensures MemoryOk(c, s')
  {
    forall p ensures Sealing(s', p) == Sealing(s, p) {}
    hide Sealing;
    forall p ensures PageOk(c, s', p) {
      assert PageOk(c, s, p);
    }
    forall u | u in s'.threads ensures LoadOk(c, s', u) {
      assert LoadOk(c, s, u);
    }
    forall p, o | (p, o) in s'.mem ensures ByteAt(c, s', p, o, s'.mem[(p, o)]) {
      assert (p, o) in s.mem ==> ByteAt(c, s, p, o, s.mem[(p, o)]);
    }
  }

  /** A pointer for writing leads into a dirty frame of one page's size. */
  lemma Writable(c: Config, s: State, a: nat)
    requires Contents(c, s) && a in s.aptrs && s.aptrs[a].wr
    ensures s.aptrs[a].link.Some? && 0 <= PageOf(s.aptrs[a]) < c.npages
    ensures var f := s.aptrs[a].link.value; f in s.frames && s.frames[f].dirty && |s.frames[f].text| == c.pageSize
  {
    assert AptrOk(c, s, a);
  }

  lemma WriteContents(c: Config, s: State, s': State, a: nat, off: int, v: int)
    requires LinkedAlone(s, a) && Contents(c, s) && s.aptrs[a].wr && InPage(c, off)
    requires s.aptrs[a].link.value in s.frames && off < |s.frames[s.aptrs[a].link.value].text|
    requires var f := s.aptrs[a].link.value;
             s' == s.(frames := s.frames[f := s.frames[f].(text := s.frames[f].text[off := v])],
                      mem := s.mem[(PageOf(s.aptrs[a]), off) := v])
    ensures Contents(c, s')
  {
    Writable(c, s, a);
    assert a in s.aptrs && s.aptrs[a].link.Some?;
    hide Shape, Counted, AptrsOk, CleanOk, FlightsOk, MemoryOk, LinkedAlone;
    var f := s.aptrs[a].link.value;
    var g := s.frames[f].(text := s.frames[f].text[off := v]);
    var s1 := Touched(s, a, g, true);
    assert s1.aptrs == s.aptrs;
    assert s' == s1.(mem := s'.mem);
    TouchedAptrs(c, s, a, g, true);
    TouchedFlights(c, s, a, g, true);
    WriteMemory(c, s, s', a, off, v);
    Remembered(c, s1, s');
  }

  lemma WriteKeeps(c: Config, s: State, t: nat, a: nat, off: int, v: int)
    requires Fit(c) && Inv(c, s) && Enabled(c, s, Write(t, a, off, v)) && Sound(c, s, Write(t, a, off, v))
    ensures Inv(c, Apply(c, s, Write(t, a, off, v)))
  {
    hide Contents, LinkedAlone, LocksOk, PlacesOk, FramesOk, CountsOk;
    LinkIsAlone(c, s, a);
    WriteContents(c, s, Apply(c, s, Write(t, a, off, v)), a, off, v);
  }

  /** Only the contents part of the invariant speaks of the bytes written. */
  lemma Remembered(c: Config, s: State, s': State)
    requires s' == s.(mem := s'.mem)
    requires Shape(c, s) && Counted(s) && AptrsOk(c, s) && CleanOk(s) && FlightsOk(s) && MemoryOk(c, s')
    ensures Contents(c, s')
  {
    hide MemoryOk;
    forall u | u in s'.threads ensures ThreadOk(c, s', u) && FlightOk(s', u) {
      assert ThreadOk(c, s, u) && FlightOk(s, u);
    }
    forall b | b in s'.aptrs ensures AptrOk(c, s', b) {
      assert AptrOk(c, s, b);
      assert Faulting(s', b) == Faulting(s, b);
    }
    SamePins(s, s');
  }

  // ---- giving up a link ----

  /** Aptr a is gone, or is the shifted Aptr y of its thread's new fault, and
      its pin is given back. */
  ghost predicate DropsTo(c: Config, s: State, s': State, a: nat) {
    && a in s.aptrs && (s.aptrs[a].pin ==> PageOf(s.aptrs[a]) in s.refc)
    && s.aptrs[a].owner in s.threads && s.threads[s.aptrs[a].owner].pc.Idle?
    && s'.refc == Dropped(s, s.aptrs[a])
    && (forall b | b != a :: b in s'.aptrs <==> b in s.aptrs)
    && (forall b | b != a && b in s.aptrs :: s'.aptrs[b] == s.aptrs[b])
    && (a in s'.aptrs ==> !s'.aptrs[a].pin)
  }

  lemma DropCounted(c: Config, s: State, s': State, a: nat)
    requires DropsTo(c, s, s', a) && Counted(s)
    ensures Counted(s')
    ensures forall p | p in s.refc && s.refc[p] == 0 :: s'.refc[p] == 0
  {
    var x := s.aptrs[a];
    forall p | p in s'.refc ensures s'.refc[p] == |Pins(s', p)| && |Pins(s', p)| <= 255 {
      if x.pin && PageOf(x) == p {
        assert Pins(s', p) == Pins(s, p) - {a};
      } else {
        assert Pins(s', p) == Pins(s, p);
      }
    }
    assert x.pin ==> a in Pins(s, PageOf(x));
  }

  lemma DropFlights(c: Config, s: State, s': State)
    requires FlightsOk(s) && (forall p | p in s.refc && s.refc[p] == 0 :: p in s'.refc && s'.refc[p] == 0)
    requires s'.threads.Keys == s.threads.Keys
    requires forall u | u in s.threads :: s'.threads[u] == s.threads[u] || s'.threads[u].pc.AtInc?
    requires s'.cache == s.cache && s'.frames == s.frames && s'.crypto == s.crypto
    ensures FlightsOk(s')
  {
    forall u | u in s'.threads ensures FlightOk(s', u) {
      assert FlightOk(s, u);
    }
  }

  lemma DestroyContents(c: Config, s: State, a: nat)
    requires Contents(c, s) && a in s.aptrs && (s.aptrs[a].pin ==> PageOf(s.aptrs[a]) in s.refc)
    requires s.aptrs[a].owner in s.threads && s.threads[s.aptrs[a].owner].pc.Idle?
    ensures Contents(c, s.(aptrs := s.aptrs - {a}, refc := Dropped(s, s.aptrs[a])))
  {
    var s' := s.(aptrs := s.aptrs - {a}, refc := Dropped(s, s.aptrs[a]));
    hide MemoryOk;
    DropCounted(c, s, s', a);
    DropFlights(c, s, s');
    UntouchedMemory(c, s, s');
    hide Counted, FlightsOk;
    DestroyShape(c, s, a);
  }

  lemma DestroyShape(c: Config, s: State, a: nat)
    requires Shape(c, s) && AptrsOk(c, s) && a in s.aptrs && (s.aptrs[a].pin ==> PageOf(s.aptrs[a]) in s.refc)
    requires s.aptrs[a].owner in s.threads && s.threads[s.aptrs[a].owner].pc.Idle?
    ensures var s' := s.(aptrs := s.aptrs - {a}, refc := Dropped(s, s.aptrs[a])); Shape(c, s') && AptrsOk(c, s')
  {
    var s' := s.(aptrs := s.aptrs - {a}, refc := Dropped(s, s.aptrs[a]));
    forall u | u in s'.threads ensures ThreadOk(c, s', u) {
      assert ThreadOk(c, s, u);
    }
    forall b | b in s'.aptrs ensures AptrOk(c, s', b) {
      assert AptrOk(c, s, b);
      assert Faulting(s', b) == Faulting(s, b);
    }
  }

  lemma DestroyKeeps(c: Config, s: State, t: nat, a: nat)
    requires Fit(c) && Inv(c, s) && Enabled(c, s, Destroy(t, a))
    ensures Inv(c, Apply(c, s, Destroy(t, a)))
  {
    hide Contents, LocksOk, PlacesOk, FramesOk, CountsOk;
    DestroyContents(c, s, a);
  }

  lemma BeginContents(c: Config, s: State, t: nat, a: nat)
    requires Fit(c) && a in s.aptrs && Contents(c, s) && Enabled(c, s, BeginFault(t, a))
    ensures Contents(c, Begun(c, s, t, a))
  {
    var s' := Begun(c, s, t, a);
    hide MemoryOk;
    DropCounted(c, s, s', a);
    DropFlights(c, s, s');
    SameMemory(c, s, s', t, s'.threads[t]);
    hide Counted, FlightsOk;
    BeginShape(c, s, t, a);
  }

  lemma BeginShape(c: Config, s: State, t: nat, a: nat)
    requires Fit(c) && a in s.aptrs && Shape(c, s) && AptrsOk(c, s) && Enabled(c, s, BeginFault(t, a))
    ensures var s' := Begun(c, s, t, a); Shape(c, s') && AptrsOk(c, s')
  {
    var s' := Begun(c, s, t, a);
    forall u | u in s'.threads ensures ThreadOk(c, s', u) {
      assert ThreadOk(c, s, u);
    }
    forall b | b in s'.aptrs ensures AptrOk(c, s', b) {
      assert AptrOk(c, s, b);
      assert b != a ==> Faulting(s', b) == Faulting(s, b);
    }
  }

  lemma BeginKeeps(c: Config, s: State, t: nat, a: nat)
    requires Fit(c) && a in s.aptrs && Enabled(c, s, BeginFault(t, a))
    requires Inv(c, s)
    ensures Inv(c, Begun(c, s, t, a))
  {
    hide Contents, LocksOk, PlacesOk, FramesOk, CountsOk;
    var x := Begun(c, s, t, a).threads[t];
    LockNeutral(c, s.threads, s.lock, t, x);
    PlaceNeutral(s.threads, s.queue, s.loc, t, x);
    FrameNeutral(s.threads, s.free, s.own, s.cache, t, x);
    CountsMove(c, s.threads, t, x, |s.free|, s.size, |s.queue|, |s.free|, s.size, |s.queue|);
    BeginContents(c, s, t, a);
  }

  // ---- every step ----

  lemma ReaimingKeeps(c: Config, s: State, step: Step)
    requires Fit(c) && Inv(c, s) && Enabled(c, s, step) && Sound(c, s, step)
    requires step.Construct? || step.Copy? || step.Hint? || step.Move?
    ensures Inv(c, Apply(c, s, step))
  {
    hide Inv;
    var s' := Apply(c, s, step);
    match step
    case Construct(t, a, x) => ReaimedKeeps(c, s, s', a, s'.aptrs[a]);
    case Copy(t, a, src) => ReaimedKeeps(c, s, s', a, s'.aptrs[a]);
    case Hint(t, a, h) => LinkedOffset(c, s, a); ReaimedKeeps(c, s, s', a, s'.aptrs[a]);
    case Move(t, a, d) => ReaimedKeeps(c, s, s', a, s'.aptrs[a]);
  }

  lemma LinkedOffset(c: Config, s: State, a: nat)
    requires Fit(c) && Inv(c, s) && a in s.aptrs && s.aptrs[a].owner in s.threads &&
             s.threads[s.aptrs[a].owner].pc.Idle?
    ensures s.aptrs[a].link.None? ==> !InPage(c, s.aptrs[a].offset)
  {
    assert AptrOk(c, s, a);
  }

  lemma StepKeeps(c: Config, s: State, step: Step)
    requires Fit(c) && Inv(c, s) && Enabled(c, s, step) && Sound(c, s, step)
    ensures Inv(c, Apply(c, s, step))
  {
    hide Inv;
    match step
    case Destroy(t, a) => DestroyKeeps(c, s, t, a);
    case Deref(t, a) => DerefKeeps(c, s, t, a);
    case Write(t, a, off, v) => WriteKeeps(c, s, t, a, off, v);
    case BeginFault(t, a) => BeginKeeps(c, s, t, a);
    case Fault(t, nonce) => FaultKeeps(c, s, t, nonce);
    case _ => ReaimingKeeps(c, s, step);
  }
}
