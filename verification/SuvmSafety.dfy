// What the paging protocol guarantees in every state that any interleaving of
// any number of steps can reach.
module SuvmSafety {
  import opened Options
  import opened SuvmMachine
  import opened SuvmSteps
  import opened SuvmInvariant
  import opened SuvmEviction
  import opened SuvmLoading
  import opened SuvmAptrs

  // ---- no assertion fails ----

  lemma InWith(th: map<nat, Thread>, t: nat, kind: Pc -> bool)
    requires t in th && kind(th[t].pc)
    ensures |With(th, kind)| > 0
  {
    assert t in With(th, kind);
  }

  lemma CountsAreSound(c: Config, s: State, t: nat)
    requires CountsOk(c, s.threads, |s.free|, s.size, |s.queue|) && t in s.threads
    ensures s.threads[t].pc.AtDequeue? ==> s.queue != []
    ensures s.threads[t].pc.AtPop? ==> s.free != []
    ensures s.threads[t].pc.AtRequeue? || s.threads[t].pc.AtEnqueue? ==> |s.queue| < c.cap
  {
    hide With;
    if s.threads[t].pc.AtDequeue? { InWith(s.threads, t, WillDequeue); }
    if s.threads[t].pc.AtPop? { InWith(s.threads, t, WillPop); }
    if HoldsPage(s.threads[t].pc) { InWith(s.threads, t, HoldsPage); }
  }

  lemma HandsAreSound(c: Config, s: State, t: nat)
    requires Fit(c) && Inv(c, s) && t in s.threads
    ensures s.threads[t].pc.AtCheck? ==> s.threads[t].pc.q in s.cache && s.threads[t].pc.q in s.refc
    ensures s.threads[t].pc.AtLoad? ==> s.threads[t].pc.f in s.frames && !s.frames[s.threads[t].pc.f].dirty
  {
    hide MemoryOk, Counted, AptrsOk, LocksOk, CountsOk, FlightsOk;
    assert PageInHand(s.threads[t]).Some? ==> PageInHand(s.threads[t]).value in s.loc.Keys;
  }

  lemma LoadIsSound(c: Config, s: State, t: nat)
    requires Contents(c, s) && t in s.threads && s.threads[t].pc.AtLoad? && s.threads[t].p in s.crypto
    ensures Sealed(c, s, s.threads[t].p)
  {
    PinnedNotSealing(c, s, t);
    assert PageOk(c, s, s.threads[t].p);
  }

  lemma FaultIsSound(c: Config, s: State, t: nat)
    requires Fit(c) && Inv(c, s) && t in s.threads && s.threads[t].a in s.aptrs
    ensures FaultSound(c, s, t)
  {
    CountsAreSound(c, s, t);
    HandsAreSound(c, s, t);
    FlightHere(c, s, t);
    if s.threads[t].pc.AtInc? { CountedPage(c, s, t); }
    if s.threads[t].pc.AtLoad? && s.threads[t].p in s.crypto { LoadIsSound(c, s, t); }
    hide Inv, Sealed;
  }

  lemma CountedPage(c: Config, s: State, t: nat)
    requires Contents(c, s) && t in s.threads && !s.threads[t].pc.Idle?
    ensures s.threads[t].p in s.refc
  {
    assert ThreadOk(c, s, t);
  }

  /** In a state that keeps the invariant every step that can be taken is sound. */
  lemma StepIsSound(c: Config, s: State, step: Step)
    requires Fit(c) && Inv(c, s) && Enabled(c, s, step)
    ensures Sound(c, s, step)
  {
    match step
    case Deref(t, a) => LinkedIsCached(c, s, a);
    case Write(t, a, off, v) => Writable(c, s, a);
    case Fault(t, nonce) => FaultIsSound(c, s, t);
    case _ =>
  }

  lemma LinkedIsCached(c: Config, s: State, a: nat)
    requires Fit(c) && Inv(c, s) && a in s.aptrs && s.aptrs[a].owner in s.threads &&
             s.threads[s.aptrs[a].owner].pc.Idle?
    ensures InPage(c, s.aptrs[a].offset) ==> s.aptrs[a].link.Some?
    ensures s.aptrs[a].link.Some? ==>
              && s.aptrs[a].link.value in s.frames && PageOf(s.aptrs[a]) in s.cache
              && s.cache[PageOf(s.aptrs[a])] == s.aptrs[a].link.value
  {
    assert AptrOk(c, s, a);
    assert s.aptrs[a].link.Some? ==> LinkedAlone(s, a) by {
      if s.aptrs[a].link.Some? { LinkIsAlone(c, s, a); }
    }
  }

  // ---- runs ----

  /** The state that initialize_aptr leaves: all frames free and clean. */
  ghost predicate Init(c: Config, s: State) {
    && s.threads.Keys == c.threads && (forall t | t in s.threads :: s.threads[t].pc.Idle?)
    && s.aptrs == map[] && s.lock == map[] && s.cache == map[] && s.crypto == map[] && s.mem == map[] && s.loc == map[]
    && s.size == 0 && s.queue == []
    && (forall p :: p in s.refc <==> 0 <= p < c.npages) && (forall p | p in s.refc :: s.refc[p] == 0)
    && |s.free| == c.cap && (forall i | 0 <= i < |s.free| :: s.free[i] == i)
    && (forall f: nat :: f in s.frames <==> f < c.cap)
    && (forall f | f in s.frames :: |s.frames[f].text| == c.pageSize && !s.frames[f].dirty)
    && (forall f: nat :: f in s.own <==> f < c.cap) && (forall f | f in s.own :: s.own[f] == Free)
  }

  lemma NoneWith(th: map<nat, Thread>, kind: Pc -> bool)
    requires forall t | t in th :: !kind(th[t].pc)
    ensures |With(th, kind)| == 0
  {
    assert With(th, kind) == {};
  }

  lemma InitCounts(c: Config, s: State)
    requires Init(c, s)
    ensures CountsOk(c, s.threads, |s.free|, s.size, |s.queue|)
  {
    NoneWith(s.threads, HoldsFrame);
    NoneWith(s.threads, HoldsPage);
    NoneWith(s.threads, WillPop);
    NoneWith(s.threads, WillDequeue);
  }

  lemma InitContents(c: Config, s: State)
    requires Init(c, s)
    ensures Contents(c, s)
  {
    forall p ensures Pins(s, p) == {} {}
    assert Shape(c, s) && Counted(s) && AptrsOk(c, s) && CleanOk(s) && FlightsOk(s);
    assert MemoryOk(c, s);
  }

  lemma InitLists(c: Config, s: State)
    requires Fit(c) && Init(c, s)
    ensures LocksOk(c, s.threads, s.lock) && s.loc.Keys == s.cache.Keys && PlacesOk(s.threads, s.queue, s.loc)
    ensures FramesOk(s.threads, s.free, s.own, s.cache)
  {
  }

  lemma InitKeeps(c: Config, s: State)
    requires Fit(c) && Init(c, s)
    ensures Inv(c, s)
  {
    InitContents(c, s);
    InitCounts(c, s);
    InitLists(c, s);
    hide Contents, CountsOk, LocksOk, PlacesOk, FramesOk, Init;
  }

  /** The state after the steps, or None if an assertion has failed.  A step
      that cannot be taken waits: a thread spins on a lock. */
  ghost function Run(c: Config, s: State, steps: seq<Step>): Option<State>
    requires Fit(c)
    decreases |steps|
  {
    if steps == [] then Some(s)
    else if !Enabled(c, s, steps[0]) then Run(c, s, steps[1..])
    else if !Sound(c, s, steps[0]) then None
    else Run(c, Apply(c, s, steps[0]), steps[1..])
  }

  lemma {:induction false} RunKeeps(c: Config, s: State, steps: seq<Step>)
    requires Fit(c) && Inv(c, s)
    ensures Run(c, s, steps).Some? && Inv(c, Run(c, s, steps).value)
    decreases |steps|
  {
    hide Inv;
    if steps != [] {
      if Enabled(c, s, steps[0]) {
        StepIsSound(c, s, steps[0]);
        StepKeeps(c, s, steps[0]);
        RunKeeps(c, Apply(c, s, steps[0]), steps[1..]);
      } else {
        RunKeeps(c, s, steps[1..]);
      }
    }
  }

  /** In every interleaving of every set of at most slack + 1 threads no
      assertion fails: the free list is never found empty, the queue neither
      full nor empty when it must not be, no item is missing, and every stored
      page that is read decrypts. */
  lemma NoAssertionFails(c: Config, s: State, steps: seq<Step>)
    requires Fit(c) && Init(c, s)
    ensures Run(c, s, steps).Some?
  {
    InitKeeps(c, s);
    RunKeeps(c, s, steps);
  }

  /** Some run from the initial state reaches s. */
  ghost predicate Reached(c: Config, s: State)
    requires Fit(c)
  {
    exists s0, steps :: Init(c, s0) && Run(c, s0, steps) == Some(s)
  }

  lemma ReachedKeeps(c: Config, s: State)
    requires Fit(c) && Reached(c, s)
    ensures Inv(c, s)
  {
    var s0, steps :| Init(c, s0) && Run(c, s0, steps) == Some(s);
    InitKeeps(c, s0);
    RunKeeps(c, s0, steps);
  }

  // ---- the flat memory ----

  lemma {:induction false} Gap(size: nat, p: int, q: int)
    requires p < q
    ensures p * size + size <= q * size
    decreases q - p
  {
    assert q * size == (q - 1) * size + size;
    if p < q - 1 {
      Gap(size, p, q - 1);
    }
  }

  /** An address has one page and one offset. */
  lemma SplitAddress(size: nat, p: int, off: int, q: int, o: int)
    requires 0 <= off < size && 0 <= o < size
    ensures p * size + off == q * size + o <==> p == q && off == o
  {
    if p < q {
      Gap(size, p, q);
    } else if q < p {
      Gap(size, q, p);
    }
  }

  /** The shift and mask at a fault, negative offsets included, and the
      adjustments of a copy and of a new Aptr keep the address. */
  lemma ShiftKeepsAddress(c: Config, x: Aptr)
    requires c.pageSize > 0
    ensures Addr(c, Shifted(c, x)) == Addr(c, x) && InPage(c, Shifted(c, x).offset)
  {
    var y := Shifted(c, x);
    var d := x.offset / c.pageSize;
    assert x.offset == d * c.pageSize + y.offset;
    assert (x.base + x.page + d) * c.pageSize == (x.base + x.page) * c.pageSize + d * c.pageSize;
  }

  lemma CopyKeepsAddress(c: Config, s: State, t: nat, a: nat, src: nat)
    requires Fit(c) && Enabled(c, s, Copy(t, a, src))
    ensures var s' := Apply(c, s, Copy(t, a, src)); Addr(c, s'.aptrs[a]) == Addr(c, s.aptrs[src])
  {
    var y := s.aptrs[src];
    assert (PageOf(y) - 1) * c.pageSize == PageOf(y) * c.pageSize - c.pageSize;
  }

  lemma ConstructAddress(c: Config, s: State, t: nat, a: nat, x: int)
    requires Fit(c) && Enabled(c, s, Construct(t, a, x))
    ensures Addr(c, Apply(c, s, Construct(t, a, x)).aptrs[a]) == x
  {
    var b := x / c.pageSize;
    assert (b - 1) * c.pageSize == b * c.pageSize - c.pageSize;
  }

  /** What the step writes at the address, if it writes there. */
  ghost function Written(c: Config, s: State, step: Step, addr: int): Option<int> {
    match step
    case Write(t, a, off, v) =>
      if a in s.aptrs && PageOf(s.aptrs[a]) * c.pageSize + off == addr then Some(v) else None
    case _ => None
  }

  /** The value that the last write at an address has written there. */
  ghost function LastWritten(c: Config, s: State, steps: seq<Step>, addr: int): Option<int>
    requires Fit(c)
    decreases |steps|
  {
    if steps == [] then None
    else if !Enabled(c, s, steps[0]) then LastWritten(c, s, steps[1..], addr)
    else if !Sound(c, s, steps[0]) then None
    else
      var later := LastWritten(c, Apply(c, s, steps[0]), steps[1..], addr);
      if later.Some? then later else Written(c, s, steps[0], addr)
  }

  function At(m: map<(int, int), int>, k: (int, int)): Option<int> {
    if k in m then Some(m[k]) else None
  }

  lemma StepRemembers(c: Config, s: State, step: Step, p: int, off: int)
    requires Fit(c) && Inv(c, s) && InPage(c, off) && Enabled(c, s, step) && Sound(c, s, step)
    ensures var w := Written(c, s, step, p * c.pageSize + off);
            At(Apply(c, s, step).mem, (p, off)) == if w.Some? then w else At(s.mem, (p, off))
  {
    hide Inv;
    match step
    case Write(t, a, o, v) => SplitAddress(c.pageSize, PageOf(s.aptrs[a]), o, p, off);
    case Fault(t, n) => FaultKeeps(c, s, t, n);
    case _ =>
  }

  lemma {:induction false} Remembers(c: Config, s: State, steps: seq<Step>, p: int, off: int)
    requires Fit(c) && InPage(c, off) && Inv(c, s)
    ensures Run(c, s, steps).Some?
    ensures var l := LastWritten(c, s, steps, p * c.pageSize + off);
            At(Run(c, s, steps).value.mem, (p, off)) == if l.Some? then l else At(s.mem, (p, off))
    decreases |steps|
  {
    hide Inv, Fit, Enabled, Sound, Apply, Written;
    if steps != [] {
      if Enabled(c, s, steps[0]) {
        StepIsSound(c, s, steps[0]);
        StepKeeps(c, s, steps[0]);
        StepRemembers(c, s, steps[0], p, off);
        Remembers(c, Apply(c, s, steps[0]), steps[1..], p, off);
      } else {
        Remembers(c, s, steps[1..], p, off);
      }
    }
  }

  /** Dereferencing a yields the byte v. */
  predicate Yields(s: State, a: nat, v: int) {
    && a in s.aptrs && s.aptrs[a].link.Some? && s.aptrs[a].link.value in s.frames
    && 0 <= s.aptrs[a].offset < |s.frames[s.aptrs[a].link.value].text|
    && s.frames[s.aptrs[a].link.value].text[s.aptrs[a].offset] == v
  }

  /** Refinement of a flat byte memory: whatever happened in between, any
      number of evictions and faults by any threads included, an Aptr that is
      dereferenced yields the byte last written at its logical address,
      through whichever Aptr. */
  lemma ReadsLastWrite(c: Config, s0: State, steps: seq<Step>, s: State, t: nat, a: nat)
    requires Fit(c) && Init(c, s0) && Run(c, s0, steps) == Some(s)
    requires Owned(s, t, a) && s.threads[t].pc.Idle? && InPage(c, s.aptrs[a].offset)
    requires LastWritten(c, s0, steps, Addr(c, s.aptrs[a])).Some?
    ensures Yields(s, a, LastWritten(c, s0, steps, Addr(c, s.aptrs[a])).value)
  {
    hide Init, Run, LastWritten, Inv, Yields;
    InitKeeps(c, s0);
    RunKeeps(c, s0, steps);
    Remembers(c, s0, steps, PageOf(s.aptrs[a]), s.aptrs[a].offset);
    YieldsFlat(c, s, t, a);
  }

  /** In every state that keeps the invariant a dereferenced Aptr leads to the
      last byte of the flat memory. */
  lemma YieldsFlat(c: Config, s: State, t: nat, a: nat)
    requires Fit(c) && Inv(c, s) && Owned(s, t, a) && s.threads[t].pc.Idle? && InPage(c, s.aptrs[a].offset)
    requires (PageOf(s.aptrs[a]), s.aptrs[a].offset) in s.mem
    ensures Yields(s, a, s.mem[(PageOf(s.aptrs[a]), s.aptrs[a].offset)])
  {
    LinkedIsCached(c, s, a);
    ReadsMemory(c, s, PageOf(s.aptrs[a]), s.aptrs[a].offset);
    hide Contents;
  }

  lemma ReadsMemory(c: Config, s: State, p: int, off: int)
    requires Contents(c, s) && (p, off) in s.mem && p in s.cache
    ensures s.cache[p] in s.frames && 0 <= off < |s.frames[s.cache[p]].text|
    ensures s.frames[s.cache[p]].text[off] == s.mem[(p, off)]
  {
    assert ByteAt(c, s, p, off, s.mem[(p, off)]);
  }

  // ---- pinning ----

  /** Two Aptrs are linked to one frame exactly when they are on one page: a
      page has at most one frame, and faults that race on a page all end
      linked to that frame. */
  lemma OneFramePerPage(c: Config, s: State, a: nat, b: nat)
    requires Fit(c) && Reached(c, s) && a in s.aptrs && b in s.aptrs
    requires s.aptrs[a].link.Some? && s.aptrs[b].link.Some?
    ensures s.aptrs[a].link == s.aptrs[b].link <==> PageOf(s.aptrs[a]) == PageOf(s.aptrs[b])
  {
    ReachedKeeps(c, s);
    hide Reached, Inv;
    LinkIsAlone(c, s, a);
    LinkIsAlone(c, s, b);
  }

  /** In the middle of evicting page p. */
  predicate Evicting(pc: Pc, p: int) {
    (pc.AtClear? || pc.AtSeal? || pc.AtUncount? || pc.AtUnlink?) && pc.q == p
  }

  /** A thread that has counted its fault on a page never meets the page half
      evicted, and no linked Aptr's page is being evicted. */
  lemma NeverHalfEvicted(c: Config, s: State, t: nat)
    requires Fit(c) && Reached(c, s) && t in s.threads
    ensures forall u | u in s.threads && !s.threads[u].pc.Idle? && !s.threads[u].pc.AtInc? ::
              !Evicting(s.threads[t].pc, s.threads[u].p)
    ensures forall a | a in s.aptrs && s.aptrs[a].link.Some? :: !Evicting(s.threads[t].pc, PageOf(s.aptrs[a]))
  {
    hide Reached, Inv;
    ReachedKeeps(c, s);
    EvictedIsUnpinned(c, s, t);
  }

  lemma EvictedIsUnpinned(c: Config, s: State, t: nat)
    requires Fit(c) && Inv(c, s) && t in s.threads
    ensures forall u | u in s.threads && !s.threads[u].pc.Idle? && !s.threads[u].pc.AtInc? ::
              !Evicting(s.threads[t].pc, s.threads[u].p)
    ensures forall a | a in s.aptrs && s.aptrs[a].link.Some? :: !Evicting(s.threads[t].pc, PageOf(s.aptrs[a]))
  {
    hide LocksOk, PlacesOk, FramesOk, CountsOk, MemoryOk, Counted, Shape;
    FlightHere(c, s, t);
    LinkedArePinned(c, s);
    hide Contents;
    match s.threads[t].pc
    case AtClear(q, f) => Unpinned(c, s, q);
    case AtSeal(q, f) => Unpinned(c, s, q);
    case AtUncount(q, f) => Unpinned(c, s, q);
    case AtUnlink(q, f) => Unpinned(c, s, q);
    case _ =>
  }

  lemma LinkedArePinned(c: Config, s: State)
    requires AptrsOk(c, s)
    ensures forall a | a in s.aptrs && s.aptrs[a].link.Some? :: s.aptrs[a].pin
  {
    forall a | a in s.aptrs && s.aptrs[a].link.Some? ensures s.aptrs[a].pin {
      assert AptrOk(c, s, a);
    }
  }

  // ---- a pointer stays valid ----

  /** The step gives up the link of a. */
  predicate Releases(step: Step, a: nat) {
    (step.Destroy? || step.BeginFault?) && step.a == a
  }

  /** The step writes to page p. */
  ghost predicate WritesPage(s: State, step: Step, p: int) {
    step.Write? && step.a in s.aptrs && PageOf(s.aptrs[step.a]) == p
  }

  /** Aptr a is on the page and frame in s' that it is on in s. */
  predicate SameLink(s: State, s': State, a: nat)
    requires a in s.aptrs
  {
    && a in s'.aptrs && s'.aptrs[a].link == s.aptrs[a].link && PageOf(s'.aptrs[a]) == PageOf(s.aptrs[a])
  }

  predicate SameText(s: State, s': State, f: nat) {
    f in s.frames && f in s'.frames && s'.frames[f].text == s.frames[f].text
  }


  lemma NotFaultingOn(c: Config, s: State, t: nat, a: nat)
    requires Contents(c, s) && t in s.threads && !s.threads[t].pc.Idle? && a in s.aptrs && s.aptrs[a].link.Some?
    ensures s.threads[t].a != a
  {
    assert ThreadOk(c, s, t) && AptrOk(c, s, a);
  }

  lemma FaultKeepsLink(c: Config, s: State, t: nat, nonce: int, a: nat)
    requires Fit(c) && Inv(c, s) && FaultEnabled(c, s, t) && FaultSound(c, s, t)
    requires a in s.aptrs && s.aptrs[a].link.Some?
    ensures var s' := FaultStep(c, s, t, nonce); SameLink(s, s', a) && SameText(s, s', s.aptrs[a].link.value)
  {
    LinkIsAlone(c, s, a);
    NotFaultingOn(c, s, t, a);
    hide Inv, FaultStep, FaultEnabled, FaultSound;
    FaultKeeps(c, s, t, nonce);
  }

  lemma AptrKeepsLink(c: Config, s: State, step: Step, a: nat)
    requires Fit(c) && Inv(c, s) && Enabled(c, s, step) && Sound(c, s, step) && !step.Fault? && !step.Write?
    requires a in s.aptrs && s.aptrs[a].link.Some? && !Releases(step, a)
    ensures var s' := Apply(c, s, step); SameLink(s, s', a) && SameText(s, s', s.aptrs[a].link.value)
  {
    hide Inv;
    LinkIsAlone(c, s, a);
    match step
    case Construct(t, b, x) =>
    case Copy(t, b, src) =>
    case Hint(t, b, h) =>
    case Move(t, b, d) =>
    case Destroy(t, b) =>
    case Deref(t, b) =>
    case BeginFault(t, b) =>
  }

  lemma WriteKeepsLink(c: Config, s: State, t: nat, b: nat, off: int, v: int, a: nat)
    requires Fit(c) && Inv(c, s) && Enabled(c, s, Write(t, b, off, v)) && Sound(c, s, Write(t, b, off, v))
    requires a in s.aptrs && s.aptrs[a].link.Some?
    ensures var s' := Apply(c, s, Write(t, b, off, v));
            && SameLink(s, s', a)
            && (!WritesPage(s, Write(t, b, off, v), PageOf(s.aptrs[a])) ==> SameText(s, s', s.aptrs[a].link.value))
  {
    hide Inv;
    LinkIsAlone(c, s, a);
    LinkIsAlone(c, s, b);
  }

  /** A linked Aptr stays linked to the same frame on the same page through
      every step, of any thread, that does not release it itself; and the text
      it points at changes only when a thread writes to that page. */
  lemma StepKeepsLink(c: Config, s: State, step: Step, a: nat)
    requires Fit(c) && Inv(c, s) && Enabled(c, s, step) && Sound(c, s, step)
    requires a in s.aptrs && s.aptrs[a].link.Some? && !Releases(step, a)
    ensures var s' := Apply(c, s, step);
            SameLink(s, s', a) && (!WritesPage(s, step, PageOf(s.aptrs[a])) ==> SameText(s, s', s.aptrs[a].link.value))
  {
    hide Inv, SameLink, SameText, Fit;
    match step
    case Fault(t, nonce) => FaultKeepsLink(c, s, t, nonce, a);
    case Write(t, b, off, v) => WriteKeepsLink(c, s, t, b, off, v, a);
    case _ => AptrKeepsLink(c, s, step, a);
  }

  /** No step of the run writes to page p. */
  ghost predicate Undisturbed(c: Config, s: State, steps: seq<Step>, p: int)
    requires Fit(c)
    decreases |steps|
  {
    steps == [] ||
    if !Enabled(c, s, steps[0]) then Undisturbed(c, s, steps[1..], p)
    else Sound(c, s, steps[0]) ==>
      !WritesPage(s, steps[0], p) && Undisturbed(c, Apply(c, s, steps[0]), steps[1..], p)
  }

  /** The pointer got from a dereference stays valid for as long as its Aptr
      is neither faulted again nor destroyed, whatever else runs meanwhile: the
      frame still caches the page, and holds the same text if nobody writes there. */
  lemma {:induction false} PointerStaysValid(c: Config, s: State, steps: seq<Step>, a: nat)
    requires Fit(c) && Inv(c, s) && a in s.aptrs && s.aptrs[a].link.Some?
    requires forall i | 0 <= i < |steps| :: !Releases(steps[i], a)
    ensures Run(c, s, steps).Some?
    ensures var s' := Run(c, s, steps).value;
            && SameLink(s, s', a)
            && PageOf(s.aptrs[a]) in s'.cache && s'.cache[PageOf(s.aptrs[a])] == s.aptrs[a].link.value
            && (Undisturbed(c, s, steps, PageOf(s.aptrs[a])) ==> SameText(s, s', s.aptrs[a].link.value))
    decreases |steps|
  {
    hide Inv, Fit, Enabled, Sound, Apply, WritesPage;
    if steps == [] {
      LinkIsAlone(c, s, a);
    } else if Enabled(c, s, steps[0]) {
      StepIsSound(c, s, steps[0]);
      StepKeeps(c, s, steps[0]);
      StepKeepsLink(c, s, steps[0], a);
      PointerStaysValid(c, Apply(c, s, steps[0]), steps[1..], a);
    } else {
      PointerStaysValid(c, s, steps[1..], a);
    }
  }

  // ---- conservation ----

  /** Frames are conserved in every reachable state: each is free, counted as
      cached, or held by a thread at one of seven program points. */
  lemma FramesConserved(c: Config, s: State)
    requires Fit(c) && Reached(c, s)
    ensures |s.free| + s.size + |With(s.threads, HoldsFrame)| == c.cap
    ensures forall i, j | 0 <= i < j < |s.free| :: s.free[i] != s.free[j]
    ensures forall p, q | p in s.cache && q in s.cache && p != q :: s.cache[p] != s.cache[q]
    ensures forall p | p in s.cache :: s.cache[p] !in s.free
  {
    hide Reached, Contents, LocksOk, PlacesOk, With;
    ReachedKeeps(c, s);
  }

  ghost function Set(q: seq<int>): set<int> { set p | p in q }

  lemma {:induction false} DistinctSize(q: seq<int>)
    requires forall i, j | 0 <= i < j < |q| :: q[i] != q[j]
    ensures |Set(q)| == |q|
  {
    if q != [] {
      var r := q[..|q| - 1];
      DistinctSize(r);
      assert q == r + [q[|q| - 1]];
      assert Set(q) == Set(r) + {q[|q| - 1]};
    } else {
      assert Set(q) == {};
    }
  }

  /** With no fault in progress the queue holds each cached page exactly once
      and nothing else, the size counter is the number of cached pages, no
      bucket is locked, every other frame is free, and each page's count is the
      number of Aptrs linked to it. */
  lemma AtRest(c: Config, s: State)
    requires Fit(c) && Reached(c, s) && forall t | t in s.threads :: s.threads[t].pc.Idle?
    ensures Set(s.queue) == s.cache.Keys && |s.queue| == |s.cache| == s.size && |s.free| + s.size == c.cap
    ensures s.lock == map[]
    ensures forall p | 0 <= p < c.npages ::
              p in s.refc && s.refc[p] == |set a | a in s.aptrs && s.aptrs[a].link.Some? && PageOf(s.aptrs[a]) == p|
  {
    hide Reached;
    ReachedKeeps(c, s);
    RestingLists(c, s);
    hide PlacesOk, FramesOk, LocksOk, CountsOk, MemoryOk, FlightsOk, CleanOk;
    forall p | 0 <= p < c.npages
      ensures s.refc[p] == |set a | a in s.aptrs && s.aptrs[a].link.Some? && PageOf(s.aptrs[a]) == p|
    {
      RestingPins(c, s, p);
    }
  }

  lemma RestingPins(c: Config, s: State, p: int)
    requires AptrsOk(c, s) && forall t | t in s.threads :: s.threads[t].pc.Idle?
    ensures Pins(s, p) == set a | a in s.aptrs && s.aptrs[a].link.Some? && PageOf(s.aptrs[a]) == p
  {
    forall a | a in s.aptrs ensures s.aptrs[a].pin <==> s.aptrs[a].link.Some? {
      assert AptrOk(c, s, a);
    }
  }

  lemma RestingLists(c: Config, s: State)
    requires Fit(c) && Inv(c, s) && forall t | t in s.threads :: s.threads[t].pc.Idle?
    ensures Set(s.queue) == s.cache.Keys && |s.queue| == |s.cache| == s.size && |s.free| + s.size == c.cap
    ensures s.lock == map[]
  {
    hide Contents;
    NoneWith(s.threads, HoldsFrame);
    NoneWith(s.threads, HoldsPage);
    DistinctSize(s.queue);
    forall p | p in s.loc ensures p in s.queue {
      assert s.loc[p].Queued?;
    }
    assert Set(s.queue) == s.loc.Keys;
    assert |s.cache| == |s.cache.Keys|;
    assert forall b :: b !in s.lock;
  }

  // ---- no deadlock ----

  /** Whoever holds a bucket lock can take its next step: a thread that waits
      for a lock waits for one that can move. */
  lemma HolderCanMove(c: Config, s: State, b: int)
    requires Fit(c) && Reached(c, s) && b in s.lock
    ensures FaultEnabled(c, s, s.lock[b])
  {
    hide Reached;
    ReachedKeeps(c, s);
    var t := s.lock[b];
    assert ThreadOk(c, s, t);
    hide Contents, PlacesOk, FramesOk, CountsOk;
  }
}
