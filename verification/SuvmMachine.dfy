// The paging protocol of the software virtual memory as a state machine:
// any number of threads construct, copy, move, dereference and destroy Aptrs,
// fault pages in and evict pages, one atomic step at a time.  A bucket lock is
// held across steps where the code holds it across statements; an access that
// the code makes alone under a lock is one step that needs the lock free.
module SuvmMachine {
  import opened Options

  /** Sizes, the thread set and the cipher are parameters. */
  datatype Config = Config(
    threads: set<nat>,
    cap: nat,          // CACHE_CAPACITY
    slack: nat,        // MAX_NUM_OF_THREADS_OPTIMIZATION
    npages: nat,       // pages of the backing store
    pageSize: nat,
    nbuckets: nat,
    enc: (seq<int>, int) -> (seq<int>, int),           // text and nonce to cipher text and tag
    dec: (seq<int>, int, int) -> Option<seq<int>>)     // cipher text, nonce and tag to text

  /** What the protocol needs of its parameters. */
  ghost predicate Fit(c: Config) {
    && c.pageSize > 0 && c.nbuckets > 0
    && |c.threads| <= c.slack + 1
    && c.cap >= c.slack + |c.threads|
    && forall pt: seq<int>, n: int {:trigger c.enc(pt, n)} ::
         c.dec(c.enc(pt, n).0, n, c.enc(pt, n).1) == Some(pt)
  }

  /** A software pointer.  pin says that it is counted in the reference count
      of its page; wr that a pointer for writing has been obtained from it. */
  datatype Aptr = Aptr(owner: nat, base: int, page: int, offset: int, hint: bool,
                       link: Option<nat>, pin: bool, wr: bool)

  /** Where a thread is in page_fault.  q is a page chosen for eviction and f a frame. */
  datatype Pc =
    | Idle
    | AtInc | AtGet | AtTest
    | AtDequeue | AtLock(q: int) | AtCheck(q: int) | AtRequeue(q: int)
    | AtClear(q: int, f: nat) | AtSeal(q: int, f: nat)
    | AtUncount(q: int, f: nat) | AtUnlink(q: int, f: nat) | AtPush(f: nat)
    | AtPop | AtLoad(f: nat) | AtAdd(f: nat) | AtCount(f: nat) | AtEnqueue(f: nat)
    | AtReget(f: nat) | AtReturn(f: nat, found: nat)

  /** A thread, with the Aptr and the page_index of the fault it is in. */
  datatype Thread = Thread(pc: Pc, a: nat, p: int)

  datatype FrameData = FrameData(text: seq<int>, dirty: bool)
  datatype Meta = Meta(nonce: int, tag: int)

  /** Auxiliary: the one place where a frame, or a cached page's queue entry, is. */
  datatype FrameOwner = Free | Caching(p: int) | HeldBy(t: nat)
  datatype Place = Queued | InHand(t: nat)

  datatype State = State(
    threads: map<nat, Thread>,
    aptrs: map<nat, Aptr>,
    lock: map<int, nat>,            // bucket to the thread that holds its lock
    refc: map<int, int>,            // m_ref_count, one unsigned char a page
    cache: map<int, nat>,           // the bucket chains: page to frame
    size: int,                      // m_page_cache_size
    queue: seq<int>,                // m_used_pages
    free: seq<nat>,                 // g_free_epc_pages
    frames: map<nat, FrameData>,
    crypto: map<int, Meta>,         // g_aptr_crypto_page_cache_llc
    ram: map<int, seq<int>>,        // the backing store
    mem: map<(int, int), int>,      // auxiliary: last byte written at each page and offset
    own: map<nat, FrameOwner>,
    loc: map<int, Place>)

  function PageOf(x: Aptr): int { x.base + x.page }

  /** The logical address that an Aptr denotes. */
  function Addr(c: Config, x: Aptr): int { PageOf(x) * c.pageSize + x.offset }

  function Bucket(c: Config, p: int): int
    requires c.nbuckets > 0
  {
    p % c.nbuckets
  }

  predicate InPage(c: Config, off: int) { 0 <= off < c.pageSize }

  // ---- steps ----

  datatype Step =
    | Construct(t: nat, a: nat, x: int)
    | Copy(t: nat, a: nat, src: nat)
    | Hint(t: nat, a: nat, h: bool)
    | Move(t: nat, a: nat, d: int)
    | Destroy(t: nat, a: nat)
    | Deref(t: nat, a: nat)
    | Write(t: nat, a: nat, off: int, v: int)
    | BeginFault(t: nat, a: nat)
    | Fault(t: nat, nonce: int)

  function SetPc(s: State, t: nat, pc: Pc): State
    requires t in s.threads
  {
    s.(threads := s.threads[t := s.threads[t].(pc := pc)])
  }

  predicate Owned(s: State, t: nat, a: nat) {
    t in s.threads && a in s.aptrs && s.aptrs[a].owner == t
  }

  predicate LockFree(c: Config, s: State, p: int)
    requires c.nbuckets > 0
  {
    Bucket(c, p) !in s.lock
  }

  function Pins(s: State, p: int): set<nat> {
    set a | a in s.aptrs && s.aptrs[a].pin && PageOf(s.aptrs[a]) == p
  }

  /** The Aptr that page_fault makes of x before it counts and links it:
      an arithmetic shift and a mask of the offset. */
  function Shifted(c: Config, x: Aptr): Aptr
    requires c.pageSize > 0
  {
    x.(page := x.page + x.offset / c.pageSize, offset := x.offset % c.pageSize, link := None, pin := false, wr := false)
  }

  function Dropped(s: State, x: Aptr): map<int, int> {
    if x.pin && PageOf(x) in s.refc then s.refc[PageOf(x) := (s.refc[PageOf(x)] - 1) % 256] else s.refc
  }

  /** Finish the fault of thread t: link its Aptr to frame f. */
  function Linked(s: State, t: nat, f: nat): State
    requires t in s.threads && s.threads[t].a in s.aptrs
  {
    var a := s.threads[t].a;
    SetPc(s, t, Idle).(aptrs := s.aptrs[a := s.aptrs[a].(link := Some(f))])
  }

  // ---- which steps can be taken, and what they do ----

  ghost predicate Enabled(c: Config, s: State, step: Step)
    requires Fit(c)
  {
    match step
    case Construct(t, a, x) => t in s.threads && s.threads[t].pc.Idle? && a !in s.aptrs && x >= 0
    case Copy(t, a, src) =>
      // the source of a copy has no offset just below a page
      && Owned(s, t, src) && s.threads[t].pc.Idle? && a !in s.aptrs
      && !(0 - c.pageSize <= s.aptrs[src].offset < 0)
    case Hint(t, a, h) => Owned(s, t, a) && s.threads[t].pc.Idle?
    case Move(t, a, d) =>
      // an unlinked Aptr is not moved onto a raw offset that looks linked
      && Owned(s, t, a) && s.threads[t].pc.Idle?
      && (s.aptrs[a].link.None? ==> !InPage(c, s.aptrs[a].offset + d))
    case Destroy(t, a) =>
      && Owned(s, t, a) && s.threads[t].pc.Idle?
      && (s.aptrs[a].pin ==> LockFree(c, s, PageOf(s.aptrs[a])) && PageOf(s.aptrs[a]) in s.refc)
    case Deref(t, a) => Owned(s, t, a) && s.threads[t].pc.Idle? && InPage(c, s.aptrs[a].offset)
    case Write(t, a, off, v) =>
      // through a pointer that a dereference with hint_write has returned
      && Owned(s, t, a) && s.threads[t].pc.Idle? && s.aptrs[a].wr && InPage(c, off)
    case BeginFault(t, a) =>
      && Owned(s, t, a) && s.threads[t].pc.Idle? && !InPage(c, s.aptrs[a].offset)
      && 0 <= PageOf(Shifted(c, s.aptrs[a])) < c.npages
      && (s.aptrs[a].pin ==> LockFree(c, s, PageOf(s.aptrs[a])) && PageOf(s.aptrs[a]) in s.refc)
    case Fault(t, nonce) => FaultEnabled(c, s, t)
  }

  ghost predicate FaultEnabled(c: Config, s: State, t: nat)
    requires Fit(c)
  {
    && t in s.threads && s.threads[t].a in s.aptrs
    && var p := s.threads[t].p;
      match s.threads[t].pc
      case Idle => false
      case AtInc => LockFree(c, s, p) && |Pins(s, p)| < 255
      case AtGet => LockFree(c, s, p)
      case AtLock(q) => LockFree(c, s, q)
      case AtAdd(f) => LockFree(c, s, p)
      case AtReget(f) => LockFree(c, s, p)
      case _ => true
  }

  /** The stored text of page p decrypts. */
  ghost predicate Sealed(c: Config, s: State, p: int) {
    p in s.crypto && p in s.ram && c.dec(s.ram[p], s.crypto[p].nonce, s.crypto[p].tag).Some?
  }

  ghost function Text(c: Config, s: State, p: int): seq<int>
    requires Sealed(c, s, p)
  {
    c.dec(s.ram[p], s.crypto[p].nonce, s.crypto[p].tag).value
  }

  /** No assertion of the code fails and no invalid pointer is followed when
      the step is taken. */
  ghost predicate Sound(c: Config, s: State, step: Step)
    requires Fit(c)
  {
    match step
    case Deref(t, a) => a in s.aptrs ==> s.aptrs[a].link.Some? && s.aptrs[a].link.value in s.frames
    case Write(t, a, off, v) => a in s.aptrs ==>
      s.aptrs[a].link.Some? && s.aptrs[a].link.value in s.frames && off < |s.frames[s.aptrs[a].link.value].text|
    case Fault(t, nonce) => t in s.threads && s.threads[t].a in s.aptrs ==> FaultSound(c, s, t)
    case _ => true
  }

  ghost predicate FaultSound(c: Config, s: State, t: nat)
    requires Fit(c) && t in s.threads && s.threads[t].a in s.aptrs
  {
    var p := s.threads[t].p;
    match s.threads[t].pc
    case AtInc => p in s.refc
    case AtDequeue => s.queue != []
    case AtCheck(q) => q in s.refc && (s.refc[q] <= 0 ==> q in s.cache)
    case AtRequeue(q) => |s.queue| < c.cap
    case AtClear(q, f) => f in s.frames
    case AtSeal(q, f) => f in s.frames && q in s.crypto
    case AtUnlink(q, f) => q in s.cache
    case AtPop => s.free != []
    case AtLoad(f) => f in s.frames && !s.frames[f].dirty && (p in s.crypto ==> Sealed(c, s, p))
    case AtEnqueue(f) => |s.queue| < c.cap
    case AtReget(f) => p in s.cache
    case _ => true
  }

  ghost function Apply(c: Config, s: State, step: Step): State
    requires Fit(c) && Enabled(c, s, step) && Sound(c, s, step)
  {
    match step
    case Construct(t, a, x) =>
      s.(aptrs := s.aptrs[a := NewAptr(c, t, x)])
    case Copy(t, a, src) =>
      s.(aptrs := s.aptrs[a := CopyAptr(c, t, s.aptrs[src])])
    case Hint(t, a, h) => Hinted(s, a, h)
    case Move(t, a, d) => Moved(s, a, d)
    case Destroy(t, a) => Destroyed(s, a)
    case Deref(t, a) => Marked(s, a)
    case Write(t, a, off, v) => Stored(s, a, off, v)
    case BeginFault(t, a) => Begun(c, s, t, a)
    case Fault(t, nonce) => FaultStep(c, s, t, nonce)
  }

  /** The uncached frame that a thread holds. */
  function FrameInHand(x: Thread): Option<nat> {
    match x.pc
    case AtPush(f) => Some(f)
    case AtLoad(f) => Some(f)
    case AtAdd(f) => Some(f)
    case AtReget(f) => Some(f)
    case AtReturn(f, _) => Some(f)
    case _ => None
  }

  /** Nothing but whether it is pinned and linked differs. */
  predicate SamePlace(x: Aptr, y: Aptr) { y == x.(pin := y.pin, link := y.link) }

  /** A step of a fault writes no byte, changes no other thread or Aptr, moves
      its own Aptr nowhere, and changes the text of no frame but one in its own
      thread's hands. */
  ghost predicate Confined(s: State, r: State, t: nat)
    requires t in s.threads
  {
    && r.mem == s.mem && r.aptrs.Keys == s.aptrs.Keys
    && t in r.threads && r.threads == s.threads[t := s.threads[t].(pc := r.threads[t].pc)]
    && (forall a | a in s.aptrs && a != s.threads[t].a :: r.aptrs[a] == s.aptrs[a])
    && (s.threads[t].a in s.aptrs ==> SamePlace(s.aptrs[s.threads[t].a], r.aptrs[s.threads[t].a]))
    && (forall f | f in s.frames && FrameInHand(s.threads[t]) != Some(f) ::
          f in r.frames && r.frames[f].text == s.frames[f].text)
  }

  /** The Aptr that the constructor makes for the address x. */
  function NewAptr(c: Config, t: nat, x: int): Aptr
    requires c.pageSize > 0
  {
    Aptr(t, x / c.pageSize, -1, x % c.pageSize + c.pageSize, false, None, false, false)
  }

  /** The Aptr that the copy constructor makes of y: the same address, unlinked. */
  function CopyAptr(c: Config, t: nat, y: Aptr): Aptr {
    Aptr(t, y.base, y.page - 1, y.offset + c.pageSize, y.hint, None, false, false)
  }

  function Hinted(s: State, a: nat, h: bool): State
    requires a in s.aptrs
  {
    s.(aptrs := s.aptrs[a := s.aptrs[a].(hint := h)])
  }

  function Moved(s: State, a: nat, d: int): State
    requires a in s.aptrs
  {
    s.(aptrs := s.aptrs[a := s.aptrs[a].(offset := s.aptrs[a].offset + d)])
  }

  function Destroyed(s: State, a: nat): State
    requires a in s.aptrs
  {
    s.(aptrs := s.aptrs - {a}, refc := Dropped(s, s.aptrs[a]))
  }

  /** A dereference sets the dirty bit of the frame if the Aptr has hint_write. */
  function Marked(s: State, a: nat): State
    requires a in s.aptrs && s.aptrs[a].link.Some? && s.aptrs[a].link.value in s.frames
  {
    if s.aptrs[a].hint then
      var f := s.aptrs[a].link.value;
      s.(aptrs := s.aptrs[a := s.aptrs[a].(wr := true)],
         frames := s.frames[f := s.frames[f].(dirty := true)])
    else s
  }

  function Stored(s: State, a: nat, off: int, v: int): State
    requires a in s.aptrs && s.aptrs[a].link.Some? && s.aptrs[a].link.value in s.frames
    requires 0 <= off < |s.frames[s.aptrs[a].link.value].text|
  {
    var f := s.aptrs[a].link.value;
    s.(frames := s.frames[f := s.frames[f].(text := s.frames[f].text[off := v])],
       mem := s.mem[(PageOf(s.aptrs[a]), off) := v])
  }

  /** The fault starts: the old page's count is dropped and the Aptr shifted. */
  function Begun(c: Config, s: State, t: nat, a: nat): State
    requires c.pageSize > 0 && a in s.aptrs
  {
    s.(threads := s.threads[t := Thread(AtInc, a, PageOf(Shifted(c, s.aptrs[a])))],
       aptrs := s.aptrs[a := Shifted(c, s.aptrs[a])],
       refc := Dropped(s, s.aptrs[a]))
  }

  // The steps of page_fault, one function each.

  function Increment(s: State, t: nat): State
    requires t in s.threads && s.threads[t].a in s.aptrs && s.threads[t].p in s.refc
  {
    var a, p := s.threads[t].a, s.threads[t].p;
    SetPc(s, t, AtGet).(aptrs := s.aptrs[a := s.aptrs[a].(pin := true)], refc := s.refc[p := (s.refc[p] + 1) % 256])
  }

  function Lookup(s: State, t: nat): State
    requires t in s.threads && s.threads[t].a in s.aptrs
  {
    var p := s.threads[t].p;
    if p in s.cache then Linked(s, t, s.cache[p]) else SetPc(s, t, AtTest)
  }

  function TestSize(c: Config, s: State, t: nat): State
    requires t in s.threads
  {
    SetPc(s, t, if s.size >= c.cap - c.slack then AtDequeue else AtPop)
  }

  function Dequeue(s: State, t: nat): State
    requires t in s.threads && s.queue != []
  {
    var q := s.queue[0];
    SetPc(s, t, AtLock(q)).(queue := s.queue[1..], loc := s.loc[q := InHand(t)])
  }

  function LockBucket(c: Config, s: State, t: nat, q: int): State
    requires t in s.threads && c.nbuckets > 0
  {
    SetPc(s, t, AtCheck(q)).(lock := s.lock[Bucket(c, q) := t])
  }

  function CheckCount(c: Config, s: State, t: nat, q: int): State
    requires t in s.threads && c.nbuckets > 0 && q in s.refc && (s.refc[q] <= 0 ==> q in s.cache)
  {
    if s.refc[q] > 0 then SetPc(s, t, AtRequeue(q)).(lock := s.lock - {Bucket(c, q)})
    else SetPc(s, t, AtClear(q, s.cache[q]))
  }

  function Requeue(s: State, t: nat, q: int): State
    requires t in s.threads
  {
    SetPc(s, t, AtDequeue).(queue := s.queue + [q], loc := s.loc[q := Queued])
  }

  function ClearDirty(s: State, t: nat, q: int, f: nat, nonce: int): State
    requires t in s.threads && f in s.frames
  {
    if s.frames[f].dirty then
      var tag := if q in s.crypto then s.crypto[q].tag else 0;
      SetPc(s, t, AtSeal(q, f)).(frames := s.frames[f := s.frames[f].(dirty := false)],
                                 crypto := s.crypto[q := Meta(nonce, tag)])
    else SetPc(s, t, AtUncount(q, f))
  }

  function Seal(c: Config, s: State, t: nat, q: int, f: nat): State
    requires t in s.threads && f in s.frames && q in s.crypto
  {
    var (ct, tag) := c.enc(s.frames[f].text, s.crypto[q].nonce);
    SetPc(s, t, AtUncount(q, f)).(ram := s.ram[q := ct], crypto := s.crypto[q := Meta(s.crypto[q].nonce, tag)])
  }

  function Uncount(s: State, t: nat, q: int, f: nat): State
    requires t in s.threads
  {
    SetPc(s, t, AtUnlink(q, f)).(size := s.size - 1)
  }

  function Unlink(c: Config, s: State, t: nat, q: int, f: nat): State
    requires t in s.threads && c.nbuckets > 0
  {
    SetPc(s, t, AtPush(f)).(cache := s.cache - {q}, lock := s.lock - {Bucket(c, q)},
                            loc := s.loc - {q}, own := s.own[f := HeldBy(t)])
  }

  function Push(s: State, t: nat, f: nat): State
    requires t in s.threads
  {
    SetPc(s, t, AtPop).(free := s.free + [f], own := s.own[f := Free])
  }

  function Pop(s: State, t: nat): State
    requires t in s.threads && s.free != []
  {
    var f := s.free[|s.free| - 1];
    SetPc(s, t, AtLoad(f)).(free := s.free[..|s.free| - 1], own := s.own[f := HeldBy(t)])
  }

  ghost function Load(c: Config, s: State, t: nat, f: nat): State
    requires t in s.threads && s.threads[t].pc == AtLoad(f) && f in s.frames
    requires s.threads[t].p in s.crypto ==> Sealed(c, s, s.threads[t].p)
  {
    var p := s.threads[t].p;
    var s' := SetPc(s, t, AtAdd(f));
    if p in s.crypto then s'.(frames := s.frames[f := s.frames[f].(text := Text(c, s, p))]) else s'
  }

  function Add(c: Config, s: State, t: nat, f: nat): State
    requires t in s.threads && c.nbuckets > 0
  {
    var p := s.threads[t].p;
    if p in s.cache then SetPc(s, t, AtReget(f))
    else SetPc(s, t, AtCount(f)).(lock := s.lock[Bucket(c, p) := t], cache := s.cache[p := f],
                                  own := s.own[f := Caching(p)], loc := s.loc[p := InHand(t)])
  }

  function Count(s: State, t: nat, f: nat): State
    requires t in s.threads
  {
    SetPc(s, t, AtEnqueue(f)).(size := s.size + 1)
  }

  function Enqueue(c: Config, s: State, t: nat, f: nat): State
    requires t in s.threads && s.threads[t].a in s.aptrs && c.nbuckets > 0
  {
    var p := s.threads[t].p;
    Linked(s, t, f).(queue := s.queue + [p], loc := s.loc[p := Queued], lock := s.lock - {Bucket(c, p)})
  }

  function Reget(s: State, t: nat, f: nat): State
    requires t in s.threads && s.threads[t].p in s.cache
  {
    SetPc(s, t, AtReturn(f, s.cache[s.threads[t].p]))
  }

  function GiveBack(s: State, t: nat, f: nat, found: nat): State
    requires t in s.threads && s.threads[t].a in s.aptrs
  {
    Linked(s, t, found).(free := s.free + [f], own := s.own[f := Free])
  }

  /** The steps that make room: get_page_index_to_evict and try_evict_page. */
  predicate MakesRoom(pc: Pc) {
    || pc.AtDequeue? || pc.AtLock? || pc.AtCheck? || pc.AtRequeue?
    || pc.AtClear? || pc.AtSeal? || pc.AtUncount? || pc.AtUnlink? || pc.AtPush?
  }

  ghost function EvictStep(c: Config, s: State, t: nat, nonce: int): State
    requires Fit(c) && FaultEnabled(c, s, t) && FaultSound(c, s, t) && MakesRoom(s.threads[t].pc)
  {
    match s.threads[t].pc
    case AtDequeue => Dequeue(s, t)
    case AtLock(q) => LockBucket(c, s, t, q)
    case AtCheck(q) => CheckCount(c, s, t, q)
    case AtRequeue(q) => Requeue(s, t, q)
    case AtClear(q, f) => ClearDirty(s, t, q, f, nonce)
    case AtSeal(q, f) => Seal(c, s, t, q, f)
    case AtUncount(q, f) => Uncount(s, t, q, f)
    case AtUnlink(q, f) => Unlink(c, s, t, q, f)
    case AtPush(f) => Push(s, t, f)
  }

  ghost function FillStep(c: Config, s: State, t: nat): State
    requires Fit(c) && FaultEnabled(c, s, t) && FaultSound(c, s, t) && !MakesRoom(s.threads[t].pc)
  {
    match s.threads[t].pc
    case AtInc => Increment(s, t)
    case AtGet => Lookup(s, t)
    case AtTest => TestSize(c, s, t)
    case AtPop => Pop(s, t)
    case AtLoad(f) => Load(c, s, t, f)
    case AtAdd(f) => Add(c, s, t, f)
    case AtCount(f) => Count(s, t, f)
    case AtEnqueue(f) => Enqueue(c, s, t, f)
    case AtReget(f) => Reget(s, t, f)
    case AtReturn(f, found) => GiveBack(s, t, f, found)
  }

  ghost function FaultStep(c: Config, s: State, t: nat, nonce: int): State
    requires Fit(c) && FaultEnabled(c, s, t) && FaultSound(c, s, t)
  {
    if MakesRoom(s.threads[t].pc) then EvictStep(c, s, t, nonce) else FillStep(c, s, t)
  }

  // ---- the invariant ----

  /** The Aptr a is the one its thread is faulting on. */
  predicate Faulting(s: State, a: nat)
    requires a in s.aptrs
  {
    var t := s.aptrs[a].owner;
    t in s.threads && !s.threads[t].pc.Idle? && s.threads[t].a == a
  }

  ghost predicate ThreadOk(c: Config, s: State, t: nat)
    requires t in s.threads
  {
    !s.threads[t].pc.Idle? ==>
      && Owned(s, t, s.threads[t].a) && PageOf(s.aptrs[s.threads[t].a]) == s.threads[t].p
      && 0 <= s.threads[t].p < c.npages
  }

  ghost predicate Shape(c: Config, s: State) {
    && s.threads.Keys == c.threads
    && (forall t | t in s.threads :: ThreadOk(c, s, t))
    && (forall a | a in s.aptrs :: s.aptrs[a].owner in s.threads)
    && (forall p :: p in s.refc <==> 0 <= p < c.npages)
    && (forall f: nat :: f in s.frames <==> f < c.cap)
    && (forall f: nat :: f in s.own <==> f < c.cap)
    && (forall f | f in s.frames :: |s.frames[f].text| == c.pageSize)
    && (forall p | p in s.cache :: 0 <= p < c.npages)
  }

  /** The count of a page is the number of Aptrs that pin it. */
  ghost predicate Counted(s: State) {
    forall p | p in s.refc :: s.refc[p] == |Pins(s, p)| && |Pins(s, p)| <= 255
  }

  /** One Aptr: pinned exactly when linked or being linked, linked to the frame
      that caches its page, and dirty once a pointer for writing is out. */
  ghost predicate AptrOk(c: Config, s: State, a: nat)
    requires a in s.aptrs
  {
    var x := s.aptrs[a];
    && (x.pin ==> 0 <= PageOf(x) < c.npages)
    && (x.link.Some? ==> !Faulting(s, a) && x.pin && PageOf(x) in s.cache && s.cache[PageOf(x)] == x.link.value)
    && (x.wr ==> x.link.Some? && x.link.value in s.frames && s.frames[x.link.value].dirty)
    && (Faulting(s, a) ==> InPage(c, x.offset) && (x.pin <==> !s.threads[x.owner].pc.AtInc?))
    && (!Faulting(s, a) ==> (x.pin <==> x.link.Some?))
    && (!Faulting(s, a) && x.link.None? ==> !InPage(c, x.offset))
  }

  ghost predicate AptrsOk(c: Config, s: State) {
    forall a | a in s.aptrs :: AptrOk(c, s, a)
  }

  /** The page whose bucket lock a thread holds. */
  function LockedPage(x: Thread): Option<int> {
    match x.pc
    case AtCheck(q) => Some(q)
    case AtClear(q, _) => Some(q)
    case AtSeal(q, _) => Some(q)
    case AtUncount(q, _) => Some(q)
    case AtUnlink(q, _) => Some(q)
    case AtCount(_) => Some(x.p)
    case AtEnqueue(_) => Some(x.p)
    case _ => None
  }

  ghost predicate LockHeld(c: Config, th: map<nat, Thread>, lock: map<int, nat>, t: nat)
    requires c.nbuckets > 0 && t in th
  {
    LockedPage(th[t]).Some? ==>
      && Bucket(c, LockedPage(th[t]).value) in lock
      && lock[Bucket(c, LockedPage(th[t]).value)] == t
  }

  /** A lock is held exactly by the thread whose position says so. */
  ghost predicate LocksOk(c: Config, th: map<nat, Thread>, lock: map<int, nat>)
    requires c.nbuckets > 0
  {
    && (forall t | t in th :: LockHeld(c, th, lock, t))
    && (forall b | b in lock ::
          lock[b] in th && LockedPage(th[lock[b]]).Some? && Bucket(c, LockedPage(th[lock[b]]).value) == b)
  }

  /** The cached page, not on the queue, that a thread has in its hands. */
  function PageInHand(x: Thread): Option<int> {
    match x.pc
    case AtLock(q) => Some(q)
    case AtCheck(q) => Some(q)
    case AtRequeue(q) => Some(q)
    case AtClear(q, _) => Some(q)
    case AtSeal(q, _) => Some(q)
    case AtUncount(q, _) => Some(q)
    case AtUnlink(q, _) => Some(q)
    case AtCount(_) => Some(x.p)
    case AtEnqueue(_) => Some(x.p)
    case _ => None
  }

  /** Every cached page is on the queue exactly once, or in one thread's hands. */
  ghost predicate PlacesOk(th: map<nat, Thread>, queue: seq<int>, loc: map<int, Place>) {
    && (forall i | 0 <= i < |queue| :: queue[i] in loc && loc[queue[i]] == Queued)
    && (forall i, j | 0 <= i < j < |queue| :: queue[i] != queue[j])
    && (forall p | p in loc && loc[p].Queued? :: p in queue)
    && (forall t | t in th && PageInHand(th[t]).Some? ::
          PageInHand(th[t]).value in loc && loc[PageInHand(th[t]).value] == InHand(t))
    && (forall p | p in loc && loc[p].InHand? :: loc[p].t in th && PageInHand(th[loc[p].t]) == Some(p))
  }

  /** Every frame is free once, or caches one page, or is in one thread's hands. */
  ghost predicate FramesOk(th: map<nat, Thread>, free: seq<nat>, own: map<nat, FrameOwner>, cache: map<int, nat>) {
    && (forall i | 0 <= i < |free| :: free[i] in own && own[free[i]] == Free)
    && (forall i, j | 0 <= i < j < |free| :: free[i] != free[j])
    && (forall p | p in cache :: cache[p] in own && own[cache[p]] == Caching(p))
    && (forall t | t in th && FrameInHand(th[t]).Some? ::
          FrameInHand(th[t]).value in own && own[FrameInHand(th[t]).value] == HeldBy(t))
  }

  /** Only cached frames are dirty. */
  ghost predicate CleanOk(s: State) {
    forall f | f in s.own && f in s.frames && !s.own[f].Caching? :: !s.frames[f].dirty
  }

  /** q is cached in f, and nothing pins it. */
  ghost predicate Evictable(s: State, q: int, f: nat) {
    q in s.cache && s.cache[q] == f && q in s.refc && s.refc[q] == 0 && f in s.frames
  }

  /** What a thread knows from where it is about the page it evicts or adds. */
  ghost predicate FlightOk(s: State, t: nat)
    requires t in s.threads
  {
    var p := s.threads[t].p;
    match s.threads[t].pc
    case AtClear(q, f) => Evictable(s, q, f)
    case AtSeal(q, f) => Evictable(s, q, f) && q in s.crypto && !s.frames[f].dirty
    case AtUncount(q, f) => Evictable(s, q, f) && !s.frames[f].dirty
    case AtUnlink(q, f) => Evictable(s, q, f) && !s.frames[f].dirty
    case AtCount(f) => p in s.cache && s.cache[p] == f
    case AtEnqueue(f) => p in s.cache && s.cache[p] == f
    case AtReget(f) => p in s.cache
    case AtReturn(f, g) => p in s.cache && s.cache[p] == g
    case _ => true
  }

  ghost predicate FlightsOk(s: State) {
    forall t | t in s.threads :: FlightOk(s, t)
  }

  // Classes of program points, for counting threads.

  predicate HoldsFrame(pc: Pc) {
    pc.AtUnlink? || pc.AtPush? || pc.AtLoad? || pc.AtAdd? || pc.AtCount? || pc.AtReget? || pc.AtReturn?
  }

  predicate HoldsPage(pc: Pc) {
    pc.AtLock? || pc.AtCheck? || pc.AtRequeue? || pc.AtClear? || pc.AtSeal? || pc.AtUncount? || pc.AtEnqueue?
  }

  predicate WillPop(pc: Pc) { pc.AtPop? }

  predicate WillDequeue(pc: Pc) { pc.AtDequeue? }

  function With(th: map<nat, Thread>, kind: Pc -> bool): set<nat> {
    set t | t in th && kind(th[t].pc)
  }

  /** Frames are conserved, and every thread that is about to pop a frame or
      take a page off the queue has one reserved. */
  ghost predicate CountsOk(c: Config, th: map<nat, Thread>, free: nat, size: int, queue: nat) {
    && free + size + |With(th, HoldsFrame)| == c.cap
    && size == queue + |With(th, HoldsPage)|
    && |With(th, WillPop)| <= free
    && |With(th, WillDequeue)| <= queue
  }

  /** Page p is between having its dirty bit cleared and being written back. */
  ghost predicate Sealing(s: State, p: int) {
    exists t | t in s.threads :: s.threads[t].pc.AtSeal? && s.threads[t].pc.q == p
  }

  /** The stored text of a page decrypts, and is what a clean frame caches. */
  ghost predicate PageOk(c: Config, s: State, p: int) {
    p in s.crypto && !Sealing(s, p) ==>
      && Sealed(c, s, p) && |Text(c, s, p)| == c.pageSize
      && (p in s.cache && s.cache[p] in s.frames && !s.frames[s.cache[p]].dirty ==>
            Text(c, s, p) == s.frames[s.cache[p]].text)
  }

  /** A frame that has been filled for its page, but not yet added to the cache. */
  ghost predicate LoadOk(c: Config, s: State, t: nat)
    requires t in s.threads
  {
    var p := s.threads[t].p;
    s.threads[t].pc.AtAdd? && p in s.crypto ==>
      && s.threads[t].pc.f in s.frames
      && Sealed(c, s, p) && Text(c, s, p) == s.frames[s.threads[t].pc.f].text
  }

  /** Where the byte last written at offset off of page p is now. */
  ghost predicate ByteAt(c: Config, s: State, p: int, off: int, v: int) {
    && 0 <= p < c.npages
    && (p in s.cache ==>
          && s.cache[p] in s.frames && 0 <= off < |s.frames[s.cache[p]].text|
          && s.frames[s.cache[p]].text[off] == v
          && (!s.frames[s.cache[p]].dirty && !Sealing(s, p) ==> p in s.crypto))
    && (p !in s.cache ==> Sealed(c, s, p) && 0 <= off < |Text(c, s, p)| && Text(c, s, p)[off] == v)
  }

  ghost predicate MemoryOk(c: Config, s: State) {
    && (forall p :: PageOk(c, s, p))
    && (forall t | t in s.threads :: LoadOk(c, s, t))
    && (forall p, off | (p, off) in s.mem :: ByteAt(c, s, p, off, s.mem[(p, off)]))
  }

  /** The parts of the invariant that speak of Aptrs and contents. */
  ghost predicate Contents(c: Config, s: State) {
    Shape(c, s) && Counted(s) && AptrsOk(c, s) && CleanOk(s) && FlightsOk(s) && MemoryOk(c, s)
  }

  ghost predicate Inv(c: Config, s: State)
    requires Fit(c)
  {
    && Contents(c, s) && LocksOk(c, s.threads, s.lock)
    && s.loc.Keys == s.cache.Keys && PlacesOk(s.threads, s.queue, s.loc)
    && FramesOk(s.threads, s.free, s.own, s.cache)
    && CountsOk(c, s.threads, |s.free|, s.size, |s.queue|)
  }
}
