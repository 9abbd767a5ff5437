// Copying, setting and comparing blocks of the software virtual memory: the
// loops over Aptrs agree with one operation on the flat byte memory.
module SuvmCopy {
  import opened Options
  import opened SuvmMachine
  import opened SuvmSteps
  import opened SuvmSafety
  import opened SuvmAlone
  import opened SuvmFlat
  import opened Suvm

  // ---- room for faults ----

  /** There is room for every Aptr of mine to be faulted in anywhere: no more
      Aptrs than frames beyond the slack, and counts that cannot overflow. */
  ghost predicate Roomy(c: Config, s: State, mine: set<nat>) {
    |s.aptrs| <= c.cap - c.slack && forall p {:trigger Pins(s, p)} :: |Pins(s, p) - mine| + |mine| <= 255
  }

  /** Only Aptrs of mine differ. */
  ghost predicate SameOthers(s: State, s': State, mine: set<nat>) {
    s'.aptrs.Keys == s.aptrs.Keys && forall b | b in s.aptrs && b !in mine :: s'.aptrs[b] == s.aptrs[b]
  }

  lemma RoomyKept(c: Config, s: State, s': State, mine: set<nat>)
    requires Roomy(c, s, mine) && SameOthers(s, s', mine)
    ensures Roomy(c, s', mine)
  {
    assert |s'.aptrs| == |s'.aptrs.Keys| && |s.aptrs| == |s.aptrs.Keys|;
    forall p ensures |Pins(s', p) - mine| + |mine| <= 255 {
      assert Pins(s', p) - mine == Pins(s, p) - mine;
    }
  }

  lemma OthersOn(s: State, s1: State, s2: State, mine: set<nat>)
    requires SameOthers(s, s1, mine) && SameOthers(s1, s2, mine)
    ensures SameOthers(s, s2, mine)
  {
  }

  lemma PageInStore(c: Config, p: int, off: int)
    requires c.pageSize > 0 && InPage(c, off) && 0 <= p * c.pageSize + off < c.npages * c.pageSize
    ensures 0 <= p < c.npages
  {
    if p < 0 {
      Gap(c.pageSize, p, 0);
    } else if p >= c.npages && p > c.npages {
      Gap(c.pageSize, c.npages, p);
    }
  }

  lemma RoomyFaultable(c: Config, s: State, t: nat, a: nat, mine: set<nat>)
    requires Fit(c) && AllIdle(s) && Owned(s, t, a) && a in mine && Roomy(c, s, mine)
    requires !InPage(c, s.aptrs[a].offset) && 0 <= Addr(c, s.aptrs[a]) < c.npages * c.pageSize
    requires Inv(c, s)
    ensures Enabled(c, s, BeginFault(t, a)) && CanFault(c, s, t, a)
    ensures |Pins(s, PageOf(Shifted(c, s.aptrs[a])))| < 255
  {
    hide Inv, CanFault;
    var y := Shifted(c, s.aptrs[a]);
    ShiftKeepsAddress(c, s.aptrs[a]);
    PageInStore(c, PageOf(y), y.offset);
    IdleAptr(c, s, a);
    AllCounted(c, s);
    AloneHoldsNoLock(c, s, t);
    RoomSuffices(c, s, t, a);
    var pins := Pins(s, PageOf(y));
    assert a !in pins;
    assert pins == (pins - mine) + (pins * mine);
    SubsetSize(pins * mine, mine - {a});
  }

  // ---- one access ----

  /** The Aptr a, under the name id, is this thread's. */
  ghost predicate Held(m: Memory, id: nat, a: AptrRef, mine: set<nat>)
    reads m
    ensures Held(m, id, a, mine) ==> id in m.st.aptrs && id in m.objs && m.objs[id] == a && Owned(m.st, m.me, id)
  {
    id in m.objs && m.objs[id] == a && Owned(m.st, m.me, id) && id in mine && Roomy(m.c, m.st, mine)
  }

  predicate InStore(c: Config, addr: int) { 0 <= addr < c.npages * c.pageSize }

  /** The address is a pointer that the dereference of the Aptr has given. */
  ghost predicate Points(m: Memory, id: nat, address: int, f: nat)
    reads m
  {
    && id in m.st.aptrs && m.st.aptrs[id].link == Some(f) && InPage(m.c, m.st.aptrs[id].offset)
    && address == Word(m.c, m.slabBase, f, false) + m.st.aptrs[id].offset
  }

  method DerefAt(m: Memory, ghost id: nat, a: AptrRef, ghost mine: set<nat>) returns (address: int, ghost f: nat)
    requires m.Ready() && Held(m, id, a, mine) && InStore(m.c, Addr(m.c, m.st.aptrs[id]))
    modifies m.Parts(), a
    ensures m.Ready() && Held(m, id, a, mine) && m.objs == old(m.objs) &&
            (forall o | o in m.Parts() :: o in old(m.Parts()) || fresh(o))
    ensures m.st.mem == old(m.st.mem) && SameOthers(old(m.st), m.st, {id})
    ensures Points(m, id, address, f) && a.offset == m.st.aptrs[id].offset
    ensures Addr(m.c, m.st.aptrs[id]) == Addr(m.c, old(m.st.aptrs[id]))
    ensures m.st.aptrs[id].hint == old(m.st.aptrs[id].hint) && (m.st.aptrs[id].hint ==> m.st.aptrs[id].wr)
  {
    hide Inv, Memory.Tied, Roomy, Reaches;
    m.Basics();
    m.SeenPage(id);
    if !InPage(m.c, a.offset) {
      RoomyFaultable(m.c, m.st, m.me, id, mine);
    }
    var nonce: int := *;
    ghost var s0 := m.st;
    address, f := m.Deref(id, a, nonce);
    RoomyKept(m.c, s0, m.st, mine);
  }

  /** The bytes at a pointer are those of the flat memory at the Aptr's address. */
  method LoadAt(m: Memory, ghost id: nat, a: AptrRef, ghost mine: set<nat>, address: int, n: nat, ghost f: nat)
    returns (bytes: seq<int>)
    requires m.Ready() && Held(m, id, a, mine) && Points(m, id, address, f) && m.st.aptrs[id].offset + n <= m.c.pageSize
    ensures m.Ready() && |bytes| == n && Reads(m.c, m.st.mem, Addr(m.c, m.st.aptrs[id]), bytes)
  {
    hide Inv, Memory.Tied, Roomy, Reads;
    bytes := m.LoadBytes(id, address, n, f, m.st.aptrs[id].offset);
  }

  /** Storing bytes at a pointer writes them to the flat memory at the Aptr's address. */
  method StoreAt(m: Memory, ghost id: nat, a: AptrRef, ghost mine: set<nat>, address: int, bytes: seq<int>,
    ghost f: nat)
    requires m.Ready() && Held(m, id, a, mine) && Points(m, id, address, f) && m.st.aptrs[id].wr
    requires m.st.aptrs[id].offset + |bytes| <= m.c.pageSize
    modifies m.Parts()
    ensures m.Ready() && Held(m, id, a, mine) && m.objs == old(m.objs) &&
            (forall o | o in m.Parts() :: o in old(m.Parts()) || fresh(o))
    ensures m.st.aptrs == old(m.st.aptrs)
    ensures Wrote(m.c, old(m.st.mem), m.st.mem, Addr(m.c, m.st.aptrs[id]), bytes)
  {
    hide Inv, Memory.Tied, Roomy, Wrote, Reaches;
    ghost var s0 := m.st;
    m.StoreBytes(id, address, bytes, f, m.st.aptrs[id].offset);
    RoomyKept(m.c, s0, m.st, mine);
  }

  /** MOVE_APTR after a dereference. */
  method MoveBy(m: Memory, ghost id: nat, a: AptrRef, ghost mine: set<nat>, d: int)
    requires m.Ready() && Held(m, id, a, mine) && m.st.aptrs[id].link.Some?
    modifies m.Parts(), a
    ensures m.Ready() && Held(m, id, a, mine) && m.objs == old(m.objs) &&
            (forall o | o in m.Parts() :: o in old(m.Parts()) || fresh(o))
    ensures m.st.mem == old(m.st.mem) && SameOthers(old(m.st), m.st, {id})
    ensures Addr(m.c, m.st.aptrs[id]) == Addr(m.c, old(m.st.aptrs[id])) + d
    ensures m.st.aptrs[id].hint == old(m.st.aptrs[id].hint)
  {
    hide Inv, Memory.Tied, Roomy, Reaches;
    m.Basics();
    ghost var s0 := m.st;
    m.Move(id, a, d);
    RoomyKept(m.c, s0, m.st, mine);
  }

  // ---- the temporary Aptr of a loop ----

  /** There is room for k more Aptrs. */
  ghost predicate RoomFor(c: Config, s: State, k: nat) {
    |s.aptrs| + k <= c.cap - c.slack && forall p {:trigger Pins(s, p)} :: |Pins(s, p)| + k <= 255
  }

  lemma RoomForOne(c: Config, s: State, s': State, id: nat)
    requires RoomFor(c, s, 1) && id !in s.aptrs
    requires s'.aptrs.Keys == s.aptrs.Keys + {id} && !s'.aptrs[id].pin
    requires forall b | b in s.aptrs :: s'.aptrs[b] == s.aptrs[b]
    ensures Roomy(c, s', {id})
  {
    assert |s'.aptrs| == |s'.aptrs.Keys| && |s.aptrs| == |s.aptrs.Keys|;
    forall p ensures |Pins(s', p) - {id}| + 1 <= 255 {
      assert Pins(s', p) - {id} == Pins(s, p);
    }
  }

  /** Aptr<char>(x, n, 0). */
  method Temporary(m: Memory, x: nat) returns (a: AptrRef, ghost id: nat)
    requires m.Ready() && RoomFor(m.c, m.st, 1)
    modifies m.Parts()
    ensures m.Ready() && fresh(a) && id !in old(m.st.aptrs) && m.objs == old(m.objs)[id := a] && id !in old(m.objs)
    ensures id in m.st.aptrs && Held(m, id, a, {id}) &&
            (forall o | o in m.Parts() :: o in old(m.Parts()) || fresh(o)) && m.st.mem == old(m.st.mem)
    ensures m.st.aptrs == old(m.st.aptrs)[id := m.st.aptrs[id]] && Addr(m.c, m.st.aptrs[id]) == x
  {
    hide Inv, Memory.Tied, Reaches, Roomy, RoomFor;
    m.Basics();
    ghost var s0 := m.st;
    a, id := m.Construct(x);
    m.Basics();
    RoomForOne(m.c, s0, m.st, id);
  }

  method HintAt(m: Memory, ghost id: nat, a: AptrRef, ghost mine: set<nat>, h: bool)
    requires m.Ready() && Held(m, id, a, mine)
    modifies m.Parts(), a
    ensures m.Ready() && Held(m, id, a, mine) && m.objs == old(m.objs) &&
            (forall o | o in m.Parts() :: o in old(m.Parts()) || fresh(o))
    ensures m.st.mem == old(m.st.mem) && SameOthers(old(m.st), m.st, {id})
    ensures Addr(m.c, m.st.aptrs[id]) == Addr(m.c, old(m.st.aptrs[id])) && m.st.aptrs[id].hint == h
  {
    hide Inv, Memory.Tied, Reaches, Roomy;
    ghost var s0 := m.st;
    m.SetHint(id, a, h);
    RoomyKept(m.c, s0, m.st, mine);
  }

  /** The destructor: the Aptrs are again those that there were before. */
  method Discard(m: Memory, ghost id: nat, a: AptrRef)
    requires m.Ready() && id in m.objs && m.objs[id] == a && Owned(m.st, m.me, id)
    modifies m.Parts(), a
    ensures m.Ready() && m.objs == old(m.objs) - {id} && (forall o | o in m.Parts() :: o in old(m.Parts()) || fresh(o))
    ensures m.st.mem == old(m.st.mem) && m.st.aptrs == old(m.st.aptrs) - {id} && m.st.threads == old(m.st.threads)
  {
    hide Inv, Memory.Tied, Reaches, Roomy;
    m.Basics();
    m.Reset(id, a);
  }

  // ---- memset_aptr ----

  /** (unsigned char)ch. */
  function Char(ch: int): int { ch % 256 }

  /** It is a byte, the argument itself where that is one, and the same for
      arguments that differ by a multiple of 256. */
  lemma CharIs(ch: int, k: int)
    ensures 0 <= Char(ch) < 256 && (0 <= ch < 256 ==> Char(ch) == ch) && Char(ch + 256 * k) == Char(ch)
  {
  }

  /** One turn of the loop: the byte at the cursor is set and the cursor moves on. */
  method PutByte(m: Memory, ghost id: nat, a: AptrRef, ghost mine: set<nat>, v: int)
    requires m.Ready() && Held(m, id, a, mine) && InStore(m.c, Addr(m.c, m.st.aptrs[id])) && m.st.aptrs[id].hint
    modifies m.Parts(), a
    ensures m.Ready() && Held(m, id, a, mine) && m.objs == old(m.objs) &&
            (forall o | o in m.Parts() :: o in old(m.Parts()) || fresh(o))
    ensures SameOthers(old(m.st), m.st, {id}) && m.st.aptrs[id].hint
    ensures Addr(m.c, m.st.aptrs[id]) == Addr(m.c, old(m.st.aptrs[id])) + 1
    ensures Wrote(m.c, old(m.st.mem), m.st.mem, Addr(m.c, old(m.st.aptrs[id])), [v])
  {
    hide Memory.Ready, Roomy, Wrote, InStore;
    ghost var s0 := m.st;
    var address, f := DerefAt(m, id, a, mine);
    ghost var s1 := m.st;
    StoreAt(m, id, a, mine, address, [v], f);
    ghost var s2 := m.st;
    MoveBy(m, id, a, mine, 1);
  }

  function Fill(v: int, k: nat): seq<int> { seq(k, _ => v) }

  /** Memory that is filled holds the value everywhere in the range, and elsewhere
      what it held. */
  lemma FilledMemory(c: Config, mem: map<(int, int), int>, mem': map<(int, int), int>, dst: int, v: int, n: nat)
    requires c.pageSize > 0 && Wrote(c, mem, mem', dst, Fill(v, n))
    ensures forall x {:trigger Byte(c, mem', x)} ::
              Byte(c, mem', x) == if dst <= x < dst + n then Some(v) else Byte(c, mem, x)
  {
    hide Byte;
  }

  lemma Filled(v: int, k: nat)
    ensures Fill(v, 0) == [] && |Fill(v, k)| == k && Fill(v, k) + [v] == Fill(v, k + 1)
  {
  }

  /** A temporary Aptr leaves no trace. */
  lemma Restored(before: map<nat, Aptr>, s1: State, s2: State, id: nat)
    requires id !in before && id in s1.aptrs && s1.aptrs == before[id := s1.aptrs[id]] && SameOthers(s1, s2, {id})
    ensures s2.aptrs - {id} == before
  {
  }

  method SetLoop(m: Memory, ghost id: nat, a: AptrRef, v: int, count: nat)
    requires m.Ready() && Held(m, id, a, {id}) && m.st.aptrs[id].hint && count > 0
    requires 0 <= Addr(m.c, m.st.aptrs[id]) && Addr(m.c, m.st.aptrs[id]) + count <= m.c.npages * m.c.pageSize
    modifies m.Parts(), a
    ensures m.Ready() && Held(m, id, a, {id}) && m.objs == old(m.objs) &&
            (forall o | o in m.Parts() :: o in old(m.Parts()) || fresh(o))
    ensures SameOthers(old(m.st), m.st, {id})
    ensures Wrote(m.c, old(m.st.mem), m.st.mem, Addr(m.c, old(m.st.aptrs[id])), Fill(v, count))
  {
    hide Memory.Ready, Memory.Parts, Held, Wrote, Fill;
    ghost var mem, addr := m.st.mem, Addr(m.c, m.st.aptrs[id]);
    m.Positive();
    WroteNothing(m.c, mem, addr);
    ghost var done := 0;
    var n := count;
    Filled(v, 0);
    while n != 0
      invariant done == count - n && n <= count
      invariant m.Ready() && Held(m, id, a, {id}) && m.objs == old(m.objs) &&
                (forall o | o in m.Parts() :: o in old(m.Parts()) || fresh(o))
      invariant SameOthers(old(m.st), m.st, {id}) && m.st.aptrs[id].hint
      invariant Addr(m.c, m.st.aptrs[id]) == addr + done && m.c.pageSize > 0
      invariant Wrote(m.c, mem, m.st.mem, addr, Fill(v, done))
    {
      ghost var s1 := m.st;
      PutByte(m, id, a, {id}, v);
      Filled(v, done);
      WroteOn(m.c, mem, s1.mem, m.st.mem, addr, Fill(v, done), [v]);
      n := n - 1;
      done := done + 1;
    }
  }

  method MemsetAptr(m: Memory, dst: nat, ch: int, n: nat)
    requires m.Ready() && RoomFor(m.c, m.st, 1) && dst + n <= m.c.npages * m.c.pageSize
    modifies m.Parts()
    ensures m.Ready() && m.st.aptrs == old(m.st.aptrs) && m.objs == old(m.objs)
    ensures (forall o | o in m.Parts() :: o in old(m.Parts()) || fresh(o))
    ensures Wrote(m.c, old(m.st.mem), m.st.mem, dst, Fill(Char(ch), n))
  {
    hide Memory.Ready, Memory.Parts, Held, Wrote, RoomFor, Char, Fill, SameOthers;
    m.Positive();
    Filled(Char(ch), 0);
    if n == 0 {
      WroteNothing(m.c, m.st.mem, dst);
    } else {
      var a, id := Temporary(m, dst);
      ghost var s1 := m.st;
      HintAt(m, id, a, {id}, true);
      ghost var s2 := m.st;
      SetLoop(m, id, a, Char(ch), n);
      OthersOn(s1, s2, m.st, {id});
      Restored(old(m.st.aptrs), s1, m.st, id);
      Discard(m, id, a);
    }
  }

  // ---- memmove_aptr_reg ----

  /** One turn of the loop: the bytes up to the end of the page, or all that are left. */
  method WriteChunk(m: Memory, ghost id: nat, a: AptrRef, src: seq<int>, ctr: nat) returns (rest: nat)
    requires m.Ready() && Held(m, id, a, {id}) && m.st.aptrs[id].hint && 0 < ctr <= |src|
    requires 0 <= Addr(m.c, m.st.aptrs[id]) && Addr(m.c, m.st.aptrs[id]) + ctr <= m.c.npages * m.c.pageSize
    modifies m.Parts(), a
    ensures m.Ready() && Held(m, id, a, {id}) && m.objs == old(m.objs) &&
            (forall o | o in m.Parts() :: o in old(m.Parts()) || fresh(o))
    ensures SameOthers(old(m.st), m.st, {id}) && m.st.aptrs[id].hint && rest < ctr
    ensures rest > 0 ==> Addr(m.c, m.st.aptrs[id]) == Addr(m.c, old(m.st.aptrs[id])) + (ctr - rest)
    ensures Wrote(m.c, old(m.st.mem), m.st.mem, Addr(m.c, old(m.st.aptrs[id])), src[|src| - ctr..|src| - rest])
  {
    hide Memory.Ready, Memory.Parts, Roomy, Wrote;
    var address, f := DerefAt(m, id, a, {id});
    var left := m.c.pageSize - a.offset;
    if ctr > left {
      StoreAt(m, id, a, {id}, address, src[|src| - ctr..|src| - ctr + left], f);
      MoveBy(m, id, a, {id}, left);
      rest := ctr - left;
    } else {
      StoreAt(m, id, a, {id}, address, src[|src| - ctr..|src|], f);
      rest := 0;
    }
  }

  method WriteLoop(m: Memory, ghost id: nat, a: AptrRef, src: seq<int>)
    requires m.Ready() && Held(m, id, a, {id}) && m.st.aptrs[id].hint
    requires 0 <= Addr(m.c, m.st.aptrs[id]) && Addr(m.c, m.st.aptrs[id]) + |src| <= m.c.npages * m.c.pageSize
    modifies m.Parts(), a
    ensures m.Ready() && Held(m, id, a, {id}) && m.objs == old(m.objs) &&
            (forall o | o in m.Parts() :: o in old(m.Parts()) || fresh(o))
    ensures SameOthers(old(m.st), m.st, {id})
    ensures Wrote(m.c, old(m.st.mem), m.st.mem, Addr(m.c, old(m.st.aptrs[id])), src)
  {
    hide Memory.Ready, Memory.Parts, Held, Wrote;
    ghost var mem, addr := m.st.mem, Addr(m.c, m.st.aptrs[id]);
    m.Positive();
    WroteNothing(m.c, mem, addr);
    var ctr: nat := |src|;
    assert src[..0] == [];
    while ctr > 0
      invariant ctr <= |src| && m.c.pageSize > 0
      invariant m.Ready() && Held(m, id, a, {id}) && m.objs == old(m.objs) &&
                (forall o | o in m.Parts() :: o in old(m.Parts()) || fresh(o))
      invariant SameOthers(old(m.st), m.st, {id}) && m.st.aptrs[id].hint
      invariant ctr > 0 ==> Addr(m.c, m.st.aptrs[id]) == addr + (|src| - ctr)
      invariant Wrote(m.c, mem, m.st.mem, addr, src[..|src| - ctr])
    {
      ghost var s1 := m.st;
      var rest := WriteChunk(m, id, a, src, ctr);
      WroteOn(m.c, mem, s1.mem, m.st.mem, addr, src[..|src| - ctr], src[|src| - ctr..|src| - rest]);
      assert src[..|src| - rest] == src[..|src| - ctr] + src[|src| - ctr..|src| - rest];
      ctr := rest;
    }
    assert src[..|src|] == src;
  }

  /** There is room for one more Aptr, whose copy the caller's Aptr may be. */
  method CopyHeld(m: Memory, src: AptrRef, ghost srcId: nat) returns (a: AptrRef, ghost id: nat)
    requires m.Ready() && RoomFor(m.c, m.st, 1) && srcId in m.objs && m.objs[srcId] == src && Owned(m.st, m.me, srcId)
    requires !(0 - m.c.pageSize <= m.st.aptrs[srcId].offset < 0)
    modifies m.Parts()
    ensures m.Ready() && fresh(a) && id !in old(m.st.aptrs) && m.objs == old(m.objs)[id := a] && id !in old(m.objs)
    ensures id in m.st.aptrs && Held(m, id, a, {id}) && m.st.mem == old(m.st.mem) &&
            (forall o | o in m.Parts() :: o in old(m.Parts()) || fresh(o))
    ensures m.st.aptrs == old(m.st.aptrs)[id := m.st.aptrs[id]]
    ensures Addr(m.c, m.st.aptrs[id]) == Addr(m.c, old(m.st.aptrs[srcId]))
  {
    hide Inv, Memory.Tied, Reaches, Roomy, RoomFor;
    m.Basics();
    ghost var s0 := m.st;
    a, id := m.Copy(src, srcId);
    m.Basics();
    RoomForOne(m.c, s0, m.st, id);
  }

  /** The bytes of src are written at the Aptr's address, wherever in a page it
      starts and however many pages it spans; the Aptr itself stays where it is. */
  method MemmoveAptrReg(m: Memory, dst0: AptrRef, ghost dstId: nat, src: seq<int>)
    requires m.Ready() && RoomFor(m.c, m.st, 1) && dstId in m.objs && m.objs[dstId] == dst0 && Owned(m.st, m.me, dstId)
    requires !(0 - m.c.pageSize <= m.st.aptrs[dstId].offset < 0)
    requires 0 <= Addr(m.c, m.st.aptrs[dstId]) && Addr(m.c, m.st.aptrs[dstId]) + |src| <= m.c.npages * m.c.pageSize
    modifies m.Parts()
    ensures m.Ready() && m.st.aptrs == old(m.st.aptrs) && m.objs == old(m.objs) &&
            (forall o | o in m.Parts() :: o in old(m.Parts()) || fresh(o))
    ensures Wrote(m.c, old(m.st.mem), m.st.mem, Addr(m.c, old(m.st.aptrs[dstId])), src)
  {
    hide Memory.Ready, Memory.Parts, Held, Wrote, RoomFor, SameOthers;
    var a, id := CopyHeld(m, dst0, dstId);
    ghost var s1 := m.st;
    HintAt(m, id, a, {id}, true);
    ghost var s2 := m.st;
    WriteLoop(m, id, a, src);
    OthersOn(s1, s2, m.st, {id});
    Restored(old(m.st.aptrs), s1, m.st, id);
    Discard(m, id, a);
  }

  // ---- memmove_reg_aptr ----

  /** Where the last chunk of a block starts: at the block, or at its last page. */
  function LastChunk(c: Config, addr: int, length: nat): int
    requires c.pageSize > 0
  {
    if length == 0 || LastPage(c, addr, length) < addr then addr else LastPage(c, addr, length)
  }

  lemma PageStart(c: Config, p: int, off: int, n: nat)
    requires c.pageSize > 0 && InPage(c, off) && 0 < n <= c.pageSize - off
    ensures (p * c.pageSize + off + n - 1) / c.pageSize * c.pageSize == p * c.pageSize
  {
    SplitsAt(c, p, off + n - 1);
    assert p * c.pageSize + off + n - 1 == p * c.pageSize + (off + n - 1);
  }

  /** One turn of the loop: the bytes up to the end of the page, or all that are left. */
  method ReadChunk(m: Memory, ghost id: nat, a: AptrRef, ghost mine: set<nat>, ctr: nat) returns (bytes: seq<int>)
    requires m.Ready() && Held(m, id, a, mine) && ctr > 0 && m.c.pageSize > 0
    requires 0 <= Addr(m.c, m.st.aptrs[id]) && Addr(m.c, m.st.aptrs[id]) + ctr <= m.c.npages * m.c.pageSize
    modifies m.Parts(), a
    ensures m.Ready() && Held(m, id, a, mine) && m.objs == old(m.objs) &&
            (forall o | o in m.Parts() :: o in old(m.Parts()) || fresh(o))
    ensures SameOthers(old(m.st), m.st, {id}) && m.st.mem == old(m.st.mem) && 0 < |bytes| <= ctr
    ensures Reads(m.c, m.st.mem, Addr(m.c, old(m.st.aptrs[id])), bytes)
    ensures |bytes| < ctr ==>
      && Addr(m.c, m.st.aptrs[id]) == Addr(m.c, old(m.st.aptrs[id])) + |bytes|
      && Addr(m.c, m.st.aptrs[id]) % m.c.pageSize == 0
    ensures |bytes| == ctr ==>
      && Addr(m.c, m.st.aptrs[id]) == Addr(m.c, old(m.st.aptrs[id]))
      && LastPage(m.c, Addr(m.c, m.st.aptrs[id]), ctr) <= Addr(m.c, m.st.aptrs[id])
  {
    hide Memory.Ready, Memory.Parts, Held, Reads, SameOthers, LastPage;
    var address, f := DerefAt(m, id, a, mine);
    ghost var s1 := m.st;
    var left := m.c.pageSize - a.offset;
    ChunkPlace(m.c, PageOf(m.st.aptrs[id]), m.st.aptrs[id].offset, ctr);
    if ctr > left {
      bytes := LoadAt(m, id, a, mine, address, left, f);
      MoveBy(m, id, a, mine, left);
      OthersOn(old(m.st), s1, m.st, {id});
    } else {
      bytes := LoadAt(m, id, a, mine, address, ctr, f);
    }
  }

  /** The start of the page that the last byte of a block is on. */
  function LastPage(c: Config, addr: int, length: nat): int
    requires c.pageSize > 0
  {
    (addr + length - 1) / c.pageSize * c.pageSize
  }

  lemma ChunkPlace(c: Config, p: int, off: int, ctr: nat)
    requires c.pageSize > 0 && InPage(c, off) && ctr > 0
    ensures ctr <= c.pageSize - off ==> LastPage(c, p * c.pageSize + off, ctr) <= p * c.pageSize + off
    ensures (p * c.pageSize + off + (c.pageSize - off)) % c.pageSize == 0
  {
    if ctr <= c.pageSize - off {
      PageStart(c, p, off, ctr);
    }
    SplitsAt(c, p + 1, 0);
    assert (p + 1) * c.pageSize == p * c.pageSize + c.pageSize;
  }

  /** The turn that reads all that is left starts at the last chunk. */
  lemma LastTurn(c: Config, addr: int, k: nat, ctr: nat)
    requires c.pageSize > 0 && addr >= 0 && ctr > 0 && (k == 0 || (addr + k) % c.pageSize == 0)
    requires LastPage(c, addr + k, ctr) <= addr + k
    ensures LastChunk(c, addr, k + ctr) == addr + k
  {
    var x := addr + k;
    assert LastPage(c, addr, k + ctr) == LastPage(c, x, ctr);
    if k > 0 {
      PageFloor(c, x, x + ctr - 1);
    }
  }

  /** The last chunk of a block that is not empty starts in the block, at its start
      or at a page's, and has the block's last byte on its page. */
  lemma LastChunkIs(c: Config, addr: int, length: nat)
    requires c.pageSize > 0 && addr >= 0 && length > 0
    ensures var x := LastChunk(c, addr, length);
            && addr <= x < addr + length && (x == addr || x % c.pageSize == 0)
            && x / c.pageSize == (addr + length - 1) / c.pageSize
  {
    var last := addr + length - 1;
    var p := last / c.pageSize;
    assert last == p * c.pageSize + last % c.pageSize;
    SplitsAt(c, p, 0);
    if LastPage(c, addr, length) < addr {
      var off := addr - p * c.pageSize;
      SplitsAt(c, p, off);
    }
  }

  lemma PageFloor(c: Config, x: int, y: int)
    requires c.pageSize > 0 && 0 <= x <= y && x % c.pageSize == 0
    ensures y / c.pageSize * c.pageSize >= x
  {
    var p, q := x / c.pageSize, y / c.pageSize;
    assert x == p * c.pageSize;
    assert y == q * c.pageSize + y % c.pageSize;
    if q < p {
      Gap(c.pageSize, q, p);
    }
  }

  /** The bytes at the Aptr's address are read; the caller's Aptr is left at the
      start of the last chunk. */
  method MemmoveRegAptr(m: Memory, src: AptrRef, ghost id: nat, ghost mine: set<nat>, length: nat)
    returns (dst: seq<int>)
    requires m.Ready() && Held(m, id, src, mine)
    requires 0 <= Addr(m.c, m.st.aptrs[id]) && Addr(m.c, m.st.aptrs[id]) + length <= m.c.npages * m.c.pageSize
    modifies m.Parts(), src
    ensures m.Ready() && Held(m, id, src, mine) && m.objs == old(m.objs) &&
            (forall o | o in m.Parts() :: o in old(m.Parts()) || fresh(o))
    ensures SameOthers(old(m.st), m.st, {id}) && m.st.mem == old(m.st.mem) && m.c.pageSize > 0
    ensures |dst| == length && Reads(m.c, m.st.mem, Addr(m.c, old(m.st.aptrs[id])), dst)
    ensures Addr(m.c, m.st.aptrs[id]) == LastChunk(m.c, Addr(m.c, old(m.st.aptrs[id])), length)
  {
    hide Memory.Ready, Memory.Parts, Held, Reads, LastPage, LastChunk;
    ghost var mem, addr := m.st.mem, Addr(m.c, m.st.aptrs[id]);
    m.Positive();
    ReadsNothing(m.c, mem, addr);
    NoChunk(m.c, addr);
    dst := [];
    var ctr: nat := length;
    while ctr > 0
      invariant |dst| == length - ctr && ctr <= length && m.c.pageSize > 0
      invariant m.Ready() && Held(m, id, src, mine) && m.objs == old(m.objs) &&
                (forall o | o in m.Parts() :: o in old(m.Parts()) || fresh(o))
      invariant SameOthers(old(m.st), m.st, {id}) && m.st.mem == mem
      invariant ctr > 0 ==> Addr(m.c, m.st.aptrs[id]) == addr + |dst|
      invariant ctr > 0 ==> dst == [] || (addr + |dst|) % m.c.pageSize == 0
      invariant ctr == 0 ==> Addr(m.c, m.st.aptrs[id]) == LastChunk(m.c, addr, length)
      invariant Reads(m.c, mem, addr, dst)
    {
      var bytes := ReadChunk(m, id, src, mine, ctr);
      ReadsOn(m.c, mem, addr, dst, bytes);
      if |bytes| == ctr {
        LastTurn(m.c, addr, |dst|, ctr);
      }
      dst := dst + bytes;
      ctr := ctr - |bytes|;
    }
  }

  lemma ReadsNothing(c: Config, mem: map<(int, int), int>, addr: int)
    requires c.pageSize > 0
    ensures Reads(c, mem, addr, [])
  {
  }

  lemma NoChunk(c: Config, addr: int)
    requires c.pageSize > 0
    ensures LastChunk(c, addr, 0) == addr
  {
  }

  // ---- memcpy_aptr ----

  lemma RoomForTwo(c: Config, s: State, s': State, i: nat, j: nat)
    requires RoomFor(c, s, 2) && i !in s.aptrs && j !in s.aptrs && i != j
    requires s'.aptrs.Keys == s.aptrs.Keys + {i, j} && !s'.aptrs[i].pin && !s'.aptrs[j].pin
    requires forall b | b in s.aptrs :: s'.aptrs[b] == s.aptrs[b]
    ensures Roomy(c, s', {i, j})
  {
    assert |s'.aptrs| == |s'.aptrs.Keys| && |s.aptrs| == |s.aptrs.Keys|;
    forall p ensures |Pins(s', p) - {i, j}| + 2 <= 255 {
      assert Pins(s', p) - {i, j} == Pins(s, p);
    }
  }

  /** Aptr<char>(x, n, 0) and Aptr<char>(y, n, 0). */
  method TwoTemporaries(m: Memory, x: nat, y: nat) returns (a: AptrRef, ghost i: nat, b: AptrRef, ghost j: nat)
    requires m.Ready() && RoomFor(m.c, m.st, 2)
    modifies m.Parts()
    ensures m.Ready() && fresh(a) && fresh(b) && a != b && i != j && i !in old(m.st.aptrs) && j !in old(m.st.aptrs)
    ensures i !in old(m.objs) && j !in old(m.objs) && m.objs == old(m.objs)[i := a][j := b] &&
            (forall o | o in m.Parts() :: o in old(m.Parts()) || fresh(o))
    ensures Held(m, i, a, {i, j}) && Held(m, j, b, {i, j}) && m.st.mem == old(m.st.mem)
    ensures m.st.aptrs == old(m.st.aptrs)[i := m.st.aptrs[i]][j := m.st.aptrs[j]]
    ensures Addr(m.c, m.st.aptrs[i]) == x && Addr(m.c, m.st.aptrs[j]) == y
  {
    hide Inv, Memory.Tied, Reaches, Roomy, RoomFor;
    m.Basics();
    ghost var s0 := m.st;
    a, i := m.Construct(x);
    b, j := m.Construct(y);
    m.Basics();
    RoomForTwo(m.c, s0, m.st, i, j);
  }

  /** The bytes vs are those that a forward copy of the range from src on to the
      range from dst on finds, each read after the ones before it have been written. */
  ghost predicate Forward(c: Config, mem: map<(int, int), int>, dst: int, src: int, vs: seq<int>)
    requires c.pageSize > 0
  {
    forall i | 0 <= i < |vs| :: ForwardAt(c, mem, dst, src, vs, i)
  }

  ghost predicate ForwardAt(c: Config, mem: map<(int, int), int>, dst: int, src: int, vs: seq<int>, i: nat)
    requires c.pageSize > 0 && i < |vs|
  {
    if dst <= src + i < dst + i then vs[i] == vs[src + i - dst]
    else Byte(c, mem, src + i).Some? ==> Byte(c, mem, src + i) == Some(vs[i])
  }

  /** Unless the destination starts inside the source, that is a plain copy. */
  lemma ForwardIsCopy(c: Config, mem: map<(int, int), int>, dst: int, src: int, vs: seq<int>)
    requires c.pageSize > 0 && Forward(c, mem, dst, src, vs) && !(src < dst < src + |vs|)
    ensures Reads(c, mem, src, vs)
  {
    forall i | 0 <= i < |vs| && Byte(c, mem, src + i).Some? ensures Byte(c, mem, src + i) == Some(vs[i]) {
      assert ForwardAt(c, mem, dst, src, vs, i);
    }
  }

  /** When it does, the bytes before the destination are repeated: each byte is the
      source's old one at its offset modulo the distance. */
  lemma {:induction false} ForwardRepeats(c: Config, mem: map<(int, int), int>, dst: int, src: int, vs: seq<int>,
      i: nat)
    requires c.pageSize > 0 && Forward(c, mem, dst, src, vs) && src < dst && i < |vs|
    ensures var before := Byte(c, mem, src + i % (dst - src)); before.Some? ==> before == Some(vs[i])
    decreases i
  {
    hide Byte, Forward;
    var d: nat := dst - src;
    OneForward(c, mem, dst, src, vs, i);
    if i >= d {
      ForwardRepeats(c, mem, dst, src, vs, i - d);
      SameOffset(i, d);
    } else {
      OneRemainder(i, d, 0, i);
    }
  }

  lemma OneForward(c: Config, mem: map<(int, int), int>, dst: int, src: int, vs: seq<int>, i: nat)
    requires c.pageSize > 0 && Forward(c, mem, dst, src, vs) && src < dst && i < |vs|
    ensures i >= dst - src ==> vs[i] == vs[i - (dst - src)]
    ensures i < dst - src && Byte(c, mem, src + i).Some? ==> Byte(c, mem, src + i) == Some(vs[i])
  {
    hide Byte;
    assert ForwardAt(c, mem, dst, src, vs, i);
  }

  lemma SameOffset(i: nat, d: nat)
    requires 0 < d <= i
    ensures (i - d) % d == i % d
  {
    assert i == i / d * d + i % d;
    assert i - d == (i / d - 1) * d + i % d;
    OneRemainder(i - d, d, i / d - 1, i % d);
  }

  lemma OneRemainder(x: int, d: nat, q: int, r: int)
    requires 0 <= r < d && x == q * d + r
    ensures x % d == r
  {
    SplitAddress(d, x / d, x % d, q, r);
    assert x == x / d * d + x % d;
  }

  /** One turn of the loop.  The pointer into the source stays valid while the
      destination is faulted in, because its page is pinned. */
  method CopyByte(m: Memory, ghost d: nat, dst: AptrRef, ghost s: nat, src: AptrRef) returns (v: int)
    requires m.Ready() && Held(m, d, dst, {d, s}) && Held(m, s, src, {d, s}) && d != s && m.st.aptrs[d].hint
    requires InStore(m.c, Addr(m.c, m.st.aptrs[d])) && InStore(m.c, Addr(m.c, m.st.aptrs[s])) && m.c.pageSize > 0
    modifies m.Parts(), dst, src
    ensures m.Ready() && Held(m, d, dst, {d, s}) && Held(m, s, src, {d, s}) && m.objs == old(m.objs) &&
            (forall o | o in m.Parts() :: o in old(m.Parts()) || fresh(o))
    ensures SameOthers(old(m.st), m.st, {d, s}) && m.st.aptrs[d].hint
    ensures Addr(m.c, m.st.aptrs[d]) == Addr(m.c, old(m.st.aptrs[d])) + 1
    ensures Addr(m.c, m.st.aptrs[s]) == Addr(m.c, old(m.st.aptrs[s])) + 1
    ensures Reads(m.c, old(m.st.mem), Addr(m.c, old(m.st.aptrs[s])), [v])
    ensures Wrote(m.c, old(m.st.mem), m.st.mem, Addr(m.c, old(m.st.aptrs[d])), [v])
  {
    hide Memory.Ready, Memory.Parts, Roomy, Reads, Wrote, InStore;
    var from, f := DerefAt(m, s, src, {d, s});
    var to, g := DerefAt(m, d, dst, {d, s});
    var bytes := LoadAt(m, s, src, {d, s}, from, 1, f);
    v := bytes[0];
    assert bytes == [v];
    StoreAt(m, d, dst, {d, s}, to, [v], g);
    MoveBoth(m, d, dst, s, src);
  }

  /** Both cursors move on. */
  method MoveBoth(m: Memory, ghost d: nat, dst: AptrRef, ghost s: nat, src: AptrRef)
    requires m.Ready() && Held(m, d, dst, {d, s}) && Held(m, s, src, {d, s}) && d != s
    requires m.st.aptrs[d].link.Some? && m.st.aptrs[s].link.Some?
    modifies m.Parts(), dst, src
    ensures m.Ready() && Held(m, d, dst, {d, s}) && Held(m, s, src, {d, s}) && m.objs == old(m.objs) &&
            (forall o | o in m.Parts() :: o in old(m.Parts()) || fresh(o))
    ensures SameOthers(old(m.st), m.st, {d, s}) && m.st.mem == old(m.st.mem)
    ensures m.st.aptrs[d].hint == old(m.st.aptrs[d].hint)
    ensures Addr(m.c, m.st.aptrs[d]) == Addr(m.c, old(m.st.aptrs[d])) + 1
    ensures Addr(m.c, m.st.aptrs[s]) == Addr(m.c, old(m.st.aptrs[s])) + 1
  {
    hide Memory.Ready, Memory.Parts, Roomy;
    MoveBy(m, d, dst, {d, s}, 1);
    MoveBy(m, s, src, {d, s}, 1);
  }

  lemma ForwardOn(c: Config, mem: map<(int, int), int>, now: map<(int, int), int>, dst: int, src: int, vs: seq<int>,
    v: int)
    requires c.pageSize > 0 && Forward(c, mem, dst, src, vs) && Wrote(c, mem, now, dst, vs)
    requires Reads(c, now, src + |vs|, [v])
    ensures Forward(c, mem, dst, src, vs + [v])
  {
    var ws := vs + [v];
    forall i: nat | i < |ws| ensures ForwardAt(c, mem, dst, src, ws, i) {
      if i < |vs| {
        assert ForwardAt(c, mem, dst, src, vs, i);
      } else {
        assert Byte(c, now, src + |vs| + 0).Some? ==> Byte(c, now, src + |vs| + 0) == Some([v][0]);
        assert Byte(c, now, src + i)
            == if dst <= src + i < dst + |vs| then Some(vs[src + i - dst]) else Byte(c, mem, src + i);
      }
    }
  }

  method CopyLoop(m: Memory, ghost d: nat, dst: AptrRef, ghost s: nat, src: AptrRef, count: nat)
    returns (ghost vs: seq<int>)
    requires m.Ready() && Held(m, d, dst, {d, s}) && Held(m, s, src, {d, s}) && d != s && m.st.aptrs[d].hint
    requires 0 <= Addr(m.c, m.st.aptrs[d]) && Addr(m.c, m.st.aptrs[d]) + count <= m.c.npages * m.c.pageSize
    requires 0 <= Addr(m.c, m.st.aptrs[s]) && Addr(m.c, m.st.aptrs[s]) + count <= m.c.npages * m.c.pageSize
    modifies m.Parts(), dst, src
    ensures m.Ready() && Held(m, d, dst, {d, s}) && Held(m, s, src, {d, s}) && m.objs == old(m.objs) &&
            (forall o | o in m.Parts() :: o in old(m.Parts()) || fresh(o))
    ensures SameOthers(old(m.st), m.st, {d, s}) && m.c.pageSize > 0 && |vs| == count
    ensures Forward(m.c, old(m.st.mem), Addr(m.c, old(m.st.aptrs[d])), Addr(m.c, old(m.st.aptrs[s])), vs)
    ensures Wrote(m.c, old(m.st.mem), m.st.mem, Addr(m.c, old(m.st.aptrs[d])), vs)
  {
    hide Memory.Ready, Memory.Parts, Held, Reads, Wrote, Forward, InStore, Addr;
    ghost var mem, to, from := m.st.mem, Addr(m.c, m.st.aptrs[d]), Addr(m.c, m.st.aptrs[s]);
    m.Positive();
    WroteNothing(m.c, mem, to);
    ForwardNothing(m.c, mem, to, from);
    vs := [];
    var length: nat := count;
    while length != 0
      invariant |vs| == count - length && length <= count && m.c.pageSize > 0
      invariant m.Ready() && Held(m, d, dst, {d, s}) && Held(m, s, src, {d, s}) && m.objs == old(m.objs) &&
                (forall o | o in m.Parts() :: o in old(m.Parts()) || fresh(o))
      invariant SameOthers(old(m.st), m.st, {d, s}) && m.st.aptrs[d].hint
      invariant Addr(m.c, m.st.aptrs[d]) == to + |vs| && Addr(m.c, m.st.aptrs[s]) == from + |vs|
      invariant Forward(m.c, mem, to, from, vs) && Wrote(m.c, mem, m.st.mem, to, vs)
    {

      InRange(m.c, to + |vs|, to + count);
      InRange(m.c, from + |vs|, from + count);
      ghost var now := m.st.mem;
      var v := CopyByte(m, d, dst, s, src);
      ForwardOn(m.c, mem, now, to, from, vs, v);
      WroteOn(m.c, mem, now, m.st.mem, to, vs, [v]);
      vs := vs + [v];
      length := length - 1;
    }
  }

  lemma InRange(c: Config, x: int, end: int)
    requires 0 <= x < end <= c.npages * c.pageSize
    ensures InStore(c, x)
  {
  }

  lemma ForwardNothing(c: Config, mem: map<(int, int), int>, dst: int, src: int)
    requires c.pageSize > 0
    ensures Forward(c, mem, dst, src, [])
  {
  }

  /** A block is copied byte by byte, forward; ForwardIsCopy says what that is. */
  method MemcpyAptr(m: Memory, dst0: nat, src0: nat, length: nat) returns (ghost vs: seq<int>)
    requires m.Ready() && RoomFor(m.c, m.st, 2)
    requires dst0 + length <= m.c.npages * m.c.pageSize && src0 + length <= m.c.npages * m.c.pageSize
    modifies m.Parts()
    ensures m.Ready() && m.st.aptrs == old(m.st.aptrs) && m.objs == old(m.objs) &&
            (forall o | o in m.Parts() :: o in old(m.Parts()) || fresh(o))
    ensures m.c.pageSize > 0 && Forward(m.c, old(m.st.mem), dst0, src0, vs)
    ensures if dst0 == src0 then m.st.mem == old(m.st.mem)
            else |vs| == length && Wrote(m.c, old(m.st.mem), m.st.mem, dst0, vs)
  {
    hide Memory.Ready, Memory.Parts, Roomy, Reads, Wrote, Forward, RoomFor, Addr;
    m.Positive();
    WroteNothing(m.c, m.st.mem, dst0);
    ForwardNothing(m.c, m.st.mem, dst0, src0);
    vs := [];
    if length == 0 || dst0 == src0 {
      return;
    }
    vs := CopyBlock(m, dst0, src0, length);
  }

  method CopyBlock(m: Memory, dst0: nat, src0: nat, length: nat) returns (ghost vs: seq<int>)
    requires m.Ready() && RoomFor(m.c, m.st, 2)
    requires dst0 + length <= m.c.npages * m.c.pageSize && src0 + length <= m.c.npages * m.c.pageSize
    modifies m.Parts()
    ensures m.Ready() && m.st.aptrs == old(m.st.aptrs) && m.objs == old(m.objs)
    ensures forall o | o in m.Parts() :: o in old(m.Parts()) || fresh(o)
    ensures m.c.pageSize > 0 && Forward(m.c, old(m.st.mem), dst0, src0, vs)
    ensures |vs| == length && Wrote(m.c, old(m.st.mem), m.st.mem, dst0, vs)
  {
    hide Memory.Ready, Memory.Parts, Roomy, Reads, Wrote, Forward, RoomFor, Addr;
    var dst, d, src, s := TwoTemporaries(m, dst0, src0);
    ghost var s1 := m.st;
    HintAt(m, d, dst, {d, s}, true);
    ghost var s2 := m.st;
    vs := CopyLoop(m, d, dst, s, src, length);
    RestoredTwo(old(m.st.aptrs), s1, s2, m.st, d, s);
    MinusTwo(old(m.objs), d, dst, s, src);
    Discard(m, d, dst);
    Discard(m, s, src);
  }

  lemma MinusTwo<V>(before: map<nat, V>, i: nat, x: V, j: nat, y: V)
    requires i !in before && j !in before
    ensures before[i := x][j := y] - {i} - {j} == before
  {
  }

  lemma RestoredTwo(before: map<nat, Aptr>, s1: State, s2: State, s3: State, i: nat, j: nat)
    requires i !in before && j !in before && i != j && i in s1.aptrs && j in s1.aptrs
    requires s1.aptrs == before[i := s1.aptrs[i]][j := s1.aptrs[j]]
    requires SameOthers(s1, s2, {i}) && SameOthers(s2, s3, {i, j})
    ensures s3.aptrs - {i} - {j} == before
  {
  }

  // ---- memcmp_aptr_aptr and memcmp_reg_aptr ----

  /** The difference of the first two bytes that differ in two ranges, or 0. */
  ghost function Compare(c: Config, mem: map<(int, int), int>, x: int, y: int, n: nat): int
    requires c.pageSize > 0 && AllWritten(c, mem, x, n) && AllWritten(c, mem, y, n)
    decreases n
  {
    if n == 0 then 0
    else if Byte(c, mem, x) == Byte(c, mem, y) then Compare(c, mem, x + 1, y + 1, n - 1)
    else Byte(c, mem, x).value - Byte(c, mem, y).value
  }

  ghost predicate SameBytes(c: Config, mem: map<(int, int), int>, x: int, y: int, n: nat)
    requires c.pageSize > 0
  {
    forall k | x <= k < x + n :: Byte(c, mem, k) == Byte(c, mem, k - x + y)
  }

  /** It is zero exactly when the ranges are equal. */
  lemma {:induction false} CompareZero(c: Config, mem: map<(int, int), int>, x: int, y: int, n: nat)
    requires c.pageSize > 0 && AllWritten(c, mem, x, n) && AllWritten(c, mem, y, n)
    ensures Compare(c, mem, x, y, n) == 0 <==> SameBytes(c, mem, x, y, n)
    decreases n
  {
    hide AllWritten;
    if n > 0 {
      WrittenFirst(c, mem, x, n);
      WrittenFirst(c, mem, y, n);
      CompareZero(c, mem, x + 1, y + 1, n - 1);
      SameFirst(c, mem, x, y, n);
    }
  }

  /** When it is not, it is the difference at the first place where they differ. */
  lemma {:induction false} CompareFirst(c: Config, mem: map<(int, int), int>, x: int, y: int, n: nat)
    returns (k: nat)
    requires c.pageSize > 0 && AllWritten(c, mem, x, n) && AllWritten(c, mem, y, n)
    requires Compare(c, mem, x, y, n) != 0
    ensures k < n && SameBytes(c, mem, x, y, k)
    ensures Byte(c, mem, x + k) != Byte(c, mem, y + k) && Byte(c, mem, x + k).Some? && Byte(c, mem, y + k).Some?
    ensures Compare(c, mem, x, y, n) == Byte(c, mem, x + k).value - Byte(c, mem, y + k).value
    decreases n
  {
    WrittenFirst(c, mem, x, n);
    WrittenFirst(c, mem, y, n);
    hide AllWritten;
    k := 0;
    if Byte(c, mem, x) == Byte(c, mem, y) {
      k := CompareFirst(c, mem, x + 1, y + 1, n - 1);
      SameFirst(c, mem, x, y, k + 1);
      k := k + 1;
    }
  }

  lemma WrittenFirst(c: Config, mem: map<(int, int), int>, x: int, n: nat)
    requires c.pageSize > 0 && AllWritten(c, mem, x, n) && n > 0
    ensures Byte(c, mem, x).Some? && AllWritten(c, mem, x + 1, n - 1)
  {
  }

  lemma SameFirst(c: Config, mem: map<(int, int), int>, x: int, y: int, n: nat)
    requires c.pageSize > 0 && n > 0
    ensures SameBytes(c, mem, x, y, n) <==> Byte(c, mem, x) == Byte(c, mem, y) && SameBytes(c, mem, x + 1, y + 1, n - 1)
  {
    hide Byte;
    if SameBytes(c, mem, x, y, n) {
      assert Byte(c, mem, x) == Byte(c, mem, x - x + y);
      forall k | x + 1 <= k < x + n ensures Byte(c, mem, k) == Byte(c, mem, k - (x + 1) + (y + 1)) {
        assert k - (x + 1) + (y + 1) == k - x + y;
      }
    }
  }

  /** The byte at the cursor. */
  method GetByte(m: Memory, ghost id: nat, a: AptrRef, ghost mine: set<nat>) returns (v: int)
    requires m.Ready() && Held(m, id, a, mine) && InStore(m.c, Addr(m.c, m.st.aptrs[id])) && m.c.pageSize > 0
    modifies m.Parts(), a
    ensures m.Ready() && Held(m, id, a, mine) && m.objs == old(m.objs) &&
            (forall o | o in m.Parts() :: o in old(m.Parts()) || fresh(o))
    ensures SameOthers(old(m.st), m.st, {id}) && m.st.mem == old(m.st.mem) && m.st.aptrs[id].link.Some?
    ensures Addr(m.c, m.st.aptrs[id]) == Addr(m.c, old(m.st.aptrs[id]))
    ensures Reads(m.c, m.st.mem, Addr(m.c, m.st.aptrs[id]), [v])
  {
    hide Memory.Ready, Memory.Parts, Roomy, Reads, InStore, Addr;
    var p, f := DerefAt(m, id, a, mine);
    var bytes := LoadAt(m, id, a, mine, p, 1, f);
    v := bytes[0];
    assert bytes == [v];
  }

  /** The bytes at both cursors, which move on when they are equal. */
  method GetBoth(m: Memory, ghost i: nat, a: AptrRef, ghost j: nat, b: AptrRef) returns (u: int, v: int)
    requires m.Ready() && Held(m, i, a, {i, j}) && Held(m, j, b, {i, j}) && i != j && m.c.pageSize > 0
    requires InStore(m.c, Addr(m.c, m.st.aptrs[i])) && InStore(m.c, Addr(m.c, m.st.aptrs[j]))
    modifies m.Parts(), a, b
    ensures m.Ready() && Held(m, i, a, {i, j}) && Held(m, j, b, {i, j}) && m.objs == old(m.objs) &&
            (forall o | o in m.Parts() :: o in old(m.Parts()) || fresh(o))
    ensures SameOthers(old(m.st), m.st, {i, j}) && m.st.mem == old(m.st.mem)
    ensures Reads(m.c, m.st.mem, Addr(m.c, old(m.st.aptrs[i])), [u])
    ensures Reads(m.c, m.st.mem, Addr(m.c, old(m.st.aptrs[j])), [v])
    ensures u == v ==> Addr(m.c, m.st.aptrs[i]) == Addr(m.c, old(m.st.aptrs[i])) + 1
    ensures u == v ==> Addr(m.c, m.st.aptrs[j]) == Addr(m.c, old(m.st.aptrs[j])) + 1
  {
    hide Memory.Ready, Memory.Parts, Roomy, Reads, InStore, Addr;
    u := GetByte(m, i, a, {i, j});
    v := GetByte(m, j, b, {i, j});
    if u == v {
      MoveBy(m, i, a, {i, j}, 1);
      MoveBy(m, j, b, {i, j}, 1);
    }
  }

  lemma CompareStep(c: Config, mem: map<(int, int), int>, x: int, y: int, n: nat, u: int, v: int)
    requires c.pageSize > 0 && AllWritten(c, mem, x, n) && AllWritten(c, mem, y, n) && n > 0
    requires Reads(c, mem, x, [u]) && Reads(c, mem, y, [v])
    ensures AllWritten(c, mem, x + 1, n - 1) && AllWritten(c, mem, y + 1, n - 1)
    ensures Compare(c, mem, x, y, n) == if u == v then Compare(c, mem, x + 1, y + 1, n - 1) else u - v
  {
    assert Byte(c, mem, x + 0) == Some([u][0]) && Byte(c, mem, y + 0) == Some([v][0]);
  }

  method CompareLoop(m: Memory, ghost i: nat, a: AptrRef, ghost j: nat, b: AptrRef, count: nat) returns (r: int)
    requires m.Ready() && Held(m, i, a, {i, j}) && Held(m, j, b, {i, j}) && i != j
    requires 0 <= Addr(m.c, m.st.aptrs[i]) && Addr(m.c, m.st.aptrs[i]) + count <= m.c.npages * m.c.pageSize
    requires 0 <= Addr(m.c, m.st.aptrs[j]) && Addr(m.c, m.st.aptrs[j]) + count <= m.c.npages * m.c.pageSize
    modifies m.Parts(), a, b
    ensures m.Ready() && Held(m, i, a, {i, j}) && Held(m, j, b, {i, j}) && m.objs == old(m.objs) &&
            (forall o | o in m.Parts() :: o in old(m.Parts()) || fresh(o))
    ensures SameOthers(old(m.st), m.st, {i, j}) && m.st.mem == old(m.st.mem) && m.c.pageSize > 0
    ensures var x, y := Addr(m.c, old(m.st.aptrs[i])), Addr(m.c, old(m.st.aptrs[j]));
            AllWritten(m.c, m.st.mem, x, count) && AllWritten(m.c, m.st.mem, y, count) ==>
              r == Compare(m.c, m.st.mem, x, y, count)
  {
    hide Memory.Ready, Memory.Parts, Held, Reads, InStore, Addr, AllWritten, Compare;
    ghost var mem, x, y := m.st.mem, Addr(m.c, m.st.aptrs[i]), Addr(m.c, m.st.aptrs[j]);
    m.Positive();
    ghost var done: nat := 0;
    ghost var known := AllWritten(m.c, mem, x, count) && AllWritten(m.c, mem, y, count);
    var n: nat := count;
    while n > 0
      invariant done + n == count && m.c.pageSize > 0
      invariant m.Ready() && Held(m, i, a, {i, j}) && Held(m, j, b, {i, j}) && m.objs == old(m.objs) &&
                (forall o | o in m.Parts() :: o in old(m.Parts()) || fresh(o))
      invariant SameOthers(old(m.st), m.st, {i, j}) && m.st.mem == mem
      invariant Addr(m.c, m.st.aptrs[i]) == x + done && Addr(m.c, m.st.aptrs[j]) == y + done
      invariant known ==> AllWritten(m.c, mem, x + done, n) && AllWritten(m.c, mem, y + done, n)
      invariant known ==> Compare(m.c, mem, x, y, count) == Compare(m.c, mem, x + done, y + done, n)
    {
      InRange(m.c, x + done, x + count);
      InRange(m.c, y + done, y + count);
      var u, v := GetBoth(m, i, a, j, b);
      if known {
        CompareStep(m.c, mem, x + done, y + done, n, u, v);
      }
      if u != v {
        return u - v;
      }
      n := n - 1;
      done := done + 1;
    }
    r := 0;
    if known {
      CompareNothing(m.c, mem, x + done, y + done);
    }
  }

  lemma CompareNothing(c: Config, mem: map<(int, int), int>, x: int, y: int)
    requires c.pageSize > 0 && AllWritten(c, mem, x, 0) && AllWritten(c, mem, y, 0)
    ensures Compare(c, mem, x, y, 0) == 0
  {
  }

  method MemcmpAptrAptr(m: Memory, s1: nat, s2: nat, n: nat) returns (r: int)
    requires m.Ready() && RoomFor(m.c, m.st, 2) && s1 + n <= m.c.npages * m.c.pageSize &&
             s2 + n <= m.c.npages * m.c.pageSize
    modifies m.Parts()
    ensures m.Ready() && m.st.aptrs == old(m.st.aptrs) && m.objs == old(m.objs) &&
            (forall o | o in m.Parts() :: o in old(m.Parts()) || fresh(o))
    ensures m.st.mem == old(m.st.mem) && m.c.pageSize > 0
    ensures AllWritten(m.c, m.st.mem, s1, n) && AllWritten(m.c, m.st.mem, s2, n) ==>
              r == Compare(m.c, m.st.mem, s1, s2, n)
  {
    hide Memory.Ready, Memory.Parts, Held, RoomFor, Addr, AllWritten, Compare;
    var a, i, b, j := TwoTemporaries(m, s1, s2);
    ghost var t1 := m.st;
    r := CompareLoop(m, i, a, j, b, n);
    RestoredTwo(old(m.st.aptrs), t1, t1, m.st, i, j);
    Discard(m, i, a);
    Discard(m, j, b);
  }

  /** The difference of the first byte of s that the flat memory differs in, or 0. */
  ghost function CompareReg(c: Config, mem: map<(int, int), int>, s: seq<int>, y: int): int
    requires c.pageSize > 0 && AllWritten(c, mem, y, |s|)
    decreases |s|
  {
    if s == [] then 0
    else if Byte(c, mem, y) == Some(s[0]) then CompareReg(c, mem, s[1..], y + 1)
    else s[0] - Byte(c, mem, y).value
  }

  lemma {:induction false} CompareRegZero(c: Config, mem: map<(int, int), int>, s: seq<int>, y: int)
    requires c.pageSize > 0 && AllWritten(c, mem, y, |s|)
    ensures CompareReg(c, mem, s, y) == 0 <==> forall i | 0 <= i < |s| :: Some(s[i]) == Byte(c, mem, y + i)
    decreases |s|
  {
    hide AllWritten, Byte;
    if s != [] {
      WrittenFirst(c, mem, y, |s|);
      CompareRegZero(c, mem, s[1..], y + 1);
      assert Byte(c, mem, y + 0) == Byte(c, mem, y);
      assert forall i | 0 <= i < |s| - 1 :: s[1..][i] == s[i + 1] && y + 1 + i == y + (i + 1);
      if forall i | 0 <= i < |s| :: Some(s[i]) == Byte(c, mem, y + i) {
        assert Some(s[0]) == Byte(c, mem, y + 0);
        forall i | 0 <= i < |s| - 1 ensures Some(s[1..][i]) == Byte(c, mem, y + 1 + i) {
          assert Some(s[i + 1]) == Byte(c, mem, y + (i + 1));
        }
      } else if Byte(c, mem, y) == Some(s[0]) {
        var i :| 0 <= i < |s| && Some(s[i]) != Byte(c, mem, y + i);
        assert i > 0 ==> Some(s[1..][i - 1]) != Byte(c, mem, y + 1 + (i - 1));
      }
    }
  }

  lemma {:induction false} CompareRegFirst(c: Config, mem: map<(int, int), int>, s: seq<int>, y: int)
    returns (k: nat)
    requires c.pageSize > 0 && AllWritten(c, mem, y, |s|) && CompareReg(c, mem, s, y) != 0
    ensures k < |s| && forall i | 0 <= i < k :: Some(s[i]) == Byte(c, mem, y + i)
    ensures Byte(c, mem, y + k).Some? && s[k] != Byte(c, mem, y + k).value
    ensures CompareReg(c, mem, s, y) == s[k] - Byte(c, mem, y + k).value
    decreases |s|
  {
    WrittenFirst(c, mem, y, |s|);
    hide AllWritten;
    k := 0;
    if Byte(c, mem, y) == Some(s[0]) {
      var j := CompareRegFirst(c, mem, s[1..], y + 1);
      k := j + 1;
      forall i | 0 <= i < k ensures Some(s[i]) == Byte(c, mem, y + i) {
        assert i > 0 ==> s[i] == s[1..][i - 1] && Some(s[1..][i - 1]) == Byte(c, mem, y + 1 + (i - 1));
      }
    }
  }

  lemma CompareRegStep(c: Config, mem: map<(int, int), int>, s: seq<int>, y: int, v: int)
    requires c.pageSize > 0 && AllWritten(c, mem, y, |s|) && s != [] && Reads(c, mem, y, [v])
    ensures AllWritten(c, mem, y + 1, |s| - 1)
    ensures CompareReg(c, mem, s, y) == if s[0] == v then CompareReg(c, mem, s[1..], y + 1) else s[0] - v
  {
    assert Byte(c, mem, y + 0) == Some([v][0]);
  }

  method CompareRegLoop(m: Memory, s: seq<int>, ghost j: nat, b: AptrRef) returns (r: int)
    requires m.Ready() && Held(m, j, b, {j})
    requires 0 <= Addr(m.c, m.st.aptrs[j]) && Addr(m.c, m.st.aptrs[j]) + |s| <= m.c.npages * m.c.pageSize
    modifies m.Parts(), b
    ensures m.Ready() && Held(m, j, b, {j}) && m.objs == old(m.objs) &&
            (forall o | o in m.Parts() :: o in old(m.Parts()) || fresh(o))
    ensures SameOthers(old(m.st), m.st, {j}) && m.st.mem == old(m.st.mem) && m.c.pageSize > 0
    ensures var y := Addr(m.c, old(m.st.aptrs[j]));
            AllWritten(m.c, m.st.mem, y, |s|) ==> r == CompareReg(m.c, m.st.mem, s, y)
  {
    hide Memory.Ready, Memory.Parts, Held, Reads, InStore, Addr, AllWritten;
    ghost var mem, y := m.st.mem, Addr(m.c, m.st.aptrs[j]);
    m.Positive();
    ghost var known := AllWritten(m.c, mem, y, |s|);
    var k: nat := 0;
    assert s[0..] == s;
    while k < |s|
      invariant k <= |s| && m.c.pageSize > 0
      invariant m.Ready() && Held(m, j, b, {j}) && m.objs == old(m.objs) &&
                (forall o | o in m.Parts() :: o in old(m.Parts()) || fresh(o))
      invariant SameOthers(old(m.st), m.st, {j}) && m.st.mem == mem && Addr(m.c, m.st.aptrs[j]) == y + k
      invariant known ==> AllWritten(m.c, mem, y + k, |s| - k)
      invariant known ==> CompareReg(m.c, mem, s, y) == CompareReg(m.c, mem, s[k..], y + k)
    {
      InRange(m.c, y + k, y + |s|);
      var v := GetByte(m, j, b, {j});
      if known {
        CompareRegStep(m.c, mem, s[k..], y + k, v);
      }
      if s[k] != v {
        return s[k] - v;
      }
      MoveBy(m, j, b, {j}, 1);
      assert s[k..][1..] == s[k + 1..];
      k := k + 1;
    }
    r := 0;
  }

  method MemcmpRegAptr(m: Memory, s: seq<int>, s2: nat) returns (r: int)
    requires m.Ready() && RoomFor(m.c, m.st, 1) && s2 + |s| <= m.c.npages * m.c.pageSize
    modifies m.Parts()
    ensures m.Ready() && m.st.aptrs == old(m.st.aptrs) && m.objs == old(m.objs) &&
            (forall o | o in m.Parts() :: o in old(m.Parts()) || fresh(o))
    ensures m.st.mem == old(m.st.mem) && m.c.pageSize > 0
    ensures AllWritten(m.c, m.st.mem, s2, |s|) ==> r == CompareReg(m.c, m.st.mem, s, s2)
  {
    hide Memory.Ready, Memory.Parts, Held, RoomFor, Addr, AllWritten, CompareReg;
    var b, j := Temporary(m, s2);
    ghost var t1 := m.st;
    r := CompareRegLoop(m, s, j, b);
    Restored(old(m.st.aptrs), t1, m.st, j);
    Discard(m, j, b);
  }
}
