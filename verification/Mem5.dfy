// The memsys5 buddy allocator.  The pool is an array of atoms; the first two
// words of a free atom hold the links of its free list, and all other words
// belong to the callers.  The control bytes are the array aCtrl.
module Mem5 {
  import opened Options
  import opened Pow2
  import opened BuddyHeap
  import opened FreeLists
  import opened Words
  import opened Mem5Pool

  const CTRL_FREE: int := 32
  const MAX_REQUEST: int := 0x4000_0000

  /** aCtrl & CTRL_LOGSIZE */
  function LogSize(c: int): int { c % 32 }

  /** aCtrl | CTRL_FREE, for a byte */
  function OrFree(c: int): int { if (c / 32) % 2 == 1 then c else c + CTRL_FREE }

  /** The allocations of m1 are all among those of m2. */
  ghost predicate SubMap(m1: map<nat, nat>, m2: map<nat, nat>) {
    forall x | x in m1 :: x in m2 && m2[x] == m1[x]
  }

  /** An aligned run of 2^lg atoms lies wholly in free blocks. */
  ghost predicate HasRun(h: Heap, lg: nat) {
    exists r :: Aligned(r, lg) && FreeRun(h, r, lg)
  }

  /** The least k with s * 2^k >= n. */
  ghost function LogFor(s: nat, n: int): nat
    requires s > 0
    decreases n - s
  {
    if n <= s then 0 else 1 + LogFor(2 * s, n)
  }

  lemma ShiftFactor(s: nat, k: nat)
    ensures s * Pow(k + 1) == (2 * s) * Pow(k)
  {
    var x := Pow(k);
    assert Pow(k + 1) == 2 * x;
  }

  lemma DoubledSize(s: nat, k: nat)
    ensures s <= s * Pow(k)
    ensures k == 0 ==> s * Pow(k) == s
    ensures k > 0 ==> s * Pow(k) == 2 * (s * Pow(k - 1))
  {
    MulMonotone(1, Pow(k), s);
    assert s * Pow(k) == Pow(k) * s;
    if k > 0 {
      var x := Pow(k - 1);
      assert Pow(k) == 2 * x;
    }
  }

  lemma {:induction false} LogForFits(s: nat, n: int)
    requires s > 0
    ensures n <= s * Pow(LogFor(s, n))
    ensures LogFor(s, n) > 0 ==> s * Pow(LogFor(s, n) - 1) < n
    decreases n - s
  {
    if n > s {
      LogForFits(2 * s, n);
      var k := LogFor(2 * s, n);
      ShiftFactor(s, k);
      if k > 0 {
        ShiftFactor(s, k - 1);
      }
    }
  }

  lemma LogForGrows(s: nat, n: int, lg: nat)
    requires s > 0 && n > Pow(lg) * s
    ensures LogFor(s, n) > lg
  {
    hide LogFor, Pow;
    LogForFits(s, n);
    var k := LogFor(s, n);
    assert s * Pow(k) == Pow(k) * s;
    PowTimesMonotone(k, lg, s);
  }

  function CtrlOf(b: Block): int { if b.free then CTRL_FREE + b.lg else b.lg }

  /** The lists hold exactly the free heads of h, each in the list of its size. */
  ghost predicate ListsHold(lists: seq<seq<nat>>, h: Heap) {
    && |lists| == LOGMAX + 1
    && forall k: nat, i: nat | k <= LOGMAX :: i in lists[k] <==> FreeAt(h, i, k)
  }

  lemma HoldMembers(lists: seq<seq<nat>>, h: Heap, i: nat, k: nat, p: nat)
    requires ListsHold(lists, h) && k <= LOGMAX && FreeAt(h, i, k)
    requires NoRepeat(lists[k]) && p < |lists[k]| && lists[k][p] == i
    ensures ListsHold(lists[k := Without(lists[k], p)], Hold(h, i))
  {
    WithoutMembers(lists[k], p);
  }

  lemma ReleaseMembers(lists: seq<seq<nat>>, h: Heap, i: nat)
    requires ListsHold(lists, h) && i in h.blocks && !h.blocks[i].free && h.blocks[i].lg <= LOGMAX
    ensures var k := h.blocks[i].lg; ListsHold(lists[k := [i] + lists[k]], Release(h, i))
  {
  }

  lemma SplitMembers(lists: seq<seq<nat>>, h: Heap, i: nat, k: nat)
    requires ListsHold(lists, h) && i in h.blocks && !h.blocks[i].free && i + Pow(k) !in h.blocks
    ensures ListsHold(lists, Split(h, i, k))
  {
    forall m: nat, j: nat ensures FreeAt(Split(h, i, k), j, m) == FreeAt(h, j, m) {
    }
  }

  lemma MergeMembers(lists: seq<seq<nat>>, h: Heap, lo: nat, k: nat)
    requires ListsHold(lists, h) && Mergeable(h, lo, k)
    ensures ListsHold(lists, Merge(h, lo, k))
  {
    forall m: nat, j: nat ensures FreeAt(Merge(h, lo, k), j, m) == FreeAt(h, j, m) {
    }
  }

  lemma FusedMap(m: map<nat, nat>, i: nat, b: nat, lo: nat, hi: nat, k: nat)
    requires i !in m && b !in m && {i, b} == {lo, hi} && lo != hi
    ensures (m[i := k][b := k] - {hi})[lo := k + 1] == m[lo := k + 1]
    ensures lo !in m
  {
  }

  /** An atom of at least 8 bytes is a whole number of words. */
  lemma AtomIsWords(k: nat)
    requires Pow(k) >= 8
    ensures Pow(k) == 4 * (Pow(k) / 4) && Pow(k) / 4 >= 2
  {
    if k >= 2 {
      assert Pow(k) == 4 * Pow(k - 2);
    }
  }

  /** The bytes of an atom: the least power of two that holds two links and mnReq bytes. */
  ghost function AtomFor(mnReq: int): nat { 8 * Pow(LogFor(8, mnReq)) }

  lemma AtomForIs(mnReq: int, k: nat)
    requires Pow(k) >= 8 && Pow(k) >= mnReq && (Pow(k) > 8 ==> Pow(k) < 2 * mnReq)
    ensures Pow(k) == AtomFor(mnReq)
  {
    hide LogFor;
    var lg := LogFor(8, mnReq);
    LogForFits(8, mnReq);
    Eights(lg);
    if lg > 0 {
      Eights(lg - 1);
    }
    NotSmaller(k, lg, mnReq);
    NotLarger(k, lg, mnReq);
  }

  lemma Eights(k: nat)
    ensures Pow(k + 3) == 8 * Pow(k)
  {
    assert Pow(k + 3) == 2 * Pow(k + 2) && Pow(k + 2) == 2 * Pow(k + 1);
  }

  lemma NotSmaller(k: nat, lg: nat, n: int)
    requires Pow(k) >= 8 && Pow(k) >= n && (lg > 0 ==> Pow(lg + 2) < n)
    ensures k >= lg + 3
  {
    if k < 3 {
      PowStrict(k);
    } else if k < lg + 3 {
      PowMonotone(k, lg + 2);
    }
  }

  lemma NotLarger(k: nat, lg: nat, n: int)
    requires k >= lg + 3 && Pow(k) >= 8 && (Pow(k) > 8 ==> Pow(k) < 2 * n) && n <= Pow(lg + 3)
    ensures k == lg + 3
  {
    if k > lg + 3 {
      PowMonotone(lg + 4, k);
      Eights(lg + 1);
    }
  }

  lemma PowStrict(k: nat)
    requires k < 3
    ensures Pow(k) < 8
  {
    assert Pow(3) == 8 == 2 * Pow(2) && Pow(2) == 2 * Pow(1);
  }

  /** The size of an atom, as initialisation computes it. */
  method AtomSize(mnReq: int) returns (szAtom: nat, ghost k: nat)
    requires mnReq <= MAX_REQUEST
    ensures szAtom == Pow(k) == 4 * (szAtom / 4) && szAtom / 4 >= 2 && k <= LOGMAX
    ensures szAtom == AtomFor(mnReq)
    ensures szAtom >= 8 && szAtom >= mnReq && (szAtom > 8 ==> szAtom < 2 * mnReq)
  {
    var nMinLog := Log(mnReq);
    szAtom := Pow(nMinLog);
    k := nMinLog;
    Pow30();
    while 8 > szAtom
      invariant szAtom == Pow(k) && k <= LOGMAX && szAtom >= mnReq && (szAtom > 8 ==> szAtom < 2 * mnReq)
      decreases 8 - szAtom
    {
      assert Pow(3) == 8;
      if k >= 3 { PowMonotone(3, k); }
      szAtom := 2 * szAtom;
      k := k + 1;
    }
    AtomIsWords(k);
    AtomForIs(mnReq, k);
  }

  /** What the atoms take of the pool, and of one below 4 GiB all that is of use. */
  lemma PoolUsed(pSize: nat, atom: nat)
    requires 8 <= atom <= MAX_REQUEST && Fits(pSize, atom)
    ensures var n := BlocksFor(pSize, atom);
            n * atom + n <= pSize && (pSize < TWO32 ==> pSize < (n + 1) * atom + n + 1)
  {
    hide Fits, BlocksFor;
    FitsAre(pSize, atom);
    var n := BlocksFor(pSize, atom);
    assert n * (atom + 1) == n * atom + n && (n + 1) * atom == n * atom + atom;
    if pSize < TWO32 {
      FitsExact(pSize, atom);
      var q := QuotientOf(pSize, atom + 1);
    }
  }

  lemma AtomBounds(k: nat)
    requires k <= LOGMAX
    ensures Pow(k) <= MAX_REQUEST
  {
    Pow30();
    PowMonotone(k, 30);
  }

  /** The number of atoms that initialisation makes of the pool. */
  method BlockCount(pSize: nat, atom: nat) returns (n: nat)
    requires 8 <= atom <= MAX_REQUEST && Fits(pSize, atom)
    ensures n == BlocksFor(pSize, atom) && n < 0x8000_0000
    ensures n * atom + n <= pSize && (pSize < TWO32 ==> pSize < (n + 1) * atom + n + 1)
  {
    PoolUsed(pSize, atom);
    var nByte := Int32(pSize);
    n := Int32(Size64(nByte) / (atom + 1));
  }

  lemma FitsAre(pSize: nat, atom: nat)
    requires Fits(pSize, atom)
    ensures BlocksFor(pSize, atom) >= 0 && BlocksFor(pSize, atom) * (atom + 1) <= pSize
  {
  }

  lemma AppendMembers(lists: seq<seq<nat>>, h: Heap, k: nat)
    requires ListsHold(lists, h) && k <= LOGMAX && h.n !in h.blocks
    ensures ListsHold(lists[k := [h.n] + lists[k]], Append(h, k))
  {
  }

  /** The ceiling of the logarithm base 2 of iValue (memsys5Log). */
  method Log(iValue: int) returns (iLog: nat)
    ensures iLog <= 31 && (iLog < 31 ==> iValue <= Pow(iLog)) && (iLog > 0 ==> Pow(iLog - 1) < iValue)
  {
    iLog := 0;
    while iLog < 31 && Pow(iLog) < iValue
      invariant iLog <= 31 && (iLog > 0 ==> Pow(iLog - 1) < iValue)
    {
      iLog := iLog + 1;
    }
  }

  class Allocator {
    const szAtom: nat
    ghost const atomLog: nat
    const nBlock: nat
    const zPool: array2<int>
    const aCtrl: array<int>
    const aiFreelist: array<int>
    ghost var heap: Heap
    ghost var lists: seq<seq<nat>>

    /** Build the allocator over a pool of pSize bytes whose requests are at
        least mnReq bytes (memsys5Init). */
    constructor (pSize: nat, mnReq: int)
      requires mnReq <= MAX_REQUEST && Fits(pSize, AtomFor(mnReq))
      ensures Valid()
      ensures fresh(zPool) && fresh(aCtrl) && fresh(aiFreelist)
      ensures szAtom >= 8 && szAtom >= mnReq && (szAtom > 8 ==> szAtom < 2 * mnReq)
      ensures szAtom == AtomFor(mnReq) && nBlock == BlocksFor(pSize, szAtom)
      ensures Ptr(nBlock) + nBlock <= pSize && (pSize < TWO32 ==> pSize < Ptr(nBlock + 1) + nBlock + 1)
      ensures heap == Heap(nBlock, Greedy(0, LOGMAX + 1, nBlock)) && Allocated(heap) == map[]
    {
      hide Fits, BlocksFor, AtomFor, Allocated, Greedy;
      var atom, k := AtomSize(mnReq);
      AtomBounds(k);
      var n := BlockCount(pSize, atom);
      szAtom := atom;
      atomLog := k;
      nBlock := n;
      zPool := new int[n, atom / 4];
      aCtrl := new int[n];
      aiFreelist := new int[LOGMAX + 1];
      heap := Heap(0, map[]);
      lists := seq(LOGMAX + 1, _ => []);
      new;
      ClearLists();
      FillLists();
    }

    /** Make every free list empty. */
    method ClearLists()
      requires Sized() && heap == Heap(0, map[]) && lists == seq(LOGMAX + 1, _ => [])
      modifies aiFreelist
      ensures Building(LOGMAX + 1, Greedy(0, LOGMAX + 1, nBlock))
    {
      for ii := 0 to LOGMAX + 1
        invariant forall k | 0 <= k < ii :: aiFreelist[k] == -1
      {
        aiFreelist[ii] := -1;
      }
      NothingYet();
    }

    /** Hand out the pool to the free lists, largest size first. */
    method FillLists()
      requires Building(LOGMAX + 1, Greedy(0, LOGMAX + 1, nBlock)) && heap.n == 0
      modifies this`heap, this`lists, zPool, aCtrl, aiFreelist
      ensures Valid()
      ensures heap == Heap(nBlock, Greedy(0, LOGMAX + 1, nBlock)) && Allocated(heap) == map[]
    {
      hide Growing, Greedy, Chains, ListsHold, Allocated, Partition, Canonical;
      ghost var target := Greedy(0, LOGMAX + 1, nBlock);
      var iOffset: nat, ii: nat := 0, LOGMAX + 1;
      while ii > 0
        invariant ii <= LOGMAX + 1 && iOffset == heap.n
        invariant Building(ii, target)
      {
        ii := ii - 1;
        var nAlloc := Pow(ii);
        if iOffset + nAlloc <= nBlock {
          AddFree(iOffset, ii, target);
          iOffset := iOffset + nAlloc;
        } else {
          GrowingStep(heap, ii, nBlock, target);
        }
      }
      AllBuilt(target);
    }

    /** Halfway through initialisation. */
    ghost predicate Building(cnt: nat, target: map<nat, Block>)
      reads this, zPool, aCtrl, aiFreelist
    {
      && Sized() && Growing(heap, cnt, nBlock, target)
      && CtrlExcept({}) && Linked() && Members()
    }

    lemma NothingYet()
      requires Sized() && heap == Heap(0, map[]) && lists == seq(LOGMAX + 1, _ => [])
      requires forall k | 0 <= k <= LOGMAX :: aiFreelist[k] == -1
      ensures Building(LOGMAX + 1, Greedy(0, LOGMAX + 1, nBlock))
    {
      GrowingStarts(nBlock);
      forall k | 0 <= k <= LOGMAX
        ensures NoRepeat(lists[k]) && Chain(lists[k], aiFreelist[..][k], Column(0), Column(1))
      {
        assert lists[k] == [];
      }
    }

    lemma AllBuilt(target: map<nat, Block>)
      requires Building(0, target)
      ensures Valid() && heap == Heap(nBlock, target) && Allocated(heap) == map[]
    {
      GrowingEnds(heap, nBlock, target);
    }

    lemma NextFree(i: nat, k: nat, target: map<nat, Block>)
      requires i == heap.n && k <= LOGMAX && Building(k + 1, target) && i + Pow(k) <= nBlock
      ensures i < nBlock && !Listed(i) && i !in heap.blocks
      ensures Growing(Append(heap, k), k, nBlock, target)
      ensures ListsHold(lists[k := [i] + lists[k]], Append(heap, k))
    {
      GrowingStep(heap, k, nBlock, target);
      AppendMembers(lists, heap, k);
    }

    /** Initialisation gives the next block to its free list. */
    method AddFree(i: nat, k: nat, ghost target: map<nat, Block>)
      requires i == heap.n && k <= LOGMAX && Building(k + 1, target) && i + Pow(k) <= nBlock
      modifies this`heap, this`lists, zPool, aCtrl, aiFreelist
      ensures Building(k, target) && heap.n == old(heap).n + Pow(k)
    {
      NextFree(i, k, target);
      hide Growing, Chains, ListsHold, Listed, Pow, Greedy;
      aCtrl[i] := CTRL_FREE + k;
      Link(i, k);
      heap := Append(heap, k);
    }

    /** The arrays have the sizes computed by initialisation. */
    ghost predicate Sized() {
      && nBlock < 0x8000_0000
      && zPool.Length0 == nBlock && zPool.Length1 >= 2
      && szAtom == 4 * zPool.Length1 && szAtom == Pow(atomLog) && atomLog <= LOGMAX
      && aCtrl.Length == nBlock
      && aiFreelist.Length == LOGMAX + 1
      && aCtrl != aiFreelist
    }

    /** Word w of every atom. */
    ghost function Column(w: nat): (c: seq<int>)
      requires Sized() && w < zPool.Length1
      reads zPool
      ensures |c| == nBlock && forall a | 0 <= a < nBlock :: c[a] == zPool[a, w]
    {
      seq(nBlock, a requires 0 <= a < nBlock reads zPool => zPool[a, w])
    }

    ghost predicate Linked()
      requires Sized()
      reads this`lists, zPool, aiFreelist
    {
      |lists| == LOGMAX + 1 && Chains(lists, aiFreelist[..], Column(0), Column(1))
    }

    ghost predicate Listed(i: nat)
      reads this`lists
    {
      exists k :: 0 <= k < |lists| && i in lists[k]
    }

    /** The lists hold exactly the free block heads, each in the list of its size. */
    ghost predicate Members()
      reads this`lists, this`heap
    {
      ListsHold(lists, heap)
    }

    /** The control byte of every head not in held gives its size and free flag. */
    ghost predicate CtrlExcept(held: set<nat>)
      requires Sized()
      reads this`heap, aCtrl
    {
      forall i | i in heap.blocks && i < nBlock && i !in held :: aCtrl[i] == CtrlOf(heap.blocks[i])
    }

    /** What holds between the statements of an operation that has the blocks
        of held in its hands: they are off the lists and count as checked out. */
    ghost predicate ValidExcept(held: set<nat>)
      reads this, zPool, aCtrl, aiFreelist
    {
      && Sized() && heap.n == nBlock
      && Partition(heap) && Canonical(heap)
      && CtrlExcept(held)
      && Linked() && Members()
      && forall i | i in held :: i in heap.blocks && !heap.blocks[i].free
    }

    ghost predicate Valid()
      reads this, zPool, aCtrl, aiFreelist
    {
      ValidExcept({})
    }

    /** MEM5LINK(i)->next = v */
    method SetNext(i: nat, v: int)
      requires Sized() && i < nBlock
      modifies zPool
      ensures Column(0) == old(Column(0))[i := v] && Column(1) == old(Column(1))
      ensures forall a, w | 0 <= a < nBlock && 2 <= w < zPool.Length1 :: zPool[a, w] == old(zPool[a, w])
    {
      zPool[i, 0] := v;
    }

    /** MEM5LINK(i)->prev = v */
    method SetPrev(i: nat, v: int)
      requires Sized() && i < nBlock
      modifies zPool
      ensures Column(1) == old(Column(1))[i := v] && Column(0) == old(Column(0))
      ensures forall a, w | 0 <= a < nBlock && 2 <= w < zPool.Length1 :: zPool[a, w] == old(zPool[a, w])
    {
      zPool[i, 1] := v;
    }

    /** Take block i off list iLogsize, where it stands at some position p (memsys5Unlink). */
    method Unlink(i: nat, iLogsize: nat) returns (ghost p: nat)
      requires Sized() && Linked() && iLogsize <= LOGMAX && i in lists[iLogsize]
      modifies this`lists, zPool, aiFreelist
      ensures Linked()
      ensures p < |old(lists)[iLogsize]| && old(lists)[iLogsize][p] == i
      ensures lists == old(lists)[iLogsize := Without(old(lists)[iLogsize], p)]
      ensures Column(0) == UnlinkNext(old(Column(0)), old(Column(1)), i)
      ensures Column(1) == UnlinkPrev(old(Column(0)), old(Column(1)), i)
      ensures forall a, w | 0 <= a < nBlock && 2 <= w < zPool.Length1 :: zPool[a, w] == old(zPool[a, w])
    {
      p :| p < |lists[iLogsize]| && lists[iLogsize][p] == i;
      UnlinkKeeps(lists, aiFreelist[..], Column(0), Column(1), iLogsize, p);
      ghost var first0 := aiFreelist[..];
      var next := zPool[i, 0];
      var prev := zPool[i, 1];
      if prev < 0 {
        aiFreelist[iLogsize] := next;
      } else {
        SetNext(prev, next);
      }
      if next >= 0 {
        SetPrev(next, prev);
      }
      lists := lists[iLogsize := Without(lists[iLogsize], p)];
      assert aiFreelist[..] == if prev < 0 then first0[iLogsize := next] else first0;
    }

    /** Put block i at the head of list iLogsize (memsys5Link). */
    method Link(i: nat, iLogsize: nat)
      requires Sized() && Linked() && iLogsize <= LOGMAX && i < nBlock && !Listed(i)
      modifies this`lists, zPool, aiFreelist
      ensures Linked()
      ensures lists == old(lists)[iLogsize := [i] + old(lists)[iLogsize]]
      ensures forall a, w | 0 <= a < nBlock && 2 <= w < zPool.Length1 :: zPool[a, w] == old(zPool[a, w])
      ensures forall a: nat | a < nBlock && a != i && a !in old(lists)[iLogsize] ::
                Column(0)[a] == old(Column(0))[a] && Column(1)[a] == old(Column(1))[a]
    {
      LinkKeeps(lists, aiFreelist[..], Column(0), Column(1), i, iLogsize);
      assert Chain(lists[iLogsize], aiFreelist[..][iLogsize], Column(0), Column(1));
      ghost var first0 := aiFreelist[..];
      var x := aiFreelist[iLogsize];
      SetNext(i, x);
      SetPrev(i, -1);
      if x >= 0 {
        assert x in lists[iLogsize];
        SetPrev(x, i);
      }
      aiFreelist[iLogsize] := i;
      lists := lists[iLogsize := [i] + lists[iLogsize]];
      assert aiFreelist[..] == first0[iLogsize := i];
    }
  
    /** No word of the checked-out blocks in alloc has changed. */
    twostate predicate KeepsWords(new alloc: map<nat, nat>)
      reads zPool
    {
      zPool.Length0 == nBlock &&
      forall x, a: nat, w: nat | Used(alloc, x, a) && a < nBlock && w < zPool.Length1 :: zPool[a, w] == old(zPool[a, w])
    }

    /** Writes to the link fields of free blocks leave the checked-out blocks alone. */
    twostate lemma LinkWritesKeep(new h: Heap, new touched: seq<nat>, new keep: map<nat, nat>)
      requires Sized() && Partition(h) && SubMap(keep, Allocated(h)) &&
               (forall a | a in touched :: a in h.blocks && h.blocks[a].free)
      requires forall a, w | 0 <= a < nBlock && 2 <= w < zPool.Length1 :: zPool[a, w] == old(zPool[a, w])
      requires forall a: nat | a < nBlock && a !in touched ::
                 Column(0)[a] == old(Column(0))[a] && Column(1)[a] == old(Column(1))[a]
      ensures KeepsWords(keep)
    {
      forall x, a: nat, w: nat | Used(keep, x, a) && a < nBlock && w < zPool.Length1
        ensures zPool[a, w] == old(zPool[a, w])
      {
        if a in touched {
          assert In(h, x, a) && In(h, a, a);
          assert false;
        }
      }
    }

    /** The place of a block head in the pool. */
    lemma HeadShape(i: nat, held: set<nat>)
      requires ValidExcept(held) && i in heap.blocks
      ensures Sized() && heap.blocks[i].lg <= LOGMAX && Aligned(i, heap.blocks[i].lg)
      ensures i < i + Pow(heap.blocks[i].lg) <= nBlock
      ensures i in Allocated(heap) <==> !heap.blocks[i].free
      ensures i in Allocated(heap) ==> Allocated(heap)[i] == heap.blocks[i].lg
    {
    }

    /** Unlink a free block and take it in hand. */
    method Take(i: nat, k: nat, ghost held: set<nat>, ghost keep: map<nat, nat>)
      requires ValidExcept(held) && k <= LOGMAX && FreeAt(heap, i, k)
      requires SubMap(keep, Allocated(heap))
      modifies this`heap, this`lists, zPool, aiFreelist
      ensures ValidExcept(held + {i})
      ensures heap == Hold(old(heap), i)
      ensures Allocated(heap) == Allocated(old(heap))[i := k]
      ensures KeepsWords(keep)
    {
      ghost var s := lists[k];
      assert Chain(s, aiFreelist[..][k], Column(0), Column(1)) && NoRepeat(s);
      ghost var p := Unlink(i, k);
      UnlinkFrame(s, old(aiFreelist[..])[k], old(Column(0)), old(Column(1)), p);
      LinkWritesKeep(heap, s, keep);
      HoldMembers(old(lists), heap, i, k, p);
      HoldKeeps(heap, i);
      heap := Hold(heap, i);
    }

    /** Link a held block, whose control byte already says that it is free. */
    method Put(i: nat, k: nat, ghost held: set<nat>, ghost keep: map<nat, nat>)
      requires ValidExcept(held) && i in held && heap.blocks[i].lg == k <= LOGMAX && i < nBlock
      requires aCtrl[i] == CTRL_FREE + k && !FreeAt(heap, Buddy(i, k), k)
      requires SubMap(keep, Allocated(heap)) && i !in keep
      modifies this`heap, this`lists, zPool, aiFreelist
      ensures ValidExcept(held - {i})
      ensures heap == Release(old(heap), i)
      ensures Allocated(heap) == Allocated(old(heap)) - {i}
      ensures aiFreelist[k] == i && FreeAt(heap, i, k)
      ensures KeepsWords(keep)
    {
      forall k' | 0 <= k' <= LOGMAX ensures i !in lists[k'] {
        assert !FreeAt(heap, i, k');
      }
      ghost var s := lists[k];
      Link(i, k);
      ReleaseMembers(old(lists), heap, i);
      ReleaseKeeps(heap, i);
      heap := Release(heap, i);
      LinkWritesKeep(heap, [i] + s, keep);
    }

    /** The byte offset of atom i in the pool. */
    function Ptr(i: nat): nat { i * szAtom }

    /** The atom that byte offset p falls in. */
    function AtomOf(p: nat): nat { if szAtom == 0 then 0 else p / szAtom }

    lemma AtomOfPtr(i: nat)
      requires Sized()
      ensures AtomOf(Ptr(i)) == i
    {
      MulDiv(i, szAtom);
    }

    /** p is the address of a checked-out block. */
    ghost predicate Outstanding(p: nat)
      reads this`heap
    {
      p == Ptr(AtomOf(p)) && AtomOf(p) in Allocated(heap)
    }

    /** A grant of the run of 2^lg atoms at i: it was wholly free, it is aligned,
        and the outstanding allocations grow by exactly this block. */
    ghost predicate GrantedAt(h0: Heap, h1: Heap, i: nat, lg: nat) {
      && i !in Allocated(h0) && Aligned(i, lg) && FreeRun(h0, i, lg)
      && Allocated(h1) == Allocated(h0)[i := lg]
    }

    ghost predicate Granted(h0: Heap, h1: Heap, ptr: nat, lg: nat) {
      exists i: nat :: ptr == Ptr(i) && GrantedAt(h0, h1, i, lg)
    }

    lemma HeadIsFree(k: nat)
      requires Valid() && k <= LOGMAX && aiFreelist[k] >= 0
      ensures FreeAt(heap, aiFreelist[k], k)
    {
      assert Chain(lists[k], aiFreelist[..][k], Column(0), Column(1));
      assert lists[k][0] in lists[k];
    }

    lemma FreeHeadListed(i: nat, k: nat)
      requires Valid() && k <= LOGMAX && FreeAt(heap, i, k)
      ensures aiFreelist[k] >= 0
    {
      assert i in lists[k];
      assert Chain(lists[k], aiFreelist[..][k], Column(0), Column(1));
    }

    lemma NoRunLeft(lg: nat)
      requires Valid() && forall k | lg <= k <= LOGMAX :: aiFreelist[k] < 0
      ensures !HasRun(heap, lg)
    {
      if HasRun(heap, lg) {
        var r :| Aligned(r, lg) && FreeRun(heap, r, lg);
        PowMonotone(0, lg);
        var i := FreeRunInOneBlock(heap, r, lg);
        FreeHeadListed(i, heap.blocks[i].lg);
        assert false;
      }
    }

    /** The first part of a free block is a free run of any smaller size. */
    lemma FreeBlockRun(h: Heap, i: nat, k: nat, lg: nat)
      requires Partition(h) && FreeAt(h, i, k) && lg <= k
      ensures Aligned(i, lg) && FreeRun(h, i, lg) && i !in Allocated(h)
    {
      AlignedWeaken(i, k, lg);
      PowMonotone(lg, k);
      forall j, a | i <= a < i + Pow(lg) && In(h, j, a) ensures h.blocks[j].free {
        assert In(h, i, a);
      }
    }

    /** The least size that holds a request, as bytes and as a power of two of atoms. */
    method RoundUp(nByte: int) returns (iFullSz: nat, iLogsize: nat)
      requires Sized() && nByte <= MAX_REQUEST
      ensures iLogsize == LogFor(szAtom, nByte) && iFullSz == Pow(atomLog + iLogsize)
      ensures atomLog + iLogsize <= LOGMAX
    {
      iFullSz, iLogsize := szAtom, 0;
      while iFullSz < nByte
        invariant iFullSz == Pow(atomLog + iLogsize) && atomLog + iLogsize <= LOGMAX
        invariant LogFor(szAtom, nByte) == iLogsize + LogFor(iFullSz, nByte)
      {
        Pow30();
        iFullSz := iFullSz * 2;
        iLogsize := iLogsize + 1;
      }
    }

    /** Cut the held block i in two; both halves stay in hand. */
    method CutHeld(i: nat, k: nat) returns (u: nat)
      requires ValidExcept({i}) && i in heap.blocks && heap.blocks[i].lg == k + 1
      modifies this`heap, aCtrl
      ensures ValidExcept({i, u})
      ensures u == i + Pow(k) && u < nBlock && aCtrl[u] == CTRL_FREE + k
      ensures u != i && heap.blocks[i] == heap.blocks[u] == Block(k, false) && Buddy(u, k) == i
      ensures u !in Allocated(old(heap)) && Allocated(heap) == Allocated(old(heap))[i := k][u := k]
    {
      ghost var h0 := heap;
      SplitKeeps(h0, i, k);
      SplitMembers(lists, h0, i, k);
      u := i + Pow(k);
      aCtrl[u] := CTRL_FREE + k;
      heap := Split(h0, i, k);
    }

    /** Split the held block i once: keep the lower half in hand, free the upper. */
    method SplitOnce(i: nat, k: nat, ghost keep: map<nat, nat>)
      requires ValidExcept({i}) && k < LOGMAX && heap.blocks[i].lg == k + 1
      requires i !in keep && Allocated(heap) == keep[i := k + 1]
      modifies this`heap, this`lists, zPool, aCtrl, aiFreelist
      ensures ValidExcept({i}) && heap.blocks[i].lg == k
      ensures Allocated(heap) == keep[i := k]
      ensures KeepsWords(keep)
    {
      hide Partition, Canonical, Chains, ListsHold, Allocated, Split, Buddy;
      var u := CutHeld(i, k);
      Put(u, k, {i, u}, keep);
      assert {i, u} - {u} == {i};
    }

    /** Split the held block i down to the size asked for. */
    method SplitDown(i: nat, bin: nat, iLogsize: nat, ghost keep: map<nat, nat>)
      requires ValidExcept({i}) && iLogsize <= bin <= LOGMAX && heap.blocks[i].lg == bin
      requires i !in keep && Allocated(heap) == keep[i := bin]
      modifies this`heap, this`lists, zPool, aCtrl, aiFreelist
      ensures ValidExcept({i}) && heap.blocks[i].lg == iLogsize
      ensures Allocated(heap) == keep[i := iLogsize]
      ensures KeepsWords(keep)
    {
      hide Partition, Canonical, Chains, ListsHold, Allocated;
      var iBin := bin;
      while iBin > iLogsize
        invariant iLogsize <= iBin <= LOGMAX
        invariant ValidExcept({i}) && heap.blocks[i].lg == iBin
        invariant Allocated(heap) == keep[i := iBin]
        invariant KeepsWords(keep)
      {
        iBin := iBin - 1;
        SplitOnce(i, iBin, keep);
      }
    }

    /** The first non-empty list at or above iLogsize; LOGMAX + 1 when there is
        none, and then no free run of that size is left at all. */
    method FindBin(iLogsize: nat) returns (iBin: nat)
      requires Valid() && iLogsize <= LOGMAX
      ensures iLogsize <= iBin <= LOGMAX + 1
      ensures iBin <= LOGMAX ==> FreeAt(heap, aiFreelist[iBin], iBin)
      ensures iBin > LOGMAX ==> !HasRun(heap, iLogsize)
      ensures forall k | iLogsize <= k < iBin && k <= LOGMAX :: aiFreelist[k] < 0
    {
      iBin := iLogsize;
      while iBin <= LOGMAX && aiFreelist[iBin] < 0
        invariant iLogsize <= iBin <= LOGMAX + 1
        invariant forall k | iLogsize <= k < iBin :: aiFreelist[k] < 0
      {
        iBin := iBin + 1;
      }
      if iBin > LOGMAX {
        NoRunLeft(iLogsize);
      } else {
        HeadIsFree(iBin);
      }
    }

    /** Check out the run of 2^iLogsize atoms at the head of the free block i. */
    method Grant(i: nat, iBin: nat, iLogsize: nat)
      requires Valid() && iLogsize <= iBin <= LOGMAX && FreeAt(heap, i, iBin) && i !in Allocated(heap)
      modifies this`heap, this`lists, zPool, aCtrl, aiFreelist
      ensures Valid()
      ensures Allocated(heap) == Allocated(old(heap))[i := iLogsize]
      ensures KeepsWords(Allocated(old(heap)))
    {
      HeadShape(i, {});
      hide Partition, Canonical, Chains, ListsHold, Allocated;
      ghost var keep := Allocated(heap);
      Take(i, iBin, {}, keep);
      assert {} + {i} == {i};
      SplitDown(i, iBin, iLogsize, keep);
      aCtrl[i] := iLogsize;
    }

    /** Atom i is the first of the smallest free blocks of at least 2^lg atoms: the
        one at the head of its list. */
    ghost predicate BestFit(h: Heap, first: seq<int>, i: nat, lg: nat) {
      |first| == LOGMAX + 1 && exists k :: BestAt(h, first, i, lg, k)
    }

    ghost predicate BestAt(h: Heap, first: seq<int>, i: nat, lg: nat, k: nat)
      requires |first| == LOGMAX + 1
    {
      lg <= k <= LOGMAX && FreeAt(h, i, k) && first[k] == i && forall j: nat, m | lg <= m < k :: !FreeAt(h, j, m)
    }

    lemma BinIsBest(lg: nat, k: nat)
      requires Valid() && lg <= k <= LOGMAX && FreeAt(heap, aiFreelist[k], k)
      requires forall m | lg <= m < k :: aiFreelist[m] < 0
      ensures aiFreelist[k] >= 0 && BestFit(heap, aiFreelist[..], aiFreelist[k], lg)
    {
      forall j: nat, m: nat | lg <= m < k ensures !FreeAt(heap, j, m) {
        if FreeAt(heap, j, m) {
          FreeHeadListed(j, m);
          assert false;
        }
      }
      assert BestAt(heap, aiFreelist[..], aiFreelist[k], lg, k);
    }

    /** A block of at least nByte bytes, or None (memsys5MallocUnsafe). */
    method MallocUnsafe(nByte: int) returns (r: Option<nat>)
      requires Valid() && 0 < nByte < 0x8000_0000
      modifies this`heap, this`lists, zPool, aCtrl, aiFreelist
      ensures Valid()
      ensures r.None? <==> nByte > MAX_REQUEST || !HasRun(old(heap), LogFor(szAtom, nByte))
      ensures r.None? ==> heap == old(heap)
      ensures r.Some? ==> Granted(old(heap), heap, r.value, LogFor(szAtom, nByte))
      ensures r.Some? ==> BestFit(old(heap), old(aiFreelist[..]), AtomOf(r.value), LogFor(szAtom, nByte))
      ensures KeepsWords(Allocated(old(heap)))
    {
      if nByte > MAX_REQUEST {
        return None;
      }
      var iFullSz, iLogsize := RoundUp(nByte);
      var iBin := FindBin(iLogsize);
      if iBin > LOGMAX {
        return None;
      }
      ghost var h0, keep := heap, Allocated(heap);
      var i: nat := aiFreelist[iBin];
      BinIsBest(iLogsize, iBin);
      AtomOfPtr(i);
      FreeBlockRun(h0, i, iBin, iLogsize);
      Grant(i, iBin, iLogsize);
      r := Some(Ptr(i));
    }
  
    /** The control byte of an in-range buddy tells whether it is a free block
        of the same size: the byte read is never a stale one. */
    lemma BuddyByte(i: nat, k: nat)
      requires ValidExcept({i}) && heap.blocks[i].lg == k && 0 <= Buddy(i, k) < nBlock
      ensures aCtrl[Buddy(i, k)] == CTRL_FREE + k <==> FreeAt(heap, Buddy(i, k), k)
    {
      BuddyIsHead(heap, i);
      BuddyPair(i, k);
    }

    /** The free buddy that the held block can be fused with, or -1. */
    method FreeBuddy(iBlock: nat, iLogsize: nat) returns (iBuddy: int)
      requires ValidExcept({iBlock}) && iLogsize < LOGMAX && heap.blocks[iBlock].lg == iLogsize
      ensures iBuddy < 0 ==> !FreeAt(heap, Buddy(iBlock, iLogsize), iLogsize)
      ensures iBuddy >= 0 ==> iBuddy == Buddy(iBlock, iLogsize) && iBuddy < nBlock && FreeAt(heap, iBuddy, iLogsize)
    {
      var size := Pow(iLogsize);
      HeadShape(iBlock, {iBlock});
      BuddyPair(iBlock, iLogsize);
      if ShiftRight(iBlock, iLogsize) % 2 == 1 {
        iBuddy := iBlock - size;
      } else {
        iBuddy := iBlock + size;
        if iBuddy >= nBlock { return -1; }
      }
      BuddyByte(iBlock, iLogsize);
      if aCtrl[iBuddy] != CTRL_FREE + iLogsize { return -1; }
    }

    /** At the largest size no buddy is in range. */
    lemma NoBuddyAtTop(i: nat)
      requires ValidExcept({i}) && heap.blocks[i].lg == LOGMAX
      ensures !FreeAt(heap, Buddy(i, LOGMAX), LOGMAX)
    {
      Pow30();
      BuddyPair(i, LOGMAX);
      assert i + Pow(LOGMAX) <= nBlock;
      assert FreeAt(heap, Buddy(i, LOGMAX), LOGMAX) ==> Buddy(i, LOGMAX) + Pow(LOGMAX) <= nBlock;
    }

    /** The last atom of a checked-out block is no head, unless the block is one atom. */
    lemma InteriorNotHead(i: nat, last: int)
      requires ValidExcept({}) && i in Allocated(heap) && i < nBlock
      requires last == i + Pow(heap.blocks[i].lg) - 1
      ensures aCtrl[i] == heap.blocks[i].lg && last < nBlock
      ensures last in heap.blocks ==> last == i
    {
      if last in heap.blocks {
        assert In(heap, i, last) && In(heap, last, last);
      }
    }

    /** Make one block, still in hand, out of two held buddies. */
    method FuseHeld(lo: nat, hi: nat, k: nat)
      requires ValidExcept({lo, hi}) && Mergeable(heap, lo, k) && hi == lo + Pow(k)
      modifies this`heap, aCtrl
      ensures ValidExcept({lo}) && lo < nBlock && aCtrl[lo] == CTRL_FREE + (k + 1)
      ensures heap.blocks[lo].lg == k + 1
      ensures Allocated(heap) == (Allocated(old(heap)) - {hi})[lo := k + 1]
    {
      ghost var h0 := heap;
      MergeKeeps(h0, lo, k);
      MergeMembers(lists, h0, lo, k);
      aCtrl[lo] := CTRL_FREE + (k + 1);
      aCtrl[hi] := 0;
      heap := Merge(h0, lo, k);
    }

    /** Fuse the held block with its free buddy; the lower of the two is then held. */
    method Fuse(iBlock: nat, iBuddy: nat, k: nat, ghost keep: map<nat, nat>) returns (lo: nat)
      requires ValidExcept({iBlock}) && k < LOGMAX && heap.blocks[iBlock].lg == k
      requires iBuddy == Buddy(iBlock, k) && iBuddy < nBlock && FreeAt(heap, iBuddy, k)
      requires iBlock !in keep && Allocated(heap) == keep[iBlock := k]
      modifies this`heap, this`lists, zPool, aCtrl, aiFreelist
      ensures lo < nBlock && aCtrl[lo] == CTRL_FREE + (k + 1)
      ensures ValidExcept({lo}) && heap.blocks[lo].lg == k + 1
      ensures lo !in keep && Allocated(heap) == keep[lo := k + 1]
      ensures lo <= iBlock && iBlock + Pow(k) <= lo + Pow(k + 1)
      ensures KeepsWords(keep)
    {
      HeadShape(iBlock, {iBlock});
      HeadShape(iBuddy, {iBlock});
      hide Allocated;
      Take(iBuddy, k, {iBlock}, keep);
      BuddiesMerge(heap, iBlock, iBuddy, k);
      assert Pow(k + 1) == 2 * Pow(k) && (iBuddy == iBlock + Pow(k) || iBlock == iBuddy + Pow(k));
      hide Partition, Canonical, Chains, ListsHold, Mergeable, Buddy, Pow;
      var hi;
      if iBuddy < iBlock {
        lo, hi := iBuddy, iBlock;
      } else {
        lo, hi := iBlock, iBuddy;
      }
      assert {iBlock} + {iBuddy} == {lo, hi};
      FusedMap(keep, iBlock, iBuddy, lo, hi, k);
      FuseHeld(lo, hi, k);
    }

    /** Take the checked-out block iBlock in hand and mark it free. */
    method MarkFree(iBlock: nat) returns (iLogsize: nat)
      requires Valid() && iBlock in Allocated(heap) && iBlock < nBlock
      modifies aCtrl
      ensures ValidExcept({iBlock}) && aCtrl[iBlock] == CTRL_FREE + iLogsize
      ensures iLogsize == heap.blocks[iBlock].lg == Allocated(heap)[iBlock]
    {
      hide Canonical, Chains, ListsHold;
      InteriorNotHead(iBlock, iBlock + Pow(heap.blocks[iBlock].lg) - 1);
      iLogsize := LogSize(aCtrl[iBlock]);
      var size := Pow(iLogsize);
      aCtrl[iBlock] := OrFree(aCtrl[iBlock]);
      aCtrl[iBlock + size - 1] := OrFree(aCtrl[iBlock + size - 1]);
      aCtrl[iBlock] := CTRL_FREE + iLogsize;
    }

    /** Fuse the held block with its free buddy as long as there is one. */
    method Coalesce(i: nat, lg: nat, ghost keep: map<nat, nat>) returns (iBlock: nat, iLogsize: nat)
      requires ValidExcept({i}) && i < nBlock && lg <= LOGMAX && aCtrl[i] == CTRL_FREE + lg
      requires heap.blocks[i].lg == lg && i !in keep && Allocated(heap) == keep[i := lg]
      modifies this`heap, this`lists, zPool, aCtrl, aiFreelist
      ensures ValidExcept({iBlock}) && iBlock < nBlock && iLogsize <= LOGMAX && aCtrl[iBlock] == CTRL_FREE + iLogsize
      ensures heap.blocks[iBlock].lg == iLogsize && iBlock !in keep && Allocated(heap) == keep[iBlock := iLogsize]
      ensures !FreeAt(heap, Buddy(iBlock, iLogsize), iLogsize)
      ensures iBlock <= i && i + Pow(lg) <= iBlock + Pow(iLogsize)
      ensures KeepsWords(keep)
    {
      hide Partition, Canonical, Chains, ListsHold, Allocated, Buddy, FreeAt;
      iBlock, iLogsize := i, lg;
      while iLogsize < LOGMAX
        invariant iLogsize <= LOGMAX && iBlock < nBlock && aCtrl[iBlock] == CTRL_FREE + iLogsize
        invariant ValidExcept({iBlock}) && heap.blocks[iBlock].lg == iLogsize
        invariant iBlock !in keep && Allocated(heap) == keep[iBlock := iLogsize]
        invariant iBlock <= i && i + Pow(lg) <= iBlock + Pow(iLogsize)
        invariant KeepsWords(keep)
      {
        var iBuddy := FreeBuddy(iBlock, iLogsize);
        if iBuddy < 0 { return; }
        iBlock := Fuse(iBlock, iBuddy, iLogsize, keep);
        iLogsize := iLogsize + 1;
      }
      NoBuddyAtTop(iBlock);
    }

    /** Atom a is in the free block at the head of list k. */
    ghost predicate NextOut(k: nat, a: nat)
      reads this`heap, aiFreelist
    {
      && k <= LOGMAX < aiFreelist.Length && FreeAt(heap, aiFreelist[k], k)
      && aiFreelist[k] <= a < aiFreelist[k] + Pow(k)
    }

    /** Free the block at pOld, coalescing as far as possible (memsys5FreeUnsafe).
        The block that it has become part of is the next of its size to be granted. */
    method FreeUnsafe(pOld: nat)
      requires Valid() && Outstanding(pOld)
      modifies this`heap, this`lists, zPool, aCtrl, aiFreelist
      ensures Valid()
      ensures Allocated(heap) == Allocated(old(heap)) - {AtomOf(pOld)}
      ensures exists k :: NextOut(k, AtomOf(pOld))
      ensures KeepsWords(Allocated(heap))
    {
      var iBlock := AtomOf(pOld);
      HeadShape(iBlock, {});
      ghost var keep := Allocated(heap) - {iBlock};
      assert Allocated(heap) == keep[iBlock := Allocated(heap)[iBlock]];
      hide Partition, Canonical, Chains, ListsHold, Allocated, Buddy, FreeAt;
      var iLogsize := MarkFree(iBlock);
      iBlock, iLogsize := Coalesce(iBlock, iLogsize, keep);
      assert keep[iBlock := iLogsize] - {iBlock} == keep;
      Put(iBlock, iLogsize, {iBlock}, keep);
      assert {iBlock} - {iBlock} == {};
      assert NextOut(iLogsize, AtomOf(pOld));
    }
  
    /** Allocate nBytes (memsys5Malloc). */
    method Malloc(nBytes: int) returns (r: Option<nat>)
      requires Valid() && nBytes < 0x8000_0000
      modifies this`heap, this`lists, zPool, aCtrl, aiFreelist
      ensures Valid()
      ensures r.None? <==> nBytes <= 0 || nBytes > MAX_REQUEST || !HasRun(old(heap), LogFor(szAtom, nBytes))
      ensures r.None? ==> heap == old(heap)
      ensures r.Some? ==> Granted(old(heap), heap, r.value, LogFor(szAtom, nBytes))
      ensures r.Some? ==> BestFit(old(heap), old(aiFreelist[..]), AtomOf(r.value), LogFor(szAtom, nBytes))
      ensures KeepsWords(Allocated(old(heap)))
    {
      r := None;
      if nBytes > 0 {
        r := MallocUnsafe(nBytes);
      }
    }

    /** The control byte of a checked-out block is its log size. */
    lemma CtrlByte(i: nat)
      requires Valid() && i in Allocated(heap)
      ensures i < nBlock && LogSize(aCtrl[i]) == aCtrl[i] == Allocated(heap)[i]
    {
      HeadShape(i, {});
    }

    ghost function SizeOf(p: nat): nat
      requires Outstanding(p)
      reads this`heap
    {
      Ptr(Pow(Allocated(heap)[AtomOf(p)]))
    }

    ghost function Rounded(n: int): nat
      requires szAtom > 0
    {
      szAtom * Pow(LogFor(szAtom, n))
    }

    /** A block granted for n bytes has the size that n is rounded to. */
    lemma GrantedSize(h0: Heap, p: nat, n: int)
      requires Sized() && Granted(h0, heap, p, LogFor(szAtom, n))
      ensures Outstanding(p) && SizeOf(p) == Rounded(n)
    {
      hide LogFor, Pow;
      var i: nat :| p == Ptr(i) && GrantedAt(h0, heap, i, LogFor(szAtom, n));
      AtomOfPtr(i);
    }

    /** The byte size of a checked-out block (memsys5Size). */
    method Size(p: nat) returns (iSize: nat)
      requires Valid() && Outstanding(p)
      ensures iSize == SizeOf(p)
    {
      hide AtomOf, Ptr, Pow;
      var i := AtomOf(p);
      CtrlByte(i);
      iSize := Ptr(Pow(LogSize(aCtrl[i])));
    }

    /** The size that a request for n bytes is rounded to (memsys5Roundup). */
    method Roundup(n: int) returns (iFullSz: nat)
      requires Sized()
      ensures n > MAX_REQUEST ==> iFullSz == 0
      ensures n <= MAX_REQUEST ==> iFullSz == Rounded(n) && n <= iFullSz <= MAX_REQUEST
      ensures n <= MAX_REQUEST ==> (exists k :: iFullSz == Pow(k)) && iFullSz >= szAtom
      ensures szAtom < iFullSz ==> iFullSz < 2 * n
    {
      if n > MAX_REQUEST { return 0; }
      var iLogsize;
      iFullSz, iLogsize := RoundUp(n);
      PowAdd(atomLog, iLogsize);
      PowMonotone(atomLog + iLogsize, LOGMAX);
      Pow30();
      LogForFits(szAtom, n);
      DoubledSize(szAtom, iLogsize);
    }

    /** Whatever callers write into checked-out blocks, the allocator stays valid. */
    twostate lemma ClientWrites()
      requires old(Valid()) && unchanged(this) && unchanged(aCtrl) && unchanged(aiFreelist)
      requires forall a: nat, k: nat, w: nat | FreeAt(heap, a, k) && a < nBlock && w < zPool.Length1 ::
                 zPool[a, w] == old(zPool[a, w])
      ensures Valid()
    {
      forall k, x: nat | 0 <= k < |lists| && x in lists[k] && x < nBlock
        ensures Column(0)[x] == old(Column(0))[x] && Column(1)[x] == old(Column(1))[x]
      {
        assert FreeAt(heap, x, k);
      }
      ChainsFrame(lists, aiFreelist[..], old(Column(0)), old(Column(1)), Column(0), Column(1));
    }

    /** The words of n atoms from src are now at dst. */
    twostate predicate Copied(dst: nat, src: nat, n: nat)
      reads zPool
    {
      && dst + n <= zPool.Length0 && src + n <= zPool.Length0
      && forall a, w | dst <= a < dst + n && 0 <= w < zPool.Length1 :: zPool[a, w] == old(zPool[src + (a - dst), w])
    }

    /** memcpy between two checked-out blocks, atom by atom. */
    method CopyAtoms(dst: nat, src: nat, n: nat)
      requires Valid() && dst in Allocated(heap) && n <= Pow(Allocated(heap)[dst]) && src + n <= nBlock
      modifies zPool
      ensures Valid()
      ensures Copied(dst, src, n)
      ensures KeepsWords(Allocated(heap) - {dst})
    {
      HeadShape(dst, {});
      forall a, w | dst <= a < dst + n && 0 <= w < zPool.Length1 {
        zPool[a, w] := zPool[src + (a - dst), w];
      }
      forall x, a: nat, w: nat | Used(Allocated(heap) - {dst}, x, a) && a < nBlock && w < zPool.Length1
        ensures zPool[a, w] == old(zPool[a, w])
      {
        assert In(heap, x, a) && (dst <= a < dst + n ==> In(heap, dst, a));
      }
      forall a: nat, k: nat, w: nat | FreeAt(heap, a, k) && a < nBlock && w < zPool.Length1
        ensures zPool[a, w] == old(zPool[a, w])
      {
        assert In(heap, a, a) && (dst <= a < dst + n ==> In(heap, dst, a));
      }
      ClientWrites();
    }
  
    /** Block i, of 2^lg atoms, has been replaced by block q of 2^need atoms,
        which starts with the old contents. */
    twostate predicate Moved(i: nat, lg: nat, q: nat, need: nat)
      reads this`heap, zPool
    {
      && q !in old(Allocated(heap))
      && Allocated(heap) == (old(Allocated(heap)) - {i})[q := need]
      && Copied(q, i, Pow(lg))
    }

    /** The words of block i, 2^lg atoms, are unchanged, as part of alloc. */
    twostate lemma BlockKept(new alloc: map<nat, nat>, new i: nat, new lg: nat)
      requires KeepsWords(alloc) && i in alloc && alloc[i] == lg && i + Pow(lg) <= nBlock
      ensures forall a, w | i <= a < i + Pow(lg) && 0 <= w < zPool.Length1 :: zPool[a, w] == old(zPool[a, w])
    {
      forall a: nat, w: nat | i <= a < i + Pow(lg) && w < zPool.Length1 ensures zPool[a, w] == old(zPool[a, w]) {
        assert Used(alloc, i, a);
      }
    }

    twostate lemma KeptByMore(new fewer: map<nat, nat>, new more: map<nat, nat>)
      requires KeepsWords(more) && SubMap(fewer, more)
      ensures KeepsWords(fewer)
    {
      forall x, a: nat, w: nat | Used(fewer, x, a) && a < nBlock && w < zPool.Length1
        ensures zPool[a, w] == old(zPool[a, w])
      {
        assert Used(more, x, a);
      }
    }

    lemma GrowthFacts(i: nat, nBytes: int, lg: nat)
      requires Valid() && i in Allocated(heap) && Allocated(heap)[i] == lg && Ptr(Pow(lg)) < nBytes
      ensures LogFor(szAtom, nBytes) > lg && i + Pow(lg) <= nBlock
    {
      LogForGrows(szAtom, nBytes, lg);
      HeadShape(i, {});
    }

    /** The part of Realloc that needs a larger block. */
    method Regrow(pPrior: nat, nBytes: int, nOld: nat, ghost lg: nat) returns (p: Option<nat>)
      requires Valid() && Outstanding(pPrior) && Allocated(heap)[AtomOf(pPrior)] == lg
      requires nOld == Ptr(Pow(lg)) < nBytes < 0x8000_0000
      modifies this`heap, this`lists, zPool, aCtrl, aiFreelist
      ensures Valid()
      ensures p.None? <==> nBytes > MAX_REQUEST || !HasRun(old(heap), LogFor(szAtom, nBytes))
      ensures p.None? ==> heap == old(heap) && KeepsWords(old(Allocated(heap)))
      ensures p.Some? ==>
        && Outstanding(p.value)
        && Moved(AtomOf(pPrior), lg, AtomOf(p.value), LogFor(szAtom, nBytes))
      ensures KeepsWords(old(Allocated(heap)) - {AtomOf(pPrior)})
    {
      hide Allocated, Partition, Canonical, Chains, ListsHold, Pow, FreeRun, Aligned, Ptr, AtomOf, LogFor, HasRun;
      GrowthFacts(AtomOf(pPrior), nBytes, lg);
      ghost var i, a0, need := AtomOf(pPrior), Allocated(heap), LogFor(szAtom, nBytes);
      p := Malloc(nBytes);
      KeptByMore(a0 - {i}, a0);
      if p.None? {
        return;
      } else {
        hide KeepsWords, Used;
        ghost var q: nat :| p.value == Ptr(q) && GrantedAt(old(heap), heap, q, need);
        AtomOfPtr(q);
        BlockKept(a0, i, lg);
        Replace(p.value, pPrior, nOld, lg, need, a0);
      }
    }

    /** Grow a block (memsys5Realloc): nBytes is 0 or a power of two. */
    method Realloc(pPrior: nat, nBytes: int) returns (p: Option<nat>)
      requires Valid() && Outstanding(pPrior) && 0 <= nBytes < 0x8000_0000
      modifies this`heap, this`lists, zPool, aCtrl, aiFreelist
      ensures Valid()
      ensures nBytes == 0 ==> p == None
      ensures 0 < nBytes <= Ptr(Pow(old(Allocated(heap))[AtomOf(pPrior)])) ==> p == Some(pPrior) && heap == old(heap)
      ensures 0 < nBytes <= Ptr(Pow(old(Allocated(heap))[AtomOf(pPrior)])) ==> KeepsWords(old(Allocated(heap)))
      ensures nBytes > Ptr(Pow(old(Allocated(heap))[AtomOf(pPrior)])) ==>
        (p.None? <==> nBytes > MAX_REQUEST || !HasRun(old(heap), LogFor(szAtom, nBytes)))
      ensures p.None? ==> heap == old(heap) && KeepsWords(old(Allocated(heap)))
      ensures nBytes > Ptr(Pow(old(Allocated(heap))[AtomOf(pPrior)])) && p.Some? ==>
        && Outstanding(p.value)
        && Moved(AtomOf(pPrior), old(Allocated(heap))[AtomOf(pPrior)], AtomOf(p.value), LogFor(szAtom, nBytes))
      ensures KeepsWords(old(Allocated(heap)) - {AtomOf(pPrior)})
    {
      hide Allocated, Partition, Canonical, Chains, ListsHold, Pow, FreeRun, Aligned, Ptr, AtomOf, LogFor, HasRun;
      if nBytes == 0 {
        return None;
      }
      var nOld := Size(pPrior);
      if nBytes <= nOld {
        return Some(pPrior);
      }
      p := Regrow(pPrior, nBytes, nOld, Allocated(heap)[AtomOf(pPrior)]);
    }

    /** Free the old block, when the new one holds its contents. */
    method Discard(pOld: nat, ghost left: map<nat, nat>)
      requires Valid() && Outstanding(pOld) && Allocated(heap) - {AtomOf(pOld)} == left
      modifies this`heap, this`lists, zPool, aCtrl, aiFreelist
      ensures Valid() && Allocated(heap) == left && KeepsWords(left)
    {
      FreeUnsafe(pOld);
    }

    /** The tail of Realloc: copy the old contents into the new block, free the old one. */
    method Replace(p: nat, pPrior: nat, nOld: nat, ghost lg: nat, ghost need: nat, ghost a0: map<nat, nat>)
      requires Valid() && Outstanding(p) && Outstanding(pPrior) && AtomOf(p) !in a0
      requires Allocated(heap) == a0[AtomOf(p) := need] && need >= lg
      requires AtomOf(pPrior) in a0 && a0[AtomOf(pPrior)] == lg && nOld == Ptr(Pow(lg))
      modifies this`heap, this`lists, zPool, aCtrl, aiFreelist
      ensures Valid() && Outstanding(p)
      ensures Allocated(heap) == (a0 - {AtomOf(pPrior)})[AtomOf(p) := need]
      ensures Copied(AtomOf(p), AtomOf(pPrior), Pow(lg))
      ensures KeepsWords(a0 - {AtomOf(pPrior)})
    {
      AtomOfPtr(Pow(lg));
      HeadShape(AtomOf(pPrior), {});
      PowMonotone(lg, need);
      hide Allocated, Partition, Canonical, Chains, ListsHold, Pow, AtomOf, Ptr;
      var dst, src := AtomOf(p), AtomOf(pPrior);
      ghost var left := (a0 - {src})[dst := need];
      assert Allocated(heap) - {src} == left;
      CopyAtoms(dst, src, AtomOf(nOld));
      KeptByMore(a0 - {src}, Allocated(heap) - {dst});
      label copied:
      Discard(pPrior, left);
      BlockKept@copied(left, dst, need);
      KeptByMore@copied(a0 - {src}, left);
      hide Used;
    }
  
    /** The byte x belongs to the block headed by i. */
    ghost predicate InBlock(i: nat, x: nat)
      reads this`heap
    {
      i in heap.blocks && Ptr(i) <= x < Ptr(i) + Ptr(Pow(heap.blocks[i].lg))
    }

    /** The atoms end where the control bytes begin. */
    lemma BeforeCtrl(i: nat, y: nat)
      requires Valid() && InBlock(i, y)
      ensures y < Ptr(nBlock)
    {
      var size := Pow(heap.blocks[i].lg);
      HeadShape(i, {});
      assert i + size <= nBlock;
      hide Pow, Aligned, Partition, Canonical, Chains, ListsHold, CtrlExcept, ValidExcept;
      MulMonotone(i + size, nBlock, szAtom);
      MulDistributes(i, size, szAtom);
    }

    /** A block of at least one page covers whole pages relative to the pool
        base, so a page that meets it holds no byte of any other block, no link of
        a free block, and no control byte: these follow the atoms. */
    lemma WholePages(i: nat, page: nat, x: nat, y: nat)
      requires Valid() && InBlock(i, x) && Ptr(Pow(heap.blocks[i].lg)) >= 4096
      requires page * 4096 <= x < (page + 1) * 4096 && page * 4096 <= y < (page + 1) * 4096
      ensures InBlock(i, y)
      ensures forall j | InBlock(j, y) :: j == i
      ensures y < Ptr(nBlock)
    {
      BlocksApartAll(y);
      HeadShape(i, {});
      hide Pow, Aligned, Partition, Canonical, Chains, ListsHold, CtrlExcept, ValidExcept;
      var size := Pow(heap.blocks[i].lg);
      var q, c := ScaledPages(i, heap.blocks[i].lg, atomLog);
      PageInside(Ptr(i), Ptr(size), q, c, page, x, y);
      BeforeCtrl(i, y);
    }

    lemma BlocksApart(i: nat, j: nat, y: nat)
      requires Valid() && InBlock(i, y) && InBlock(j, y)
      ensures i >= j
    {
      if i < j {
        var size := Pow(heap.blocks[i].lg);
        assert In(heap, j, j);
        assert !In(heap, i, j);
        hide Pow, Aligned, Partition, Canonical, Chains, ListsHold;
        MulMonotone(i + size, j, szAtom);
        MulDistributes(i, size, szAtom);
        assert false;
      }
    }

    lemma BlocksApartAll(y: nat)
      requires Valid()
      ensures forall i, j | InBlock(i, y) && InBlock(j, y) :: i == j
    {
      forall i, j | InBlock(i, y) && InBlock(j, y) ensures i == j {
        BlocksApart(i, j, y);
        BlocksApart(j, i, y);
      }
    }

    /** Whatever calls led here, an allocator with nothing checked out is back
        in its initial partition. */
    lemma FreedHeapIsInitial()
      requires Valid() && Allocated(heap) == map[]
      ensures heap == Heap(nBlock, Greedy(0, LOGMAX + 1, nBlock))
    {
      AllFreedIsInitial(heap);
    }
  }
}
