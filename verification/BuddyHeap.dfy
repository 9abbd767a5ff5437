// The buddy allocator's heap as a value: a partition of [0, n) into naturally
// aligned power-of-two blocks, each of which is free or checked out.
module BuddyHeap {
  import opened Pow2

  const LOGMAX: nat := 30

  datatype Block = Block(lg: nat, free: bool)
  datatype Heap = Heap(n: nat, blocks: map<nat, Block>)

  /** Atom a belongs to the block headed by i. */
  ghost predicate In(h: Heap, i: nat, a: nat) {
    i in h.blocks && i <= a < i + Pow(h.blocks[i].lg)
  }

  ghost predicate Shaped(h: Heap) {
    forall i | i in h.blocks ::
      h.blocks[i].lg <= LOGMAX && Aligned(i, h.blocks[i].lg) && i + Pow(h.blocks[i].lg) <= h.n
  }

  ghost predicate Covered(h: Heap, a: nat) {
    exists i :: In(h, i, a)
  }

  ghost predicate Covers(h: Heap) {
    forall a: nat | a < h.n :: Covered(h, a)
  }

  ghost predicate Disjoint(h: Heap) {
    forall i, j, a | In(h, i, a) && In(h, j, a) :: i == j
  }

  /** [0, n) is tiled by naturally aligned blocks. */
  ghost predicate Partition(h: Heap) {
    Shaped(h) && Covers(h) && Disjoint(h)
  }

  ghost predicate FreeAt(h: Heap, i: int, k: nat) {
    i >= 0 && i in h.blocks && h.blocks[i] == Block(k, true)
  }

  /** Coalescing is maximal: no two free buddies have the same size. */
  ghost predicate Canonical(h: Heap) {
    forall i, k {:trigger FreeAt(h, i, k), Buddy(i, k)} | FreeAt(h, i, k) :: !FreeAt(h, Buddy(i, k), k)
  }

  /** The outstanding allocations: head of each checked-out block and its log size. */
  ghost function Allocated(h: Heap): map<nat, nat> {
    map i | i in h.blocks && !h.blocks[i].free :: h.blocks[i].lg
  }

  /** Every atom of the run [r, r + 2^lg) lies in a free block. */
  ghost predicate FreeRun(h: Heap, r: nat, lg: nat) {
    && r + Pow(lg) <= h.n
    && forall i, a | r <= a < r + Pow(lg) && In(h, i, a) :: h.blocks[i].free
  }

  /** The head of the block that holds atom a. */
  lemma OwnerOf(h: Heap, a: nat) returns (i: nat)
    requires Partition(h) && a < h.n
    ensures In(h, i, a)
  {
    assert Covered(h, a);
    i :| In(h, i, a);
  }

  /** A block that holds the buddy of head i and is larger than i's block
      would hold the whole aligned pair, and so i itself. */
  lemma LargerBlockHoldsPair(h: Heap, i: nat, b: nat, o: nat)
    requires Shaped(h) && i in h.blocks && b == Buddy(i, h.blocks[i].lg)
    requires In(h, o, b) && h.blocks[o].lg > h.blocks[i].lg
    ensures In(h, o, i) && In(h, i, i)
  {
    var k, m := h.blocks[i].lg, h.blocks[o].lg;
    BuddyPair(i, k);
    var base: nat := PairBase(i, k);
    AlignedWeaken(o, m, k + 1);
    AlignedStep(o, m);
    AlignedWeaken(o + Pow(m), m, k + 1);
    if o > base { AlignedGap(base, o, k + 1); }
    if base < o + Pow(m) { AlignedGap(base, o + Pow(m), k + 1); }
  }

  /** The buddy of a block head, when it is in range, is itself a block head,
      and its block is no larger.  So reading its control byte never reads a
      stale byte from the interior of a block. */
  lemma BuddyIsHead(h: Heap, i: nat)
    requires Partition(h) && i in h.blocks
    requires Buddy(i, h.blocks[i].lg) < h.n
    ensures Buddy(i, h.blocks[i].lg) in h.blocks
    ensures h.blocks[Buddy(i, h.blocks[i].lg) as nat].lg <= h.blocks[i].lg
  {
    var k := h.blocks[i].lg;
    BuddyPair(i, k);
    var b: nat := Buddy(i, k);
    var o := OwnerOf(h, b);
    var m := h.blocks[o].lg;
    if m > k {
      LargerBlockHoldsPair(h, i, b, o);
      assert false;
    } else {
      AlignedWeaken(b, k, m);
      if o < b {
        AlignedGap(o, b, m);
      }
    }
  }

  /** A block that meets an aligned run of at least its own size lies in it. */
  lemma SmallBlockInsideRun(h: Heap, i: nat, a: nat, r: nat, lg: nat)
    requires Shaped(h) && In(h, i, a) && Aligned(r, lg) && r <= a < r + Pow(lg)
    requires h.blocks[i].lg <= lg
    ensures r <= i && i + Pow(h.blocks[i].lg) <= r + Pow(lg)
  {
    var k := h.blocks[i].lg;
    AlignedWeaken(r, lg, k);
    AlignedStep(r, lg);
    AlignedWeaken(r + Pow(lg), lg, k);
    AlignedGap(i, r + Pow(lg), k);
    if i < r {
      AlignedGap(i, r, k);
    }
  }

  /** In a canonical heap a wholly free aligned run holds no block smaller than itself. */
  lemma {:induction false} NoSmallBlockInFreeRun(h: Heap, r: nat, lg: nat, i: nat)
    requires Partition(h) && Canonical(h) && Aligned(r, lg) && FreeRun(h, r, lg)
    requires i in h.blocks && r <= i < r + Pow(lg) && h.blocks[i].lg < lg
    ensures false
    decreases h.blocks[i].lg
  {
    var k := h.blocks[i].lg;
    BuddyPair(i, k);
    var base: nat := PairBase(i, k);
    var b: nat := Buddy(i, k);
    // the whole pair lies inside the run
    AlignedWeaken(r, lg, k + 1);
    AlignedStep(r, lg);
    AlignedWeaken(r + Pow(lg), lg, k + 1);
    AlignedGap(base, r + Pow(lg), k + 1);
    if base < r { AlignedGap(base, r, k + 1); }
    BuddyIsHead(h, i);
    assert In(h, i, i) && In(h, b, b);
    if h.blocks[b].lg == k {
      assert FreeAt(h, i, k) && FreeAt(h, b, k);
      assert false;
    } else {
      NoSmallBlockInFreeRun(h, r, lg, b);
    }
  }

  /** Completeness of the free lists: in a canonical heap a wholly free,
      size-aligned run lies inside one free block. */
  lemma FreeRunInOneBlock(h: Heap, r: nat, lg: nat) returns (i: nat)
    requires Partition(h) && Canonical(h) && Aligned(r, lg) && FreeRun(h, r, lg)
    ensures In(h, i, r) && h.blocks[i].free && h.blocks[i].lg >= lg
  {
    i := OwnerOf(h, r);
    if h.blocks[i].lg < lg {
      SmallBlockInsideRun(h, i, r, r, lg);
      NoSmallBlockInFreeRun(h, r, lg, i);
    }
  }

  /** A free block of h1 is also a free block, of the same size, of any
      canonical heap with the same allocations. */
  lemma FreeBlockShared(h1: Heap, h2: Heap, i: nat)
    requires Partition(h1) && Canonical(h1) && Partition(h2) && Canonical(h2)
    requires h1.n == h2.n && Allocated(h1) == Allocated(h2)
    requires i in h1.blocks && h1.blocks[i].free
    ensures i in h2.blocks && h2.blocks[i] == h1.blocks[i]
  {
    var k := h1.blocks[i].lg;
    FreeRunCarries(h1, h2, i);
    var j := FreeRunInOneBlock(h2, i, k);
    FreeRunCarries(h2, h1, j);
    var m := h2.blocks[j].lg;
    var i' := FreeRunInOneBlock(h1, j, m);
    // i' holds j's whole block, hence i
    SmallBlockInsideRunSelf(h2, j, i, h1, i');
    assert In(h1, i', i) && In(h1, i, i);
  }

  /** Helper: the run of block j of h2 starts at j; block i' of h1, which holds
      atom j and is at least as large, holds all of it. */
  lemma SmallBlockInsideRunSelf(h2: Heap, j: nat, a: nat, h1: Heap, i': nat)
    requires Shaped(h1) && Shaped(h2) && In(h2, j, a) && In(h1, i', j)
    requires h1.blocks[i'].lg >= h2.blocks[j].lg
    ensures In(h1, i', a) && i' <= j
  {
    var m := h2.blocks[j].lg;
    var k := h1.blocks[i'].lg;
    AlignedStep(i', k);
    AlignedWeaken(i' + Pow(k), k, m);
    AlignedGap(j, i' + Pow(k), m);
  }

  /** The atoms of a free block are free in every heap with the same allocations. */
  lemma FreeRunCarries(h1: Heap, h2: Heap, i: nat)
    requires Partition(h1) && Partition(h2) && h1.n == h2.n && Allocated(h1) == Allocated(h2)
    requires i in h1.blocks && h1.blocks[i].free
    ensures FreeRun(h2, i, h1.blocks[i].lg)
  {
    forall j, a | i <= a < i + Pow(h1.blocks[i].lg) && In(h2, j, a)
      ensures h2.blocks[j].free
    {
      if !h2.blocks[j].free {
        assert j in Allocated(h2);
        assert j in Allocated(h1) && Allocated(h1)[j] == h2.blocks[j].lg;
        assert In(h1, j, a) && In(h1, i, a);
        assert false;
      }
    }
  }

  /** History independence: a canonical heap is determined by its outstanding
      allocations alone, whatever calls led to it and in whatever order. */
  lemma CanonicalHeapUnique(h1: Heap, h2: Heap)
    requires Partition(h1) && Canonical(h1) && Partition(h2) && Canonical(h2)
    requires h1.n == h2.n && Allocated(h1) == Allocated(h2)
    ensures h1 == h2
  {
    BlocksIncluded(h1, h2);
    BlocksIncluded(h2, h1);
    assert h1.blocks == h2.blocks;
  }

  lemma BlocksIncluded(h1: Heap, h2: Heap)
    requires Partition(h1) && Canonical(h1) && Partition(h2) && Canonical(h2)
    requires h1.n == h2.n && Allocated(h1) == Allocated(h2)
    ensures forall i | i in h1.blocks :: i in h2.blocks && h2.blocks[i] == h1.blocks[i]
  {
    forall i | i in h1.blocks
      ensures i in h2.blocks && h2.blocks[i] == h1.blocks[i]
    {
      if h1.blocks[i].free {
        FreeBlockShared(h1, h2, i);
      } else {
        assert i in Allocated(h1);
        assert i in Allocated(h2) && Allocated(h2)[i] == h1.blocks[i].lg;
      }
    }
  }

  // ---- the three ways the allocator changes the heap ----

  /** Take block i out of the free set without changing the tiling. */
  ghost function Hold(h: Heap, i: nat): Heap
    requires i in h.blocks
  {
    h.(blocks := h.blocks[i := Block(h.blocks[i].lg, false)])
  }

  /** Return block i to the free set. */
  ghost function Release(h: Heap, i: nat): Heap
    requires i in h.blocks
  {
    h.(blocks := h.blocks[i := Block(h.blocks[i].lg, true)])
  }

  /** Split the held block i into two held halves of size 2^k. */
  ghost function Split(h: Heap, i: nat, k: nat): Heap {
    h.(blocks := h.blocks[i := Block(k, false)][i + Pow(k) := Block(k, false)])
  }

  /** Fuse the two held halves of the pair at base lo into one held block. */
  ghost function Merge(h: Heap, lo: nat, k: nat): Heap {
    h.(blocks := (h.blocks - {lo + Pow(k)})[lo := Block(k + 1, false)])
  }

  /** Atom a belongs to the checked-out block headed by i. */
  ghost predicate Used(alloc: map<nat, nat>, i: nat, a: nat) {
    i in alloc && i <= a < i + Pow(alloc[i])
  }

  lemma SameTiling(h: Heap, h': Heap)
    requires Partition(h) && h'.n == h.n && h'.blocks.Keys == h.blocks.Keys
    requires forall i | i in h.blocks :: h'.blocks[i].lg == h.blocks[i].lg
    ensures Partition(h')
  {
    forall a: nat | a < h'.n ensures Covered(h', a) {
      var i := OwnerOf(h, a);
      assert In(h', i, a);
    }
    forall i, j, a | In(h', i, a) && In(h', j, a) ensures i == j {
      assert In(h, i, a) && In(h, j, a);
    }
  }

  lemma HoldKeeps(h: Heap, i: nat)
    requires Partition(h) && Canonical(h) && i in h.blocks
    ensures Partition(Hold(h, i)) && Canonical(Hold(h, i))
    ensures Allocated(Hold(h, i)) == Allocated(h)[i := h.blocks[i].lg]
  {
    var h' := Hold(h, i);
    SameTiling(h, h');
    forall j, k | FreeAt(h', j, k) ensures !FreeAt(h', Buddy(j, k), k) {
      assert FreeAt(h, j, k);
    }
  }

  lemma ReleaseKeeps(h: Heap, i: nat)
    requires Partition(h) && Canonical(h) && i in h.blocks
    requires !FreeAt(h, Buddy(i, h.blocks[i].lg), h.blocks[i].lg)
    ensures Partition(Release(h, i)) && Canonical(Release(h, i))
    ensures Allocated(Release(h, i)) == Allocated(h) - {i}
  {
    var h' := Release(h, i);
    SameTiling(h, h');
    BuddyPair(i, h.blocks[i].lg);
    PowMonotone(0, h.blocks[i].lg);
    forall j, k | FreeAt(h', j, k) ensures !FreeAt(h', Buddy(j, k), k) {
      assert j != i ==> FreeAt(h, j, k);
      BuddyPair(j, k);
    }
  }

  lemma SplitIn(h: Heap, i: nat, k: nat, x: nat, a: nat)
    requires i in h.blocks && h.blocks[i].lg == k + 1 && i + Pow(k) !in h.blocks
    ensures In(Split(h, i, k), x, a) ==> In(h, if x == i + Pow(k) then i else x, a)
    ensures In(Split(h, i, k), i, a) ==> a < i + Pow(k)
    ensures In(Split(h, i, k), i + Pow(k), a) ==> i + Pow(k) <= a
    ensures In(h, x, a) ==> In(Split(h, i, k), if x == i && a >= i + Pow(k) then i + Pow(k) else x, a)
  {
  }

  lemma SplitKeepsPartition(h: Heap, i: nat, k: nat)
    requires Partition(h) && i in h.blocks && h.blocks[i].lg == k + 1
    ensures Partition(Split(h, i, k))
    ensures i + Pow(k) !in h.blocks
  {
    var u := i + Pow(k);
    var h' := Split(h, i, k);
    assert In(h, i, u);
    assert u in h.blocks ==> In(h, u, u);
    BaseBuddyAbove(i, k);
    AlignedStep(i, k);
    forall a: nat | a < h'.n ensures Covered(h', a) {
      var o := OwnerOf(h, a);
      SplitIn(h, i, k, o, a);
    }
    forall x, y, a | In(h', x, a) && In(h', y, a) ensures x == y {
      SplitIn(h, i, k, x, a);
      SplitIn(h, i, k, y, a);
    }
  }

  lemma SplitKeepsCanonical(h: Heap, i: nat, k: nat)
    requires Canonical(h) && i in h.blocks && !h.blocks[i].free && i + Pow(k) !in h.blocks
    ensures Canonical(Split(h, i, k))
  {
    var h' := Split(h, i, k);
    forall j, m | FreeAt(h', j, m) ensures !FreeAt(h', Buddy(j, m), m) {
      assert FreeAt(h, j, m);
    }
  }

  lemma SplitKeeps(h: Heap, i: nat, k: nat)
    requires Partition(h) && Canonical(h) && i in h.blocks && h.blocks[i] == Block(k + 1, false)
    ensures Partition(Split(h, i, k)) && Canonical(Split(h, i, k))
    ensures i + Pow(k) !in h.blocks && i + Pow(k) < h.n && Buddy(i + Pow(k), k) == i
    ensures Allocated(Split(h, i, k)) == Allocated(h)[i := k][i + Pow(k) := k]
  {
    SplitKeepsPartition(h, i, k);
    BaseBuddyAbove(i, k);
    BuddyPair(i, k);
    hide Covers, Disjoint, Canonical, Buddy;
    SplitKeepsCanonical(h, i, k);
  }

  /** lo is the base of a pair of equal held blocks. */
  ghost predicate Mergeable(h: Heap, lo: nat, k: nat) {
    && Aligned(lo, k + 1) && k < LOGMAX
    && lo in h.blocks && h.blocks[lo] == Block(k, false)
    && lo + Pow(k) in h.blocks && h.blocks[lo + Pow(k)] == Block(k, false)
  }

  /** Two held buddies of one size can be merged. */
  lemma BuddiesMerge(h: Heap, i: nat, b: nat, k: nat)
    requires Shaped(h) && k < LOGMAX && i in h.blocks && b in h.blocks && b == Buddy(i, k)
    requires h.blocks[i] == Block(k, false) && h.blocks[b] == Block(k, false)
    ensures b != i && Mergeable(h, if b < i then b else i, k)
    ensures (if b < i then b else i) + Pow(k) == if b < i then i else b
  {
    BuddyPair(i, k);
  }

  lemma MergeIn(h: Heap, lo: nat, k: nat, x: nat, a: nat)
    requires lo in h.blocks && h.blocks[lo].lg == k
    requires lo + Pow(k) in h.blocks && h.blocks[lo + Pow(k)].lg == k
    ensures In(h, x, a) ==> In(Merge(h, lo, k), if x == lo + Pow(k) then lo else x, a)
    ensures In(Merge(h, lo, k), x, a) ==> In(h, x, a) || (x == lo && In(h, lo + Pow(k), a))
  {
  }

  lemma MergeKeepsPartition(h: Heap, lo: nat, k: nat)
    requires Partition(h) && Mergeable(h, lo, k)
    ensures Partition(Merge(h, lo, k))
  {
    var h' := Merge(h, lo, k);
    forall a: nat | a < h'.n ensures Covered(h', a) {
      var o := OwnerOf(h, a);
      MergeIn(h, lo, k, o, a);
    }
    forall x, y, a | In(h', x, a) && In(h', y, a) ensures x == y {
      MergeIn(h, lo, k, x, a);
      MergeIn(h, lo, k, y, a);
    }
  }

  lemma MergeKeeps(h: Heap, lo: nat, k: nat)
    requires Partition(h) && Canonical(h) && Mergeable(h, lo, k)
    ensures Partition(Merge(h, lo, k)) && Canonical(Merge(h, lo, k))
    ensures Allocated(Merge(h, lo, k)) == (Allocated(h) - {lo + Pow(k)})[lo := k + 1]
  {
    MergeKeepsPartition(h, lo, k);
    var h' := Merge(h, lo, k);
    forall j, m | FreeAt(h', j, m) ensures !FreeAt(h', Buddy(j, m), m) {
      assert FreeAt(h, j, m);
    }
  }

  // ---- the heap that initialisation builds ----

  /** The binary decomposition of [off, n): at each size below 2^cnt, largest
      first, one block if it still fits. */
  function Greedy(off: nat, cnt: nat, n: nat): map<nat, Block>
    decreases cnt
  {
    if cnt == 0 then map[]
    else if off + Pow(cnt - 1) <= n then
      map[off := Block(cnt - 1, true)] + Greedy(off + Pow(cnt - 1), cnt - 1, n)
    else Greedy(off, cnt - 1, n)
  }

  /** All blocks are free, larger than 2^cnt or equal, and of different sizes. */
  ghost predicate FreeAndDistinct(h: Heap, cnt: nat) {
    && (forall i | i in h.blocks :: h.blocks[i].free && h.blocks[i].lg >= cnt)
    && (forall i, j | i in h.blocks && j in h.blocks && h.blocks[i].lg == h.blocks[j].lg :: i == j)
  }

  ghost function Append(h: Heap, k: nat): Heap {
    Heap(h.n + Pow(k), h.blocks[h.n := Block(k, true)])
  }

  lemma AppendKeeps(h: Heap, k: nat)
    requires Partition(h) && FreeAndDistinct(h, k + 1) && Aligned(h.n, k + 1) && k <= LOGMAX
    ensures Partition(Append(h, k)) && FreeAndDistinct(Append(h, k), k)
    ensures Aligned(h.n, k) && Aligned(h.n + Pow(k), k) && h.n !in h.blocks
  {
    var h' := Append(h, k);
    BaseBuddyAbove(h.n, k);
    AlignedStep(h.n, k);
    assert h.n !in h.blocks;
    forall a: nat | a < h'.n ensures Covered(h', a) {
      if a < h.n {
        var o := OwnerOf(h, a);
        assert In(h', o, a);
      } else {
        assert In(h', h.n, a);
      }
    }
    forall x, y, a | In(h', x, a) && In(h', y, a) ensures x == y {
      assert x != h.n ==> In(h, x, a);
      assert y != h.n ==> In(h, y, a);
    }
  }

  lemma DistinctIsCanonical(h: Heap, cnt: nat)
    requires FreeAndDistinct(h, cnt)
    ensures Canonical(h)
  {
    forall i, k | FreeAt(h, i, k) ensures !FreeAt(h, Buddy(i, k), k) {
      PowMonotone(0, k);
    }
  }

  lemma {:induction false} ZeroAligned(k: nat)
    ensures Aligned(0, k)
  {
    if k > 0 {
      ZeroAligned(k - 1);
    }
  }

  /** The decomposition of [off, n) has no head below off. */
  lemma {:induction false} GreedyAbove(off: nat, cnt: nat, n: nat)
    ensures forall i | i in Greedy(off, cnt, n) :: off <= i < n
    decreases cnt
  {
    if cnt > 0 {
      GreedyAbove(off, cnt - 1, n);
      GreedyAbove(off + Pow(cnt - 1), cnt - 1, n);
    }
  }

  /** Halfway through building the decomposition of [0, n): [0, h.n) is tiled
      by free blocks of different sizes, and what is left is less than 2^cnt. */
  ghost predicate Growing(h: Heap, cnt: nat, n: nat, target: map<nat, Block>) {
    && Partition(h) && FreeAndDistinct(h, cnt) && Aligned(h.n, cnt)
    && h.n <= n < h.n + Pow(cnt)
    && target == h.blocks + Greedy(h.n, cnt, n)
  }

  lemma GrowingStarts(n: nat)
    requires n < 0x8000_0000
    ensures Growing(Heap(0, map[]), LOGMAX + 1, n, Greedy(0, LOGMAX + 1, n))
  {
    ZeroAligned(LOGMAX + 1);
    Pow30();
    assert Pow(LOGMAX + 1) == 2 * Pow(LOGMAX);
  }

  lemma GreedyTakes(off: nat, k: nat, n: nat)
    requires off + Pow(k) <= n
    ensures Greedy(off, k + 1, n) == map[off := Block(k, true)] + Greedy(off + Pow(k), k, n)
    ensures Pow(k + 1) == 2 * Pow(k)
    ensures off !in Greedy(off + Pow(k), k, n)
  {
    GreedyAbove(off + Pow(k), k, n);
  }

  lemma MapsJoin(m: map<nat, Block>, rest: map<nat, Block>, i: nat, b: Block)
    requires i !in rest
    ensures m + (map[i := b] + rest) == m[i := b] + rest
  {
  }

  lemma GrowingTakes(h: Heap, k: nat, n: nat, target: map<nat, Block>)
    requires Growing(h, k + 1, n, target) && k <= LOGMAX && h.n + Pow(k) <= n
    ensures Growing(Append(h, k), k, n, target) && h.n !in h.blocks
  {
    hide Partition, FreeAndDistinct, Aligned, Greedy, Pow;
    AppendKeeps(h, k);
    GreedyTakes(h.n, k, n);
    MapsJoin(h.blocks, Greedy(h.n + Pow(k), k, n), h.n, Block(k, true));
  }

  lemma GrowingSkips(h: Heap, k: nat, n: nat, target: map<nat, Block>)
    requires Growing(h, k + 1, n, target) && k <= LOGMAX && h.n + Pow(k) > n
    ensures Growing(h, k, n, target)
  {
    AlignedWeaken(h.n, k + 1, k);
  }

  lemma GrowingStep(h: Heap, k: nat, n: nat, target: map<nat, Block>)
    requires Growing(h, k + 1, n, target) && k <= LOGMAX
    ensures h.n + Pow(k) <= n ==> Growing(Append(h, k), k, n, target) && h.n !in h.blocks
    ensures h.n + Pow(k) > n ==> Growing(h, k, n, target)
  {
    hide Growing, Append;
    if h.n + Pow(k) <= n {
      GrowingTakes(h, k, n, target);
    } else {
      GrowingSkips(h, k, n, target);
    }
  }

  lemma GrowingEnds(h: Heap, n: nat, target: map<nat, Block>)
    requires Growing(h, 0, n, target)
    ensures h == Heap(n, target) && Partition(h) && Canonical(h) && Allocated(h) == map[]
  {
    assert h.blocks + Greedy(h.n, 0, n) == h.blocks;
    DistinctIsCanonical(h, 0);
  }

  /** The binary decomposition is a canonical heap with nothing checked out. */
  lemma {:induction false} GreedyIsCanonical(h: Heap, cnt: nat, n: nat, target: map<nat, Block>)
    requires Growing(h, cnt, n, target) && cnt <= LOGMAX + 1
    ensures Partition(Heap(n, target)) && Canonical(Heap(n, target)) && Allocated(Heap(n, target)) == map[]
    decreases cnt
  {
    hide Growing, Partition, Canonical, Allocated;
    if cnt == 0 {
      GrowingEnds(h, n, target);
    } else {
      GrowingStep(h, cnt - 1, n, target);
      GreedyIsCanonical(if h.n + Pow(cnt - 1) <= n then Append(h, cnt - 1) else h, cnt - 1, n, target);
    }
  }

  /** Once every allocation has been freed, in any order, the free blocks are
      exactly those that initialisation built. */
  lemma AllFreedIsInitial(h: Heap)
    requires Partition(h) && Canonical(h) && h.n < 0x8000_0000
    requires Allocated(h) == map[]
    ensures h.blocks == Greedy(0, LOGMAX + 1, h.n)
  {
    var target := Greedy(0, LOGMAX + 1, h.n);
    GrowingStarts(h.n);
    GreedyIsCanonical(Heap(0, map[]), LOGMAX + 1, h.n, target);
    CanonicalHeapUnique(h, Heap(h.n, target));
  }
}
