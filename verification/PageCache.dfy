// The page cache of the software virtual memory: the FIFO ring of pages that
// may be evicted, and the chained hash table of cached pages with its
// reference counts.
module PageCacheModel {
  import opened Chains
  import opened Options
  import opened Ring

  // ---- the FIFO ring ----

  class UsedPagesQueue {
    const size: nat
    var front: nat
    var rear: nat
    const q: array<int>

    ghost predicate Valid()
      reads this, q
    {
      size > 0 && q.Length == size && front <= rear <= front + size
    }

    ghost function Contents(): seq<int>
      reads this, q
      requires Valid()
    {
      Window(q[..], front, rear)
    }

    constructor (queueSize: nat)
      requires queueSize > 0
      ensures Valid() && fresh(q) && size == queueSize && Contents() == []
    {
      size := queueSize;
      var a := new int[queueSize](_ => -1);
      q := a;
      front, rear := 0, 0;
    }

    /** False stands for the failed assertion: the ring is full. */
    method Enqueue(elem: int) returns (ok: bool)
      requires Valid()
      modifies this, q
      ensures Valid()
      ensures ok == (|old(Contents())| < size)
      ensures Contents() == if ok then old(Contents()) + [elem] else old(Contents())
    {
      if rear - front == size {
        return false;
      }
      WindowPush(q[..], front, rear, elem);
      ghost var was := q[..];
      q[rear % size] := elem;
      assert q[..] == was[rear % size := elem];
      rear := rear + 1;
      return true;
    }

    /** None stands for the failed assertion: the ring is empty. */
    method Dequeue() returns (ok: bool, elem: int)
      requires Valid()
      modifies this
      ensures Valid()
      ensures ok == (old(Contents()) != [])
      ensures if ok then old(Contents()) == [elem] + Contents() else Contents() == old(Contents())
    {
      if front == rear {
        return false, -1;
      }
      WindowPop(q[..], front, rear);
      elem := q[front % size];
      front := front + 1;
      return true, elem;
    }
  }

  // ---- chains ----

  /** item_t: a cached page and the index of its entry in the frame table. */
  datatype Item = Item(page: int, epc: nat)

  function ItemPage(x: Item): int { x.page }

  /** The items that stand for a map from pages to frames. */
  ghost function Entries(cached: map<int, nat>): map<int, Item> {
    map p | p in cached :: Item(p, cached[p])
  }

  lemma EntriesAdd(cached: map<int, nat>, p: int, f: nat)
    ensures Entries(cached[p := f]) == Entries(cached)[p := Item(p, f)]
  {
  }

  lemma EntriesRemove(cached: map<int, nat>, p: int)
    ensures Entries(cached - {p}) == Entries(cached) - {p}
  {
  }

  // ---- eviction choice ----

  /** The queue after its k oldest pages have been put back at its end. */
  ghost function Rotation(queue: seq<int>, k: nat): (r: seq<int>)
    requires k <= |queue|
    ensures |r| == |queue|
  {
    queue[k..] + queue[..k]
  }

  /** The first page of the queue that is not pinned. */
  ghost predicate FirstUnpinned(queue: seq<int>, counts: seq<int>, j: nat) {
    && j < |queue| && 0 <= queue[j] < |counts| && counts[queue[j]] == 0
    && forall i | 0 <= i < j :: 0 <= queue[i] < |counts| && counts[queue[i]] > 0
  }

  class PageCache {
    const buckets: array<seq<Item>>
    const refCount: array<int>
    const usedPages: UsedPagesQueue
    var size: int
    ghost var cached: map<int, nat>
    ghost var hand: set<int>    // chosen for eviction and not yet removed

    ghost const Repr: set<object>

    /** Everything but what ties the ring to the table. */
    ghost predicate TableOk()
      reads this, Repr
      ensures TableOk() ==> this in Repr
    {
      && Repr == {this, buckets, refCount, usedPages, usedPages.q}
      && refCount != usedPages.q
      && buckets.Length > 0 && usedPages.Valid()
      && ChainsOk(buckets[..], Entries(cached), ItemPage)
      && size == |cached|
      && (forall p | 0 <= p < refCount.Length :: 0 <= refCount[p] < 256)
      && (forall p | p in cached :: p < refCount.Length)
    }

    ghost predicate Valid()
      reads this, Repr
      ensures Valid() ==> this in Repr
    {
      TableOk() && QueueOk(usedPages.Contents(), cached, hand)
    }

    /** The pages that may be evicted, oldest first. */
    ghost function Queue(): seq<int>
      requires TableOk()
      reads this, Repr
    {
      usedPages.Contents()
    }

    ghost function Counts(): seq<int>
      requires TableOk()
      reads this, Repr
    {
      refCount[..]
    }

    constructor (numOfBuckets: nat, backingStoreSize: nat, pageCacheSize: nat)
      requires numOfBuckets > 0 && pageCacheSize > 0
      ensures Valid() && fresh(Repr)
      ensures cached == map[] && hand == {} && Queue() == [] && usedPages.size == pageCacheSize
      ensures |Counts()| == backingStoreSize && forall p | 0 <= p < backingStoreSize :: Counts()[p] == 0
    {
      var b := new seq<Item>[numOfBuckets](_ => []);
      var r := new int[backingStoreSize](_ => 0);
      var u := new UsedPagesQueue(pageCacheSize);
      buckets, refCount, usedPages := b, r, u;
      size, cached, hand := 0, map[], {};
      Repr := {this, b, r, u, u.q};
    }

    method IncRefCount(p: nat)
      requires Valid() && p < |Counts()|
      modifies refCount
      ensures Valid() && Counts() == old(Counts()[p := (Counts()[p] + 1) % 256]) && Queue() == old(Queue())
    {
      refCount[p] := (refCount[p] + 1) % 256;
    }

    method DecRefCount(p: nat)
      requires Valid() && p < |Counts()|
      modifies refCount
      ensures Valid() && Counts() == old(Counts()[p := (Counts()[p] - 1) % 256]) && Queue() == old(Queue())
    {
      refCount[p] := (refCount[p] - 1) % 256;
    }

    /** The walk along the chain of p's bucket: the place of p, or the end. */
    method Find(p: nat) returns (i: nat)
      requires TableOk()
      ensures var chain := buckets[p % buckets.Length];
              if p in cached then i < |chain| && chain[i] == Item(p, cached[p]) else i == |chain|
    {
      var chain := buckets[p % buckets.Length];
      ChainFinds(buckets[..], Entries(cached), ItemPage, p);
      hide ChainsOk, QueueOk;
      i := 0;
      while i < |chain|
        invariant 0 <= i <= |chain|
        invariant forall j | 0 <= j < i :: chain[j].page != p
      {
        if chain[i].page == p {
          return;
        }
        i := i + 1;
      }
    }

    method GetInternal(p: nat) returns (r: Option<nat>)
      requires TableOk()
      ensures r == if p in cached then Some(cached[p]) else None
    {
      var i := Find(p);
      var chain := buckets[p % buckets.Length];
      return if i < |chain| then Some(chain[i].epc) else None;
    }

    /** The bucket lock is taken and given back around the walk. */
    method Get(p: nat) returns (r: Option<nat>)
      requires TableOk()
      ensures r == if p in cached then Some(cached[p]) else None
    {
      r := GetInternal(p);
    }

    /** False when the page is there already, with nothing changed. */
    method TryAdd(p: nat, f: nat) returns (ok: bool)
      requires Valid() && p < |Counts()| && |Queue()| < usedPages.size
      modifies this, buckets, usedPages, usedPages.q
      ensures Valid() && ok == (p !in old(cached))
      ensures cached == if ok then old(cached)[p := f] else old(cached)
      ensures Queue() == if ok then old(Queue()) + [p] else old(Queue())
      ensures hand == old(hand) && Counts() == old(Counts())
    {
      hide ChainsOk, QueueOk;
      var b := p % buckets.Length;
      var i := Find(p);
      if i < |buckets[b]| {
        return false;
      }
      ChainsAdd(buckets[..], Entries(cached), ItemPage, Item(p, f));
      EntriesAdd(cached, p, f);
      QueueAdd(usedPages.Contents(), cached, hand, p, f);
      ghost var was := buckets[..];
      buckets[b] := buckets[b] + [Item(p, f)];
      assert buckets[..] == was[b := was[b] + [Item(p, f)]];
      size := size + 1;
      var queued := usedPages.Enqueue(p);
      cached := cached[p := f];
      return true;
    }

    /** False stands for the failed assertion: the page is not cached. */
    method Remove(p: nat) returns (found: bool)
      requires Valid() && p !in Queue()
      modifies this, buckets
      ensures Valid() && found == (p in old(cached))
      ensures cached == old(cached) - {p} && hand == old(hand) - {p}
      ensures Queue() == old(Queue()) && Counts() == old(Counts())
    {
      hide ChainsOk, QueueOk;
      var b := p % buckets.Length;
      var i := Find(p);
      if i == |buckets[b]| {
        HandIsCached(usedPages.Contents(), cached, hand, p);
        return false;
      }
      ChainsRemove(buckets[..], Entries(cached), ItemPage, p, i);
      EntriesRemove(cached, p);
      QueueDrop(usedPages.Contents(), cached, hand, p);
      RemovedSize(cached, p);
      ghost var was := buckets[..];
      size := size - 1;
      buckets[b] := buckets[b][..i] + buckets[b][i + 1..];
      assert buckets[..] == was[b := was[b][..i] + was[b][i + 1..]];
      cached, hand := cached - {p}, hand - {p};
      return true;
    }

    method TakeOldest() returns (p: int)
      requires TableOk() && Queue() != []
      modifies usedPages
      ensures TableOk() && Counts() == old(Counts()) && old(Queue()) == [p] + Queue() && |Queue()| < usedPages.size
    {
      hide ChainsOk;
      ghost var table := buckets[..];
      var ok, elem := usedPages.Dequeue();
      assert buckets[..] == table;
      p := elem;
    }

    method PutBack(p: int)
      requires TableOk() && |Queue()| < usedPages.size
      modifies usedPages, usedPages.q
      ensures TableOk() && Counts() == old(Counts()) && Queue() == old(Queue()) + [p]
    {
      hide ChainsOk;
      ghost var table := buckets[..];
      var ok := usedPages.Enqueue(p);
      assert buckets[..] == table;
    }

    method TakeInHand(p: int) returns (item: Item)
      requires TableOk() && p in cached && p >= 0 && QueueOk(Queue(), cached, {p})
      modifies this
      ensures Valid() && Counts() == old(Counts()) && cached == old(cached) && Queue() == old(Queue())
      ensures hand == {p} && item == Item(p, cached[p])
    {
      hide ChainsOk, QueueOk;
      ghost var table := buckets[..];
      hand := {p};
      assert buckets[..] == table;
      var r := GetInternal(p);
      return Item(p, r.value);
    }

    /** Ends whenever some queued page is not pinned, with the first such page;
        the pinned pages before it go to the end of the queue in their order. */
    method PageIndexToEvict(ghost j: nat) returns (item: Item)
      requires Valid() && hand == {} && FirstUnpinned(Queue(), Counts(), j)
      modifies this, usedPages, usedPages.q
      ensures Valid() && Counts() == old(Counts()) && cached == old(cached)
      ensures item == Item(old(Queue()[j]), cached[old(Queue()[j])]) && hand == {item.page}
      ensures [item.page] + Queue() == old(Rotation(Queue(), j))
    {
      hide ChainsOk, QueueOk, PageCache.TableOk, Window, Rotation;
      ghost var was := Queue();
      ghost var k := 0;
      assert Rotation(was, 0) == was by { NoRotation(was); }
      while true
        invariant 0 <= k <= j && TableOk() && cached == old(cached) && Counts() == old(Counts())
        invariant Queue() == Rotation(was, k) && QueueOk(Queue(), cached, {})
        decreases j - k
      {
        var p := TakeOldest();
        Rotate(was, k, p, Queue());
        QueueTake(p, Queue(), cached);
        if refCount[p] > 0 {
          QueueReturn(p, Queue(), cached);
          PutBack(p);
          k := k + 1;
        } else {
          item := TakeInHand(p);
          return;
        }
      }
    }
  }

  /** The queue holds every cached page once, but for those in hand. */
  ghost predicate QueueOk(queue: seq<int>, cached: map<int, nat>, hand: set<int>) {
    && (forall i | 0 <= i < |queue| :: queue[i] in cached && queue[i] !in hand)
    && (forall i, j | 0 <= i < j < |queue| :: queue[i] != queue[j])
    && hand <= cached.Keys
    && (forall p | p in cached && p !in hand :: p in queue)
  }

  lemma RemovedSize(m: map<int, nat>, p: int)
    requires p in m
    ensures |m - {p}| == |m| - 1
  {
    assert (m - {p}).Keys == m.Keys - {p};
    assert |m.Keys| == |m| && |(m - {p}).Keys| == |m - {p}|;
  }

  lemma QueueAdd(queue: seq<int>, cached: map<int, nat>, hand: set<int>, p: int, f: nat)
    requires QueueOk(queue, cached, hand) && p !in cached
    ensures QueueOk(queue + [p], cached[p := f], hand)
  {
  }

  lemma HandIsCached(queue: seq<int>, cached: map<int, nat>, hand: set<int>, p: int)
    requires QueueOk(queue, cached, hand) && p !in cached
    ensures hand - {p} == hand && cached - {p} == cached
  {
  }

  lemma QueueDrop(queue: seq<int>, cached: map<int, nat>, hand: set<int>, p: int)
    requires QueueOk(queue, cached, hand) && p !in queue
    ensures QueueOk(queue, cached - {p}, hand - {p})
  {
  }

  /** Taking the oldest page in hand. */
  lemma QueueTake(p: int, rest: seq<int>, cached: map<int, nat>)
    requires QueueOk([p] + rest, cached, {})
    ensures QueueOk(rest, cached, {p}) && p in cached
  {
    var was := [p] + rest;
    assert was[0] == p;
    assert forall i | 0 <= i < |rest| :: rest[i] == was[i + 1];
    assert forall x | x in cached && x != p :: x in rest;
  }

  lemma QueueReturn(p: int, rest: seq<int>, cached: map<int, nat>)
    requires QueueOk(rest, cached, {p}) && p in cached
    ensures QueueOk(rest + [p], cached, {})
  {
  }

  lemma Rotate(queue: seq<int>, k: nat, p: int, rest: seq<int>)
    requires k < |queue| && Rotation(queue, k) == [p] + rest
    ensures p == queue[k] && rest + [p] == Rotation(queue, k + 1)
  {
    var w := queue[k + 1..] + queue[..k];
    assert queue[k..] + queue[..k] == [queue[k]] + w;
    assert rest == ([p] + rest)[1..] && w == ([queue[k]] + w)[1..];
    assert w + [queue[k]] == queue[k + 1..] + queue[..k + 1];
  }

  lemma NoRotation(queue: seq<int>)
    ensures Rotation(queue, 0) == queue
  {
  }
}
