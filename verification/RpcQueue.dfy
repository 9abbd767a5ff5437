// The bounded ring of requests, whose front and rear are 32-bit signed counters
// that only grow.
module RpcQueue {
  import opened Options
  import opened Ring
  import opened Words

  const QUEUE_SIZE := 1024
  const INT_MAX := 0x7fff_ffff

  /** The remainder of a division that truncates toward zero. */
  function Remainder(x: int, n: int): int
    requires n > 0
  {
    if x >= 0 then x % n else -((-x) % n)
  }

  /** The index that the ring computes for its n-th entry. */
  function RingIndex(n: int): int { Remainder(Int32(n), QUEUE_SIZE) }

  lemma SameRemainder(n: nat)
    ensures (n % 0x1_0000_0000) % QUEUE_SIZE == n % QUEUE_SIZE
  {
    var k := n / 0x1_0000_0000;
    assert n == k * 0x1_0000_0000 + n % 0x1_0000_0000;
    assert k * 0x1_0000_0000 == (k * 0x40_0000) * 1024;
    ModAdds(n % 0x1_0000_0000, k * 0x40_0000);
  }

  lemma ModAdds(x: nat, k: nat)
    ensures (k * 1024 + x) % 1024 == x % 1024
  {
    var q, r := x / 1024, x % 1024;
    assert k * 1024 + x == (k + q) * 1024 + r;
  }

  /** The index is in the ring, and the right one, exactly while the counter is
      in the non-negative half of its range, or at a multiple of the ring's size:
      the first entry that goes wrong is number 2^31 + 1. */
  lemma IndexExact(n: nat)
    ensures 0 <= RingIndex(n) < QUEUE_SIZE <==> n % 0x1_0000_0000 <= INT_MAX || n % QUEUE_SIZE == 0
    ensures 0 <= RingIndex(n) < QUEUE_SIZE ==> RingIndex(n) == n % QUEUE_SIZE
  {
    hide Int32;
    SameRemainder(n);
    WrapIs(n);
    var m := n % 0x1_0000_0000;
    if m > INT_MAX {
      NegativeIndex(m);
    }
  }

  lemma WrapIs(n: nat)
    ensures var m := n % 0x1_0000_0000;
            Int32(n) == if m <= INT_MAX then m else m - 0x1_0000_0000
  {
    var k, m := n / 0x1_0000_0000, n % 0x1_0000_0000;
    assert n + 0x8000_0000 == k * 0x1_0000_0000 + (m + 0x8000_0000);
    if m > INT_MAX {
      assert n + 0x8000_0000 == (k + 1) * 0x1_0000_0000 + (m - 0x8000_0000);
    }
  }

  /** A negative counter gives the right index, zero, only at a multiple of the size. */
  lemma NegativeIndex(m: nat)
    requires INT_MAX < m < 0x1_0000_0000
    ensures Remainder(m - 0x1_0000_0000, QUEUE_SIZE) <= 0
    ensures Remainder(m - 0x1_0000_0000, QUEUE_SIZE) == 0 <==> m % QUEUE_SIZE == 0
  {
    var k, x := m / 1024, m % 1024;
    if x == 0 {
      ModAdds(0, 0x40_0000 - k);
    } else {
      ModAdds(1024 - x, 0x40_0000 - k - 1);
    }
  }

  lemma FirstBadEntry()
    ensures RingIndex(0x8000_0001) < 0
    ensures forall n | 0 <= n <= 0x8000_0000 :: 0 <= RingIndex(n) < QUEUE_SIZE
  {
    forall n | 0 <= n <= 0x8000_0000 ensures 0 <= RingIndex(n) < QUEUE_SIZE {
      IndexExact(n);
    }
  }

  /** The entry with the given number goes into the array. */
  predicate InRing(n: nat) { 0 <= RingIndex(n) < QUEUE_SIZE }

  /** What has become of a request: it is on the ring; or the program has aborted,
      because the ring was full; or the write went outside the array. */
  datatype Put = Queued | Full | Stray

  lemma WrapOf(n: int) returns (k: int)
    ensures Int32(n) == n - k * TWO32
  {
    k := (n + 0x8000_0000) / TWO32;
  }

  /** Counters that wrap still have the right difference, and successors. */
  lemma WrappedDifference(rear: int, front: int)
    requires 0 <= rear - front <= QUEUE_SIZE
    ensures Int32(Int32(rear) - Int32(front)) == rear - front
  {
    var k := WrapOf(rear);
    var l := WrapOf(front);
    Int32Is(Int32(rear) - Int32(front), l - k, rear - front);
  }

  lemma WrappedNext(n: int)
    ensures Int32(Int32(n) + 1) == Int32(n + 1)
  {
    var k := WrapOf(n);
    var d := n + 1 + 0x8000_0000;
    DivUnique(d, TWO32, d / TWO32, d % TWO32);
    DivUnique(Int32(n) + 1 + 0x8000_0000, TWO32, d / TWO32 - k, d % TWO32);
  }

  class Queue {
    var front: int
    var rear: int
    const q: array<nat>      // addresses of requests, 0 for none
    ghost var taken: nat     // the counters without wrapping
    ghost var put: nat

    ghost predicate Valid()
      reads this, q
    {
      && q.Length == QUEUE_SIZE && taken <= put <= taken + QUEUE_SIZE
      && front == Int32(taken) && rear == Int32(put)
      && forall n | taken <= n < put :: InRing(n)
    }

    /** The requests, oldest first. */
    ghost function Contents(): seq<nat>
      requires Valid()
      reads this, q
    {
      Window(q[..], taken, put)
    }

    constructor ()
      ensures Valid() && fresh(q) && Contents() == [] && put == 0
    {
      var a := new nat[QUEUE_SIZE](_ => 0);
      q := a;
      front, rear, taken, put := 0, 0, 0, 0;
    }

    /** The program aborts exactly when the ring is full.  Otherwise the request is
        appended, unless the counter has become one whose index is negative. */
    method Enqueue(elem: nat) returns (r: Put)
      requires Valid()
      modifies this, q
      ensures Valid()
      ensures r.Full? <==> |old(Contents())| == QUEUE_SIZE
      ensures r.Stray? <==> |old(Contents())| < QUEUE_SIZE && !InRing(old(put))
      ensures Contents() == if r.Queued? then old(Contents()) + [elem] else old(Contents())
      ensures put == if r.Queued? then old(put) + 1 else old(put)
    {
      hide Int32, Remainder;
      WrappedDifference(put, taken);
      WrappedNext(put);
      if Int32(rear - front) == QUEUE_SIZE {
        return Full;
      }
      var i := Remainder(rear, QUEUE_SIZE);
      if !(0 <= i < QUEUE_SIZE) {
        return Stray;
      }
      IndexExact(put);
      WindowPush(q[..], taken, put, elem);
      ghost var was := q[..];
      q[i] := elem;
      assert q[..] == was[put % QUEUE_SIZE := elem];
      rear := Int32(rear + 1);
      put := put + 1;
      return Queued;
    }

    /** None stands for NULL: the ring is empty. */
    method Dequeue() returns (r: Option<nat>)
      requires Valid()
      modifies this
      ensures Valid() && put == old(put) && (r.None? <==> old(Contents()) == [])
      ensures if r.Some? then old(Contents()) == [r.value] + Contents() else Contents() == old(Contents())
    {
      hide Int32, Remainder;
      SameCounter();
      if front == rear {
        return None;
      }
      assert InRing(taken);
      IndexExact(taken);
      WrappedNext(taken);
      WindowPop(q[..], taken, put);
      r := Some(q[Remainder(front, QUEUE_SIZE)]);
      front := Int32(front + 1);
      taken := taken + 1;
    }

    /** The counters are equal only when the ring is empty. */
    lemma SameCounter()
      requires Valid()
      ensures front == rear <==> taken == put
    {
      WrappedDifference(put, taken);
    }
  }
}
