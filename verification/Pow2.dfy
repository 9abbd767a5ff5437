// Powers of two, shifts and natural alignment.  Everything is defined by
// halving, so that proofs never need non-linear arithmetic.
module Pow2 {

  /** The value of the C expression 1 << k. */
  function Pow(k: nat): (r: nat)
    ensures r >= 1
  {
    if k == 0 then 1 else 2 * Pow(k - 1)
  }

  /** The value of the C expression i >> k for a non-negative i. */
  function ShiftRight(i: nat, k: nat): nat {
    if k == 0 then i else ShiftRight(i / 2, k - 1)
  }

  /** i is a multiple of 1 << k. */
  predicate Aligned(i: nat, k: nat) {
    k == 0 || (i % 2 == 0 && Aligned(i / 2, k - 1))
  }

  lemma {:induction false} PowMonotone(j: nat, k: nat)
    requires j <= k
    ensures Pow(j) <= Pow(k)
    ensures j < k ==> 2 * Pow(j) <= Pow(k)
  {
    if j < k {
      PowMonotone(j, k - 1);
    }
  }

  lemma {:induction false} PowAdd(j: nat, k: nat)
    ensures Pow(j + k) == Pow(j) * Pow(k)
  {
    if j > 0 {
      PowAdd(j - 1, k);
    }
  }

  lemma {:induction false} MulDiv(i: nat, s: nat)
    requires s > 0
    ensures (i * s) / s == i
  {
    var q := (i * s) / s;
    var r := (i * s) % s;
    assert i * s == s * q + r;
    assert s * (i - q) == i * s - s * q;
    MulStep(i - q, s);
  }

  lemma MulStep(d: int, s: int)
    requires s > 0
    ensures d > 0 ==> s * d >= s
    ensures d < 0 ==> s * d <= -s
  {
  }

  /** The largest power of two that a signed 32-bit int holds. */
  lemma Pow30()
    ensures Pow(30) == 0x4000_0000
  {
    assert Pow(5) == 32;
    PowAdd(5, 5);
    PowAdd(10, 10);
    PowAdd(10, 20);
  }

  lemma {:induction false} MultipleIsAligned(q: nat, k: nat)
    ensures Aligned(q * Pow(k), k)
  {
    if k > 0 {
      var half := q * Pow(k - 1);
      assert q * Pow(k) == 2 * half;
      MultipleIsAligned(q, k - 1);
    }
  }

  lemma {:induction false} AlignedIsMultiple(i: nat, k: nat) returns (q: nat)
    requires Aligned(i, k)
    ensures i == q * Pow(k)
  {
    if k == 0 {
      q := i;
    } else {
      q := AlignedIsMultiple(i / 2, k - 1);
      assert q * Pow(k) == 2 * (q * Pow(k - 1));
    }
  }

  /** A coarser alignment implies every finer one. */
  lemma {:induction false} AlignedWeaken(i: nat, k: nat, j: nat)
    requires Aligned(i, k) && j <= k
    ensures Aligned(i, j)
  {
    if j > 0 {
      AlignedWeaken(i / 2, k - 1, j - 1);
    }
  }

  /** Two different multiples of 1 << k are at least 1 << k apart. */
  lemma {:induction false} AlignedGap(i: nat, j: nat, k: nat)
    requires Aligned(i, k) && Aligned(j, k) && i < j
    ensures i + Pow(k) <= j
  {
    if k > 0 {
      AlignedGap(i / 2, j / 2, k - 1);
    }
  }

  /** Moving an aligned position by its own grain keeps it aligned. */
  lemma {:induction false} AlignedStep(i: nat, k: nat)
    requires Aligned(i, k)
    ensures Aligned(i + Pow(k), k)
    ensures i >= Pow(k) ==> Aligned(i - Pow(k), k)
  {
    if k > 0 {
      AlignedStep(i / 2, k - 1);
      assert (i + Pow(k)) / 2 == i / 2 + Pow(k - 1);
      if i >= Pow(k) {
        assert (i - Pow(k)) / 2 == i / 2 - Pow(k - 1);
      }
    }
  }

  /** Where the other half of an aligned pair lies, decided by one bit. */
  function Buddy(i: nat, k: nat): int {
    if ShiftRight(i, k) % 2 == 1 then i - Pow(k) else i + Pow(k)
  }

  /** The lower half of the pair that i belongs to at grain 1 << k. */
  function PairBase(i: nat, k: nat): int {
    if ShiftRight(i, k) % 2 == 1 then i - Pow(k) else i
  }

  lemma BuddyHalves(i: nat, k: nat)
    requires k > 0 && i % 2 == 0
    ensures Buddy(i, k) == 2 * Buddy(i / 2, k - 1)
    ensures PairBase(i, k) == 2 * PairBase(i / 2, k - 1)
  {
  }

  /** The pair of an aligned i starts at a multiple of the double grain, and
      taking the buddy twice is the identity. */
  lemma {:induction false} BuddyPair(i: nat, k: nat)
    requires Aligned(i, k)
    ensures Buddy(i, k) >= 0 && Aligned(Buddy(i, k), k)
    ensures PairBase(i, k) >= 0 && Aligned(PairBase(i, k), k + 1)
    ensures PairBase(Buddy(i, k), k) == PairBase(i, k)
    ensures Buddy(Buddy(i, k), k) == i
  {
    if k > 0 {
      BuddyPair(i / 2, k - 1);
      BuddyHalves(i, k);
      BuddyHalves(Buddy(i, k), k);
    } else {
      assert Aligned(PairBase(i, 0) / 2, 0);
    }
  }

  /** At the base of a pair the bit is clear, so the buddy lies above. */
  lemma {:induction false} BaseBuddyAbove(i: nat, k: nat)
    requires Aligned(i, k + 1)
    ensures Aligned(i, k) && Buddy(i, k) == i + Pow(k) && PairBase(i, k) == i
  {
    if k > 0 {
      BaseBuddyAbove(i / 2, k - 1);
    } else {
      assert Aligned(i, 1);
    }
  }

  /** Scaling by 1 << m raises the alignment by m. */
  lemma {:induction false} AlignedScale(i: nat, k: nat, m: nat)
    requires Aligned(i, k)
    ensures Aligned(i * Pow(m), k + m)
  {
    var q := AlignedIsMultiple(i, k);
    PowAdd(k, m);
    assert i * Pow(m) == (q * Pow(k)) * Pow(m) == q * (Pow(k) * Pow(m)) by {
      MulAssociates(q, Pow(k), Pow(m));
    }
    MultipleIsAligned(q, k + m);
  }

  lemma MulAssociates(a: nat, b: nat, c: nat)
    ensures (a * b) * c == a * (b * c)
  {
  }

  /** A block of 1 << k atoms of 1 << m bytes, if it is at least 4096 bytes
      long, starts at a multiple of 4096 and is a multiple of 4096 long. */
  lemma ScaledPages(i: nat, k: nat, m: nat) returns (q: nat, c: nat)
    requires Aligned(i, k) && Pow(k) * Pow(m) >= 4096
    ensures i * Pow(m) == q * 4096 && Pow(k) * Pow(m) == c * 4096
  {
    PowAdd(k, m);
    assert Pow(6) == 64;
    PowAdd(6, 6);
    if k + m < 12 { PowMonotone(k + m, 12); }
    AlignedScale(i, k, m);
    AlignedWeaken(i * Pow(m), k + m, 12);
    q := AlignedIsMultiple(i * Pow(m), 12);
    c := Pow(k + m - 12);
    PowAdd(k + m - 12, 12);
  }

  lemma MulMonotone(a: nat, b: nat, s: nat)
    requires a <= b
    ensures a * s <= b * s
  {
  }

  lemma MulDistributes(a: nat, b: nat, s: nat)
    ensures (a + b) * s == a * s + b * s
  {
  }

  lemma PowTimesMonotone(j: nat, k: nat, s: nat)
    ensures j <= k ==> Pow(j) * s <= Pow(k) * s
  {
    if j <= k {
      PowMonotone(j, k);
      MulMonotone(Pow(j), Pow(k), s);
    }
  }

  /** A run of whole pages that meets a page contains it. */
  lemma PageInside(start: nat, size: nat, q: nat, c: nat, page: nat, x: nat, y: nat)
    requires start == q * 4096 && size == c * 4096 && start <= x < start + size
    requires page * 4096 <= x < (page + 1) * 4096 && page * 4096 <= y < (page + 1) * 4096
    ensures start <= y < start + size
  {
  }
}
