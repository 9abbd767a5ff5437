// How many atoms the initialisation of memsys5 makes of a pool: the size is
// narrowed to an int and then divided as a size_t.
module Mem5Pool {
  import opened Words

  const HALF := 0x8000_0000

  /** mem5.nBlock, for a pool of pSize bytes. */
  function BlocksFor(pSize: nat, atom: nat): int {
    Int32(Size64(Int32(pSize)) / (atom + 1))
  }

  /** The atoms, with one control byte each, are in the pool, and the offsets of
      atoms are ints. */
  predicate Fits(pSize: nat, atom: nat) {
    var n := BlocksFor(pSize, atom);
    0 <= n && n * (atom + 1) <= pSize && n * atom < HALF
  }

  /** An atom and its control byte divide 2^32 - 1. */
  predicate Divides(atom: nat) { (TWO32 - 1) % (atom + 1) == 0 }

  lemma CountLow(pSize: nat, atom: nat)
    requires pSize % TWO32 < HALF
    ensures BlocksFor(pSize, atom) == (pSize % TWO32) / (atom + 1)
  {
    var m, d := pSize % TWO32, atom + 1;
    Int32Is(pSize, pSize / TWO32, m);
    DivUnique(m, TWO32 * TWO32, 0, m);
    var q := QuotientOf(m, d);
    Int32Is(q, 0, q);
  }

  lemma QuotientOf(m: nat, d: nat) returns (q: nat)
    requires d > 0
    ensures q == m / d && q * d <= m < q * d + d && q <= m
  {
    var k := Quotient(m, d);
    LessByProduct(-1, k, d);
    q := k;
    assert q * d == q + q * (d - 1);
    NotNegative(q, d - 1);
  }

  lemma Size64Negative(m: nat)
    requires HALF <= m < TWO32
    ensures Size64(m - TWO32) == TWO32 * (TWO32 - 1) + m
  {
    DivUnique(m - TWO32, TWO32 * TWO32, -1, TWO32 * (TWO32 - 1) + m);
  }

  /** The division of a negative size, taken as a size_t. */
  lemma HighQuotient(m: nat, d: nat, q: nat, r: nat, u: nat)
    requires HALF <= m < TWO32 && TWO32 - 1 == q * d + r && r < d
    requires u * d <= TWO32 * r + m < u * d + d
    ensures Size64(m - TWO32) / d == TWO32 * q + u && u < TWO32
  {
    Size64Negative(m);
    calc {
      TWO32 * (TWO32 - 1) + m;
      TWO32 * (q * d) + TWO32 * r + m;
      (TWO32 * q) * d + TWO32 * r + m;
      (TWO32 * q + u) * d + (TWO32 * r + m - u * d);
    }
    DivUnique(Size64(m - TWO32), d, TWO32 * q + u, TWO32 * r + m - u * d);
    LessByProduct(u, TWO32, d);
  }

  /** A size from 2^31 on becomes negative, and then a very large size_t. */
  lemma CountHigh(pSize: nat, atom: nat) returns (u: nat, r: nat)
    requires pSize % TWO32 >= HALF
    ensures r == (TWO32 - 1) % (atom + 1) && u < TWO32
    ensures u * (atom + 1) <= TWO32 * r + pSize % TWO32 < u * (atom + 1) + (atom + 1)
    ensures BlocksFor(pSize, atom) == if u < HALF then u else u - TWO32
  {
    var m, d := pSize % TWO32, atom + 1;
    var q := QuotientOf(TWO32 - 1, d);
    r := TWO32 - 1 - q * d;
    u := QuotientOf(TWO32 * r + m, d);
    Int32Is(pSize, pSize / TWO32, m);
    HighQuotient(m, d, q, r, u);
    Int32Is(TWO32 * q + u, q, u);
    DivUnique(TWO32 - 1, d, q, r);
  }

  /** When an atom and its control byte do not divide 2^32 - 1, the count is more
      than the pool holds. */
  lemma CountTooHigh(pSize: nat, atom: nat) returns (u: nat)
    requires atom < HALF && HALF <= pSize < TWO32 && !Divides(atom)
    ensures u > pSize / (atom + 1) && u * (atom + 1) > pSize
    ensures BlocksFor(pSize, atom) == u || BlocksFor(pSize, atom) < 0
  {
    var r;
    u, r := CountHigh(pSize, atom);
    var p := QuotientOf(pSize, atom + 1);
    assert TWO32 * r >= TWO32;
    LessByProduct(p, u, atom + 1);
  }

  lemma CountEven(pSize: nat, atom: nat)
    requires 0 < atom && HALF <= pSize < TWO32 && Divides(atom)
    ensures BlocksFor(pSize, atom) == pSize / (atom + 1)
  {
    var u, r := CountHigh(pSize, atom);
    DivUnique(pSize, atom + 1, u, pSize - u * (atom + 1));
    LessByProduct(u, HALF, atom + 1);
  }

  /** Below 4 GiB the count is the number of atoms that the pool holds exactly when
      the size is below 2 GiB or an atom and its control byte divide 2^32 - 1. */
  lemma CountExact(pSize: nat, atom: nat)
    requires 0 < atom < HALF && pSize < TWO32
    ensures BlocksFor(pSize, atom) == pSize / (atom + 1) <==> pSize < HALF || Divides(atom)
  {
    hide BlocksFor, Divides;
    var p := QuotientOf(pSize, atom + 1);
    if pSize < HALF {
      CountLow(pSize, atom);
    } else if Divides(atom) {
      CountEven(pSize, atom);
    } else {
      var u := CountTooHigh(pSize, atom);
    }
  }

  lemma InPool(pSize: nat, atom: nat)
    requires pSize <= HALF
    ensures var n := pSize / (atom + 1); 0 <= n && n * (atom + 1) <= pSize && n * atom < HALF
  {
    var n := QuotientOf(pSize, atom + 1);
    assert n * (atom + 1) == n * atom + n;
    if n == 0 {
      assert n * atom == 0;
    }
  }

  /** Up to the 2 GiB that are configured, that is also when the atoms lie in the pool. */
  lemma FitsIff(pSize: nat, atom: nat)
    requires 0 < atom < HALF && pSize <= HALF
    ensures Fits(pSize, atom) <==> pSize < HALF || Divides(atom)
  {
    hide BlocksFor, Divides;
    CountExact(pSize, atom);
    InPool(pSize, atom);
    if pSize == HALF && !Divides(atom) {
      var u := CountTooHigh(pSize, atom);
    }
  }

  /** A pool below 4 GiB that its atoms fit in is used to the last atom. */
  lemma FitsExact(pSize: nat, atom: nat)
    requires 0 < atom < HALF && pSize < TWO32 && Fits(pSize, atom)
    ensures BlocksFor(pSize, atom) == pSize / (atom + 1)
  {
    hide BlocksFor, Divides;
    CountExact(pSize, atom);
    if pSize >= HALF && !Divides(atom) {
      var u := CountTooHigh(pSize, atom);
    }
  }

  /** The configured pool is used to the last atom of 16 bytes.  With the smallest
      atoms, of 8 bytes, the same pool would be overrun. */
  lemma ConfiguredPool()
    ensures Fits(HALF, 16) && BlocksFor(HALF, 16) == HALF / 17
    ensures !Fits(HALF, 8) && BlocksFor(HALF, 8) > HALF / 9
  {
    hide BlocksFor, Fits;
    FitsIff(HALF, 16);
    FitsExact(HALF, 16);
    FitsIff(HALF, 8);
    var u, r := CountHigh(HALF, 8);
  }
}
