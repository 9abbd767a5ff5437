// Machine integers.
module Words {
  const TWO32 := 0x1_0000_0000

  /** The 32-bit signed integer with the low bits of n. */
  function Int32(n: int): (r: int)
    ensures -0x8000_0000 <= r < 0x8000_0000
  {
    (n + 0x8000_0000) % TWO32 - 0x8000_0000
  }

  /** The 64-bit unsigned integer with the low bits of n. */
  function Size64(n: int): int { n % (TWO32 * TWO32) }

  lemma LessByProduct(a: int, b: int, d: nat)
    requires a * d < b * d
    ensures a < b
  {
    ProductOrder(b, a, d);
  }

  lemma ProductOrder(a: int, b: int, d: nat)
    ensures a <= b ==> a * d <= b * d
  {
    if a <= b {
      NotNegative(b - a, d);
    }
  }

  lemma NotNegative(a: nat, d: nat)
    ensures a * d >= 0
  {
  }

  lemma Quotient(x: int, d: nat) returns (q: int)
    requires d > 0
    ensures q == x / d && q * d <= x < q * d + d && x % d == x - q * d
  {
    q := x / d;
  }

  lemma DivUnique(x: int, d: nat, q: int, r: int)
    requires 0 <= r < d && x == q * d + r
    ensures x / d == q && x % d == r
  {
    var p := Quotient(x, d);
    LessByProduct(p, q + 1, d);
    LessByProduct(q, p + 1, d);
  }

  /** A number whose low 32 bits, read as signed, are u. */
  lemma Int32Is(n: int, q: int, u: int)
    requires n == q * TWO32 + u && 0 <= u < TWO32
    ensures Int32(n) == if u < 0x8000_0000 then u else u - TWO32
  {
    if u < 0x8000_0000 {
      DivUnique(n + 0x8000_0000, TWO32, q, u + 0x8000_0000);
    } else {
      DivUnique(n + 0x8000_0000, TWO32, q + 1, u - 0x8000_0000);
    }
  }
}
