/** Java's 32-bit `int`: its range, two's-complement wrap-around, and `String.hashCode`. */
module JavaInt {

  const MIN_VALUE: int := -0x8000_0000
  const MAX_VALUE: int := 0x7fff_ffff
  const MODULUS: int := 0x1_0000_0000

  type Int32 = x: int | MIN_VALUE <= x <= MAX_VALUE

  /** The int value Java arithmetic leaves when the exact result is x. */
  function Wrap(x: int): (r: Int32)
    ensures (x - r) % MODULUS == 0
    ensures MIN_VALUE <= x <= MAX_VALUE ==> r == x
  {
    (x - MIN_VALUE) % MODULUS + MIN_VALUE
  }

  /** Numbers that differ by a multiple of 2^32 wrap to the same int. */
  lemma WrapAgrees(x: int, y: int, k: int)
    requires x - y == MODULUS * k
    ensures Wrap(x) == Wrap(y)
  {
    var a, b := (x - MIN_VALUE) / MODULUS, (y - MIN_VALUE) / MODULUS;
    assert Wrap(x) == x - MODULUS * a;
    assert Wrap(y) == y - MODULUS * b;
    assert Wrap(x) - Wrap(y) == MODULUS * (k - a + b);
  }

  /** `String.hashCode`: h = 31 * h + c over the characters, in int arithmetic. */
  function StringHash(s: string): Int32 {
    if s == [] then 0 else Wrap(31 * StringHash(s[..|s| - 1]) + s[|s| - 1] as int)
  }

  function Pow31(n: nat): (p: nat)
    ensures p >= 1
  {
    if n == 0 then 1 else 31 * Pow31(n - 1)
  }

  /** The documented value of `String.hashCode`: s[0]*31^(n-1) + s[1]*31^(n-2) + ... + s[n-1]. */
  function HashPolynomial(s: string): int {
    if s == [] then 0 else s[0] as int * Pow31(|s| - 1) + HashPolynomial(s[1..])
  }

  lemma {:induction false} PolynomialAppend(s: string, c: char)
    ensures HashPolynomial(s + [c]) == 31 * HashPolynomial(s) + c as int
  {
    var t := s + [c];
    if s == [] {
      assert t[1..] == [];
    } else {
      assert t[0] == s[0];
      assert t[1..] == s[1..] + [c];
      PolynomialAppend(s[1..], c);
      assert Pow31(|t| - 1) == 31 * Pow31(|s| - 1);
      calc {
        HashPolynomial(t);
        s[0] as int * Pow31(|t| - 1) + HashPolynomial(s[1..] + [c]);
        s[0] as int * (31 * Pow31(|s| - 1)) + (31 * HashPolynomial(s[1..]) + c as int);
        31 * (s[0] as int * Pow31(|s| - 1) + HashPolynomial(s[1..])) + c as int;
      }
    }
  }

  /** The int arithmetic of the loop gives the documented polynomial, reduced to 32 bits. */
  lemma {:induction false} StringHashIsPolynomial(s: string)
    ensures StringHash(s) == Wrap(HashPolynomial(s))
  {
    if s != [] {
      var init, c := s[..|s| - 1], s[|s| - 1];
      assert init + [c] == s;
      StringHashIsPolynomial(init);
      PolynomialAppend(init, c);
      var h, p := StringHash(init), HashPolynomial(init);
      var q := -((p - h) / MODULUS);
      assert h - p == MODULUS * q;
      WrapAgrees(31 * h + c as int, 31 * p + c as int, 31 * q);
    }
  }

}
