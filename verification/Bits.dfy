/** Fixed-width words as numbers: the bit operations the address code uses, by their binary digits,
    and what its prefix masks come to. */
module Bits {

  function Pow2(n: nat): (p: nat)
    ensures p > 0
  {
    if n == 0 then 1 else 2 * Pow2(n - 1)
  }

  function And(x: nat, y: nat): nat
  {
    if x == 0 || y == 0 then 0 else (x % 2) * (y % 2) + 2 * And(x / 2, y / 2)
  }

  function Or(x: nat, y: nat): nat
  {
    if x == 0 then y else if y == 0 then x
    else (if x % 2 == 0 then y % 2 else 1) + 2 * Or(x / 2, y / 2)
  }

  /** All ones in a word of `width` bits: Go's ^uintN(0). */
  function Ones(width: nat): nat
  {
    Pow2(width) - 1
  }

  function Not(width: nat, x: nat): nat
    requires x < Pow2(width)
  {
    Ones(width) - x
  }

  /** A left shift drops what leaves the word; a shift by the width or more leaves nothing. */
  function Shl(width: nat, x: nat, n: nat): nat
  {
    (x * Pow2(n)) % Pow2(width)
  }

  function Shr(x: nat, n: nat): nat
  {
    QuotientIsNat(x, Pow2(n));
    x / Pow2(n)
  }

  lemma QuotientIsNat(x: nat, d: nat)
    requires d > 0
    ensures x / d >= 0
  {
    NotBelowZero(x / d, d, x % d);
  }

  lemma NotBelowZero(q: int, d: int, r: int)
    requires 0 <= r < d && q * d + r >= 0
    ensures q >= 0
  {
    if q < 0 {
      MulGrows(-q, d);
    }
  }

  lemma {:induction false} PowAdd(a: nat, b: nat)
    ensures Pow2(a + b) == Pow2(a) * Pow2(b)
  {
    if a > 0 {
      PowAdd(a - 1, b);
    }
  }

  lemma PowersOfBytes()
    ensures Pow2(8) == 0x100 && Pow2(16) == 0x1_0000 && Pow2(32) == 0x1_0000_0000
    ensures Pow2(48) == 0x1_0000_0000_0000 && Pow2(64) == 0x1_0000_0000_0000_0000
  {
    PowerDoubles(4, 16);
    PowerDoubles(8, 0x100);
    PowerDoubles(16, 0x1_0000);
    PowerDoubles(32, 0x1_0000_0000);
    PowAdd(16, 32);
  }

  lemma PowerDoubles(n: nat, p: nat)
    requires Pow2(n) == p
    ensures Pow2(2 * n) == p * p
  {
    PowAdd(n, n);
  }

  lemma {:induction false} PowMonotone(a: nat, b: nat)
    requires a <= b
    ensures Pow2(a) <= Pow2(b)
    ensures a < b ==> 2 * Pow2(a) <= Pow2(b)
  {
    if a < b {
      PowMonotone(a, b - 1);
    }
  }

  lemma MulGrows(k: int, d: int)
    requires k >= 1 && d > 0
    ensures k * d >= d
  {
  }

  lemma MulDistributes(a: int, b: int, d: int)
    ensures (a - b) * d == a * d - b * d
    ensures (a + b) * d == a * d + b * d
  {
  }

  lemma DivisionUnique(d: int, q: int, r: int, q': int, r': int)
    requires 0 <= r < d && 0 <= r' < d && q * d + r == q' * d + r'
    ensures q == q' && r == r'
  {
    MulDistributes(q, q', d);
    if q > q' {
      MulGrows(q - q', d);
    } else if q < q' {
      MulDistributes(q', q, d);
      MulGrows(q' - q, d);
    }
  }

  lemma QuotientUnique(x: int, d: int, q: int, r: int)
    requires 0 <= r < d && x == q * d + r
    ensures x / d == q && x % d == r
  {
    DivisionUnique(d, q, r, x / d, x % d);
  }

  /** Splitting off the last binary digit. */
  lemma LastDigit(x: nat, h: nat)
    requires h > 0
    ensures x % Pow2(h) == x % 2 + 2 * ((x / 2) % Pow2(h - 1))
  {
    var d := Pow2(h - 1);
    var q, r := (x / 2) / d, (x / 2) % d;
    assert x / 2 == q * d + r;
    assert x == 2 * (q * d + r) + x % 2;
    assert 2 * (q * d) == q * (2 * d);
    QuotientUnique(x, 2 * d, q, x % 2 + 2 * r);
  }

  lemma AndStep(x: nat, y: nat)
    requires x > 0 && y % 2 == 1
    ensures And(x, y) == x % 2 + 2 * And(x / 2, y / 2)
  {
  }

  lemma {:induction false} AndAllOnes(x: nat, w: nat)
    requires x < Pow2(w)
    ensures And(x, Ones(w)) == x
  {
    if x > 0 {
      var y, half := Ones(w), Ones(w - 1);
      AndAllOnes(x / 2, w - 1);
      assert y == 2 * half + 1 && y / 2 == half && y % 2 == 1;
      AndStep(x, y);
    }
  }

  /** Masking with high ones clears the low `h` bits. */
  lemma EvenHalves(a: nat, b: nat, c: nat, d: nat)
    requires a == 2 * c && b == 2 * d
    ensures (a - b) % 2 == 0 && (a - b) / 2 == c - d
  {
  }

  lemma AndEven(x: nat, m: nat)
    requires m % 2 == 0
    ensures And(x, m) == 2 * And(x / 2, m / 2)
  {
  }

  lemma {:induction false} AndHighOnes(x: nat, w: nat, h: nat)
    requires x < Pow2(w) && h <= w
    ensures Pow2(h) <= Pow2(w)
    ensures And(x, Pow2(w) - Pow2(h)) == x - x % Pow2(h)
  {
    PowMonotone(h, w);
    if h == 0 {
      AndAllOnes(x, w);
    } else {
      LastDigit(x, h);
      AndHighOnes(x / 2, w - 1, h - 1);
      EvenHalves(Pow2(w), Pow2(h), Pow2(w - 1), Pow2(h - 1));
      hide Pow2;
      AndEven(x, Pow2(w) - Pow2(h));
    }
  }

  /** Or-ing `h` low ones into a number whose low `h` bits are clear adds them. */
  lemma {:induction false} OrLowOnes(x: nat, h: nat)
    requires x % Pow2(h) == 0
    ensures Or(x, Ones(h)) == x + Ones(h)
  {
    if h > 0 && x > 0 {
      LastDigit(x, h);
      OrLowOnes(x / 2, h - 1);
      assert Ones(h) == 2 * Ones(h - 1) + 1;
    }
  }

  /** A number below e blocks of d fills no more than its own block. */
  lemma BlockBelow(x: nat, d: nat, e: nat)
    requires d > 0 && x < e * d
    ensures x - x % d + d <= e * d
  {
    DivMod(x, d);
    var q := x / d;
    MulDistributes(e, q, d);
    if q >= e && q > e {
      MulDistributes(q, e, d);
      MulGrows(q - e, d);
    } else if q < e {
      MulGrows(e - q, d);
    }
  }

  lemma Commute(a: int, b: int)
    ensures a * b == b * a
  {
  }

  lemma ShiftedOnes(p: nat, q: nat)
    requires 0 < q <= p
    ensures ((p - 1) * q) % p == p - q
  {
    MulDistributes(p, 1, q);
    MulDistributes(q, 1, p);
    Commute(p, q);
    QuotientUnique((p - 1) * q, p, q - 1, p - q);
  }

  lemma ShlOnes(w: nat, h: nat)
    requires h <= w
    ensures Pow2(h) <= Pow2(w)
    ensures Shl(w, Ones(w), h) == Pow2(w) - Pow2(h)
  {
    PowMonotone(h, w);
    hide Pow2;
    var p, q := Pow2(w), Pow2(h);
    ShiftedOnes(p, q);
    assert Shl(w, Ones(w), h) == ((p - 1) * q) % p;
  }

  lemma ShrOnes(w: nat, n: nat)
    requires n <= w
    ensures Shr(Ones(w), n) == Ones(w - n)
  {
    PowAdd(w - n, n);
    var p, q := Pow2(w - n), Pow2(n);
    MulDistributes(p, 1, q);
    QuotientUnique(p * q - 1, q, p - 1, q - 1);
  }

  /** An address lies in the block that starts at `p` exactly when its masked bits are `p`. */
  lemma InBlock(x: nat, p: nat, h: nat)
    requires p % Pow2(h) == 0
    ensures p <= x <= p + Ones(h) <==> x - x % Pow2(h) == p
  {
    var d := Pow2(h);
    if p <= x <= p + Ones(h) {
      assert p == (p / d) * d;
      QuotientUnique(x, d, p / d, x - p);
    }
  }

  /** Clearing more low bits forgets that some were cleared already. */
  lemma ClearingTwice(x: nat, a: nat, b: nat)
    requires a <= b
    ensures (x - x % Pow2(a)) - (x - x % Pow2(a)) % Pow2(b) == x - x % Pow2(b)
  {
    PowAdd(b - a, a);
    var d, e := Pow2(a), Pow2(b - a);
    var q := x / d;
    var k, r := q / e, q % e;
    DivMod(x, d);
    DivMod(q, e);
    SplitTwice(d, e, q, k, r, x % d);
    QuotientUnique(q * d, e * d, k, r * d);
    QuotientUnique(x, e * d, k, r * d + x % d);
  }

  lemma SplitTwice(d: int, e: int, q: int, k: int, r: int, s: int)
    requires 0 <= r < e && 0 <= s < d && q == k * e + r
    ensures q * d == k * (e * d) + r * d
    ensures 0 <= r * d && r * d + s < e * d
  {
    MulDistributes(k * e, r, d);
    Associate(k, e, d);
    MulDistributes(e, r, d);
    MulGrows(e - r, d);
    if r > 0 {
      MulGrows(r, d);
    }
  }

  lemma DivMod(x: int, d: int)
    requires d > 0
    ensures x == (x / d) * d + x % d && 0 <= x % d < d
  {
  }

  lemma Associate(a: int, b: int, c: int)
    ensures (a * b) * c == a * (b * c)
  {
  }
}
