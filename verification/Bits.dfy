/** Naturals as bits: the masking, shifting and rounding that the tables do on
    their sizes. */
module Bits {
  import Arith

  function Pow2(p: nat): (n: nat)
    ensures n >= 1
  {
    if p == 0 then 1 else 2 * Pow2(p - 1)
  }

  /** Bit number j of n. */
  function Bit(n: nat, j: nat): (b: nat)
    ensures b < 2
  {
    if j == 0 then n % 2 else Bit(n / 2, j - 1)
  }

  function And(a: nat, b: nat): (n: nat)
    ensures n <= b
  {
    if a == 0 || b == 0 then 0 else (a % 2) * (b % 2) + 2 * And(a / 2, b / 2)
  }

  function Or(a: nat, b: nat): nat {
    if a == 0 then b else if b == 0 then a
    else (if a % 2 == 1 || b % 2 == 1 then 1 else 0) + 2 * Or(a / 2, b / 2)
  }

  lemma {:induction false} BitOfZero(j: nat)
    ensures Bit(0, j) == 0
  {
    if j > 0 { BitOfZero(j - 1); }
  }

  lemma {:induction false} BitOfOr(a: nat, b: nat, j: nat)
    ensures Bit(Or(a, b), j) == 1 <==> Bit(a, j) == 1 || Bit(b, j) == 1
  {
    if a == 0 || b == 0 {
      BitOfZero(j);
    } else {
      assert Or(a, b) / 2 == Or(a / 2, b / 2);
      if j > 0 { BitOfOr(a / 2, b / 2, j - 1); }
    }
  }

  /** x >> s */
  function ShiftRight(x: nat, s: nat): nat {
    if s == 0 then x else ShiftRight(x / 2, s - 1)
  }

  lemma {:induction false} BitOfShift(x: nat, s: nat, j: nat)
    ensures Bit(ShiftRight(x, s), j) == Bit(x, j + s)
  {
    if s > 0 { BitOfShift(x / 2, s - 1, j); }
  }

  lemma {:induction false} ShiftIsDivision(x: nat, s: nat)
    ensures ShiftRight(x, s) == x / Pow2(s)
  {
    if s > 0 {
      ShiftIsDivision(x / 2, s - 1);
      DivTwice(x, Pow2(s - 1));
    }
  }

  lemma DivTwice(x: nat, m: nat)
    requires m > 0
    ensures x / 2 / m == x / (2 * m)
    ensures x % (2 * m) == 2 * (x / 2 % m) + x % 2
  {
    var (q, r) := (x / 2 / m, x / 2 % m);
    Arith.DivMod(x / 2, m);
    assert x == 2 * (q * m) + 2 * r + x % 2;
    assert 2 * (q * m) == q * (2 * m);
    Arith.DivUnique(x, 2 * m, q, 2 * r + x % 2);
  }

  /** Masking with one less than a power of two leaves the remainder. */
  lemma {:induction false} MaskIsRemainder(k: nat, p: nat)
    ensures And(k, Pow2(p) - 1) == k % Pow2(p)
  {
    if p > 0 {
      MaskIsRemainder(k / 2, p - 1);
      var m := Pow2(p - 1);
      assert (2 * m - 1) / 2 == m - 1 && (2 * m - 1) % 2 == 1;
      DivTwice(k, m);
    }
  }

  ghost predicate IsPowerOfTwo(n: nat) {
    exists p: nat :: n == Pow2(p)
  }

  lemma {:induction false} PowersMultiply(p: nat, q: nat)
    ensures Pow2(p) * Pow2(q) == Pow2(p + q)
  {
    if p > 0 {
      PowersMultiply(p - 1, q);
      assert Pow2(p) * Pow2(q) == 2 * (Pow2(p - 1) * Pow2(q));
    }
  }

  lemma {:induction false} PowersAscend(p: nat, q: nat)
    requires p < q
    ensures 2 * Pow2(p) <= Pow2(q)
  {
    if p + 1 < q { PowersAscend(p, q - 1); }
  }

  lemma {:induction false} SameBits(a: nat, b: nat)
    requires forall j: nat :: Bit(a, j) == Bit(b, j)
    ensures a == b
  {
    assert Bit(a, 0) == Bit(b, 0);
    if a > 1 || b > 1 {
      forall j: nat ensures Bit(a / 2, j) == Bit(b / 2, j) {
        assert Bit(a, j + 1) == Bit(b, j + 1);
      }
      SameBits(a / 2, b / 2);
    }
  }

  lemma {:induction false} BitOfOnes(p: nat, j: nat)
    ensures Bit(Pow2(p) - 1, j) == if j < p then 1 else 0
  {
    if p == 0 {
      BitOfZero(j);
    } else {
      assert (Pow2(p) - 1) / 2 == Pow2(p - 1) - 1 && (Pow2(p) - 1) % 2 == 1;
      if j > 0 { BitOfOnes(p - 1, j - 1); }
    }
  }

  /** The number of bits of n, and its top bit. */
  function Length(n: nat): (p: nat)
    ensures n < Pow2(p)
    ensures n > 0 ==> p > 0 && Pow2(p - 1) <= n
  {
    if n == 0 then 0 else Length(n / 2) + 1
  }

  lemma {:induction false} TopBit(n: nat, j: nat)
    ensures j >= Length(n) ==> Bit(n, j) == 0
    ensures n > 0 && j == Length(n) - 1 ==> Bit(n, j) == 1
  {
    if n == 0 {
      BitOfZero(j);
    } else if j > 0 {
      TopBit(n / 2, j - 1);
    }
  }

  // ---- rounding up to a power of two ---------------------------------------

  const WORD32 := 0x1_0000_0000

  /** Bit j of y tells whether x has a bit among j, ..., j + w - 1. */
  ghost predicate Smeared(x: nat, y: nat, w: nat) {
    forall j: nat :: Bit(y, j) == 1 <==> AnyBit(x, j, w)
  }

  ghost predicate AnyBit(x: nat, j: nat, w: nat) {
    exists i :: j <= i < j + w && Bit(x, i) == 1
  }

  lemma AnyBitSplit(x: nat, j: nat, w: nat)
    ensures AnyBit(x, j, 2 * w) <==> AnyBit(x, j, w) || AnyBit(x, j + w, w)
  {
  }

  lemma SmearOn(x: nat, y: nat, w: nat)
    requires Smeared(x, y, w)
    ensures Smeared(x, Or(y, ShiftRight(y, w)), 2 * w)
  {
    var z := Or(y, ShiftRight(y, w));
    forall j: nat ensures Bit(z, j) == 1 <==> AnyBit(x, j, 2 * w) {
      BitOfOr(y, ShiftRight(y, w), j);
      BitOfShift(y, w, j);
      AnyBitSplit(x, j, w);
    }
  }

  lemma SmearedIsOnes(x: nat, y: nat)
    requires Smeared(x, y, 32) && x < WORD32
    ensures y == Pow2(Length(x)) - 1
  {
    var p := Length(x);
    LengthBound(x);
    forall j: nat ensures Bit(y, j) == Bit(Pow2(p) - 1, j) {
      BitOfOnes(p, j);
      if j < p {
        TopBit(x, p - 1);
        assert AnyBit(x, j, 32);
      } else {
        forall i | j <= i < j + 32 ensures Bit(x, i) == 0 { TopBit(x, i); }
      }
    }
    SameBits(y, Pow2(p) - 1);
  }

  lemma LengthBound(x: nat)
    requires x < WORD32
    ensures Length(x) <= 32
  {
    assert Pow2(32) == WORD32 by { Pow2Of32(); }
    if Length(x) > 32 {
      if Length(x) - 1 > 32 { PowersAscend(32, Length(x) - 1); }
    }
  }

  lemma Pow2Of32()
    ensures Pow2(32) == WORD32
  {
    assert Pow2(8) == 256;
    PowersMultiply(8, 8);
    PowersMultiply(16, 16);
  }

  lemma SmearStart(x: nat)
    ensures Smeared(x, x, 1)
  {
    forall j: nat ensures Bit(x, j) == 1 <==> AnyBit(x, j, 1) {}
  }

  /** x |= x >> 1; ...; x |= x >> 16 sets every bit below the top one. */
  method Smear(x: nat) returns (y: nat)
    requires x < WORD32
    ensures y == Pow2(Length(x)) - 1
  {
    y := x;
    SmearStart(x);
    SmearOn(x, y, 1);
    y := Or(y, ShiftRight(y, 1));
    SmearOn(x, y, 2);
    y := Or(y, ShiftRight(y, 2));
    SmearOn(x, y, 4);
    y := Or(y, ShiftRight(y, 4));
    SmearOn(x, y, 8);
    y := Or(y, ShiftRight(y, 8));
    SmearOn(x, y, 16);
    y := Or(y, ShiftRight(y, 16));
    SmearedIsOnes(x, y);
  }

  /** pow2roundup: for 1 <= x <= 2^31 the least power of two that is not less
      than x; above that the 32-bit sum wraps around to 0. */
  method Pow2RoundUp(x: nat) returns (n: nat)
    requires x < WORD32
    ensures x == 0 ==> n == 1
    ensures 1 <= x <= 0x8000_0000 ==> IsPowerOfTwo(n) && x <= n <= 0x8000_0000
    ensures 1 <= x <= 0x8000_0000 ==> forall m | IsPowerOfTwo(m) && x <= m :: n <= m
    ensures x > 0x8000_0000 ==> n == 0
  {
    if x == 0 {
      return 1;
    }
    var y := Smear(x - 1);
    RoundedIsLeast(x);
    n := if y + 1 == WORD32 then 0 else y + 1;
    assert x <= 0x8000_0000 ==> n == Pow2(Length(x - 1));
  }

  lemma RoundedIsLeast(x: nat)
    requires 1 <= x < WORD32
    ensures x <= Pow2(Length(x - 1))
    ensures forall m | IsPowerOfTwo(m) && x <= m :: Pow2(Length(x - 1)) <= m
    ensures if x <= 0x8000_0000 then Pow2(Length(x - 1)) <= 0x8000_0000 else Pow2(Length(x - 1)) == WORD32
  {
    var y: nat := x - 1;
    var p := Length(y);
    forall m | IsPowerOfTwo(m) && x <= m ensures Pow2(p) <= m {
      var q: nat :| m == Pow2(q);
      if q < p { LengthIsLeast(y, q); } else if p < q { PowersAscend(p, q); }
    }
    Pow2Of32();
    LengthBound(y);
    var h: nat := 31;
    assert Pow2(h + 1) == 2 * Pow2(h);
    if h < p { LengthIsLeast(y, h); }
    if p < h { PowersAscend(p, h); }
  }

  lemma LengthIsLeast(n: nat, q: nat)
    requires q < Length(n)
    ensures Pow2(q) <= n
  {
    if q < Length(n) - 1 { PowersAscend(q, Length(n) - 1); }
  }
}
