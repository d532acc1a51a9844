/** 32-bit words, their bits, and the number operators of ECMAScript that work on them. */
module Bits {
  const TWO32 := 0x1_0000_0000
  const TWO31 := 0x8000_0000
  /** Integers up to here are exact as ECMAScript numbers. */
  const EXACT := 0x20_0000_0000_0000

  type Word = x: int | 0 <= x < 0x1_0000_0000
  type Byte = x: int | 0 <= x < 0x100

  function Pow2(n: nat): (p: nat)
    ensures p > 0
  {
    if n == 0 then 1 else 2 * Pow2(n - 1)
  }

  /** Bit `i` of `x`; bit 0 is the lowest. */
  predicate Bit(x: nat, i: nat) {
    if i == 0 then x % 2 == 1 else Bit(x / 2, i - 1)
  }

  /** The number whose lowest `n` bits are `b`. */
  function FromBits(b: nat -> bool, n: nat): nat {
    if n == 0 then 0 else (if b(0) then 1 else 0) + 2 * FromBits((i: nat) => b(i + 1), n - 1)
  }

  lemma {:induction false} FromBitsBelow(b: nat -> bool, n: nat)
    ensures FromBits(b, n) < Pow2(n)
  {
    if n > 0 { FromBitsBelow((i: nat) => b(i + 1), n - 1); }
  }

  lemma Pow2Of32()
    ensures Pow2(32) == TWO32
  {
    assert Pow2(8) == 0x100;
    assert Pow2(16) == 0x10000;
    assert Pow2(24) == 0x1000000;
  }

  function Pack(b: nat -> bool): Word {
    FromBitsBelow(b, 32);
    Pow2Of32();
    FromBits(b, 32)
  }

  function And(x: Word, y: Word): Word { Pack((i: nat) => Bit(x, i) && Bit(y, i)) }

  function Or(x: Word, y: Word): Word { Pack((i: nat) => Bit(x, i) || Bit(y, i)) }

  function Xor(x: Word, y: Word): Word { Pack((i: nat) => Bit(x, i) != Bit(y, i)) }

  function Not(x: Word): Word { Pack((i: nat) => !Bit(x, i)) }

  /** The two shifts of section 3.2 of FIPS 180-4: what is shifted out is lost. */
  function Shr(x: Word, n: nat): Word {
    DivSmaller(x, Pow2(n));
    x / Pow2(n)
  }

  lemma DivSmaller(x: nat, p: nat)
    requires p > 0
    ensures 0 <= x / p <= x
  {
    QuotientSmaller(x, p, x / p, x % p);
  }

  lemma QuotientSmaller(x: nat, p: nat, q: int, r: int)
    requires p > 0 && x == q * p + r && 0 <= r < p
    ensures 0 <= q <= x
  {
    MultipleFar(q, p);
    assert q >= 0;
    assert q * p == q + q * (p - 1) && q * (p - 1) >= 0;
  }

  function Shl(x: Word, n: nat): Word { (x * Pow2(n)) % TWO32 }

  /** ROTR of section 3.2 of FIPS 180-4. */
  function Rotr(x: Word, n: nat): Word
    requires n <= 32
  {
    Or(Shr(x, n), Shl(x, 32 - n))
  }

  // ---------------------------------------------------------------------
  // What the operations do to single bits
  // ---------------------------------------------------------------------

  lemma {:induction false} FromBitsExact(b: nat -> bool, n: nat, i: nat)
    ensures Bit(FromBits(b, n), i) <==> i < n && b(i)
  {
    if n == 0 {
      ZeroBits(i);
    } else if i > 0 {
      FromBitsExact((j: nat) => b(j + 1), n - 1, i - 1);
    }
  }

  lemma {:induction false} ZeroBits(i: nat)
    ensures !Bit(0, i)
  {
    if i > 0 { ZeroBits(i - 1); }
  }

  lemma {:induction false} ShiftDown(x: Word, n: nat, i: nat)
    ensures Bit(Shr(x, n), i) <==> Bit(x, i + n)
  {
    if n == 0 {
      assert x / Pow2(0) == x;
    } else {
      ShiftDown(x / 2, n - 1, i);
      HalfFirst(x, Pow2(n - 1));
    }
  }

  lemma HalfFirst(x: nat, p: nat)
    requires p > 0
    ensures x / (2 * p) == x / 2 / p
  {
    var q, h := x / (2 * p), x / 2;
    assert x == q * (2 * p) + x % (2 * p);
    var r := x % (2 * p) / 2;
    assert h == q * p + r && r < p;
    DivUnique(h, p, q, r);
  }

  lemma DivUnique(x: nat, p: nat, q: int, r: int)
    requires p > 0 && x == q * p + r && 0 <= r < p
    ensures x / p == q
  {
    var d := x / p - q;
    assert d * p + x % p == r;
    MultipleFar(d, p);
  }

  lemma MultipleFar(d: int, p: int)
    requires p >= 0
    ensures d >= 1 ==> d * p >= p
    ensures d <= -1 ==> d * p <= -p
  {
    assert d >= 1 ==> d * p == p + (d - 1) * p && (d - 1) * p >= 0;
    assert d <= -1 ==> d * p == -p + (d + 1) * p && (d + 1) * p <= 0;
  }

  lemma {:induction false} ShiftUp(x: nat, n: nat, i: nat)
    ensures Bit(x * Pow2(n), i) <==> i >= n && Bit(x, i - n)
  {
    if n > 0 {
      assert x * Pow2(n) == 2 * (x * Pow2(n - 1));
      if i > 0 { ShiftUp(x, n - 1, i - 1); }
    } else {
      assert x * Pow2(0) == x;
    }
  }

  lemma {:induction false} LowBits(x: nat, n: nat, i: nat)
    requires i < n
    ensures Bit(x % Pow2(n), i) <==> Bit(x, i)
  {
    var p := Pow2(n - 1);
    assert x % (2 * p) % 2 == x % 2 && x % (2 * p) / 2 == x / 2 % p by { HalfMod(x, p); }
    if i > 0 { LowBits(x / 2, n - 1, i - 1); }
  }

  lemma HalfMod(x: nat, p: nat)
    requires p > 0
    ensures x % (2 * p) % 2 == x % 2 && x % (2 * p) / 2 == x / 2 % p
  {
    HalfFirst(x, p);
    var q := x / (2 * p);
    assert x == q * (2 * p) + x % (2 * p);
    assert q * (2 * p) == 2 * (q * p);
    assert x / 2 == q * p + x % (2 * p) / 2;
    assert x / 2 == (x / 2 / p) * p + x / 2 % p;
  }

  lemma {:induction false} HighBits(x: nat, n: nat, i: nat)
    requires x < Pow2(n) && i >= n
    ensures !Bit(x, i)
  {
    if n == 0 { ZeroBits(i); } else { HighBits(x / 2, n - 1, i - 1); }
  }

  /** A rotation moves every bit down by `n`, and the low bits back in at the top. */
  lemma RotrRotates(x: Word, n: nat, i: nat)
    requires 0 < n < 32 && i < 32
    ensures Bit(Rotr(x, n), i) <==> Bit(x, (i + n) % 32)
  {
    hide Bit, FromBits, Pow2;
    Pow2Of32();
    var lo, hi := Shr(x, n), Shl(x, 32 - n);
    FromBitsExact((j: nat) => Bit(lo, j) || Bit(hi, j), 32, i);
    ShiftDown(x, n, i);
    LowBits(x * Pow2(32 - n), 32, i);
    ShiftUp(x, 32 - n, i);
    if i + n >= 32 {
      HighBits(x, 32, i + n);
    }
  }

  // ---------------------------------------------------------------------
  // Numbers
  // ---------------------------------------------------------------------

  /** ToUint32 of ECMA-262, also written `x >>> 0`. */
  function ToUint32(x: int): Word { x % TWO32 }

  /** ToInt32 of ECMA-262: the two's-complement reading. */
  function ToInt32(x: int): int {
    if x % TWO32 >= TWO31 then x % TWO32 - TWO32 else x % TWO32
  }

  /** The bitwise operators give signed numbers, `>>>` an unsigned one. */
  function NumberAnd(x: int, y: int): int { ToInt32(And(ToUint32(x), ToUint32(y))) }

  function NumberOr(x: int, y: int): int { ToInt32(Or(ToUint32(x), ToUint32(y))) }

  function NumberXor(x: int, y: int): int { ToInt32(Xor(ToUint32(x), ToUint32(y))) }

  function NumberNot(x: int): int { -ToInt32(x) - 1 }

  function NumberShr(x: int, n: nat): int { Shr(ToUint32(x), n) }

  function NumberShl(x: int, n: nat): int { ToInt32(ToInt32(x) * Pow2(n)) }

  /** Reading a signed number as a word undoes the two's complement. */
  lemma Unsigned(x: int)
    ensures ToUint32(ToInt32(x)) == ToUint32(x)
    ensures -TWO31 <= ToInt32(x) < TWO31
    ensures exists k :: x == ToInt32(x) + k * TWO32
  {
    assert x == ToInt32(x) + (if x % TWO32 >= TWO31 then x / TWO32 + 1 else x / TWO32) * TWO32;
  }

  lemma SameWord(x: int, y: int, k: int)
    requires x == y + k * TWO32
    ensures ToUint32(x) == ToUint32(y)
  {
  }

  lemma NotExact(x: Word)
    ensures ToUint32(NumberNot(x)) == Not(x)
  {
    hide FromBits, Bit;
    Pow2Of32();
    NotFromBits(x, 32);
    assert ToUint32(NumberNot(x)) == TWO32 - 1 - x;
  }

  lemma {:induction false} NotFromBits(x: nat, n: nat)
    requires x < Pow2(n)
    ensures FromBits((i: nat) => !Bit(x, i), n) == Pow2(n) - 1 - x
  {
    if n > 0 {
      var b := (i: nat) => !Bit(x, i);
      NotFromBits(x / 2, n - 1);
      assert forall i: nat :: b(i + 1) == !Bit(x / 2, i);
      SameBits((i: nat) => b(i + 1), (i: nat) => !Bit(x / 2, i), n - 1);
    }
  }

  lemma {:induction false} SameBits(b: nat -> bool, c: nat -> bool, n: nat)
    requires forall i: nat | i < n :: b(i) == c(i)
    ensures FromBits(b, n) == FromBits(c, n)
  {
    if n > 0 { SameBits((i: nat) => b(i + 1), (i: nat) => c(i + 1), n - 1); }
  }

  lemma ShlExact(x: Word, n: nat)
    ensures ToUint32(NumberShl(x, n)) == Shl(x, n)
  {
    hide Pow2;
    var p := Pow2(n);
    Unsigned(x);
    Unsigned(ToInt32(x) * p);
    var k :| x == ToInt32(x) + k * TWO32;
    assert x * p == ToInt32(x) * p + (k * p) * TWO32;
    SameWord(x * p, ToInt32(x) * p, k * p);
  }
}
