/** `sha256Portable` of packages/compiler/src/hash.ts against FIPS 180-4. */
module Sha256 {
  import opened Bits

  // ---------------------------------------------------------------------
  // FIPS 180-4
  // ---------------------------------------------------------------------

  /** The constants of section 4.2.2, in rows of eight. */
  function ConstantRow(r: nat): (row: seq<Word>)
    requires r < 8
    ensures |row| == 8
  {
    if r == 0 then [0x428a2f98, 0x71374491, 0xb5c0fbcf, 0xe9b5dba5, 0x3956c25b, 0x59f111f1, 0x923f82a4, 0xab1c5ed5]
    else if r == 1 then [0xd807aa98, 0x12835b01, 0x243185be, 0x550c7dc3, 0x72be5d74, 0x80deb1fe, 0x9bdc06a7, 0xc19bf174]
    else if r == 2 then [0xe49b69c1, 0xefbe4786, 0x0fc19dc6, 0x240ca1cc, 0x2de92c6f, 0x4a7484aa, 0x5cb0a9dc, 0x76f988da]
    else if r == 3 then [0x983e5152, 0xa831c66d, 0xb00327c8, 0xbf597fc7, 0xc6e00bf3, 0xd5a79147, 0x06ca6351, 0x14292967]
    else if r == 4 then [0x27b70a85, 0x2e1b2138, 0x4d2c6dfc, 0x53380d13, 0x650a7354, 0x766a0abb, 0x81c2c92e, 0x92722c85]
    else if r == 5 then [0xa2bfe8a1, 0xa81a664b, 0xc24b8b70, 0xc76c51a3, 0xd192e819, 0xd6990624, 0xf40e3585, 0x106aa070]
    else if r == 6 then [0x19a4c116, 0x1e376c08, 0x2748774c, 0x34b0bcb5, 0x391c0cb3, 0x4ed8aa4a, 0x5b9cca4f, 0x682e6ff3]
    else [0x748f82ee, 0x78a5636f, 0x84c87814, 0x8cc70208, 0x90befffa, 0xa4506ceb, 0xbef9a3f7, 0xc67178f2]
  }

  function Constant(t: nat): Word
    requires t < 64
  {
    ConstantRow(t / 8)[t % 8]
  }

  /** The eight words a block works on. */
  datatype Eight = Eight(a: Word, b: Word, c: Word, d: Word, e: Word, f: Word, g: Word, h: Word)

  /** The initial hash value of section 5.3.3. */
  function Initial(): Eight {
    Eight(0x6a09e667, 0xbb67ae85, 0x3c6ef372, 0xa54ff53a, 0x510e527f, 0x9b05688c, 0x1f83d9ab, 0x5be0cd19)
  }

  /** The functions of section 4.1.2. */
  function Ch(x: Word, y: Word, z: Word): Word { Xor(And(x, y), And(Not(x), z)) }

  function Maj(x: Word, y: Word, z: Word): Word { Xor(Xor(And(x, y), And(x, z)), And(y, z)) }

  function BigSigma0(x: Word): Word { Xor(Xor(Rotr(x, 2), Rotr(x, 13)), Rotr(x, 22)) }

  function BigSigma1(x: Word): Word { Xor(Xor(Rotr(x, 6), Rotr(x, 11)), Rotr(x, 25)) }

  function SmallSigma0(x: Word): Word { Xor(Xor(Rotr(x, 7), Rotr(x, 18)), Shr(x, 3)) }

  function SmallSigma1(x: Word): Word { Xor(Xor(Rotr(x, 17), Rotr(x, 19)), Shr(x, 10)) }

  /** A big-endian word. */
  function BigEndian(b: seq<Byte>): Word
    requires |b| == 4
  {
    var (b0: int, b1: int, b2: int, b3: int) := (b[0], b[1], b[2], b[3]);
    b0 * 0x1000000 + b1 * 0x10000 + b2 * 0x100 + b3
  }

  function WordBytes(x: Word): (b: seq<Byte>)
    ensures |b| == 4 && BigEndian(b) == x
  {
    var hi, lo := x / 0x10000, x % 0x10000;
    [hi / 0x100, hi % 0x100, lo / 0x100, lo % 0x100]
  }

  function Zeros(n: nat): seq<Byte> { seq(n, i => 0) }

  /** How many zero bytes go between the first padding byte and the length. */
  function Gap(n: nat): (g: nat)
    ensures g < 64 && (n + 9 + g) % 64 == 0
  {
    (55 - n) % 64
  }

  /** The bit length as a 64-bit big-endian number. */
  function LengthBytes(bits: nat): (b: seq<Byte>)
    requires bits < TWO32 * TWO32
    ensures |b| == 8
  {
    WordBytes(bits / TWO32) + WordBytes(bits % TWO32)
  }

  /** Section 5.1.1 for whole bytes: the bit 1, zeros, the length. */
  function Pad(m: seq<Byte>): (p: seq<Byte>)
    requires |m| < 0x4_0000_0000_0000
    ensures |p| % 64 == 0 && |p| == |m| + 9 + Gap(|m|)
  {
    hide LengthBytes, WordBytes, Gap;
    m + [0x80] + Zeros(Gap(|m|)) + LengthBytes(8 * |m|)
  }

  /** In bits, after the 1: as few zeros as bring the message to 448 modulo 512. */
  lemma GapSmallest(n: nat, k: nat)
    ensures (8 * n + 1 + (7 + 8 * Gap(n))) % 512 == 448
    ensures (8 * n + 1 + k) % 512 == 448 ==> k >= 7 + 8 * Gap(n)
  {
    hide Gap;
    var g, m := Gap(n), (n + 9 + Gap(n)) / 64;
    assert n + 9 + g == 64 * m;
    assert 8 * n + 1 + (7 + 8 * g) == 512 * (m - 1) + 448;
    if (8 * n + 1 + k) % 512 == 448 {
      var r := (8 * n + 1 + k) / 512;
      assert k == 512 * (r - m + 1) + 7 + 8 * g;
    }
  }

  /** The message schedule of section 6.2.2, step 1, for one block. */
  function Schedule(block: seq<Byte>, t: nat): Word
    requires |block| == 64 && t < 64
  {
    if t < 16 then BigEndian(block[4 * t..4 * t + 4])
    else (SmallSigma1(Schedule(block, t - 2)) + Schedule(block, t - 7)
          + SmallSigma0(Schedule(block, t - 15)) + Schedule(block, t - 16)) % TWO32
  }

  /** One round of section 6.2.2, step 3. */
  function Round(v: Eight, k: Word, w: Word): Eight {
    hide BigSigma0, BigSigma1, Ch, Maj;
    var t1 := (v.h + BigSigma1(v.e) + Ch(v.e, v.f, v.g) + k + w) % TWO32;
    var t2 := (BigSigma0(v.a) + Maj(v.a, v.b, v.c)) % TWO32;
    Eight((t1 + t2) % TWO32, v.a, v.b, v.c, (v.d + t1) % TWO32, v.e, v.f, v.g)
  }

  function Rounds(v: Eight, block: seq<Byte>, t: nat): Eight
    requires |block| == 64 && t <= 64
  {
    if t == 0 then v else Round(Rounds(v, block, t - 1), Constant(t - 1), Schedule(block, t - 1))
  }

  function AddWords(v: Eight, u: Eight): Eight {
    Eight((v.a + u.a) % TWO32, (v.b + u.b) % TWO32, (v.c + u.c) % TWO32, (v.d + u.d) % TWO32,
          (v.e + u.e) % TWO32, (v.f + u.f) % TWO32, (v.g + u.g) % TWO32, (v.h + u.h) % TWO32)
  }

  /** Section 6.2.2, step 4: what block `n` makes of a hash value. */
  function Absorb(v: Eight, p: seq<Byte>, n: nat): Eight
    requires 64 * n + 64 <= |p|
  {
    hide Rounds, AddWords;
    AddWords(v, Rounds(v, p[64 * n..64 * n + 64], 64))
  }

  /** The hash value after the first `n` blocks. */
  function Chain(p: seq<Byte>, n: nat): Eight
    requires 64 * n <= |p|
  {
    hide Absorb;
    if n == 0 then Initial() else Absorb(Chain(p, n - 1), p, n - 1)
  }

  function Hash(m: seq<Byte>): Eight
    requires |m| < 0x4_0000_0000_0000
  {
    Chain(Pad(m), |Pad(m)| / 64)
  }

  // ---------------------------------------------------------------------
  // The same in signed and unsigned numbers
  // ---------------------------------------------------------------------

  /** `rotr` of the source. */
  function Rotated(x: Word, n: nat): int
    requires n <= 32
  {
    NumberOr(NumberShr(x, n), NumberShl(x, 32 - n))
  }

  predicate IsInt32(x: int) { -TWO31 <= x < TWO31 }

  lemma RotatedExact(x: Word, n: nat)
    requires n <= 32
    ensures IsInt32(Rotated(x, n)) && ToUint32(Rotated(x, n)) == Rotr(x, n)
  {
    hide Shr, Shl, Or, Pow2, ToInt32;
    ShlExact(x, 32 - n);
    Unsigned(Or(Shr(x, n), Shl(x, 32 - n)));
  }

  /** What the source computes for s0, s1, S0 and S1. */
  function Mixed(x: int, y: int, z: int): int { NumberXor(NumberXor(x, y), z) }

  lemma MixedExact(x: int, y: int, z: int)
    ensures IsInt32(Mixed(x, y, z))
    ensures ToUint32(Mixed(x, y, z)) == Xor(Xor(ToUint32(x), ToUint32(y)), ToUint32(z))
  {
    hide Xor, ToInt32;
    Unsigned(Xor(ToUint32(x), ToUint32(y)));
    Unsigned(Xor(ToUint32(NumberXor(x, y)), ToUint32(z)));
  }

  function NumberCh(e: Word, f: Word, g: Word): int { NumberXor(NumberAnd(e, f), NumberAnd(NumberNot(e), g)) }

  function NumberMaj(a: Word, b: Word, c: Word): int {
    NumberXor(NumberXor(NumberAnd(a, b), NumberAnd(a, c)), NumberAnd(b, c))
  }

  lemma AsWord(x: Word)
    ensures ToUint32(x) == x
  {
  }

  lemma ChExact(e: Word, f: Word, g: Word)
    ensures IsInt32(NumberCh(e, f, g)) && ToUint32(NumberCh(e, f, g)) == Ch(e, f, g)
  {
    hide And, Xor, Not, ToInt32, NumberNot, ToUint32;
    NotExact(e);
    assert ToUint32(e) == e && ToUint32(f) == f && ToUint32(g) == g by { AsWord(e); AsWord(f); AsWord(g); }
    Unsigned(And(e, f));
    Unsigned(And(Not(e), g));
    Unsigned(Xor(And(e, f), And(Not(e), g)));
    AsWord(And(e, f));
    AsWord(And(Not(e), g));
    AsWord(Xor(And(e, f), And(Not(e), g)));
  }

  lemma MajExact(a: Word, b: Word, c: Word)
    ensures IsInt32(NumberMaj(a, b, c)) && ToUint32(NumberMaj(a, b, c)) == Maj(a, b, c)
  {
    hide And, Xor, ToInt32, ToUint32;
    assert ToUint32(a) == a && ToUint32(b) == b && ToUint32(c) == c by { AsWord(a); AsWord(b); AsWord(c); }
    AsWord(And(a, b));
    AsWord(And(a, c));
    AsWord(And(b, c));
    Unsigned(And(a, b));
    Unsigned(And(a, c));
    Unsigned(And(b, c));
    MixedExact(NumberAnd(a, b), NumberAnd(a, c), NumberAnd(b, c));
  }

  /** An int32 stands for its word, up to a multiple of 2^32: sums that mix both stay right. */
  lemma SumExact(x: int, s: int, y: int, u: int)
    requires IsInt32(s) && IsInt32(u)
    ensures ToUint32(x + s + y + u) == (x + ToUint32(s) + y + ToUint32(u)) % TWO32
  {
  }

  // ---------------------------------------------------------------------
  // The algorithm, in place
  // ---------------------------------------------------------------------

  /** `setUint32`, big-endian. */
  method SetUint32(a: array<Byte>, at: nat, v: int)
    requires at + 4 <= a.Length
    modifies a
    ensures a[..] == old(a[..])[..at] + WordBytes(ToUint32(v)) + old(a[..])[at + 4..]
  {
    hide WordBytes;
    var b := WordBytes(ToUint32(v));
    a[at], a[at + 1], a[at + 2], a[at + 3] := b[0], b[1], b[2], b[3];
  }

  lemma PaddedLength(n: nat)
    ensures (n + 9 + 63) / 64 * 64 == n + 9 + Gap(n)
  {
    var q := (55 - n) / 64;
    assert 55 - n == 64 * q + Gap(n);
    assert n + 9 + 63 == 64 * (1 - q) + (63 - Gap(n));
  }

  /** The message, the first padding byte, and zeros. */
  method CopyMessage(message: seq<Byte>, length: nat) returns (padded: array<Byte>)
    requires |message| < length
    ensures fresh(padded) && padded[..] == message + [0x80] + Zeros(length - |message| - 1)
  {
    padded := new Byte[length](i => 0);
    forall i | 0 <= i < |message| { padded[i] := message[i]; }
    padded[|message|] := 0x80;
  }

  /** The length in bits is an exact number, and so is its upper half. */
  method PadMessage(message: seq<Byte>) returns (padded: array<Byte>)
    requires |message| < 0x4_0000_0000_0000
    ensures fresh(padded) && padded[..] == Pad(message)
  {
    hide WordBytes, LengthBytes, Gap, Zeros;
    var n := |message|;
    PaddedLength(n);
    padded := CopyMessage(message, (n + 9 + 63) / 64 * 64);
    var bits := n * 8;
    assert bits < EXACT;
    ZerosSplit(Gap(n), 8);
    ghost var head := message + [0x80] + Zeros(Gap(n));
    assert padded[..] == head + Zeros(8);
    SetUint32(padded, padded.Length - 8, bits / TWO32);
    SetUint32(padded, padded.Length - 4, ToUint32(bits));
    LengthWords(bits);
    TwoWords(head, Zeros(8), WordBytes(ToUint32(bits / TWO32)), WordBytes(ToUint32(ToUint32(bits))));
  }

  lemma TwoWords(head: seq<Byte>, rest: seq<Byte>, a: seq<Byte>, b: seq<Byte>)
    requires |rest| == 8 && |a| == 4 && |b| == 4
    ensures var s, n := head + rest, |head|;
            var t := s[..n] + a + s[n + 4..];
            t[..n + 4] + b + t[n + 8..] == head + (a + b)
  {
  }

  lemma ZerosSplit(n: nat, k: nat)
    ensures Zeros(n + k) == Zeros(n) + Zeros(k) && |Zeros(k)| == k
  {
  }

  lemma LengthWords(bits: nat)
    requires bits < EXACT
    ensures ToUint32(bits / TWO32) == bits / TWO32 && ToUint32(ToUint32(bits)) == bits % TWO32
    ensures LengthBytes(bits) == WordBytes(ToUint32(bits / TWO32)) + WordBytes(ToUint32(ToUint32(bits)))
  {
  }

  lemma ScheduleStart(block: seq<Byte>, t: nat)
    requires |block| == 64 && t < 16
    ensures Schedule(block, t) == BigEndian(block[4 * t..4 * t + 4])
  {
  }

  /** What the source adds up for a later word of the schedule. */
  lemma ScheduleStep(block: seq<Byte>, t: nat)
    requires |block| == 64 && 16 <= t < 64
    ensures var w2, w15 := Schedule(block, t - 2), Schedule(block, t - 15);
            var s0 := Mixed(Rotated(w15, 7), Rotated(w15, 18), NumberShr(w15, 3));
            var s1 := Mixed(Rotated(w2, 17), Rotated(w2, 19), NumberShr(w2, 10));
            var sum := Schedule(block, t - 16) + s0 + Schedule(block, t - 7) + s1;
            -EXACT <= sum <= EXACT && ToUint32(sum) == Schedule(block, t)
  {
    hide Mixed, Rotated, Xor, Rotr, Shr, BigEndian;
    var w2, w15 := Schedule(block, t - 2), Schedule(block, t - 15);
    SigmaExact(w15, 7, 18, 3);
    SigmaExact(w2, 17, 19, 10);
    SumExact(Schedule(block, t - 16), Mixed(Rotated(w15, 7), Rotated(w15, 18), NumberShr(w15, 3)),
             Schedule(block, t - 7), Mixed(Rotated(w2, 17), Rotated(w2, 19), NumberShr(w2, 10)));
  }

  lemma SigmaExact(x: Word, i: nat, j: nat, k: nat)
    requires i <= 32 && j <= 32
    ensures var s := Mixed(Rotated(x, i), Rotated(x, j), NumberShr(x, k));
            IsInt32(s) && ToUint32(s) == Xor(Xor(Rotr(x, i), Rotr(x, j)), Shr(x, k))
  {
    hide Mixed, Rotated, Xor, Rotr, Shr, ToUint32;
    RotatedExact(x, i);
    RotatedExact(x, j);
    AsWord(x);
    AsWord(Shr(x, k));
    MixedExact(Rotated(x, i), Rotated(x, j), NumberShr(x, k));
  }

  lemma BigSigmaExact(x: Word, i: nat, j: nat, k: nat)
    requires i <= 32 && j <= 32 && k <= 32
    ensures var s := Mixed(Rotated(x, i), Rotated(x, j), Rotated(x, k));
            IsInt32(s) && ToUint32(s) == Xor(Xor(Rotr(x, i), Rotr(x, j)), Rotr(x, k))
  {
    hide Mixed, Rotated, Xor, Rotr, ToUint32;
    RotatedExact(x, i);
    RotatedExact(x, j);
    RotatedExact(x, k);
    MixedExact(Rotated(x, i), Rotated(x, j), Rotated(x, k));
  }

  lemma SliceOf(p: seq<Byte>, from: nat, to: nat, i: nat, j: nat)
    requires from <= to <= |p| && i <= j <= to - from
    ensures p[from..to][i..j] == p[from + i..from + j]
  {
    assert forall k | 0 <= k < j - i :: p[from..to][i..j][k] == p[from + i + k];
  }

  method Expand(padded: array<Byte>, offset: nat, w: array<Word>)
    requires offset + 64 <= padded.Length && w.Length == 64
    modifies w
    ensures forall t | 0 <= t < 64 :: w[t] == Schedule(padded[offset..offset + 64], t)
  {
    hide Schedule, BigEndian, Mixed, Rotated, NumberShr, ToUint32;
    ghost var block, p := padded[offset..offset + 64], padded[..];
    assert block == p[offset..offset + 64];
    for t := 0 to 16
      modifies w
      invariant padded[..] == p
      invariant forall i | 0 <= i < t :: w[i] == Schedule(block, i)
    {
      ScheduleStart(block, t);
      SliceOf(p, offset, offset + 64, 4 * t, 4 * t + 4);
      assert padded[offset + t * 4..offset + t * 4 + 4] == p[offset + 4 * t..offset + 4 * t + 4];
      w[t] := BigEndian(padded[offset + t * 4..offset + t * 4 + 4]);
    }
    for t := 16 to 64
      modifies w
      invariant forall i | 0 <= i < t :: w[i] == Schedule(block, i)
    {
      ScheduleStep(block, t);
      var s0 := Mixed(Rotated(w[t - 15], 7), Rotated(w[t - 15], 18), NumberShr(w[t - 15], 3));
      var s1 := Mixed(Rotated(w[t - 2], 17), Rotated(w[t - 2], 19), NumberShr(w[t - 2], 10));
      w[t] := ToUint32(w[t - 16] + s0 + w[t - 7] + s1);
    }
  }

  /** The sums of one round as the source computes them. */
  function FirstSum(v: Eight, k: Word, w: Word): int {
    hide Mixed, Rotated, NumberCh;
    v.h + Mixed(Rotated(v.e, 6), Rotated(v.e, 11), Rotated(v.e, 25)) + NumberCh(v.e, v.f, v.g) + k + w
  }

  function SecondSum(v: Eight): int {
    hide Mixed, Rotated, NumberMaj;
    Mixed(Rotated(v.a, 2), Rotated(v.a, 13), Rotated(v.a, 22)) + NumberMaj(v.a, v.b, v.c)
  }

  function Plus(x: int, y: int): Word { ToUint32(x + y) }

  lemma RoundExact(v: Eight, k: Word, w: Word)
    ensures -EXACT <= FirstSum(v, k, w) <= EXACT
    ensures var t1, t2 := ToUint32(FirstSum(v, k, w)), ToUint32(SecondSum(v));
            Round(v, k, w) == Eight(Plus(t1, t2), v.a, v.b, v.c, Plus(v.d, t1), v.e, v.f, v.g)
  {
    hide Mixed, Rotated, NumberCh, NumberMaj, Ch, Maj, Xor, Rotr;
    BigSigmaExact(v.e, 6, 11, 25);
    BigSigmaExact(v.a, 2, 13, 22);
    ChExact(v.e, v.f, v.g);
    MajExact(v.a, v.b, v.c);
    SumExact(v.h, Mixed(Rotated(v.e, 6), Rotated(v.e, 11), Rotated(v.e, 25)), k + w, NumberCh(v.e, v.f, v.g));
    SumExact(0, Mixed(Rotated(v.a, 2), Rotated(v.a, 13), Rotated(v.a, 22)), 0, NumberMaj(v.a, v.b, v.c));
  }

  lemma RoundsStep(v: Eight, block: seq<Byte>, t: nat)
    requires |block| == 64 && t < 64
    ensures Rounds(v, block, t + 1) == Round(Rounds(v, block, t), Constant(t), Schedule(block, t))
  {
    hide Round, Constant, Schedule;
  }

  lemma RoundsStart(v: Eight, block: seq<Byte>)
    requires |block| == 64
    ensures Rounds(v, block, 0) == v
  {
  }

  function AsEight(h: seq<Word>): Eight
    requires |h| == 8
  {
    Eight(h[0], h[1], h[2], h[3], h[4], h[5], h[6], h[7])
  }

  method Mix(h: array<Word>, w: array<Word>, ghost block: seq<Byte>)
    requires h.Length == 8 && w.Length == 64 && h != w && |block| == 64
    requires forall t | 0 <= t < 64 :: w[t] == Schedule(block, t)
    modifies h
    ensures AsEight(h[..]) == AddWords(old(AsEight(h[..])), Rounds(old(AsEight(h[..])), block, 64))
  {
    hide Rounds, Round, Schedule, Constant, Mixed, Rotated, NumberCh, NumberMaj, ToUint32, Plus, AddWords;
    ghost var v := AsEight(h[..]);
    var a: Word, b: Word, c: Word, d: Word := h[0], h[1], h[2], h[3];
    var e: Word, f: Word, g: Word, hh: Word := h[4], h[5], h[6], h[7];
    RoundsStart(v, block);
    for t := 0 to 64
      invariant h[..] == old(h[..]) && Eight(a, b, c, d, e, f, g, hh) == Rounds(v, block, t)
    {
      RoundsStep(v, block, t);
      RoundExact(Rounds(v, block, t), Constant(t), w[t]);
      var bigS1 := Mixed(Rotated(e, 6), Rotated(e, 11), Rotated(e, 25));
      var ch := NumberCh(e, f, g);
      var t1 := ToUint32(hh + bigS1 + ch + Constant(t) + w[t]);
      var bigS0 := Mixed(Rotated(a, 2), Rotated(a, 13), Rotated(a, 22));
      var maj := NumberMaj(a, b, c);
      var t2 := ToUint32(bigS0 + maj);
      hh := g;
      g := f;
      f := e;
      e := Plus(d, t1);
      d := c;
      c := b;
      b := a;
      a := Plus(t1, t2);
    }
    AddWordsExact(v, Eight(a, b, c, d, e, f, g, hh));
    h[0] := Plus(h[0], a);
    h[1] := Plus(h[1], b);
    h[2] := Plus(h[2], c);
    h[3] := Plus(h[3], d);
    h[4] := Plus(h[4], e);
    h[5] := Plus(h[5], f);
    h[6] := Plus(h[6], g);
    h[7] := Plus(h[7], hh);
  }

  lemma AddWordsExact(v: Eight, u: Eight)
    ensures AddWords(v, u) == Eight(Plus(v.a, u.a), Plus(v.b, u.b), Plus(v.c, u.c), Plus(v.d, u.d),
                                    Plus(v.e, u.e), Plus(v.f, u.f), Plus(v.g, u.g), Plus(v.h, u.h))
  {
  }

  /** `sha256Portable`: the hash of FIPS 180-4, in lower-case hex. */
  method Sha256Portable(message: seq<Byte>) returns (hex: string)
    requires |message| < 0x4_0000_0000_0000
    ensures hex == HexOf(Hash(message))
  {
    hide Rounds, AddWords, Pad, PadStart, Hex, Schedule, Chain;
    ChainStart(Pad(message));
    var padded := PadMessage(message);
    var h := new Word[] [0x6a09e667, 0xbb67ae85, 0x3c6ef372, 0xa54ff53a,
                         0x510e527f, 0x9b05688c, 0x1f83d9ab, 0x5be0cd19];
    var w := new Word[64];
    var offset := 0;
    ghost var p, n := Pad(message), 0;
    while offset < padded.Length
      invariant offset == 64 * n <= padded.Length && padded[..] == p
      invariant AsEight(h[..]) == Chain(p, n)
      decreases padded.Length - offset
    {
      Expand(padded, offset, w);
      assert padded[offset..offset + 64] == p[64 * n..64 * n + 64];
      Mix(h, w, p[64 * n..64 * n + 64]);
      ChainStep(p, n);
      offset, n := offset + 64, n + 1;
    }
    assert n == |p| / 64;
    var words := h[..];
    ghost var v := Hash(message);
    assert words == [v.a, v.b, v.c, v.d, v.e, v.f, v.g, v.h];
    hex := "";
    for i := 0 to 8
      invariant hex == HexJoined(words[..i])
    {
      assert words[..i + 1][..i] == words[..i];
      hex := hex + PadStart(Hex(words[i]), 8);
    }
    assert words[..8] == words;
  }

  lemma ChainStart(p: seq<Byte>)
    ensures Chain(p, 0) == Initial()
  {
  }

  lemma ChainStep(p: seq<Byte>, n: nat)
    requires 64 * n + 64 <= |p|
    ensures Chain(p, n + 1) == Absorb(Chain(p, n), p, n)
  {
    hide Absorb;
  }

  // ---------------------------------------------------------------------
  // Hex
  // ---------------------------------------------------------------------

  function HexDigit(d: nat): char
    requires d < 16
  {
    if d < 10 then ('0' as int + d) as char else ('a' as int + (d - 10)) as char
  }

  /** `toString(16)`. */
  function Hex(x: nat): string {
    if x < 16 then [HexDigit(x)] else Hex(x / 16) + [HexDigit(x % 16)]
  }

  /** `padStart(n, "0")`. */
  function PadStart(s: string, n: nat): string
    decreases n - |s|
  {
    if |s| >= n then s else PadStart("0" + s, n)
  }

  function HexJoined(words: seq<Word>): string {
    if words == [] then "" else HexJoined(words[..|words| - 1]) + PadStart(Hex(words[|words| - 1]), 8)
  }

  function HexOf(v: Eight): string { HexJoined([v.a, v.b, v.c, v.d, v.e, v.f, v.g, v.h]) }

  function DigitValue(c: char): int {
    if c <= '9' then c as int - '0' as int else c as int - 'a' as int + 10
  }

  function HexValue(s: string): int {
    if s == "" then 0 else 16 * HexValue(s[..|s| - 1]) + DigitValue(s[|s| - 1])
  }

  lemma {:induction false} HexReads(x: nat, n: nat, limit: nat)
    requires x < limit && limit == Bits.Pow2(4 * n) && n > 0
    ensures HexValue(Hex(x)) == x && |Hex(x)| <= n
  {
    var s := Hex(x);
    assert Pow2(4) == 16;
    if x < 16 {
      assert s[..0] == "";
    } else {
      assert s[..|s| - 1] == Hex(x / 16);
      Pow2Four(4 * (n - 1));
      HexReads(x / 16, n - 1, Pow2(4 * (n - 1)));
    }
  }

  lemma Pow2Four(k: nat)
    ensures Pow2(k + 4) == 16 * Pow2(k)
  {
    assert Pow2(k + 2) == 4 * Pow2(k);
  }

  lemma {:induction false} ZeroInFront(s: string)
    ensures HexValue("0" + s) == HexValue(s)
  {
    var t := "0" + s;
    if s == "" {
      assert t[..0] == "";
    } else {
      assert t[..|t| - 1] == "0" + s[..|s| - 1];
      ZeroInFront(s[..|s| - 1]);
    }
  }

  lemma {:induction false} PadStartReads(s: string, n: nat)
    requires |s| <= n
    ensures |PadStart(s, n)| == n && HexValue(PadStart(s, n)) == HexValue(s)
    decreases n - |s|
  {
    if |s| < n {
      ZeroInFront(s);
      PadStartReads("0" + s, n);
    }
  }

  lemma WordReads(x: Word)
    ensures |PadStart(Hex(x), 8)| == 8 && HexValue(PadStart(Hex(x), 8)) == x
  {
    hide Pow2;
    Pow2Of32();
    HexReads(x, 8, TWO32);
    PadStartReads(Hex(x), 8);
  }

  /** The hex spells the words: eight digits each, and none is lost. */
  lemma {:induction false} HexSpells(words: seq<Word>, i: nat)
    requires i < |words|
    ensures |HexJoined(words)| == 8 * |words|
    ensures HexValue(HexJoined(words)[8 * i..8 * i + 8]) == words[i]
  {
    hide HexValue, PadStart, Hex;
    var n := |words| - 1;
    var head, s := HexJoined(words[..n]), HexJoined(words);
    WordReads(words[n]);
    HexLength(words[..n]);
    if i == n {
      assert s[8 * i..8 * i + 8] == PadStart(Hex(words[n]), 8);
    } else {
      HexSpells(words[..n], i);
      assert s[8 * i..8 * i + 8] == head[8 * i..8 * i + 8];
    }
  }

  lemma {:induction false} HexLength(words: seq<Word>)
    ensures |HexJoined(words)| == 8 * |words|
  {
    hide PadStart, Hex;
    if words != [] {
      HexLength(words[..|words| - 1]);
      WordReads(words[|words| - 1]);
    }
  }

  // ---------------------------------------------------------------------
  // Where the constants come from
  // ---------------------------------------------------------------------

  /** The first 64 primes, in rows of eight. */
  function PrimeRow(r: nat): (row: seq<nat>)
    requires r < 8
    ensures |row| == 8
  {
    if r == 0 then [2, 3, 5, 7, 11, 13, 17, 19]
    else if r == 1 then [23, 29, 31, 37, 41, 43, 47, 53]
    else if r == 2 then [59, 61, 67, 71, 73, 79, 83, 89]
    else if r == 3 then [97, 101, 103, 107, 109, 113, 127, 131]
    else if r == 4 then [137, 139, 149, 151, 157, 163, 167, 173]
    else if r == 5 then [179, 181, 191, 193, 197, 199, 211, 223]
    else if r == 6 then [227, 229, 233, 239, 241, 251, 257, 263]
    else [269, 271, 277, 281, 283, 293, 307, 311]
  }

  /** `bits` are the first 32 bits of the fractional part of the cube root of `p`. */
  predicate CubeRootBits(p: nat, bits: Word) {
    exists c | 1 <= c <= 6 :: IsCubeRoot(p, c, bits)
  }

  predicate IsCubeRoot(p: nat, c: nat, bits: Word) {
    var x := c * TWO32 + bits;
    x * x * x <= p * 0x1_0000_0000_0000_0000_0000_0000 < (x + 1) * (x + 1) * (x + 1)
  }

  /** The same for the square root. */
  predicate SquareRootBits(p: nat, bits: Word) {
    exists c | 1 <= c <= 4 :: IsSquareRoot(p, c, bits)
  }

  predicate IsSquareRoot(p: nat, c: nat, bits: Word) {
    var x := c * TWO32 + bits;
    x * x <= p * 0x1_0000_0000_0000_0000 < (x + 1) * (x + 1)
  }

  /** A row of numbers whose cube roots are known to the integer. */
  lemma RowIsCubeRoots(row: seq<nat>, roots: seq<nat>, bits: seq<Word>)
    requires |row| == |roots| == |bits|
    requires forall i | 0 <= i < |row| :: 1 <= roots[i] <= 6 && IsCubeRoot(row[i], roots[i], bits[i])
    ensures forall i | 0 <= i < |row| :: CubeRootBits(row[i], bits[i])
  {
    hide IsCubeRoot;
  }

  lemma Row0()
    ensures forall i | 0 <= i < 8 :: CubeRootBits(PrimeRow(0)[i], ConstantRow(0)[i])
  {
    RowIsCubeRoots(PrimeRow(0), [1, 1, 1, 1, 2, 2, 2, 2], ConstantRow(0));
  }

  lemma Row1()
    ensures forall i | 0 <= i < 8 :: CubeRootBits(PrimeRow(1)[i], ConstantRow(1)[i])
  {
    RowIsCubeRoots(PrimeRow(1), [2, 3, 3, 3, 3, 3, 3, 3], ConstantRow(1));
  }

  lemma Row2()
    ensures forall i | 0 <= i < 8 :: CubeRootBits(PrimeRow(2)[i], ConstantRow(2)[i])
  {
    RowIsCubeRoots(PrimeRow(2), [3, 3, 4, 4, 4, 4, 4, 4], ConstantRow(2));
  }

  lemma Row3()
    ensures forall i | 0 <= i < 8 :: CubeRootBits(PrimeRow(3)[i], ConstantRow(3)[i])
  {
    RowIsCubeRoots(PrimeRow(3), [4, 4, 4, 4, 4, 4, 5, 5], ConstantRow(3));
  }

  lemma Row4()
    ensures forall i | 0 <= i < 8 :: CubeRootBits(PrimeRow(4)[i], ConstantRow(4)[i])
  {
    RowIsCubeRoots(PrimeRow(4), [5, 5, 5, 5, 5, 5, 5, 5], ConstantRow(4));
  }

  lemma Row5()
    ensures forall i | 0 <= i < 8 :: CubeRootBits(PrimeRow(5)[i], ConstantRow(5)[i])
  {
    RowIsCubeRoots(PrimeRow(5), [5, 5, 5, 5, 5, 5, 5, 6], ConstantRow(5));
  }

  lemma Row6()
    ensures forall i | 0 <= i < 8 :: CubeRootBits(PrimeRow(6)[i], ConstantRow(6)[i])
  {
    RowIsCubeRoots(PrimeRow(6), [6, 6, 6, 6, 6, 6, 6, 6], ConstantRow(6));
  }

  lemma Row7()
    ensures forall i | 0 <= i < 8 :: CubeRootBits(PrimeRow(7)[i], ConstantRow(7)[i])
  {
    RowIsCubeRoots(PrimeRow(7), [6, 6, 6, 6, 6, 6, 6, 6], ConstantRow(7));
  }

  /** Section 4.2.2: the constants are cube roots of the first 64 primes. */
  lemma ConstantsAreCubeRoots(t: nat)
    requires t < 64
    ensures CubeRootBits(PrimeRow(t / 8)[t % 8], Constant(t))
  {
    hide PrimeRow, ConstantRow, CubeRootBits;
    var r := t / 8;
    if r == 0 { Row0(); } else if r == 1 { Row1(); } else if r == 2 { Row2(); } else if r == 3 { Row3(); }
    else if r == 4 { Row4(); } else if r == 5 { Row5(); } else if r == 6 { Row6(); } else { Row7(); }
  }

  /** Section 5.3.3: the initial hash value holds square roots of the first eight primes. */
  lemma InitialAreSquareRoots()
    ensures var v := Initial();
            && SquareRootBits(2, v.a) && SquareRootBits(3, v.b) && SquareRootBits(5, v.c) && SquareRootBits(7, v.d)
            && SquareRootBits(11, v.e) && SquareRootBits(13, v.f) && SquareRootBits(17, v.g) && SquareRootBits(19, v.h)
  {
    assert IsSquareRoot(2, 1, 0x6a09e667);
    assert IsSquareRoot(3, 1, 0xbb67ae85);
    assert IsSquareRoot(5, 2, 0x3c6ef372);
    assert IsSquareRoot(7, 2, 0xa54ff53a);
    assert IsSquareRoot(11, 3, 0x510e527f);
    assert IsSquareRoot(13, 3, 0x9b05688c);
    assert IsSquareRoot(17, 4, 0x1f83d9ab);
    assert IsSquareRoot(19, 4, 0x5be0cd19);
  }
}
