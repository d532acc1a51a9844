/** The functions of FIPS 180-4, section 4.1.2, bit by bit. */
module WordLaws {
  import opened Bits
  import opened Sha256

  lemma Bitwise(x: Word, y: Word, i: nat)
    requires i < 32
    ensures Bit(And(x, y), i) <==> Bit(x, i) && Bit(y, i)
    ensures Bit(Or(x, y), i) <==> Bit(x, i) || Bit(y, i)
    ensures Bit(Xor(x, y), i) <==> Bit(x, i) != Bit(y, i)
    ensures Bit(Not(x), i) <==> !Bit(x, i)
  {
    hide FromBits, Bit;
    FromBitsExact((j: nat) => Bit(x, j) && Bit(y, j), 32, i);
    FromBitsExact((j: nat) => Bit(x, j) || Bit(y, j), 32, i);
    FromBitsExact((j: nat) => Bit(x, j) != Bit(y, j), 32, i);
    FromBitsExact((j: nat) => !Bit(x, j), 32, i);
  }

  /** Each bit of the first word chooses between the other two. */
  lemma ChChooses(x: Word, y: Word, z: Word, i: nat)
    requires i < 32
    ensures Bit(Ch(x, y, z), i) <==> if Bit(x, i) then Bit(y, i) else Bit(z, i)
  {
    hide And, Xor, Not, Bit;
    Bitwise(x, y, i);
    Bitwise(x, z, i);
    Bitwise(Not(x), z, i);
    Bitwise(And(x, y), And(Not(x), z), i);
  }

  /** Each bit is that of two words at least. */
  lemma MajVotes(x: Word, y: Word, z: Word, i: nat)
    requires i < 32
    ensures Bit(Maj(x, y, z), i) <==>
            (Bit(x, i) && Bit(y, i)) || (Bit(x, i) && Bit(z, i)) || (Bit(y, i) && Bit(z, i))
  {
    hide And, Xor, Bit;
    Bitwise(x, y, i);
    Bitwise(x, z, i);
    Bitwise(y, z, i);
    Bitwise(And(x, y), And(x, z), i);
    Bitwise(Xor(And(x, y), And(x, z)), And(y, z), i);
  }

  lemma XorOfThree(x: Word, y: Word, z: Word, i: nat)
    requires i < 32
    ensures Bit(Xor(Xor(x, y), z), i) <==> (Bit(x, i) != Bit(y, i)) != Bit(z, i)
  {
    hide And, Or, Xor, Not, Bit;
    Bitwise(x, y, i);
    Bitwise(Xor(x, y), z, i);
  }

  /** Each bit is the parity of three bits of the word: further up, and round the end. */
  lemma BigSigmasAreParities(x: Word, i: nat)
    requires i < 32
    ensures Bit(BigSigma0(x), i) <==> (Bit(x, (i + 2) % 32) != Bit(x, (i + 13) % 32)) != Bit(x, (i + 22) % 32)
    ensures Bit(BigSigma1(x), i) <==> (Bit(x, (i + 6) % 32) != Bit(x, (i + 11) % 32)) != Bit(x, (i + 25) % 32)
  {
    hide Xor, Rotr, Bit;
    RotrRotates(x, 2, i);
    RotrRotates(x, 13, i);
    RotrRotates(x, 22, i);
    RotrRotates(x, 6, i);
    RotrRotates(x, 11, i);
    RotrRotates(x, 25, i);
    XorOfThree(Rotr(x, 2), Rotr(x, 13), Rotr(x, 22), i);
    XorOfThree(Rotr(x, 6), Rotr(x, 11), Rotr(x, 25), i);
  }

  /** The same for the schedule, where the third bit is lost at the top. */
  lemma SmallSigmasAreParities(x: Word, i: nat)
    requires i < 32
    ensures Bit(SmallSigma0(x), i) <==>
            (Bit(x, (i + 7) % 32) != Bit(x, (i + 18) % 32)) != (i + 3 < 32 && Bit(x, i + 3))
    ensures Bit(SmallSigma1(x), i) <==>
            (Bit(x, (i + 17) % 32) != Bit(x, (i + 19) % 32)) != (i + 10 < 32 && Bit(x, i + 10))
  {
    hide Xor, Rotr, Bit, Shr;
    RotrRotates(x, 7, i);
    RotrRotates(x, 18, i);
    RotrRotates(x, 17, i);
    RotrRotates(x, 19, i);
    ShiftDown(x, 3, i);
    ShiftDown(x, 10, i);
    Pow2Of32();
    if i + 3 >= 32 { HighBits(x, 32, i + 3); }
    if i + 10 >= 32 { HighBits(x, 32, i + 10); }
    XorOfThree(Rotr(x, 7), Rotr(x, 18), Shr(x, 3), i);
    XorOfThree(Rotr(x, 17), Rotr(x, 19), Shr(x, 10), i);
  }

  /** A word's bytes, the first one highest. */
  lemma BigEndianReads(b: seq<Byte>)
    requires |b| == 4
    ensures var x := BigEndian(b);
            x / 0x1000000 == b[0] && x / 0x10000 % 0x100 == b[1] && x / 0x100 % 0x100 == b[2] && x % 0x100 == b[3]
  {
    var x := BigEndian(b);
    var (b0: int, b1: int, b2: int, b3: int) := (b[0], b[1], b[2], b[3]);
    LastByte(x, b0 * 0x10000 + b1 * 0x100 + b2, b3, 0x100);
    LastByte(x, b0 * 0x100 + b1, b2 * 0x100 + b3, 0x10000);
    LastByte(x, b0, b1 * 0x10000 + b2 * 0x100 + b3, 0x1000000);
    LastByte(b0 * 0x10000 + b1 * 0x100 + b2, b0 * 0x100 + b1, b2, 0x100);
    LastByte(b0 * 0x100 + b1, b0, b1, 0x100);
  }

  lemma LastByte(x: nat, q: nat, r: nat, p: nat)
    requires p > 0 && x == q * p + r && r < p
    ensures x / p == q && x % p == r
  {
    DivUnique(x, p, q, r);
  }
}
