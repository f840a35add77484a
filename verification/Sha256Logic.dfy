/** The logical functions of section 4.1.2 of FIPS 180-4, bit by bit. Bit 0 is the least significant. */
module Sha256Logic {
  import opened Sha256Spec

  predicate Bit(x: Word, i: bv6)
    requires i < 32
  {
    (x >> i) & 1 != 0
  }

  /** The place of the bit that comes to place `i` when a word is rotated right by `n`. */
  function Source(i: bv6, n: bv6): (r: bv6)
    requires i < 32 && n < 32
    ensures r < 32
  {
    (i + n) & 31
  }

  // ---------------------------------------------------------------- one bit of one operation

  function And(x: Word, y: Word): Word { x & y }
  function Xor(x: Word, y: Word): Word { x ^ y }
  function Not(x: Word): Word { !x }

  lemma RawXorBit(x: Word, y: Word, i: bv6)
    requires i < 32
    ensures Bit(x ^ y, i) == (Bit(x, i) != Bit(y, i))
  {
  }

  lemma XorBit(x: Word, y: Word, i: bv6)
    requires i < 32
    ensures Bit(Xor(x, y), i) == (Bit(x, i) != Bit(y, i))
  {
    hide Bit;
    RawXorBit(x, y, i);
  }

  lemma RawAndBit(x: Word, y: Word, i: bv6)
    requires i < 32
    ensures Bit(x & y, i) == (Bit(x, i) && Bit(y, i))
  {
  }

  lemma AndBit(x: Word, y: Word, i: bv6)
    requires i < 32
    ensures Bit(And(x, y), i) == (Bit(x, i) && Bit(y, i))
  {
    hide Bit;
    RawAndBit(x, y, i);
  }

  lemma NotBit(x: Word, i: bv6)
    requires i < 32
    ensures Bit(Not(x), i) == !Bit(x, i)
  {
  }

  lemma RotrBit2(x: Word, i: bv6)
    requires i < 32
    ensures Bit(Rotr(x, 2), i) == Bit(x, Source(i, 2))
  {
  }

  lemma RotrBit6(x: Word, i: bv6)
    requires i < 32
    ensures Bit(Rotr(x, 6), i) == Bit(x, Source(i, 6))
  {
  }

  lemma RotrBit7(x: Word, i: bv6)
    requires i < 32
    ensures Bit(Rotr(x, 7), i) == Bit(x, Source(i, 7))
  {
  }

  lemma RotrBit11(x: Word, i: bv6)
    requires i < 32
    ensures Bit(Rotr(x, 11), i) == Bit(x, Source(i, 11))
  {
  }

  lemma RotrBit13(x: Word, i: bv6)
    requires i < 32
    ensures Bit(Rotr(x, 13), i) == Bit(x, Source(i, 13))
  {
  }

  lemma RotrBit17(x: Word, i: bv6)
    requires i < 32
    ensures Bit(Rotr(x, 17), i) == Bit(x, Source(i, 17))
  {
  }

  lemma RotrBit18(x: Word, i: bv6)
    requires i < 32
    ensures Bit(Rotr(x, 18), i) == Bit(x, Source(i, 18))
  {
  }

  lemma RotrBit19(x: Word, i: bv6)
    requires i < 32
    ensures Bit(Rotr(x, 19), i) == Bit(x, Source(i, 19))
  {
  }

  lemma RotrBit22(x: Word, i: bv6)
    requires i < 32
    ensures Bit(Rotr(x, 22), i) == Bit(x, Source(i, 22))
  {
  }

  lemma RotrBit25(x: Word, i: bv6)
    requires i < 32
    ensures Bit(Rotr(x, 25), i) == Bit(x, Source(i, 25))
  {
  }

  lemma ShrBit3(x: Word, i: bv6)
    requires i < 32
    ensures Bit(Shr(x, 3), i) == (i < 29 && Bit(x, i + 3))
  {
  }

  lemma ShrBit10(x: Word, i: bv6)
    requires i < 32
    ensures Bit(Shr(x, 10), i) == (i < 22 && Bit(x, i + 10))
  {
  }

  lemma Xor3Bit(x: Word, y: Word, z: Word, i: bv6)
    requires i < 32
    ensures Bit(Xor3(x, y, z), i) == ((Bit(x, i) != Bit(y, i)) != Bit(z, i))
  {
    hide Bit;
    RawXorBit(x, y, i);
    RawXorBit(x ^ y, z, i);
  }

  // ---------------------------------------------------------------- the six functions

  lemma ChForm(x: Word, y: Word, z: Word)
    ensures Ch(x, y, z) == Xor(And(x, y), And(Not(x), z))
  {
  }

  lemma MajForm(x: Word, y: Word, z: Word)
    ensures Maj(x, y, z) == Xor3(And(x, y), And(x, z), And(y, z))
  {
  }

  /** A choice: the bit of y where x has a one, the bit of z where it has a zero. */
  lemma ChBits(x: Word, y: Word, z: Word, i: bv6)
    requires i < 32
    ensures Bit(Ch(x, y, z), i) == if Bit(x, i) then Bit(y, i) else Bit(z, i)
  {
    hide Bit, And, Xor, Not, Ch;
    ChForm(x, y, z);
    AndBit(x, y, i);
    NotBit(x, i);
    AndBit(Not(x), z, i);
    XorBit(And(x, y), And(Not(x), z), i);
  }

  /** A majority: a one where at least two of the three words have one. */
  lemma MajBits(x: Word, y: Word, z: Word, i: bv6)
    requires i < 32
    ensures Bit(Maj(x, y, z), i) ==
            ((Bit(x, i) && Bit(y, i)) || (Bit(x, i) && Bit(z, i)) || (Bit(y, i) && Bit(z, i)))
  {
    hide Bit, And, Xor3, Maj;
    MajForm(x, y, z);
    AndBit(x, y, i);
    AndBit(x, z, i);
    AndBit(y, z, i);
    Xor3Bit(And(x, y), And(x, z), And(y, z), i);
  }

  /** Each bit of a sigma is the exclusive or of three bits of its argument. */
  lemma BigSigma0Bits(x: Word, i: bv6)
    requires i < 32
    ensures Bit(BigSigma0(x), i) ==
            ((Bit(x, Source(i, 2)) != Bit(x, Source(i, 13))) != Bit(x, Source(i, 22)))
  {
    hide Bit, Rotr, Source, Xor3;
    RotrBit2(x, i);
    RotrBit13(x, i);
    RotrBit22(x, i);
    Xor3Bit(Rotr(x, 2), Rotr(x, 13), Rotr(x, 22), i);
  }

  lemma BigSigma1Bits(x: Word, i: bv6)
    requires i < 32
    ensures Bit(BigSigma1(x), i) ==
            ((Bit(x, Source(i, 6)) != Bit(x, Source(i, 11))) != Bit(x, Source(i, 25)))
  {
    hide Bit, Rotr, Source, Xor3;
    RotrBit6(x, i);
    RotrBit11(x, i);
    RotrBit25(x, i);
    Xor3Bit(Rotr(x, 6), Rotr(x, 11), Rotr(x, 25), i);
  }

  lemma SmallSigma0Bits(x: Word, i: bv6)
    requires i < 32
    ensures Bit(SmallSigma0(x), i) ==
            ((Bit(x, Source(i, 7)) != Bit(x, Source(i, 18))) != (i < 29 && Bit(x, i + 3)))
  {
    hide Bit, Rotr, Shr, Source, Xor3;
    RotrBit7(x, i);
    RotrBit18(x, i);
    ShrBit3(x, i);
    Xor3Bit(Rotr(x, 7), Rotr(x, 18), Shr(x, 3), i);
  }

  lemma SmallSigma1Bits(x: Word, i: bv6)
    requires i < 32
    ensures Bit(SmallSigma1(x), i) ==
            ((Bit(x, Source(i, 17)) != Bit(x, Source(i, 19))) != (i < 22 && Bit(x, i + 10)))
  {
    hide Bit, Rotr, Shr, Source, Xor3;
    RotrBit17(x, i);
    RotrBit19(x, i);
    ShrBit10(x, i);
    Xor3Bit(Rotr(x, 17), Rotr(x, 19), Shr(x, 10), i);
  }
}
