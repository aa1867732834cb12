/** The functions SHA-256 applies to its words, bit by bit. */
module ShaWords {
  import opened BookTypes
  import opened Sha256s
  import Bits

  // ----- the functions of section 4.1.2 of FIPS 180-4, at each bit -----

  lemma {:induction false} NotBits(x: nat, n: nat, k: nat)
    requires x < Bits.Pow2(n)
    ensures Bits.Bit(Bits.Pow2(n) - 1 - x, k) <==> k < n && !Bits.Bit(x, k)
  {
    if n == 0 { Bits.ZeroHasNoBits(k); } else if k > 0 { NotBits(x / 2, n - 1, k - 1); }
  }

  lemma WordBits(x: Word, y: Word, k: nat)
    ensures Bits.Bit(Xor32(x, y), k) <==> Bits.Bit(x, k) != Bits.Bit(y, k)
    ensures Bits.Bit(And32(x, y), k) <==> Bits.Bit(x, k) && Bits.Bit(y, k)
    ensures Bits.Bit(Not32(x), k) <==> k < 32 && !Bits.Bit(x, k)
    ensures Bits.Bit(x, k) || Bits.Bit(y, k) ==> k < 32
  {
    Bits.Pow2Of32();
    XorBits(x, y, 32, k);
    Bits.AndBits(x, y, k);
    NotBits(x, 32, k);
    if Bits.Bit(x, k) { Bits.BitFits(x, 32, k); }
    if Bits.Bit(y, k) { Bits.BitFits(y, 32, k); }
  }

  /** A shift brings bit k + n to bit k, and nothing into the top n bits. */
  lemma ShrBits(x: Word, n: nat, k: nat)
    requires n < 32
    ensures Bits.Bit(Shr(x, n), k) <==> k + n < 32 && Bits.Bit(x, k + n)
  {
    Bits.Pow2Of32();
    ShiftedRight(x, n, k);
    if Bits.Bit(x, k + n) { Bits.BitFits(x, 32, k + n); }
  }

  /** Where x has a one, y's bit; where it has a zero, z's. */
  lemma ChBits(x: Word, y: Word, z: Word, k: nat)
    ensures Bits.Bit(Ch(x, y, z), k) <==> k < 32 && if Bits.Bit(x, k) then Bits.Bit(y, k) else Bits.Bit(z, k)
  {
    hide Xor32, And32, Not32;
    WordBits(x, y, k);
    WordBits(Not32(x), z, k);
    WordBits(And32(x, y), And32(Not32(x), z), k);
  }

  /** A one where at least two of the three have one. */
  lemma MajBits(x: Word, y: Word, z: Word, k: nat)
    ensures Bits.Bit(Maj(x, y, z), k) <==> One(Bits.Bit(x, k)) + One(Bits.Bit(y, k)) + One(Bits.Bit(z, k)) >= 2
  {
    hide Xor32, And32;
    WordBits(x, y, k);
    WordBits(x, z, k);
    WordBits(y, z, k);
    WordBits(And32(x, y), And32(x, z), k);
    WordBits(Xor32(And32(x, y), And32(x, z)), And32(y, z), k);
  }

  /** Bit k of x read n places further up, going round at the top. */
  predicate Round32(x: Word, k: nat, n: nat) { Bits.Bit(x, if k + n < 32 then k + n else k + n - 32) }

  predicate Odd(a: bool, b: bool, c: bool) { (One(a) + One(b) + One(c)) % 2 == 1 }

  lemma ThreeBits(x: Word, y: Word, z: Word, k: nat)
    ensures Bits.Bit(Xor32(Xor32(x, y), z), k) <==> Odd(Bits.Bit(x, k), Bits.Bit(y, k), Bits.Bit(z, k))
  {
    hide Xor32;
    WordBits(x, y, k);
    WordBits(Xor32(x, y), z, k);
  }

  lemma BigSigmaBits(x: Word, k: nat)
    requires k < 32
    ensures Bits.Bit(BigSigma0(x), k) <==> Odd(Round32(x, k, 2), Round32(x, k, 13), Round32(x, k, 22))
    ensures Bits.Bit(BigSigma1(x), k) <==> Odd(Round32(x, k, 6), Round32(x, k, 11), Round32(x, k, 25))
  {
    hide Xor32, Rotr, Odd;
    RotrBits(x, 2, k);
    RotrBits(x, 13, k);
    RotrBits(x, 22, k);
    ThreeBits(Rotr(x, 2), Rotr(x, 13), Rotr(x, 22), k);
    RotrBits(x, 6, k);
    RotrBits(x, 11, k);
    RotrBits(x, 25, k);
    ThreeBits(Rotr(x, 6), Rotr(x, 11), Rotr(x, 25), k);
  }

  lemma SmallSigmaBits(x: Word, k: nat)
    requires k < 32
    ensures Bits.Bit(SmallSigma0(x), k) <==>
            Odd(Round32(x, k, 7), Round32(x, k, 18), k + 3 < 32 && Bits.Bit(x, k + 3))
    ensures Bits.Bit(SmallSigma1(x), k) <==>
            Odd(Round32(x, k, 17), Round32(x, k, 19), k + 10 < 32 && Bits.Bit(x, k + 10))
  {
    hide Xor32, Rotr, Shr, Odd;
    RotrBits(x, 7, k);
    RotrBits(x, 18, k);
    ShrBits(x, 3, k);
    ThreeBits(Rotr(x, 7), Rotr(x, 18), Shr(x, 3), k);
    RotrBits(x, 17, k);
    RotrBits(x, 19, k);
    ShrBits(x, 10, k);
    ThreeBits(Rotr(x, 17), Rotr(x, 19), Shr(x, 10), k);
  }

  lemma PlusIsModular(x: Word, y: Word)
    ensures Plus(x, y) == (x + y) % 0x1_0000_0000
  {
  }
}
