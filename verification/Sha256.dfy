/** SHA-256 as an object that takes its input in pieces, against the standard's definition on the whole input. */
module Sha256s {
  import opened BookTypes
  import opened Wire
  import Bits

  /** A 32-bit word; every sum is taken modulo 2^32. */
  type Word = u32

  function Plus(x: Word, y: Word): Word { if x + y < 0x1_0000_0000 then x + y else x + y - 0x1_0000_0000 }

  /** The eight working variables, and the eight words of the hash value. */
  datatype Words = Words(a: Word, b: Word, c: Word, d: Word, e: Word, f: Word, g: Word, h: Word)

  const INITIAL_HASH := Words(0x6a09e667, 0xbb67ae85, 0x3c6ef372, 0xa54ff53a, 0x510e527f, 0x9b05688c, 0x1f83d9ab,
    0x5be0cd19)

  const K: seq<Word> :=
    [0x428a2f98, 0x71374491, 0xb5c0fbcf, 0xe9b5dba5, 0x3956c25b, 0x59f111f1, 0x923f82a4, 0xab1c5ed5] +
    [0xd807aa98, 0x12835b01, 0x243185be, 0x550c7dc3, 0x72be5d74, 0x80deb1fe, 0x9bdc06a7, 0xc19bf174] +
    [0xe49b69c1, 0xefbe4786, 0x0fc19dc6, 0x240ca1cc, 0x2de92c6f, 0x4a7484aa, 0x5cb0a9dc, 0x76f988da] +
    [0x983e5152, 0xa831c66d, 0xb00327c8, 0xbf597fc7, 0xc6e00bf3, 0xd5a79147, 0x06ca6351, 0x14292967] +
    [0x27b70a85, 0x2e1b2138, 0x4d2c6dfc, 0x53380d13, 0x650a7354, 0x766a0abb, 0x81c2c92e, 0x92722c85] +
    [0xa2bfe8a1, 0xa81a664b, 0xc24b8b70, 0xc76c51a3, 0xd192e819, 0xd6990624, 0xf40e3585, 0x106aa070] +
    [0x19a4c116, 0x1e376c08, 0x2748774c, 0x34b0bcb5, 0x391c0cb3, 0x4ed8aa4a, 0x5b9cca4f, 0x682e6ff3] +
    [0x748f82ee, 0x78a5636f, 0x84c87814, 0x8cc70208, 0x90befffa, 0xa4506ceb, 0xbef9a3f7, 0xc67178f2]

  function Constant(i: nat): Word
    requires i < 64
  {
    K[i]
  }

  // ----- section 4.1.2 of FIPS 180-4 -----

  /** Bit by bit, on the low n bits. */
  function Xor(x: nat, y: nat, n: nat): (z: nat)
    ensures z < Bits.Pow2(n)
  {
    if n == 0 then 0 else 2 * Xor(x / 2, y / 2, n - 1) + if x % 2 != y % 2 then 1 else 0
  }

  function Or(x: nat, y: nat, n: nat): (z: nat)
    ensures z < Bits.Pow2(n)
  {
    if n == 0 then 0 else 2 * Or(x / 2, y / 2, n - 1) + if x % 2 + y % 2 > 0 then 1 else 0
  }

  lemma {:induction false} XorBits(x: nat, y: nat, n: nat, k: nat)
    ensures Bits.Bit(Xor(x, y, n), k) <==> k < n && (Bits.Bit(x, k) != Bits.Bit(y, k))
  {
    if n == 0 { Bits.ZeroHasNoBits(k); } else if k > 0 { XorBits(x / 2, y / 2, n - 1, k - 1); }
  }

  lemma {:induction false} OrBits(x: nat, y: nat, n: nat, k: nat)
    ensures Bits.Bit(Or(x, y, n), k) <==> k < n && (Bits.Bit(x, k) || Bits.Bit(y, k))
  {
    if n == 0 { Bits.ZeroHasNoBits(k); } else if k > 0 { OrBits(x / 2, y / 2, n - 1, k - 1); }
  }

  lemma {:induction false} ShiftedRight(x: nat, n: nat, k: nat)
    ensures Bits.Bit(Bits.ShiftRight(x, n), k) <==> Bits.Bit(x, k + n)
  {
    if n > 0 { ShiftedRight(x / 2, n - 1, k); }
  }

  lemma {:induction false} ShiftedLeft(x: nat, n: nat, k: nat)
    ensures Bits.Bit(x * Bits.Pow2(n), k) <==> k >= n && Bits.Bit(x, k - n)
  {
    if n > 0 {
      Halved(x, Bits.Pow2(n - 1));
      if k > 0 { ShiftedLeft(x, n - 1, k - 1); }
    }
  }

  lemma Halved(x: nat, p: nat)
    ensures x * (2 * p) == 2 * (x * p) && x * (2 * p) / 2 == x * p && x * (2 * p) % 2 == 0
  {
  }

  /** A rotation moves bit (k + n) mod 32 to bit k. */
  lemma RotrBits(x: Word, n: nat, k: nat)
    requires 0 < n < 32 && k < 32
    ensures Bits.Bit(Rotr(x, n), k) <==> Bits.Bit(x, if k + n < 32 then k + n else k + n - 32)
  {
    Bits.Pow2Of32();
    OrBits(Bits.ShiftRight(x, n), x * Bits.Pow2(32 - n), 32, k);
    ShiftedRight(x, n, k);
    ShiftedLeft(x, 32 - n, k);
    if Bits.Bit(x, k + n) { Bits.BitFits(x, 32, k + n); }
  }

  function Xor32(x: Word, y: Word): Word {
    Bits.Pow2Of32();
    Xor(x, y, 32)
  }

  function And32(x: Word, y: Word): Word {
    Bits.AndFits(x, y);
    Bits.And(x, y)
  }

  function Not32(x: Word): Word { 0xFFFF_FFFF - x }

  function Shr(x: Word, n: nat): Word
    requires n < 32
  {
    Bits.Pow2Of32();
    Bits.Pow2Monotone(32, 32 + n);
    Bits.ShiftRightBelow(x, 32, n);
    Bits.ShiftRight(x, n)
  }

  function Rotr(x: Word, n: nat): Word
    requires 0 < n < 32
  {
    Bits.Pow2Of32();
    Or(Bits.ShiftRight(x, n), x * Bits.Pow2(32 - n), 32)
  }

  function Ch(x: Word, y: Word, z: Word): Word { Xor32(And32(x, y), And32(Not32(x), z)) }

  function Maj(x: Word, y: Word, z: Word): Word { Xor32(Xor32(And32(x, y), And32(x, z)), And32(y, z)) }

  function BigSigma0(x: Word): Word { Xor32(Xor32(Rotr(x, 2), Rotr(x, 13)), Rotr(x, 22)) }

  function BigSigma1(x: Word): Word { Xor32(Xor32(Rotr(x, 6), Rotr(x, 11)), Rotr(x, 25)) }

  function SmallSigma0(x: Word): Word { Xor32(Xor32(Rotr(x, 7), Rotr(x, 18)), Shr(x, 3)) }

  function SmallSigma1(x: Word): Word { Xor32(Xor32(Rotr(x, 17), Rotr(x, 19)), Shr(x, 10)) }

  // ----- section 6.2.2: one block -----

  function WordAt(p: Bytes, i: nat): Word
    requires 4 * i + 4 <= |p|
  {
    var b0: nat, b1: nat, b2: nat, b3: nat := p[4 * i], p[4 * i + 1], p[4 * i + 2], p[4 * i + 3];
    b0 * 0x100_0000 + b1 * 0x1_0000 + b2 * 0x100 + b3
  }

  /** Word t of the message schedule. */
  function Schedule(p: Bytes, t: nat): Word
    requires |p| == 64
  {
    if t < 16 then WordAt(p, t)
    else Plus(Plus(Plus(SmallSigma1(Schedule(p, t - 2)), Schedule(p, t - 7)), SmallSigma0(Schedule(p, t - 15))),
      Schedule(p, t - 16))
  }

  function Round(v: Words, k: Word, w: Word): Words {
    var t1 := Plus(Plus(Plus(Plus(v.h, BigSigma1(v.e)), Ch(v.e, v.f, v.g)), k), w);
    var t2 := Plus(BigSigma0(v.a), Maj(v.a, v.b, v.c));
    Words(Plus(t1, t2), v.a, v.b, v.c, Plus(v.d, t1), v.e, v.f, v.g)
  }

  function Rounds(p: Bytes, v: Words, n: nat): Words
    requires |p| == 64 && n <= 64
  {
    if n == 0 then v else Round(Rounds(p, v, n - 1), Constant(n - 1), Schedule(p, n - 1))
  }

  function SumOf(v: Words, w: Words): Words {
    Words(Plus(v.a, w.a), Plus(v.b, w.b), Plus(v.c, w.c), Plus(v.d, w.d),
          Plus(v.e, w.e), Plus(v.f, w.f), Plus(v.g, w.g), Plus(v.h, w.h))
  }

  function Compress(v: Words, p: Bytes): Words
    requires |p| == 64
  {
    SumOf(v, Rounds(p, v, 64))
  }

  // ----- sections 5.1.1 and 6.2: the whole message -----

  function Zeros(n: nat): (s: Bytes)
    ensures |s| == n && forall i :: 0 <= i < n ==> s[i] == 0
  {
    if n == 0 then [] else Zeros(n - 1) + [0]
  }

  /** How many zero bytes follow the marker: as few as make the whole a number of blocks. */
  function ZeroCount(len: nat): (z: nat)
    ensures z < 64
  {
    if len % 64 < 56 then 55 - len % 64 else 119 - len % 64
  }

  lemma ZeroCountIsLeast(len: nat, z: nat)
    ensures (len + 1 + ZeroCount(len) + 8) % 64 == 0
    ensures (len + 1 + z + 8) % 64 == 0 ==> ZeroCount(len) <= z
  {
    var r := len % 64;
    assert (len + 1 + ZeroCount(len) + 8) == 64 * (len / 64) + (r + 9 + ZeroCount(len));
  }

  /** The message, a marker bit, zeros, and the length in bits. */
  function Pad(m: Bytes): Bytes { m + [0x80] + Zeros(ZeroCount(|m|)) + ToBigEndian(8 * |m|, 8) }

  /** The hash value after whole blocks. */
  function Absorb(v: Words, s: Bytes): Words
    decreases |s|
  {
    if |s| < 64 then v else Absorb(Compress(v, s[..64]), s[64..])
  }

  function Hash(m: Bytes): Words { Absorb(INITIAL_HASH, Pad(m)) }

  function WordBytes(w: Word): Bytes { ToBigEndian(w, 4) }

  function Digest(v: Words): (d: Bytes)
    ensures |d| == 32
  {
    WordBytes(v.a) + WordBytes(v.b) + WordBytes(v.c) + WordBytes(v.d)
    + WordBytes(v.e) + WordBytes(v.f) + WordBytes(v.g) + WordBytes(v.h)
  }

  /** Whole blocks can be absorbed in two parts. */
  lemma {:induction false} AbsorbSplits(v: Words, s: Bytes, t: Bytes)
    requires |s| % 64 == 0
    ensures Absorb(v, s + t) == Absorb(Absorb(v, s), t)
    decreases |s|
  {
    hide Compress;
    if |s| == 0 {
      assert s + t == t;
    } else {
      AbsorbSplits(Compress(v, s[..64]), s[64..], t);
      assert (s + t)[..64] == s[..64] && (s + t)[64..] == s[64..] + t;
    }
  }

  // ----- the object -----

  class Sha256 {
    var state: Words
    const buf: array<u8>
    var bufLen: nat
    var bitLen: u64
    /** Everything taken so far, and the whole blocks of it that are in the state. */
    ghost var absorbed: Bytes
    ghost var whole: Bytes

    ghost predicate Valid()
      reads this, buf
    {
      && buf.Length == 64 && bufLen < 64 && |whole| % 64 == 0
      && absorbed == whole + buf[..bufLen] && state == Absorb(INITIAL_HASH, whole)
    }

    constructor ()
      ensures Valid() && Counted() && absorbed == [] && fresh(buf)
    {
      state, buf, bufLen, bitLen, absorbed, whole := INITIAL_HASH, new u8[64](_ => 0), 0, 0, [], [];
      new;
      EightBytes();
    }

    constructor Copy(other: Sha256)
      requires other.Valid()
      ensures Valid() && absorbed == other.absorbed && bitLen == other.bitLen && fresh(buf)
    {
      hide Absorb;
      var bytes := other.buf[..];
      buf := new u8[64](i requires 0 <= i < 64 => bytes[i]);
      state, bufLen, bitLen, absorbed, whole := other.state, other.bufLen, other.bitLen, other.absorbed, other.whole;
    }

    /** One block into the state: the message schedule, sixty-four rounds, and the sum. */
    method Block()
      requires buf.Length == 64
      modifies `state
      ensures state == Compress(old(state), buf[..])
    {
      hide Schedule, Round, Rounds;
      var p := buf[..];
      var w := ScheduleOf(p);
      var v, i := state, 0;
      RoundsStart(p, state);
      while i < 64
        modifies {}
        invariant i <= 64 && v == Rounds(p, state, i)
      {
        RoundsNext(p, state, i);
        v := OneRound(v, Constant(i), w[i]);
        i := i + 1;
      }
      state := SumOf(state, v);
    }

    static lemma RoundsStart(p: Bytes, v: Words)
      requires |p| == 64
      ensures Rounds(p, v, 0) == v
    {
    }

    static lemma RoundsNext(p: Bytes, v: Words, n: nat)
      requires |p| == 64 && n < 64
      ensures Rounds(p, v, n + 1) == Round(Rounds(p, v, n), Constant(n), Schedule(p, n))
    {
      hide Round, Schedule, Constant;
    }

    static method OneRound(v: Words, k: Word, w: Word) returns (v': Words)
      ensures v' == Round(v, k, w)
    {
      hide BigSigma0, BigSigma1, Ch, Maj, Plus;
      var t1 := Plus(Plus(Plus(Plus(v.h, BigSigma1(v.e)), Ch(v.e, v.f, v.g)), k), w);
      var t2 := Plus(BigSigma0(v.a), Maj(v.a, v.b, v.c));
      v' := Words(Plus(t1, t2), v.a, v.b, v.c, Plus(v.d, t1), v.e, v.f, v.g);
    }

    static method ScheduleOf(p: Bytes) returns (w: seq<Word>)
      requires |p| == 64
      ensures |w| == 64 && forall t :: 0 <= t < 64 ==> w[t] == Schedule(p, t)
    {
      hide WordAt, SmallSigma0, SmallSigma1, Schedule, Plus;
      w := [];
      while |w| < 16
        invariant |w| <= 16 && forall t :: 0 <= t < |w| ==> w[t] == Schedule(p, t)
      {
        ScheduleAt(p, |w|);
        w := w + [WordAt(p, |w|)];
      }
      while |w| < 64
        invariant 16 <= |w| <= 64 && forall t :: 0 <= t < |w| ==> w[t] == Schedule(p, t)
      {
        var i := |w|;
        ScheduleAt(p, i);
        var s0, s1 := SmallSigma0(w[i - 15]), SmallSigma1(w[i - 2]);
        Reorder(w[i - 16], s0, w[i - 7], s1);
        w := w + [Plus(Plus(Plus(w[i - 16], s0), w[i - 7]), s1)];
      }
    }

    static lemma ScheduleAt(p: Bytes, t: nat)
      requires |p| == 64
      ensures t < 16 ==> Schedule(p, t) == WordAt(p, t)
      ensures t >= 16 ==>
                (Schedule(p, t) == Plus(Plus(Plus(SmallSigma1(Schedule(p, t - 2)), Schedule(p, t - 7)),
                                             SmallSigma0(Schedule(p, t - 15))), Schedule(p, t - 16)))
    {
      hide WordAt, SmallSigma0, SmallSigma1, Plus;
    }

    static lemma Reorder(x: Word, y: Word, z: Word, w: Word)
      ensures Plus(Plus(Plus(x, y), z), w) == Plus(Plus(Plus(w, z), y), x)
    {
    }

    /** Bytes that fit in the block being filled; a full block goes into the state. */
    method Fill(chunk: Bytes)
      requires Valid() && |chunk| <= 64 - bufLen
      modifies `state, `bufLen, `absorbed, `whole, buf
      ensures Valid() && absorbed == old(absorbed) + chunk
    {
      hide Absorb, Compress;
      ghost var tail := buf[..bufLen];
      assert tail + chunk[..0] == tail;
      var i := 0;
      while i < |chunk|
        modifies buf
        invariant i <= |chunk| && buf[..bufLen + i] == tail + chunk[..i]
      {
        assert chunk[..i + 1] == chunk[..i] + [chunk[i]];
        buf[bufLen + i] := chunk[i];
        assert buf[..bufLen + i + 1] == buf[..bufLen + i] + [chunk[i]];
        i := i + 1;
      }
      assert chunk[..i] == chunk && whole + tail + chunk == whole + (tail + chunk);
      bufLen := bufLen + |chunk|;
      absorbed := absorbed + chunk;
      if bufLen == 64 { EmptyBuffer(); }
    }

    /** The full block goes into the state. */
    method EmptyBuffer()
      requires buf.Length == 64 == bufLen && |whole| % 64 == 0
      requires absorbed == whole + buf[..bufLen] && state == Absorb(INITIAL_HASH, whole)
      modifies `state, `bufLen, `whole
      ensures Valid()
    {
      hide Absorb, Compress;
      assert buf[..] == buf[..bufLen];
      Block();
      AbsorbSplits(INITIAL_HASH, whole, buf[..]);
      OneBlock(Absorb(INITIAL_HASH, whole), buf[..]);
      whole := whole + buf[..];
      bufLen := 0;
      assert whole + buf[..0] == whole;
    }

    static lemma OneBlock(v: Words, p: Bytes)
      requires |p| == 64
      ensures Absorb(v, p) == Compress(v, p)
    {
      hide Compress;
      assert p[..64] == p && p[64..] == [];
    }

    /** Takes bytes without counting them, as the padding is taken. */
    method UpdateRaw(data: Bytes)
      requires Valid()
      modifies `state, `bufLen, `absorbed, `whole, buf
      ensures Valid() && absorbed == old(absorbed) + data
    {
      hide Absorb;
      var pos := 0;
      assert absorbed + data[..0] == absorbed;
      while pos < |data|
        invariant pos <= |data| && Valid() && absorbed == old(absorbed) + data[..pos]
      {
        var take := if 64 - bufLen < |data| - pos then 64 - bufLen else |data| - pos;
        assert data[..pos + take] == data[..pos] + data[pos..pos + take];
        Fill(data[pos..pos + take]);
        pos := pos + take;
      }
      assert data[..pos] == data;
    }

    /** The length counts what has been taken, in bits, modulo 2^64. */
    ghost predicate Counted()
      reads this
    {
      bitLen == 8 * |absorbed| % Pow256(8)
    }

    method Update(data: Bytes)
      requires Valid() && Counted()
      modifies `state, `bufLen, `absorbed, `whole, `bitLen, buf
      ensures Valid() && Counted() && absorbed == old(absorbed) + data
    {
      hide Absorb, Pow256;
      EightBytes();
      CountMore(|absorbed|, |data|);
      bitLen := (bitLen + 8 * |data|) % 0x1_0000_0000_0000_0000;
      UpdateRaw(data);
    }

    static lemma CountMore(taken: nat, more: nat)
      ensures (8 * taken % 0x1_0000_0000_0000_0000 + 8 * more) % 0x1_0000_0000_0000_0000 ==
                8 * (taken + more) % 0x1_0000_0000_0000_0000
    {
    }

    /** The digest of what has been taken so far; the object can go on taking more. */
    method Finish() returns (digest: Bytes)
      requires Valid() && Counted()
      ensures digest == Digest(Hash(absorbed))
    {
      hide Absorb, Digest, ToBigEndian, Zeros, ZeroCount;
      var tmp := new Sha256.Copy(this);
      var padLen := if bufLen < 56 then 56 - bufLen else 120 - bufLen;
      PadLength(|whole|, bufLen);
      tmp.UpdateRaw([0x80] + Zeros(padLen - 1));
      LowBytesOnly(8 * |absorbed|, 8);
      tmp.UpdateRaw(ToBigEndian(tmp.bitLen, 8));
      Padded(absorbed, tmp.absorbed);
      WholeBlocks(|tmp.whole|, tmp.bufLen);
      assert tmp.whole + tmp.buf[..0] == tmp.whole;
      digest := Digest(tmp.state);
    }

    static lemma Padded(m: Bytes, p: Bytes)
      requires p == m + ([0x80] + Zeros(ZeroCount(|m|))) + ToBigEndian(8 * |m|, 8)
      ensures p == Pad(m) && |p| % 64 == 0
    {
      hide Zeros, ToBigEndian, ZeroCount;
      Regrouped(m, [0x80], Zeros(ZeroCount(|m|)), ToBigEndian(8 * |m|, 8));
      MakesBlocks(|m|, |p|);
    }

    static lemma MakesBlocks(len: nat, total: nat)
      requires total == len + 1 + ZeroCount(len) + 8
      ensures total % 64 == 0
    {
      ZeroCountIsLeast(len, 0);
    }

    static lemma Regrouped(m: Bytes, a: Bytes, b: Bytes, c: Bytes)
      ensures m + (a + b) + c == m + a + b + c && |m + (a + b) + c| == |m| + |a| + |b| + |c|
    {
    }

    static lemma PadLength(full: nat, bufLen: nat)
      requires bufLen < 64 && full % 64 == 0
      ensures ZeroCount(full + bufLen) == if bufLen < 56 then 55 - bufLen else 119 - bufLen
    {
    }

    static lemma WholeBlocks(full: nat, bufLen: nat)
      requires bufLen < 64 && full % 64 == 0 && (full + bufLen) % 64 == 0
      ensures bufLen == 0
    {
    }
  }

  function Concat(chunks: seq<Bytes>): Bytes {
    if chunks == [] then [] else Concat(chunks[..|chunks| - 1]) + chunks[|chunks| - 1]
  }

  /** However an input is cut into pieces, the digest is the standard's hash of the whole. */
  method HashPieces(chunks: seq<Bytes>) returns (digest: Bytes)
    ensures digest == Digest(Hash(Concat(chunks)))
  {
    hide Hash, Digest, Absorb;
    var h := new Sha256();
    var n := 0;
    while n < |chunks|
      invariant n <= |chunks| && h.Valid() && h.Counted() && fresh(h) && fresh(h.buf)
                && h.absorbed == Concat(chunks[..n])
    {
      assert chunks[..n + 1][..n] == chunks[..n];
      h.Update(chunks[n]);
      n := n + 1;
    }
    assert chunks[..n] == chunks;
    digest := h.Finish();
  }
}
