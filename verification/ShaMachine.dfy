/** The words of the hash are machine words: each operation on them is the processor's own on thirty-two bits. */
module ShaMachine {
  import opened Sha256s
  import Bits

  type Machine = bv32

  function Lowest(b: Machine): nat { if b & 1 == 1 then 1 else 0 }

  function Half(b: Machine): Machine { b >> 1 }

  /** p and b have the same lowest n bits. */
  predicate Alike(p: nat, b: Machine, n: nat)
    decreases n
  {
    n == 0 || (p % 2 == Lowest(b) && Alike(p / 2, Half(b), n - 1))
  }

  predicate Is(p: Word, b: Machine) { Alike(p, b, 32) }

  /** m is n ones and nothing above them. */
  predicate Ones(m: Machine, n: nat)
    decreases n
  {
    if n == 0 then m == 0 else Lowest(m) == 1 && Ones(Half(m), n - 1)
  }

  /** One place at a time. */
  function Right(b: Machine, n: nat): Machine
    decreases n
  {
    if n == 0 then b else Right(Half(b), n - 1)
  }

  function Left(b: Machine, n: nat): Machine
    decreases n
  {
    if n == 0 then b else Left(b << 1, n - 1)
  }

  lemma AllOnes()
    ensures Ones(0x7FFF_FFFF, 31) && Ones(0xFFFF_FFFF, 32)
  {
    assert Ones(0x7F, 7);
    assert Ones(0x7FFF, 15);
    assert Ones(0x7F_FFFF, 23);
    assert Ones(0x7FFF_FFFF, 31);
  }

  lemma AlikeStep(p: nat, b: Machine, n: nat)
    requires n > 0
    ensures Alike(p, b, n) <==> p % 2 == Lowest(b) && Alike(p / 2, Half(b), n - 1)
  {
  }

  lemma {:induction false} OneWord(p: nat, q: nat, b: Machine, n: nat)
    requires Alike(p, b, n) && Alike(q, b, n) && p < Bits.Pow2(n) && q < Bits.Pow2(n)
    ensures p == q
    decreases n
  {
    if n > 0 { OneWord(p / 2, q / 2, Half(b), n - 1); }
  }

  lemma {:induction false} Modular(p: nat, b: Machine, n: nat)
    ensures Alike(p + Bits.Pow2(n), b, n) <==> Alike(p, b, n)
    decreases n
  {
    if n > 0 {
      var half := Bits.Pow2(n - 1);
      assert (p + 2 * half) / 2 == p / 2 + half && (p + 2 * half) % 2 == p % 2;
      Modular(p / 2, Half(b), n - 1);
    }
  }

  /** Only the bits under the ones matter. */
  lemma {:induction false} Masked(p: nat, b: Machine, c: Machine, m: Machine, n: nat)
    requires Alike(p, b, n) && Ones(m, n) && b & m == c & m
    ensures Alike(p, c, n)
    decreases n
  {
    if n > 0 {
      MaskSteps(b, c, m);
      Masked(p / 2, Half(b), Half(c), Half(m), n - 1);
    }
  }

  lemma MaskSteps(b: Machine, c: Machine, m: Machine)
    requires b & m == c & m
    ensures Half(b) & Half(m) == Half(c) & Half(m)
    ensures Lowest(m) == 1 ==> Lowest(b) == Lowest(c)
  {
  }

  /** A number below 2^n has no bits beyond a word that fits in n. */
  lemma {:induction false} Extended(p: nat, b: Machine, m: Machine, n: nat, more: nat)
    requires Alike(p, b, n) && p < Bits.Pow2(n) && Ones(m, n) && b & m == b
    ensures Alike(p, b, n + more)
    decreases n, more
  {
    if n > 0 {
      FitSteps(b, m);
      Extended(p / 2, Half(b), Half(m), n - 1, more);
    } else if more > 0 {
      FitNothing(b, m);
      Extended(0, 0, 0, 0, more - 1);
    }
  }

  lemma FitSteps(b: Machine, m: Machine)
    requires b & m == b
    ensures Half(b) & Half(m) == Half(b)
  {
  }

  lemma FitNothing(b: Machine, m: Machine)
    requires b & m == b && m == 0
    ensures b == 0 && Lowest(b) == 0 && Half(b) == 0
  {
  }

  // ----- bit by bit -----

  lemma AlikeMore(p: nat, b: Machine, n: nat, half: nat, rest: Machine, low: nat)
    requires n > 0 && p / 2 == half && Half(b) == rest && p % 2 == low == Lowest(b) && Alike(half, rest, n - 1)
    ensures Alike(p, b, n)
  {
  }

  lemma AlikeNone(p: nat, b: Machine)
    ensures Alike(p, b, 0)
  {
  }

  lemma XorSteps(x: Machine, y: Machine)
    ensures Half(x ^ y) == Half(x) ^ Half(y)
    ensures Lowest(x ^ y) == if Lowest(x) != Lowest(y) then 1 else 0
  {
  }

  lemma XorUnfolds(p: nat, q: nat, n: nat)
    requires n > 0
    ensures Xor(p, q, n) / 2 == Xor(p / 2, q / 2, n - 1) && Xor(p, q, n) % 2 == if p % 2 != q % 2 then 1 else 0
  {
  }

  lemma XorOnce(p: nat, q: nat, x: Machine, y: Machine, n: nat)
    requires n > 0 && p % 2 == Lowest(x) && q % 2 == Lowest(y)
    requires Alike(Xor(p / 2, q / 2, n - 1), Half(x) ^ Half(y), n - 1)
    ensures Alike(Xor(p, q, n), x ^ y, n)
  {
    hide Xor, Alike, Half, Lowest;
    XorSteps(x, y);
    XorUnfolds(p, q, n);
    AlikeMore(Xor(p, q, n), x ^ y, n, Xor(p / 2, q / 2, n - 1), Half(x) ^ Half(y), Xor(p, q, n) % 2);
  }

  lemma {:induction false} XorAlike(p: nat, q: nat, x: Machine, y: Machine, n: nat)
    requires Alike(p, x, n) && Alike(q, y, n)
    ensures Alike(Xor(p, q, n), x ^ y, n)
    decreases n
  {
    hide Xor, Alike, Half, Lowest;
    if n > 0 {
      AlikeStep(p, x, n);
      AlikeStep(q, y, n);
      XorAlike(p / 2, q / 2, Half(x), Half(y), n - 1);
      XorOnce(p, q, x, y, n);
    } else {
      AlikeNone(Xor(p, q, n), x ^ y);
    }
  }

  lemma OrSteps(x: Machine, y: Machine)
    ensures Half(x | y) == Half(x) | Half(y)
    ensures Lowest(x | y) == if Lowest(x) + Lowest(y) > 0 then 1 else 0
  {
  }

  lemma OrUnfolds(p: nat, q: nat, n: nat)
    requires n > 0
    ensures Or(p, q, n) / 2 == Or(p / 2, q / 2, n - 1) && Or(p, q, n) % 2 == if p % 2 + q % 2 > 0 then 1 else 0
  {
  }

  lemma OrOnce(p: nat, q: nat, x: Machine, y: Machine, n: nat)
    requires n > 0 && p % 2 == Lowest(x) && q % 2 == Lowest(y)
    requires Alike(Or(p / 2, q / 2, n - 1), Half(x) | Half(y), n - 1)
    ensures Alike(Or(p, q, n), x | y, n)
  {
    hide Or, Alike, Half, Lowest;
    OrSteps(x, y);
    OrUnfolds(p, q, n);
    AlikeMore(Or(p, q, n), x | y, n, Or(p / 2, q / 2, n - 1), Half(x) | Half(y), Or(p, q, n) % 2);
  }

  lemma {:induction false} OrAlike(p: nat, q: nat, x: Machine, y: Machine, n: nat)
    requires Alike(p, x, n) && Alike(q, y, n)
    ensures Alike(Or(p, q, n), x | y, n)
    decreases n
  {
    hide Or, Alike, Half, Lowest;
    if n > 0 {
      AlikeStep(p, x, n);
      AlikeStep(q, y, n);
      OrAlike(p / 2, q / 2, Half(x), Half(y), n - 1);
      OrOnce(p, q, x, y, n);
    } else {
      AlikeNone(Or(p, q, n), x | y);
    }
  }

  lemma AndSteps(x: Machine, y: Machine)
    ensures Half(x & y) == Half(x) & Half(y)
    ensures Lowest(x & y) == if Lowest(x) + Lowest(y) == 2 then 1 else 0
  {
  }

  lemma AndUnfolds(p: nat, q: nat)
    ensures Bits.And(p, q) / 2 == Bits.And(p / 2, q / 2) && Bits.And(p, q) % 2 == if p % 2 + q % 2 == 2 then 1 else 0
  {
  }

  lemma AndOnce(p: nat, q: nat, x: Machine, y: Machine, n: nat)
    requires n > 0 && p % 2 == Lowest(x) && q % 2 == Lowest(y)
    requires Alike(Bits.And(p / 2, q / 2), Half(x) & Half(y), n - 1)
    ensures Alike(Bits.And(p, q), x & y, n)
  {
    hide Bits.And, Alike, Half, Lowest;
    AndSteps(x, y);
    AndUnfolds(p, q);
    AlikeMore(Bits.And(p, q), x & y, n, Bits.And(p / 2, q / 2), Half(x) & Half(y), Bits.And(p, q) % 2);
  }

  lemma {:induction false} AndAlike(p: nat, q: nat, x: Machine, y: Machine, n: nat)
    requires Alike(p, x, n) && Alike(q, y, n)
    ensures Alike(Bits.And(p, q), x & y, n)
    decreases n
  {
    hide Bits.And, Alike, Half, Lowest;
    if n > 0 {
      AlikeStep(p, x, n);
      AlikeStep(q, y, n);
      AndAlike(p / 2, q / 2, Half(x), Half(y), n - 1);
      AndOnce(p, q, x, y, n);
    } else {
      AlikeNone(Bits.And(p, q), x & y);
    }
  }

  lemma {:induction false} NotAlike(p: nat, m: Machine, n: nat)
    requires p < Bits.Pow2(n) && Ones(m, n)
    ensures Bits.Pow2(n) - 1 - p == Xor(p, Bits.Pow2(n) - 1, n) && Alike(Bits.Pow2(n) - 1, m, n)
    decreases n
  {
    if n > 0 {
      NotAlike(p / 2, Half(m), n - 1);
      assert (Bits.Pow2(n) - 1) / 2 == Bits.Pow2(n - 1) - 1;
    }
  }

  lemma {:induction false} RightAlike(p: nat, b: Machine, n: nat, more: nat)
    requires Alike(p, b, n + more)
    ensures Alike(Bits.ShiftRight(p, n), Right(b, n), more)
    decreases n
  {
    if n > 0 { RightAlike(p / 2, Half(b), n - 1, more); }
  }

  lemma {:induction false} LeftAlike(p: nat, b: Machine, n: nat)
    requires Alike(p, b, 32)
    ensures Alike(p * Bits.Pow2(n), Left(b, n), 32)
    decreases n
  {
    hide Alike;
    if n > 0 {
      Doubled(p, b);
      LeftAlike(2 * p, b << 1, n - 1);
      TwiceOver(p, Bits.Pow2(n - 1));
    }
  }

  lemma TwiceOver(p: nat, half: nat)
    ensures 2 * p * half == p * (2 * half)
  {
  }

  lemma {:induction false} FewerAlike(p: nat, b: Machine, n: nat, k: nat)
    requires Alike(p, b, n) && k <= n
    ensures Alike(p, b, k)
    decreases k
  {
    if k > 0 { FewerAlike(p / 2, Half(b), n - 1, k - 1); }
  }

  lemma Doubled(p: nat, b: Machine)
    requires Alike(p, b, 32)
    ensures Alike(2 * p, b << 1, 32)
  {
    hide Alike, Ones, Half, Lowest;
    AllOnes();
    FewerAlike(p, b, 32, 31);
    DoubleSteps(b);
    Masked(p, b, Half(b << 1), 0x7FFF_FFFF, 31);
    AlikeStep(2 * p, b << 1, 32);
  }

  lemma DoubleSteps(b: Machine)
    ensures b & 0x7FFF_FFFF == Half(b << 1) & 0x7FFF_FFFF && Lowest(b << 1) == 0
  {
  }

  // ----- sums -----

  function Bit0(c: nat): Machine { if c == 0 then 0 else 1 }

  /** Hidden in the proofs, which must not look at a sum bit by bit. */
  function Sum(x: Machine, y: Machine, c: Machine): Machine { x + y + c }

  function Twice(w: Machine, s: Machine): Machine { 2 * w + s }

  function MAdd(x: Machine, y: Machine): Machine { x + y }

  /** The lowest n bits of a sum, with a carry into it. */
  lemma {:induction false} SumAlike(p: nat, q: nat, c: nat, x: Machine, y: Machine, m: Machine, n: nat)
    requires Alike(p, x, n) && Alike(q, y, n) && c <= 1 && Ones(m, n)
    ensures Alike(p + q + c, Sum(x, y, Bit0(c)), n)
    decreases n
  {
    hide Alike, Lowest, Half, Bit0, Ones, Sum;
    if n > 0 {
      var d := (p % 2 + q % 2 + c) / 2;
      AlikeStep(p, x, n);
      AlikeStep(q, y, n);
      OnesStep(m, n);
      Carried(p, q, c);
      SumAlike(p / 2, q / 2, d, Half(x), Half(y), Half(m), n - 1);
      SumOnce(p, q, c, x, y, Half(m), n, d);
    } else {
      AlikeNone(p + q + c, Sum(x, y, Bit0(c)));
    }
  }

  lemma OnesStep(m: Machine, n: nat)
    requires n > 0 && Ones(m, n)
    ensures Ones(Half(m), n - 1) && Half(m) & 0x7FFF_FFFF == Half(m)
  {
  }

  lemma SumOnce(p: nat, q: nat, c: nat, x: Machine, y: Machine, m: Machine, n: nat, d: nat)
    requires n > 0 && p % 2 == Lowest(x) && q % 2 == Lowest(y) && c <= 1 && Ones(m, n - 1) && m & 0x7FFF_FFFF == m
    requires d == (p % 2 + q % 2 + c) / 2 && Alike(p / 2 + q / 2 + d, Sum(Half(x), Half(y), Bit0(d)), n - 1)
    ensures Alike(p + q + c, Sum(x, y, Bit0(c)), n)
  {
    hide Alike, Lowest, Half, Bit0, Ones, Sum;
    var sum := Sum(x, y, Bit0(c));
    Carried(p, q, c);
    SumSteps(x, y, c, d, m);
    Masked(p / 2 + q / 2 + d, Sum(Half(x), Half(y), Bit0(d)), Half(sum), m, n - 1);
    AlikeMore(p + q + c, sum, n, p / 2 + q / 2 + d, Half(sum), (p % 2 + q % 2 + c) % 2);
  }

  lemma Carried(p: nat, q: nat, c: nat)
    requires c <= 1
    ensures var d := (p % 2 + q % 2 + c) / 2;
            (p + q + c) / 2 == p / 2 + q / 2 + d && (p + q + c) % 2 == (p % 2 + q % 2 + c) % 2 && d <= 1
  {
  }

  lemma SumSteps(x: Machine, y: Machine, c: nat, d: nat, m: Machine)
    requires c <= 1 && d == (Lowest(x) + Lowest(y) + c) / 2 && m & 0x7FFF_FFFF == m
    ensures Lowest(Sum(x, y, Bit0(c))) == (Lowest(x) + Lowest(y) + c) % 2
    ensures Sum(Half(x), Half(y), Bit0(d)) & m == Half(Sum(x, y, Bit0(c))) & m
  {
    hide Half, Lowest, Bit0, Sum, Twice;
    var a, b, s := Lowest(x), Lowest(y), (Lowest(x) + Lowest(y) + c) % 2;
    Halves(x);
    Halves(y);
    Digits(a, b, c);
    Ring(Half(x), Half(y), Bit0(a), Bit0(b), Bit0(c), Bit0(d), Bit0(s));
    DoubledBack(Sum(Half(x), Half(y), Bit0(d)), Bit0(s), m);
  }

  lemma Halves(x: Machine)
    ensures x == Twice(Half(x), Bit0(Lowest(x))) && Lowest(x) <= 1
  {
  }

  lemma Digits(a: nat, b: nat, c: nat)
    requires a <= 1 && b <= 1 && c <= 1
    ensures Sum(Bit0(a), Bit0(b), Bit0(c)) == Twice(Bit0((a + b + c) / 2), Bit0((a + b + c) % 2))
    ensures var s := (a + b + c) % 2; Lowest(Bit0(s)) == s && (Bit0(s) == 0 || Bit0(s) == 1)
  {
    assert a == 0 || a == 1;
    assert b == 0 || b == 1;
    assert c == 0 || c == 1;
  }

  lemma Ring(u: Machine, v: Machine, a: Machine, b: Machine, c: Machine, d: Machine, s: Machine)
    requires Sum(a, b, c) == Twice(d, s)
    ensures Sum(Twice(u, a), Twice(v, b), c) == Twice(Sum(u, v, d), s)
  {
    hide *;
    TwiceIs(u, a);
    TwiceIs(v, b);
    TwiceIs(d, s);
    AddIs(u, v);
    AddIs(MAdd(u, v), d);
    SumIs(a, b, c);
    Gather(u, v, a, b, c);
    Carry(MAdd(u, v), d, s);
    WithCarry(u, v, d);
  }

  lemma TwiceIs(w: Machine, s: Machine)
    ensures Twice(w, s) == 2 * w + s
  {
  }

  lemma SumIs(x: Machine, y: Machine, c: Machine)
    ensures Sum(x, y, c) == x + y + c
  {
  }

  lemma AddIs(x: Machine, y: Machine)
    ensures MAdd(x, y) == x + y
  {
  }

  lemma Gather(u: Machine, v: Machine, a: Machine, b: Machine, c: Machine)
    ensures Sum(2 * u + a, 2 * v + b, c) == Twice(u + v, a + b + c)
  {
  }

  lemma Carry(w: Machine, d: Machine, s: Machine)
    ensures Twice(w, 2 * d + s) == Twice(w + d, s)
  {
  }

  lemma WithCarry(u: Machine, v: Machine, d: Machine)
    ensures MAdd(u + v, d) == Sum(u, v, d)
  {
  }

  lemma DoubledBack(w: Machine, s: Machine, m: Machine)
    requires (s == 0 || s == 1) && m & 0x7FFF_FFFF == m
    ensures Half(Twice(w, s)) & m == w & m && Lowest(Twice(w, s)) == Lowest(s)
  {
  }

  lemma {:induction false} RightTwice(b: Machine, m: nat, n: nat)
    ensures Right(b, m + n) == Right(Right(b, m), n)
    decreases m
  {
    if m > 0 { RightTwice(Half(b), m - 1, n); }
  }

  lemma {:induction false} LeftTwice(b: Machine, m: nat, n: nat)
    ensures Left(b, m + n) == Left(Left(b, m), n)
    decreases m
  {
    if m > 0 { LeftTwice(b << 1, m - 1, n); }
  }

  // ----- the operations on words -----

  /** Named, so that proofs can treat the machine's operations as symbols. */
  function MXor(x: Machine, y: Machine): Machine { x ^ y }

  function MAnd(x: Machine, y: Machine): Machine { x & y }

  function MNot(x: Machine): Machine { !x }

  function MRotr(x: Machine, n: nat): Machine
    requires n <= 32
  {
    x.RotateRight(n)
  }

  function MShr(x: Machine, n: nat): Machine
    requires n <= 32
  {
    x >> n
  }

  lemma SameWord(p: Word, q: Word, b: Machine)
    requires Is(p, b) && Is(q, b)
    ensures p == q
  {
    Bits.Pow2Of32();
    OneWord(p, q, b, 32);
  }

  lemma XorIs(p: Word, q: Word, x: Machine, y: Machine)
    requires Is(p, x) && Is(q, y)
    ensures Is(Xor32(p, q), MXor(x, y))
  {
    hide Alike, Xor;
    XorAlike(p, q, x, y, 32);
  }

  lemma AndIs(p: Word, q: Word, x: Machine, y: Machine)
    requires Is(p, x) && Is(q, y)
    ensures Is(And32(p, q), MAnd(x, y))
  {
    hide Alike, Bits.And;
    AndAlike(p, q, x, y, 32);
  }

  lemma NotIs(p: Word, x: Machine)
    requires Is(p, x)
    ensures Is(Not32(p), MNot(x))
  {
    hide Alike, Xor, Ones, Bits.Pow2, MNot;
    Bits.Pow2Of32();
    AllOnes();
    NotAlike(p, 0xFFFF_FFFF, 32);
    XorAlike(p, 0xFFFF_FFFF, x, 0xFFFF_FFFF, 32);
    Complement(x);
  }

  lemma Complement(x: Machine)
    ensures x ^ 0xFFFF_FFFF == MNot(x)
  {
  }

  lemma ShrAlike(p: Word, b: Machine, n: nat)
    requires Is(p, b) && n < 32
    ensures Is(Shr(p, n), Right(b, n))
  {
    hide Alike, Ones, Right, Bits.ShiftRight;
    Bits.Pow2Of32();
    AllOnes();
    NoneAbove(b);
    Extended(p, b, 0xFFFF_FFFF, 32, n);
    RightAlike(p, b, n, 32);
  }

  lemma ShrIs(p: Word, b: Machine, n: nat)
    requires Is(p, b) && (n == 3 || n == 10)
    ensures Is(Shr(p, n), MShr(b, n))
  {
    hide Is, Shr;
    ShrAlike(p, b, n);
    if n == 3 { ShiftsBy3(b); } else { ShiftsBy10(b); }
  }

  lemma ShiftsBy3(b: Machine)
    ensures Right(b, 3) == MShr(b, 3)
  {
  }

  lemma ShiftsBy10(b: Machine)
    ensures Right(b, 10) == MShr(b, 10)
  {
  }

  lemma NoneAbove(b: Machine)
    ensures b & 0xFFFF_FFFF == b
  {
  }

  /** The distances by which a round and the schedule rotate. */
  predicate Rotates(n: nat) {
    n == 2 || n == 6 || n == 7 || n == 11 || n == 13 || n == 17 || n == 18 || n == 19 || n == 22 || n == 25
  }

  lemma RotrIs(p: Word, b: Machine, n: nat)
    requires Is(p, b) && Rotates(n)
    ensures Is(Rotr(p, n), MRotr(b, n))
  {
    hide Alike, Right, Left, Bits.ShiftRight, Or, MRotr;
    ShrAlike(p, b, n);
    LeftAlike(p, b, 32 - n);
    RotrUnfolds(p, Bits.ShiftRight(p, n), p * Bits.Pow2(32 - n), n, Right(b, n), Left(b, 32 - n));
    RotatesNatively(b, n);
  }

  lemma RotatesNatively(b: Machine, n: nat)
    requires Rotates(n)
    ensures MRotr(b, n) == Right(b, n) | Left(b, 32 - n)
  {
    hide Right, Left, MRotr;
    match n
    case 2 => Rotates2(b);
    case 6 => Rotates6(b);
    case 7 => Rotates7(b);
    case 11 => Rotates11(b);
    case 13 => Rotates13(b);
    case 17 => Rotates17(b);
    case 18 => Rotates18(b);
    case 19 => Rotates19(b);
    case 22 => Rotates22(b);
    case 25 => Rotates25(b);
  }

  lemma Rotates2(b: Machine)
    ensures MRotr(b, 2) == Right(b, 2) | Left(b, 30)
  {
    LeftTwice(b, 10, 20);
    LeftTwice(Left(b, 10), 10, 10);
  }

  lemma Rotates6(b: Machine)
    ensures MRotr(b, 6) == Right(b, 6) | Left(b, 26)
  {
    LeftTwice(b, 8, 18);
    LeftTwice(Left(b, 8), 9, 9);
  }

  lemma Rotates7(b: Machine)
    ensures MRotr(b, 7) == Right(b, 7) | Left(b, 25)
  {
    LeftTwice(b, 8, 17);
    LeftTwice(Left(b, 8), 8, 9);
  }

  lemma Rotates11(b: Machine)
    ensures MRotr(b, 11) == Right(b, 11) | Left(b, 21)
  {
    LeftTwice(b, 10, 11);
  }

  lemma Rotates13(b: Machine)
    ensures MRotr(b, 13) == Right(b, 13) | Left(b, 19)
  {
    LeftTwice(b, 9, 10);
  }

  lemma Rotates17(b: Machine)
    ensures MRotr(b, 17) == Right(b, 17) | Left(b, 15)
  {
    RightTwice(b, 8, 9);
    LeftTwice(b, 7, 8);
  }

  lemma Rotates18(b: Machine)
    ensures MRotr(b, 18) == Right(b, 18) | Left(b, 14)
  {
    RightTwice(b, 9, 9);
    LeftTwice(b, 7, 7);
  }

  lemma Rotates19(b: Machine)
    ensures MRotr(b, 19) == Right(b, 19) | Left(b, 13)
  {
    RightTwice(b, 9, 10);
  }

  lemma Rotates22(b: Machine)
    ensures MRotr(b, 22) == Right(b, 22) | Left(b, 10)
  {
    RightTwice(b, 11, 11);
  }

  lemma Rotates25(b: Machine)
    ensures MRotr(b, 25) == Right(b, 25) | Left(b, 7)
  {
    RightTwice(b, 8, 17);
    RightTwice(Right(b, 8), 8, 9);
  }

  lemma RotrUnfolds(p: Word, right: nat, left: nat, n: nat, x: Machine, y: Machine)
    requires 0 < n < 32 && right == Bits.ShiftRight(p, n) && left == p * Bits.Pow2(32 - n)
    requires Alike(right, x, 32) && Alike(left, y, 32)
    ensures Is(Rotr(p, n), x | y)
  {
    hide Alike, Bits.ShiftRight, Or;
    OrAlike(right, left, x, y, 32);
  }

  lemma PlusIs(p: Word, q: Word, x: Machine, y: Machine)
    requires Is(p, x) && Is(q, y)
    ensures Is(Plus(p, q), MAdd(x, y))
  {
    hide Alike, Ones, Sum, MAdd;
    AllOnes();
    SumAlike(p, q, 0, x, y, 0xFFFF_FFFF, 32);
    SumIsPlain(x, y);
    PlusAlike(p, q, MAdd(x, y));
  }

  lemma PlusAlike(p: Word, q: Word, b: Machine)
    requires Alike(p + q, b, 32)
    ensures Is(Plus(p, q), b)
  {
    hide Alike;
    Bits.Pow2Of32();
    if p + q >= 0x1_0000_0000 { Modular(Plus(p, q), b, 32); }
  }

  lemma SumIsPlain(x: Machine, y: Machine)
    ensures Sum(x, y, Bit0(0)) == MAdd(x, y)
  {
    hide Sum, MAdd;
    SumOfTwo(x, y);
    AddIs(x, y);
  }

  lemma SumOfTwo(x: Machine, y: Machine)
    ensures Sum(x, y, 0) == x + y
  {
  }

  // ----- one round, and one word of the schedule -----

  function MCh(x: Machine, y: Machine, z: Machine): Machine { (x & y) ^ (!x & z) }

  function MMaj(x: Machine, y: Machine, z: Machine): Machine { (x & y) ^ (x & z) ^ (y & z) }

  function MBig0(x: Machine): Machine { x.RotateRight(2) ^ x.RotateRight(13) ^ x.RotateRight(22) }

  function MBig1(x: Machine): Machine { x.RotateRight(6) ^ x.RotateRight(11) ^ x.RotateRight(25) }

  function MSmall0(x: Machine): Machine { x.RotateRight(7) ^ x.RotateRight(18) ^ (x >> 3) }

  function MSmall1(x: Machine): Machine { x.RotateRight(17) ^ x.RotateRight(19) ^ (x >> 10) }

  // Each of the next lemmas unfolds one operation; together they unfold the functions above.

  lemma NotUnfolds(x: Machine)
    ensures MNot(x) == !x
  {
  }

  lemma AndIsBitwise(x: Machine, y: Machine)
    ensures MAnd(x, y) == x & y && MAnd(!x, y) == !x & y
  {
  }

  lemma ChUnfolds(x: Machine, y: Machine, z: Machine)
    ensures MXor(x & y, !x & z) == MCh(x, y, z)
  {
  }

  lemma MajUnfolds(x: Machine, y: Machine, z: Machine)
    ensures MXor(x & y, x & z) == (x & y) ^ (x & z) && MXor((x & y) ^ (x & z), y & z) == MMaj(x, y, z)
  {
  }

  lemma Big0Unfolds(x: Machine)
    ensures MRotr(x, 2) == x.RotateRight(2) && MRotr(x, 13) == x.RotateRight(13) && MRotr(x, 22) == x.RotateRight(22)
    ensures MXor(x.RotateRight(2), x.RotateRight(13)) == x.RotateRight(2) ^ x.RotateRight(13)
    ensures MXor(x.RotateRight(2) ^ x.RotateRight(13), x.RotateRight(22)) == MBig0(x)
  {
  }

  lemma Big1Unfolds(x: Machine)
    ensures MRotr(x, 6) == x.RotateRight(6) && MRotr(x, 11) == x.RotateRight(11) && MRotr(x, 25) == x.RotateRight(25)
    ensures MXor(x.RotateRight(6), x.RotateRight(11)) == x.RotateRight(6) ^ x.RotateRight(11)
    ensures MXor(x.RotateRight(6) ^ x.RotateRight(11), x.RotateRight(25)) == MBig1(x)
  {
  }

  lemma Small0Unfolds(x: Machine)
    ensures MRotr(x, 7) == x.RotateRight(7) && MRotr(x, 18) == x.RotateRight(18) && MShr(x, 3) == x >> 3
    ensures MXor(x.RotateRight(7), x.RotateRight(18)) == x.RotateRight(7) ^ x.RotateRight(18)
    ensures MXor(x.RotateRight(7) ^ x.RotateRight(18), x >> 3) == MSmall0(x)
  {
  }

  lemma Small1Unfolds(x: Machine)
    ensures MRotr(x, 17) == x.RotateRight(17) && MRotr(x, 19) == x.RotateRight(19) && MShr(x, 10) == x >> 10
    ensures MXor(x.RotateRight(17), x.RotateRight(19)) == x.RotateRight(17) ^ x.RotateRight(19)
    ensures MXor(x.RotateRight(17) ^ x.RotateRight(19), x >> 10) == MSmall1(x)
  {
  }

  lemma ChFolds(x: Machine, y: Machine, z: Machine)
    ensures MXor(MAnd(x, y), MAnd(MNot(x), z)) == MCh(x, y, z)
  {
    hide *;
    NotUnfolds(x);
    AndIsBitwise(x, y);
    AndIsBitwise(x, z);
    ChUnfolds(x, y, z);
  }

  lemma MajFolds(x: Machine, y: Machine, z: Machine)
    ensures MXor(MXor(MAnd(x, y), MAnd(x, z)), MAnd(y, z)) == MMaj(x, y, z)
  {
    hide *;
    AndIsBitwise(x, y);
    AndIsBitwise(x, z);
    AndIsBitwise(y, z);
    MajUnfolds(x, y, z);
  }

  lemma SigmasFold(x: Machine)
    ensures MXor(MXor(MRotr(x, 2), MRotr(x, 13)), MRotr(x, 22)) == MBig0(x)
    ensures MXor(MXor(MRotr(x, 6), MRotr(x, 11)), MRotr(x, 25)) == MBig1(x)
    ensures MXor(MXor(MRotr(x, 7), MRotr(x, 18)), MShr(x, 3)) == MSmall0(x)
    ensures MXor(MXor(MRotr(x, 17), MRotr(x, 19)), MShr(x, 10)) == MSmall1(x)
  {
    hide *;
    Big0Unfolds(x);
    Big1Unfolds(x);
    Small0Unfolds(x);
    Small1Unfolds(x);
  }

  lemma ChIs(p: Word, q: Word, r: Word, x: Machine, y: Machine, z: Machine)
    requires Is(p, x) && Is(q, y) && Is(r, z)
    ensures Is(Ch(p, q, r), MCh(x, y, z))
  {
    hide Is, Xor32, And32, Not32, MXor, MAnd, MNot, MCh;
    NotIs(p, x);
    AndIs(p, q, x, y);
    AndIs(Not32(p), r, MNot(x), z);
    XorIs(And32(p, q), And32(Not32(p), r), MAnd(x, y), MAnd(MNot(x), z));
    ChFolds(x, y, z);
  }

  lemma MajIs(p: Word, q: Word, r: Word, x: Machine, y: Machine, z: Machine)
    requires Is(p, x) && Is(q, y) && Is(r, z)
    ensures Is(Maj(p, q, r), MMaj(x, y, z))
  {
    hide Is, Xor32, And32, MXor, MAnd, MMaj;
    AndIs(p, q, x, y);
    AndIs(p, r, x, z);
    AndIs(q, r, y, z);
    XorIs(And32(p, q), And32(p, r), MAnd(x, y), MAnd(x, z));
    XorIs(Xor32(And32(p, q), And32(p, r)), And32(q, r), MXor(MAnd(x, y), MAnd(x, z)), MAnd(y, z));
    MajFolds(x, y, z);
  }

  lemma XorOfThree(p: Word, q: Word, r: Word, x: Machine, y: Machine, z: Machine)
    requires Is(p, x) && Is(q, y) && Is(r, z)
    ensures Is(Xor32(Xor32(p, q), r), MXor(MXor(x, y), z))
  {
    hide Is, Xor32, MXor;
    XorIs(p, q, x, y);
    XorIs(Xor32(p, q), r, MXor(x, y), z);
  }

  lemma BigSigmasAre(p: Word, x: Machine)
    requires Is(p, x)
    ensures Is(BigSigma0(p), MBig0(x)) && Is(BigSigma1(p), MBig1(x))
  {
    hide Is, Xor32, MXor, Rotr, MRotr, MShr, MBig0, MBig1, MSmall0, MSmall1;
    SigmasFold(x);
    RotrIs(p, x, 2);
    RotrIs(p, x, 13);
    RotrIs(p, x, 22);
    XorOfThree(Rotr(p, 2), Rotr(p, 13), Rotr(p, 22), MRotr(x, 2), MRotr(x, 13), MRotr(x, 22));
    RotrIs(p, x, 6);
    RotrIs(p, x, 11);
    RotrIs(p, x, 25);
    XorOfThree(Rotr(p, 6), Rotr(p, 11), Rotr(p, 25), MRotr(x, 6), MRotr(x, 11), MRotr(x, 25));
  }

  lemma SmallSigmasAre(p: Word, x: Machine)
    requires Is(p, x)
    ensures Is(SmallSigma0(p), MSmall0(x)) && Is(SmallSigma1(p), MSmall1(x))
  {
    hide Is, Xor32, MXor, Rotr, MRotr, Shr, MShr, MBig0, MBig1, MSmall0, MSmall1;
    SigmasFold(x);
    RotrIs(p, x, 7);
    RotrIs(p, x, 18);
    ShrIs(p, x, 3);
    XorOfThree(Rotr(p, 7), Rotr(p, 18), Shr(p, 3), MRotr(x, 7), MRotr(x, 18), MShr(x, 3));
    RotrIs(p, x, 17);
    RotrIs(p, x, 19);
    ShrIs(p, x, 10);
    XorOfThree(Rotr(p, 17), Rotr(p, 19), Shr(p, 10), MRotr(x, 17), MRotr(x, 19), MShr(x, 10));
  }

  function AddFour(x: Machine, y: Machine, z: Machine, w: Machine): Machine { x + y + z + w }

  function AddFive(x: Machine, y: Machine, z: Machine, w: Machine, v: Machine): Machine { x + y + z + w + v }

  lemma AddsTwo(x: Machine, y: Machine, z: Machine)
    ensures MAdd(x, y) == x + y && MAdd(x + y, z) == x + y + z
  {
  }

  lemma AddsFour(x: Machine, y: Machine, z: Machine, w: Machine)
    ensures MAdd(x + y + z, w) == AddFour(x, y, z, w)
  {
  }

  lemma AddsFive(x: Machine, y: Machine, z: Machine, w: Machine, v: Machine)
    ensures MAdd(x + y + z, w) == x + y + z + w && MAdd(x + y + z + w, v) == AddFive(x, y, z, w, v)
  {
  }

  lemma AddsUp(x: Machine, y: Machine, z: Machine, w: Machine, v: Machine)
    ensures MAdd(MAdd(MAdd(x, y), z), w) == AddFour(x, y, z, w)
    ensures MAdd(MAdd(MAdd(MAdd(x, y), z), w), v) == AddFive(x, y, z, w, v)
  {
    hide *;
    AddsTwo(x, y, z);
    AddsFour(x, y, z, w);
    AddsFive(x, y, z, w, v);
  }

  /** A word of the schedule, from the four it depends on. */
  function MExpand(w2: Machine, w7: Machine, w15: Machine, w16: Machine): Machine {
    AddFour(MSmall1(w2), w7, MSmall0(w15), w16)
  }

  lemma ExpandIs(p2: Word, p7: Word, p15: Word, p16: Word, w2: Machine, w7: Machine, w15: Machine, w16: Machine)
    requires Is(p2, w2) && Is(p7, w7) && Is(p15, w15) && Is(p16, w16)
    ensures Is(Plus(Plus(Plus(SmallSigma1(p2), p7), SmallSigma0(p15)), p16), MExpand(w2, w7, w15, w16))
  {
    hide Is, Plus, MAdd, AddFour, AddFive, SmallSigma0, SmallSigma1, MSmall0, MSmall1;
    SmallSigmasAre(p2, w2);
    SmallSigmasAre(p15, w15);
    PlusIs(SmallSigma1(p2), p7, MSmall1(w2), w7);
    PlusIs(Plus(SmallSigma1(p2), p7), SmallSigma0(p15), MAdd(MSmall1(w2), w7), MSmall0(w15));
    PlusIs(Plus(Plus(SmallSigma1(p2), p7), SmallSigma0(p15)), p16, MAdd(MAdd(MSmall1(w2), w7), MSmall0(w15)), w16);
    AddsUp(MSmall1(w2), w7, MSmall0(w15), w16, w2);
  }

  /** The two sums of a round. */
  function First(e: Machine, f: Machine, g: Machine, h: Machine, k: Machine, w: Machine): Machine {
    AddFive(h, MBig1(e), MCh(e, f, g), k, w)
  }

  function Second(a: Machine, b: Machine, c: Machine): Machine { MAdd(MBig0(a), MMaj(a, b, c)) }

  lemma FirstIs(v: Words, k: Word, w: Word, e: Machine, f: Machine, g: Machine, h: Machine, mk: Machine, mw: Machine)
    requires Is(v.e, e) && Is(v.f, f) && Is(v.g, g) && Is(v.h, h) && Is(k, mk) && Is(w, mw)
    ensures Is(Plus(Plus(Plus(Plus(v.h, BigSigma1(v.e)), Ch(v.e, v.f, v.g)), k), w), First(e, f, g, h, mk, mw))
  {
    hide Is, Plus, MAdd, AddFour, AddFive, BigSigma0, BigSigma1, MBig0, MBig1, Ch, MCh;
    BigSigmasAre(v.e, e);
    ChIs(v.e, v.f, v.g, e, f, g);
    var s1, s2, n1, n2 := BigSigma1(v.e), Ch(v.e, v.f, v.g), MBig1(e), MCh(e, f, g);
    PlusIs(v.h, s1, h, n1);
    PlusIs(Plus(v.h, s1), s2, MAdd(h, n1), n2);
    PlusIs(Plus(Plus(v.h, s1), s2), k, MAdd(MAdd(h, n1), n2), mk);
    PlusIs(Plus(Plus(Plus(v.h, s1), s2), k), w, MAdd(MAdd(MAdd(h, n1), n2), mk), mw);
    AddsUp(h, n1, n2, mk, mw);
  }

  lemma SecondIs(v: Words, a: Machine, b: Machine, c: Machine)
    requires Is(v.a, a) && Is(v.b, b) && Is(v.c, c)
    ensures Is(Plus(BigSigma0(v.a), Maj(v.a, v.b, v.c)), Second(a, b, c))
  {
    hide Is, Plus, MAdd, BigSigma0, BigSigma1, MBig0, MBig1, Maj, MMaj;
    BigSigmasAre(v.a, a);
    MajIs(v.a, v.b, v.c, a, b, c);
    PlusIs(BigSigma0(v.a), Maj(v.a, v.b, v.c), MBig0(a), MMaj(a, b, c));
  }

  datatype MWords = MWords(a: Machine, b: Machine, c: Machine, d: Machine, e: Machine, f: Machine, g: Machine,
    h: Machine)

  predicate AllAre(v: Words, m: MWords) {
    && Is(v.a, m.a) && Is(v.b, m.b) && Is(v.c, m.c) && Is(v.d, m.d)
    && Is(v.e, m.e) && Is(v.f, m.f) && Is(v.g, m.g) && Is(v.h, m.h)
  }

  function MRound(m: MWords, k: Machine, w: Machine): MWords {
    var t1, t2 := First(m.e, m.f, m.g, m.h, k, w), Second(m.a, m.b, m.c);
    MWords(MAdd(t1, t2), m.a, m.b, m.c, MAdd(m.d, t1), m.e, m.f, m.g)
  }

  /** A round of the model is a round of the machine. */
  lemma RoundIs(v: Words, m: MWords, k: Word, w: Word, mk: Machine, mw: Machine)
    requires AllAre(v, m) && Is(k, mk) && Is(w, mw)
    ensures AllAre(Round(v, k, w), MRound(m, mk, mw))
  {
    hide Is, Plus, MAdd, BigSigma0, BigSigma1, Ch, Maj, First, Second;
    var t1 := Plus(Plus(Plus(Plus(v.h, BigSigma1(v.e)), Ch(v.e, v.f, v.g)), k), w);
    var t2 := Plus(BigSigma0(v.a), Maj(v.a, v.b, v.c));
    var n1, n2 := First(m.e, m.f, m.g, m.h, mk, mw), Second(m.a, m.b, m.c);
    FirstIs(v, k, w, m.e, m.f, m.g, m.h, mk, mw);
    SecondIs(v, m.a, m.b, m.c);
    PlusIs(t1, t2, n1, n2);
    PlusIs(v.d, t1, m.d, n1);
  }
}
