/** Unsigned machine words as natural numbers, with the bit operations the books use defined one bit at a time. */
module Bits {

  function Pow2(n: nat): (p: nat)
    ensures p > 0
  {
    if n == 0 then 1 else 2 * Pow2(n - 1)
  }

  /** w fits a 64-bit word. */
  predicate IsWord(w: nat) { w < Pow2(64) }

  /** Bit k of w, as `(w >> k) & 1`. */
  predicate Bit(w: nat, k: nat) {
    if k == 0 then w % 2 == 1 else Bit(w / 2, k - 1)
  }

  /** `w | (1 << k)`. */
  function SetBit(w: nat, k: nat): nat {
    if k == 0 then w - w % 2 + 1 else 2 * SetBit(w / 2, k - 1) + w % 2
  }

  /** `w & ~(1 << k)`. */
  function ClearBit(w: nat, k: nat): nat {
    if k == 0 then w - w % 2 else 2 * ClearBit(w / 2, k - 1) + w % 2
  }

  /** `w & (w - 1)`. */
  function ClearLowest(w: nat): nat
    requires w > 0
  {
    if w % 2 == 1 then w - 1 else 2 * ClearLowest(w / 2)
  }

  /** `countr_zero(w)`. */
  function LowBit(w: nat): nat
    requires w > 0
  {
    if w % 2 == 1 then 0 else 1 + LowBit(w / 2)
  }

  /** `63 - countl_zero(w)`: the position of the leading one. */
  function HighBit(w: nat): nat
    requires w > 0
  {
    if w == 1 then 0 else 1 + HighBit(w / 2)
  }

  /** `x & y`. */
  function And(x: nat, y: nat): nat {
    if x == 0 || y == 0 then 0 else 2 * And(x / 2, y / 2) + (x % 2) * (y % 2)
  }

  /** `x >> n`. */
  function ShiftRight(x: nat, n: nat): nat { if n == 0 then x else ShiftRight(x / 2, n - 1) }

  lemma {:induction false} SetBitBits(w: nat, k: nat, j: nat)
    ensures Bit(SetBit(w, k), j) <==> j == k || Bit(w, j)
  {
    if k > 0 && j > 0 { SetBitBits(w / 2, k - 1, j - 1); }
  }

  lemma {:induction false} ClearBitBits(w: nat, k: nat, j: nat)
    ensures Bit(ClearBit(w, k), j) <==> j != k && Bit(w, j)
  {
    if k > 0 && j > 0 { ClearBitBits(w / 2, k - 1, j - 1); }
  }

  lemma {:induction false} SetBitFits(w: nat, k: nat, n: nat)
    requires w < Pow2(n) && k < n
    ensures 0 < SetBit(w, k) < Pow2(n)
  {
    if k > 0 { SetBitFits(w / 2, k - 1, n - 1); }
  }

  lemma {:induction false} ClearBitFits(w: nat, k: nat)
    ensures ClearBit(w, k) <= w
  {
    if k > 0 { ClearBitFits(w / 2, k - 1); }
  }

  lemma {:induction false} NoBits(w: nat, n: nat)
    requires w < Pow2(n)
    requires forall k :: 0 <= k < n ==> !Bit(w, k)
    ensures w == 0
  {
    if n > 0 {
      forall k | 0 <= k < n - 1 ensures !Bit(w / 2, k) { assert !Bit(w, k + 1); }
      NoBits(w / 2, n - 1);
      assert !Bit(w, 0);
    }
  }

  lemma {:induction false} ZeroHasNoBits(k: nat)
    ensures !Bit(0, k)
  {
    if k > 0 { ZeroHasNoBits(k - 1); }
  }

  lemma {:induction false} LowBitIsLowest(w: nat, j: nat)
    requires w > 0
    ensures Bit(w, LowBit(w)) && (j < LowBit(w) ==> !Bit(w, j))
  {
    if w % 2 == 0 { LowBitIsLowest(w / 2, if j > 0 then j - 1 else 0); }
  }

  lemma {:induction false} HighBitIsHighest(w: nat, j: nat)
    requires w > 0
    ensures Bit(w, HighBit(w)) && (j > HighBit(w) ==> !Bit(w, j))
  {
    if w == 1 {
      if j > 0 { ZeroHasNoBits(j - 1); }
    } else {
      HighBitIsHighest(w / 2, if j > 0 then j - 1 else 0);
    }
  }

  lemma {:induction false} HighBitFits(w: nat, n: nat)
    requires 0 < w < Pow2(n)
    ensures HighBit(w) < n
  {
    if w > 1 { HighBitFits(w / 2, n - 1); }
  }

  lemma {:induction false} BitFits(w: nat, n: nat, k: nat)
    requires w < Pow2(n) && Bit(w, k)
    ensures k < n
  {
    if n == 0 {
      ZeroHasNoBits(k);
    } else if k > 0 {
      BitFits(w / 2, n - 1, k - 1);
    }
  }

  lemma {:induction false} LowBitFits(w: nat, n: nat)
    requires 0 < w < Pow2(n)
    ensures LowBit(w) < n
  {
    if w % 2 == 0 { LowBitFits(w / 2, n - 1); }
  }

  lemma {:induction false} ClearLowestBits(w: nat, j: nat)
    requires w > 0
    ensures ClearLowest(w) < w
    ensures Bit(ClearLowest(w), j) <==> j != LowBit(w) && Bit(w, j)
  {
    if w % 2 == 0 { ClearLowestBits(w / 2, if j > 0 then j - 1 else 0); }
  }

  lemma {:induction false} ShiftRightBelow(x: nat, a: nat, n: nat)
    requires x < Pow2(a + n)
    ensures ShiftRight(x, n) < Pow2(a)
  {
    if n > 0 {
      assert Pow2(a + n) == 2 * Pow2(a + n - 1);
      ShiftRightBelow(x / 2, a, n - 1);
    }
  }

  /** Shifting divides by a power of two. */
  lemma {:induction false} ShiftRightDivides(x: nat, n: nat)
    ensures ShiftRight(x, n) == x / Pow2(n)
  {
    if n > 0 {
      ShiftRightDivides(x / 2, n - 1);
      var p := Pow2(n - 1);
      var q, r := x / 2 / p, x / 2 % p;
      DividedBy(x / 2, p);
      Twofold(q, p, r, x);
      ModIs(x, 2 * p, q, 2 * r + x % 2);
    }
  }

  lemma Twofold(q: nat, p: nat, r: nat, x: nat)
    requires x / 2 == q * p + r
    ensures x == q * (2 * p) + (2 * r + x % 2)
  {
  }

  /** Masking with 2^n - 1 keeps the remainder: `x & (N - 1) == x % N` for a power of two N. */
  lemma {:induction false} AndMask(x: nat, n: nat)
    ensures And(x, Pow2(n) - 1) == x % Pow2(n)
  {
    if n > 0 {
      var p := Pow2(n - 1);
      assert Pow2(n) == 2 * p;
      AndMask(x / 2, n - 1);
      HalfMod(x, p);
      AndOdd(x, p - 1);
    }
  }

  lemma {:induction false} AndBits(x: nat, y: nat, k: nat)
    ensures Bit(And(x, y), k) <==> Bit(x, k) && Bit(y, k)
  {
    if x == 0 || y == 0 {
      ZeroHasNoBits(k);
    } else if k > 0 {
      AndBits(x / 2, y / 2, k - 1);
    }
  }

  lemma {:induction false} AndFits(x: nat, y: nat)
    ensures And(x, y) <= x
  {
    if x > 0 && y > 0 { AndFits(x / 2, y / 2); }
  }

  lemma AndOdd(x: nat, y: nat)
    ensures And(x, 2 * y + 1) == 2 * And(x / 2, y) + x % 2
  {
    assert (2 * y + 1) / 2 == y && (2 * y + 1) % 2 == 1;
  }

  lemma HalfMod(x: nat, p: nat)
    requires p > 0
    ensures x % (2 * p) == 2 * (x / 2 % p) + x % 2
  {
    var q, r := x / 2 / p, x / 2 % p;
    assert x / 2 == q * p + r;
    assert 2 * (q * p) == q * (2 * p);
    ModIs(x, 2 * p, q, 2 * r + x % 2);
  }

  lemma DividedBy(x: nat, m: nat)
    requires m > 0
    ensures x == (x / m) * m + x % m && 0 <= x % m < m
  {
  }

  lemma ModIs(x: nat, p: nat, q: nat, r: nat)
    requires p > 0 && r < p && x == q * p + r
    ensures x % p == r && x / p == q
  {
    var d := x / p - q;
    assert d * p == r - x % p;
  }

  lemma {:induction false} Pow2Monotone(a: nat, b: nat)
    ensures a < b ==> 2 * Pow2(a) <= Pow2(b)
    ensures Pow2(a) > Pow2(b) ==> a > b
  {
    if a + 1 < b { Pow2Monotone(a, b - 1); }
    if a < b { assert Pow2(b) == 2 * Pow2(b - 1); }
  }

  /** Stepping to the next slot of a ring of 2^n slots, with wraparound, is `(i + 1) & (2^n - 1)`. */
  lemma NextIsMasked(n: nat, i: nat)
    requires i < Pow2(n)
    ensures And(i + 1, Pow2(n) - 1) == if i + 1 == Pow2(n) then 0 else i + 1
  {
    AndMask(i + 1, n);
    ModIs(i + 1, Pow2(n), if i + 1 == Pow2(n) then 1 else 0, if i + 1 == Pow2(n) then 0 else i + 1);
  }

  lemma EightDoublings(n: nat)
    ensures Pow2(n + 8) == 256 * Pow2(n)
  {
    assert Pow2(n + 8) == 2 * Pow2(n + 7) && Pow2(n + 7) == 2 * Pow2(n + 6);
    assert Pow2(n + 6) == 2 * Pow2(n + 5) && Pow2(n + 5) == 2 * Pow2(n + 4);
    assert Pow2(n + 4) == 2 * Pow2(n + 3) && Pow2(n + 3) == 2 * Pow2(n + 2);
    assert Pow2(n + 2) == 2 * Pow2(n + 1) && Pow2(n + 1) == 2 * Pow2(n);
  }

  lemma Pow2Of32()
    ensures Pow2(32) == 0x1_0000_0000 && Pow2(31) == 0x8000_0000
  {
    EightDoublings(0);
    EightDoublings(8);
    EightDoublings(16);
    EightDoublings(24);
  }
}
