/** Occupancy over one side's flat window: a bit per slot, and a summary bit per word of slots. */
module LevelBitmaps {
  import opened Bits

  /** The summary bit of a word is set if and only if that word is nonzero. */
  ghost predicate BitmapOk(words: seq<nat>, summary: nat) {
    && 0 < |words| <= 64 && summary < Pow2(|words|)
    && (forall w :: 0 <= w < |words| ==> IsWord(words[w]))
    && (forall w :: 0 <= w < |words| ==> (Bit(summary, w) <==> words[w] != 0))
  }

  /** Slot i is occupied. */
  ghost predicate Has(words: seq<nat>, i: nat) { i / 64 < |words| && Bit(words[i / 64], i % 64) }

  lemma SlotParts(w: nat, b: nat)
    requires b < 64
    ensures (w * 64 + b) / 64 == w && (w * 64 + b) % 64 == b
  {
  }

  lemma SetKeeps(words: seq<nat>, summary: nat, i: nat)
    requires BitmapOk(words, summary) && i / 64 < |words|
    ensures var words' := words[i / 64 := SetBit(words[i / 64], i % 64)];
            && BitmapOk(words', SetBit(summary, i / 64))
            && forall j: nat :: Has(words', j) <==> j == i || Has(words, j)
  {
    var w, b := i / 64, i % 64;
    var words', summary' := words[w := SetBit(words[w], b)], SetBit(summary, w);
    SetBitFits(words[w], b, 64);
    SetBitFits(summary, w, |words|);
    forall v | 0 <= v < |words| ensures Bit(summary', v) <==> words'[v] != 0 { SetBitBits(summary, w, v); }
    forall j: nat ensures Has(words', j) <==> j == i || Has(words, j) { SetBitBits(words[w], b, j % 64); }
  }

  lemma ClearKeeps(words: seq<nat>, summary: nat, i: nat)
    requires BitmapOk(words, summary) && i / 64 < |words|
    ensures var words' := words[i / 64 := ClearBit(words[i / 64], i % 64)];
            && BitmapOk(words', if words'[i / 64] == 0 then ClearBit(summary, i / 64) else summary)
            && forall j: nat :: Has(words', j) <==> j != i && Has(words, j)
  {
    var w, b := i / 64, i % 64;
    var words' := words[w := ClearBit(words[w], b)];
    var summary' := if words'[w] == 0 then ClearBit(summary, w) else summary;
    ClearBitFits(words[w], b);
    ClearBitFits(summary, w);
    ClearBitBits(words[w], b, b);
    forall v | 0 <= v < |words| ensures Bit(summary', v) <==> words'[v] != 0 {
      ClearBitBits(summary, w, v);
      if v == w && words[w] == 0 { assert ClearBit(words[w], b) == 0; }
    }
    forall j: nat ensures Has(words', j) <==> j != i && Has(words, j) { ClearBitBits(words[w], b, j % 64); }
  }

  /** With the summary zero nothing is occupied. */
  lemma NoneOccupied(words: seq<nat>, summary: nat)
    requires BitmapOk(words, summary) && summary == 0
    ensures forall i: nat :: !Has(words, i)
  {
    forall i: nat ensures !Has(words, i) {
      ZeroHasNoBits(i / 64);
      ZeroHasNoBits(i % 64);
    }
  }

  lemma LowestSlot(words: seq<nat>, summary: nat)
    requires BitmapOk(words, summary) && summary > 0
    ensures var w := LowBit(summary); w < |words| && words[w] > 0
    ensures var i := LowBit(summary) * 64 + LowBit(words[LowBit(summary)]);
            Has(words, i) && forall j: nat :: j < i ==> !Has(words, j)
  {
    var w := LowBit(summary);
    LowBitFits(summary, |words|);
    LowBitIsLowest(summary, 0);
    var b := LowBit(words[w]);
    LowBitFits(words[w], 64);
    LowBitIsLowest(words[w], 0);
    SlotParts(w, b);
    forall j: nat | j < w * 64 + b ensures !Has(words, j) {
      LowBitIsLowest(summary, j / 64);
      LowBitIsLowest(words[w], j % 64);
      ZeroHasNoBits(j % 64);
    }
  }

  lemma HighestSlot(words: seq<nat>, summary: nat)
    requires BitmapOk(words, summary) && summary > 0
    ensures var w := HighBit(summary); w < |words| && words[w] > 0
    ensures var i := HighBit(summary) * 64 + HighBit(words[HighBit(summary)]);
            Has(words, i) && forall j: nat :: j > i ==> !Has(words, j)
  {
    var w := HighBit(summary);
    HighBitFits(summary, |words|);
    HighBitIsHighest(summary, 0);
    var b := HighBit(words[w]);
    HighBitFits(words[w], 64);
    HighBitIsHighest(words[w], 0);
    SlotParts(w, b);
    forall j: nat | j > w * 64 + b ensures !Has(words, j) {
      HighBitIsHighest(summary, j / 64);
      HighBitIsHighest(words[w], j % 64);
      ZeroHasNoBits(j % 64);
    }
  }

  class LevelBitmap {
    var words: seq<nat>
    var summary: nat
    /** The symbol and side this bitmap belongs to: no two sides share one. */
    ghost const owner: (nat, bool)

    ghost predicate Valid()
      reads this
    {
      BitmapOk(words, summary)
    }

    ghost predicate Occupied(i: nat)
      reads this
    {
      Has(words, i)
    }

    constructor (n: nat, ghost owner: (nat, bool))
      requires 0 < n <= 64
      ensures this.owner == owner
      ensures Valid() && |words| == n && forall i: nat :: !Occupied(i)
    {
      words, summary, this.owner := seq(n, _ => 0), 0, owner;
      new;
      forall w: nat ensures !Bit(0, w) { ZeroHasNoBits(w); }
    }

    /** Assigns a fresh bitmap. */
    method Reset()
      requires Valid()
      modifies this
      ensures Valid() && |words| == old(|words|) && forall i: nat :: !Occupied(i)
    {
      words, summary := seq(|words|, _ => 0), 0;
      forall w: nat ensures !Bit(0, w) { ZeroHasNoBits(w); }
    }

    method Set(i: nat)
      requires Valid() && i < 64 * |words|
      modifies this
      ensures Valid() && |words| == old(|words|)
      ensures forall j: nat :: Occupied(j) <==> j == i || old(Occupied(j))
    {
      SetKeeps(words, summary, i);
      words, summary := words[i / 64 := SetBit(words[i / 64], i % 64)], SetBit(summary, i / 64);
    }

    method Clear(i: nat)
      requires Valid() && i < 64 * |words|
      modifies this
      ensures Valid() && |words| == old(|words|)
      ensures forall j: nat :: Occupied(j) <==> j != i && old(Occupied(j))
    {
      ClearKeeps(words, summary, i);
      words := words[i / 64 := ClearBit(words[i / 64], i % 64)];
      if words[i / 64] == 0 { summary := ClearBit(summary, i / 64); }
    }

    /** The lowest occupied slot, or the width if there is none. */
    method Lowest() returns (i: nat)
      requires Valid()
      ensures i == 64 * |words| ==> forall j: nat :: !Occupied(j)
      ensures i < 64 * |words| ==> Occupied(i) && forall j: nat :: j < i ==> !Occupied(j)
      ensures i <= 64 * |words|
    {
      if summary == 0 {
        NoneOccupied(words, summary);
        return 64 * |words|;
      }
      LowestSlot(words, summary);
      var w := LowBit(summary);
      LowBitFits(words[w], 64);
      i := w * 64 + LowBit(words[w]);
    }

    /** The highest occupied slot, or the width if there is none. */
    method Highest() returns (i: nat)
      requires Valid()
      ensures i == 64 * |words| ==> forall j: nat :: !Occupied(j)
      ensures i < 64 * |words| ==> Occupied(i) && forall j: nat :: j > i ==> !Occupied(j)
      ensures i <= 64 * |words|
    {
      if summary == 0 {
        NoneOccupied(words, summary);
        return 64 * |words|;
      }
      HighestSlot(words, summary);
      var w := HighBit(summary);
      HighBitFits(words[w], 64);
      i := w * 64 + HighBit(words[w]);
    }
  }
}
