/** One side of one symbol in the fast book: a sliding flat window of levels with a bitmap over it, and an
    ordered map for the prices outside the window. */
module FastSides {
  import opened BookTypes
  import opened Bits
  import opened LevelBitmaps
  import opened OrderedKeys

  /** One price level: its aggregates and the two ends of its queue, as pool indices. */
  datatype FastLevel = FastLevel(shares: nat, orders: nat, head: u32, tail: u32)

  const EMPTY := FastLevel(0, 0, NO_ORDER, NO_ORDER)

  predicate WholeCents(p: Price) { p % 100 == 0 }

  /** The slot a price would take in a window of `width` slots that starts at `base` cents; -1 if none.
      Sub-cent prices are never in the window, and no price is before the origin is set. */
  function SlotOf(width: nat, base: int, p: Price): int {
    if WholeCents(p) && base >= 0 && 0 <= p / 100 - base < width then p / 100 - base else -1
  }

  /** The level at a price, wherever it lives; an absent level is EMPTY. */
  function LevelIn(levels: seq<FastLevel>, base: int, overflow: map<Price, FastLevel>, p: Price): FastLevel {
    if SlotOf(|levels|, base, p) >= 0 then levels[SlotOf(|levels|, base, p)]
    else if p in overflow then overflow[p]
    else EMPTY
  }

  /** Where a window should start, given the side's best price in cents: bids near its top, offers near its bottom. */
  function AnchorFor(W: nat, buy: bool, best: nat): nat {
    var at := if buy then best - (W - 1 - W / 8) else best - W / 8;
    if at < 0 then 0 else at
  }

  predicate Covers(W: nat, base: int, cents: nat) { base <= cents < base + W }

  /** The origin a window has after its side's best price, in cents, has been looked at. */
  function Rebase(W: nat, base: int, buy: bool, best: nat): int {
    var anchor := AnchorFor(W, buy, best);
    var delta := if anchor > base then anchor - base else base - anchor;
    if base < 0 then anchor
    else if W / 8 <= best - base < W - W / 8 then base
    else if delta < W / 8 then base
    else anchor
  }

  /** The origin a window has once a level of some price has been found or made: the first whole-cent price anchors
      it. */
  function Anchored(W: nat, base: int, buy: bool, price: Price): int {
    if base < 0 && WholeCents(price) then AnchorFor(W, buy, price / 100) else base
  }

  /** The origin once the side's best price, if there is one, has been looked at. */
  function Followed(W: nat, base: int, buy: bool, best: Option<Price>): int {
    if best.None? then base else Rebase(W, base, buy, best.value / 100)
  }

  predicate GoodWidth(W: nat) { W % 64 == 0 && 64 <= W <= 4096 }

  /** Anchoring on a price always puts that price inside the window. */
  lemma AnchorCovers(W: nat, buy: bool, best: nat)
    requires GoodWidth(W)
    ensures Covers(W, AnchorFor(W, buy, best), best)
  {
  }

  /** After the look, the best price is inside the window except exactly when the old origin lies above it and below
      the hysteresis, where the clamp at zero keeps the window from moving. */
  lemma RebaseCovers(W: nat, base: int, buy: bool, best: nat)
    requires GoodWidth(W)
    ensures Covers(W, Rebase(W, base, buy, best), best) <==> !(best < base < W / 8)
  {
  }

  /** Where anchoring puts the best price, and exactly when a window moves: there is an eighth of the window beyond the
      best price unless the window would start below zero, and a window moves when less than an eighth is left on either
      side of it and the move is at least that long. */
  lemma RebaseExactly(W: nat, base: int, buy: bool, best: nat)
    requires GoodWidth(W)
    ensures var anchor := AnchorFor(W, buy, best);
            && (buy ==> if best + W / 8 >= W - 1 then anchor + W - 1 == best + W / 8 else anchor == 0)
            && (!buy ==> if best >= W / 8 then anchor + W / 8 == best else anchor == 0)
            && var near := best < base + W / 8 || base + W - 1 < best + W / 8;
               var far := anchor >= base + W / 8 || base >= anchor + W / 8;
               Rebase(W, base, buy, best) == if base < 0 || (near && far) then anchor else base
  {
  }

  // ----- the structure of a side -----

  /** Window slots: an empty slot is cleared, and an occupied one stands for a price that fits 32 bits. */
  ghost predicate WindowOk(W: nat, levels: seq<FastLevel>, base: int, words: seq<nat>) {
    && (levels == [] || |levels| == W) && base >= -1 && (base < 0 ==> levels == [])
    && (forall i: nat :: Has(words, i) <==> i < |levels| && levels[i].orders != 0)
    && (forall i :: 0 <= i < |levels| && levels[i].orders == 0 ==> levels[i] == EMPTY)
    && (forall i :: 0 <= i < |levels| && levels[i].orders != 0 ==> (base + i) * 100 < 0x1_0000_0000)
  }

  /** Overflow levels lie outside the window and are not empty, but perhaps for one just created. */
  ghost predicate OverflowOk(W: nat, base: int, overflow: map<Price, FastLevel>, created: Option<Price>) {
    forall p: Price :: p in overflow ==>
      SlotOf(W, base, p) < 0 && (base < 0 ==> !WholeCents(p))
          && (overflow[p].orders == 0 ==> created == Some(p) && overflow[p] == EMPTY)
  }

  lemma StoreInWindow(W: nat, levels: seq<FastLevel>, base: int, words: seq<nat>, words': seq<nat>,
                      overflow: map<Price, FastLevel>, price: Price, lvl: FastLevel)
    requires WindowOk(W, levels, base, words) && SlotOf(|levels|, base, price) >= 0
    requires lvl.orders == 0 ==> lvl == EMPTY
    requires forall j: nat ::
               Has(words', j) <==> if j == SlotOf(|levels|, base, price) then lvl.orders != 0 else Has(words, j)
    ensures var levels' := levels[SlotOf(|levels|, base, price) := lvl];
            && WindowOk(W, levels', base, words')
            && forall p: Price :: LevelIn(levels', base, overflow, p) ==
                           if p == price then lvl else LevelIn(levels, base, overflow, p)
  {
    var s := SlotOf(|levels|, base, price);
    var levels' := levels[s := lvl];
    forall p: Price ensures LevelIn(levels', base, overflow, p) ==
                     if p == price then lvl else LevelIn(levels, base, overflow, p)
    {
      if SlotOf(|levels|, base, p) == s { assert p == price; }
    }
  }

  /** Allocating the window, and setting its origin if it had none, changes no level. */
  lemma Allocate(W: nat, base: int, base': nat, words: seq<nat>, overflow: map<Price, FastLevel>)
    requires GoodWidth(W) && WindowOk(W, [], base, words) && OverflowOk(W, base, overflow, None)
    requires base >= 0 ==> base' == base
    ensures var levels := seq(W, _ => EMPTY);
            && WindowOk(W, levels, base', words) && OverflowOk(W, base', overflow, None)
            && forall p: Price :: LevelIn(levels, base', overflow, p) == LevelIn([], base, overflow, p)
  {
  }

  lemma StoreInOverflow(W: nat, levels: seq<FastLevel>, base: int, overflow: map<Price, FastLevel>,
                        created: Option<Price>, price: Price, lvl: FastLevel)
    requires OverflowOk(W, base, overflow, created) && (created.Some? ==> created.value == price)
    requires SlotOf(W, base, price) < 0 && (base < 0 ==> !WholeCents(price))
    requires (levels == [] || |levels| == W) && (lvl.orders == 0 ==> lvl == EMPTY)
    ensures var overflow' := if lvl.orders == 0 then overflow - {price} else overflow[price := lvl];
            && OverflowOk(W, base, overflow', None)
            && forall p: Price :: LevelIn(levels, base, overflow', p) ==
                           if p == price then lvl else LevelIn(levels, base, overflow, p)
  {
    assert SlotOf(|levels|, base, price) < 0;
    var overflow' := if lvl.orders == 0 then overflow - {price} else overflow[price := lvl];
    forall p: Price ensures LevelIn(levels, base, overflow', p) ==
                            if p == price then lvl else LevelIn(levels, base, overflow, p)
    {
      assert p != price ==> (p in overflow' <==> p in overflow);
    }
  }

  lemma CreateOverflow(W: nat, levels: seq<FastLevel>, base: int, overflow: map<Price, FastLevel>, price: Price)
    requires OverflowOk(W, base, overflow, None) && price !in overflow && SlotOf(W, base, price) < 0
    requires base < 0 ==> !WholeCents(price)
    requires levels == [] || |levels| == W
    ensures var overflow' := overflow[price := EMPTY];
            && OverflowOk(W, base, overflow', Some(price))
            && forall p: Price :: LevelIn(levels, base, overflow', p) == LevelIn(levels, base, overflow, p)
  {
  }

  // ----- collecting levels for a move -----

  /** The levels listed so far, by price. */
  function Listed(s: seq<(Price, FastLevel)>): map<Price, FastLevel> {
    if s == [] then map[] else Listed(s[..|s| - 1])[s[|s| - 1].0 := s[|s| - 1].1]
  }

  lemma ListedMore(s: seq<(Price, FastLevel)>, p: Price, l: FastLevel)
    ensures Listed(s + [(p, l)]) == Listed(s)[p := l]
  {
    assert (s + [(p, l)])[..|s|] == s;
  }

  /** Slot i is in a word the walk has finished, or in word w at a bit already taken. */
  ghost predicate Visited(summary: nat, w: nat, word: nat, i: nat) {
    !Bit(summary, i / 64) && (i / 64 == w ==> !Bit(word, i % 64))
  }

  lemma VisitOne(words: seq<nat>, summary: nat, w: nat, word: nat)
    requires word > 0 && w < |words| && IsWord(word) && !Bit(summary, w)
    ensures var i := w * 64 + LowBit(word);
            forall j: nat :: Visited(summary, w, ClearLowest(word), j) <==> Visited(summary, w, word, j) || j == i
  {
    var b := LowBit(word);
    LowBitFits(word, 64);
    SlotParts(w, b);
    forall j: nat
      ensures Visited(summary, w, ClearLowest(word), j) <==> Visited(summary, w, word, j) || j == w * 64 + b
    {
      ClearLowestBits(word, j % 64);
    }
  }

  lemma VisitWord(words: seq<nat>, summary: nat, w: nat)
    requires summary > 0
    ensures var w' := LowBit(summary);
            forall j: nat :: w' < |words| && Has(words, j) ==>
              (Visited(ClearLowest(summary), w', words[w'], j) <==> Visited(summary, w, 0, j))
  {
    var w' := LowBit(summary);
    forall j: nat | w' < |words| && Has(words, j)
      ensures Visited(ClearLowest(summary), w', words[w'], j) <==> Visited(summary, w, 0, j)
    {
      ClearLowestBits(summary, j / 64);
      LowBitIsLowest(summary, 0);
      ZeroHasNoBits(j % 64);
    }
  }

  /** `listed` is what the walk over the window's bitmap has collected so far. */
  ghost predicate Collected(listed: map<Price, FastLevel>, levels: seq<FastLevel>, base: int, words: seq<nat>,
                            summary: nat, w: nat, word: nat) {
    forall p: Price :: p in listed <==>
      var i := SlotOf(|levels|, base, p);
      i >= 0 && Has(words, i) && Visited(summary, w, word, i) && (p in listed ==> listed[p] == levels[i])
  }

  lemma CollectOne(W: nat, listed: map<Price, FastLevel>, levels: seq<FastLevel>, base: int, words: seq<nat>,
                   summary: nat, w: nat, word: nat)
    requires WindowOk(W, levels, base, words) && Collected(listed, levels, base, words, summary, w, word)
    requires word > 0 && w < |words| && IsWord(word) && !Bit(summary, w)
    requires Bit(words[w], LowBit(word))
    ensures var i := w * 64 + LowBit(word);
            && i < |levels| && levels[i].orders != 0 && (base + i) * 100 < 0x1_0000_0000 && base >= 0
            && Collected(listed[(base + i) * 100 := levels[i]], levels, base, words, summary, w, ClearLowest(word))
  {
    var i := w * 64 + LowBit(word);
    LowBitFits(word, 64);
    SlotParts(w, LowBit(word));
    VisitOne(words, summary, w, word);
    assert Has(words, i);
    hide Visited, Bit, LowBit, ClearLowest, IsWord, Has, AnchorFor;
    var price: Price := (base + i) * 100;
    assert SlotOf(|levels|, base, price) == i;
    forall p: Price | SlotOf(|levels|, base, p) == i ensures p == price {}
  }

  lemma CollectNone(W: nat, levels: seq<FastLevel>, base: int, words: seq<nat>, summary: nat)
    requires BitmapOk(words, summary)
    ensures Collected(map[], levels, base, words, summary, 0, 0)
  {
    forall i: nat | Has(words, i) ensures Bit(summary, i / 64) { ZeroHasNoBits(i % 64); }
  }

  ghost predicate NoneEmpty(scratch: seq<(Price, FastLevel)>) {
    forall j :: 0 <= j < |scratch| ==> scratch[j].1.orders != 0
  }

  /** The state of the walk over the bits of word w. */
  ghost predicate Collecting(scratch: seq<(Price, FastLevel)>, levels: seq<FastLevel>, base: int, words: seq<nat>,
                             summary: nat, w: nat, word: nat) {
    && w < |words| && IsWord(word) && (forall b: nat :: Bit(word, b) ==> Bit(words[w], b))
    && Collected(Listed(scratch), levels, base, words, summary, w, word) && NoneEmpty(scratch)
  }

  lemma CollectStep(W: nat, scratch: seq<(Price, FastLevel)>, levels: seq<FastLevel>, base: int, words: seq<nat>,
                    summary: nat, w: nat, word: nat)
    requires WindowOk(W, levels, base, words) && Collecting(scratch, levels, base, words, summary, w, word)
    requires word > 0 && !Bit(summary, w)
    ensures var i := w * 64 + LowBit(word);
            && i < |levels| && base >= 0 && (base + i) * 100 < 0x1_0000_0000 && ClearLowest(word) < word
            && Collecting(scratch + [((base + i) * 100, levels[i])], levels, base, words, summary, w, ClearLowest(word))
  {
    hide Collected, Listed, WindowOk, Bit, LowBit, ClearLowest, Visited, Has, SlotOf, Pow2;
    forall b: nat ensures Bit(ClearLowest(word), b) ==> Bit(word, b) { ClearLowestBits(word, b); }
    ClearLowestBits(word, 0);
    LowBitIsLowest(word, 0);
    CollectOne(W, Listed(scratch), levels, base, words, summary, w, word);
    var i := w * 64 + LowBit(word);
    ListedMore(scratch, (base + i) * 100, levels[i]);
  }

  lemma CollectingDone(scratch: seq<(Price, FastLevel)>, levels: seq<FastLevel>, base: int, words: seq<nat>,
                       summary: nat, w: nat)
    requires Collecting(scratch, levels, base, words, summary, w, 0)
    ensures Collected(Listed(scratch), levels, base, words, summary, w, 0) && NoneEmpty(scratch)
  {
  }

  lemma CollectWord(scratch: seq<(Price, FastLevel)>, levels: seq<FastLevel>, base: int, words: seq<nat>,
                    summary: nat, w: nat, top: nat)
    requires Collected(Listed(scratch), levels, base, words, summary, w, 0) && NoneEmpty(scratch)
    requires BitmapOk(words, top) && summary > 0 && forall v: nat :: Bit(summary, v) ==> Bit(top, v)
    ensures var w', summary' := LowBit(summary), ClearLowest(summary);
            && w' < |words| && !Bit(summary', w') && summary' < summary
            && Collecting(scratch, levels, base, words, summary', w', words[w'])
            && forall v: nat :: Bit(summary', v) ==> Bit(top, v)
  {
    var w' := LowBit(summary);
    LowBitIsLowest(summary, 0);
    BitFits(top, |words|, w');
    VisitWord(words, summary, w);
    forall v: nat ensures Bit(ClearLowest(summary), v) <==> v != w' && Bit(summary, v) { ClearLowestBits(summary, v); }
    ClearLowestBits(summary, 0);
  }

  lemma CollectAll(listed: map<Price, FastLevel>, levels: seq<FastLevel>, base: int, words: seq<nat>, w: nat)
    requires Collected(listed, levels, base, words, 0, w, 0)
    ensures forall p: Price :: p in listed <==> SlotOf(|levels|, base, p) >= 0 && Has(words, SlotOf(|levels|, base, p))
    ensures forall p :: p in listed ==> listed[p] == levels[SlotOf(|levels|, base, p)]
  {
    forall i: nat ensures Visited(0, w, 0, i) {
      ZeroHasNoBits(i / 64);
      ZeroHasNoBits(i % 64);
    }
  }

  class FastSide {
    const W: nat
    /** Which side of which symbol this is. */
    const buy: bool
    ghost const locate: Locate
    const occupied: LevelBitmap
    var levels: seq<FastLevel>
    var overflow: map<Price, FastLevel>
    var base: int

    ghost function LevelAt(p: Price): FastLevel
      reads this
    {
      LevelIn(levels, base, overflow, p)
    }

    ghost predicate ValidBut(created: Option<Price>)
      reads this, occupied
    {
      && GoodWidth(W) && occupied.owner == (locate, buy) && occupied.Valid() && 64 * |occupied.words| == W
      && WindowOk(W, levels, base, occupied.words)
      && OverflowOk(W, base, overflow, created)
    }

    ghost predicate Valid()
      reads this, occupied
    {
      ValidBut(None)
    }

    constructor (W: nat, ghost locate: Locate, buy: bool)
      requires GoodWidth(W)
      ensures Valid() && fresh(occupied) && this.W == W && this.locate == locate && this.buy == buy && base == -1
      ensures forall p: Price :: LevelAt(p) == EMPTY
    {
      this.W, this.locate, this.buy := W, locate, buy;
      occupied := new LevelBitmap(W / 64, (locate, buy));
      levels, overflow, base := [], map[], -1;
      new;
      forall i: nat ensures !Has(occupied.words, i) { assert !occupied.Occupied(i); }
    }

    /** Finds or creates the level of a price, anchoring and allocating the window on first use. */
    method LevelFor(price: Price) returns (lvl: FastLevel)
      requires Valid()
      modifies this
      ensures ValidBut(if price in overflow then Some(price) else None)
      ensures SlotOf(|levels|, base, price) >= 0 || price in overflow
      ensures lvl == LevelAt(price) && forall p: Price :: LevelAt(p) == old(LevelAt(p))
      ensures base == Anchored(W, old(base), buy, price)
    {
      if WholeCents(price) {
        if levels == [] {
          Allocate(W, base, if base < 0 then AnchorFor(W, buy, price / 100) else base, occupied.words, overflow);
        }
        if base < 0 { base := AnchorFor(W, buy, price / 100); }
        if levels == [] { levels := seq(W, _ => EMPTY); }
        var off := price / 100 - base;
        if 0 <= off < W {
          return levels[off];
        }
      }
      if price !in overflow {
        CreateOverflow(W, levels, base, overflow, price);
        overflow := overflow[price := EMPTY];
        return EMPTY;
      }
      lvl := overflow[price];
    }

    /** A window slot holds the level of its price, or nothing where no 32-bit price maps to it; its bit says which. */
    lemma SlotLevel(i: nat)
      requires Valid() && i < |levels|
      ensures base >= 0 && i / 64 < |occupied.words|
      ensures Bit(occupied.words[i / 64], i % 64) <==> levels[i].orders != 0
      ensures if (base + i) * 100 < 0x1_0000_0000 then LevelAt((base + i) * 100) == levels[i] else levels[i] == EMPTY
    {
      assert Has(occupied.words, i) <==> levels[i].orders != 0;
    }

    /** Every level lives in a window slot or in the overflow. */
    lemma LevelLives(p: Price)
      requires Valid() && LevelAt(p).orders != 0 && p !in overflow
      ensures WholeCents(p) && 0 <= p / 100 - base < |levels| && (base + (p / 100 - base)) * 100 == p
    {
    }

    /** The level of a price, for reading: NO level where both homes are empty. */
    method FindLevel(price: Price) returns (lvl: FastLevel)
      requires Valid()
      ensures lvl == LevelAt(price)
    {
      if WholeCents(price) && base >= 0 && 0 <= price / 100 - base < W && levels != [] {
        return levels[price / 100 - base];
      }
      lvl := if price in overflow then overflow[price] else EMPTY;
    }

    /** Writes a level back where it lives, keeping the bitmap in step and dropping an emptied overflow level. */
    method Store(price: Price, lvl: FastLevel, ghost created: Option<Price>)
      requires ValidBut(created) && (created.Some? ==> created.value == price)
      requires SlotOf(|levels|, base, price) >= 0 || price in overflow
      requires lvl.orders == 0 ==> lvl == EMPTY
      modifies this, occupied
      ensures Valid() && base == old(base)
      ensures forall p: Price :: LevelAt(p) == if p == price then lvl else old(LevelAt(p))
    {
      var off := if WholeCents(price) then price / 100 - base else -1;
      if base >= 0 && 0 <= off < W && levels != [] {
        ghost var words := occupied.words;
        if lvl.orders == 0 {
          occupied.Clear(off);
        } else if levels[off].orders == 0 {
          occupied.Set(off);
        }
        assert forall j: nat :: Has(words, j) == old(occupied.Occupied(j));
        assert forall j: nat :: Has(occupied.words, j) == occupied.Occupied(j);
        StoreInWindow(W, levels, base, words, occupied.words, overflow, price, lvl);
        levels := levels[off := lvl];
      } else {
        StoreInOverflow(W, levels, base, overflow, created, price, lvl);
        overflow := if lvl.orders == 0 then overflow - {price} else overflow[price := lvl];
      }
    }

    /** The best price in the window, through its bitmap. */
    method BestInWindow() returns (have: bool, out: Price)
      requires Valid()
      ensures have ==> SlotOf(|levels|, base, out) >= 0 && LevelAt(out).orders != 0
      ensures forall p: Price :: SlotOf(|levels|, base, p) >= 0 && LevelAt(p).orders != 0 ==>
                                   have && AtLeastAsGood(buy, out, p)
    {
      var i;
      if buy { i := occupied.Highest(); } else { i := occupied.Lowest(); }
      assert forall j: nat :: Has(occupied.words, j) == occupied.Occupied(j);
      if base < 0 || i == W { return false, 0; }
      assert occupied.Occupied(i);
      have, out := true, (base + i) * 100;
    }

    /** Best price over both homes: an order outside the window still sets the inside. */
    method Best() returns (have: bool, out: Price)
      requires Valid()
      ensures have ==> LevelAt(out).orders != 0
      ensures forall p: Price :: LevelAt(p).orders != 0 ==> have && if buy then p <= out else out <= p
    {
      have, out := BestInWindow();
      if overflow != map[] {
        var candidate := EndOf(overflow.Keys, buy);
        assert SlotOf(|levels|, base, candidate) < 0 && LevelAt(candidate).orders != 0;
        if !have || (if buy then candidate > out else candidate < out) {
          have, out := true, candidate;
        }
      }
    }

    /** Collects the levels of word w of the bitmap, by walking its set bits. */
    method CollectWordSlots(listed: seq<(Price, FastLevel)>, w: nat, ghost summary: nat)
      returns (scratch: seq<(Price, FastLevel)>)
      requires Valid() && w < |occupied.words| && !Bit(summary, w)
      requires Collecting(listed, levels, base, occupied.words, summary, w, occupied.words[w])
      ensures Collecting(scratch, levels, base, occupied.words, summary, w, 0)
    {
      scratch := listed;
      var word: nat := occupied.words[w];
      ghost var words := occupied.words;
      hide *;
      while word != 0
        invariant Collecting(scratch, levels, base, words, summary, w, word)
        decreases word
      {
        CollectStep(W, scratch, levels, base, words, summary, w, word);
        var i := w * 64 + LowBit(word);
        word := ClearLowest(word);
        scratch := scratch + [((base + i) * 100, levels[i])];
      }
    }

    /** Collects the window's levels by walking the set bits, not the window. */
    method CollectWindow() returns (scratch: seq<(Price, FastLevel)>)
      requires Valid()
      ensures forall p: Price ::
                p in Listed(scratch) <==>
                    SlotOf(|levels|, base, p) >= 0 && Has(occupied.words, SlotOf(|levels|, base, p))
      ensures forall p :: p in Listed(scratch) ==> Listed(scratch)[p] == levels[SlotOf(|levels|, base, p)]
      ensures NoneEmpty(scratch)
    {
      scratch := [];
      if levels == [] { return; }
      var summary: nat := occupied.summary;
      ghost var words, top, last := occupied.words, summary, 0;
      CollectNone(W, levels, base, words, summary);
      hide *;
      while summary != 0
        invariant Collected(Listed(scratch), levels, base, words, summary, last, 0) && NoneEmpty(scratch)
        invariant forall v: nat :: Bit(summary, v) ==> Bit(top, v)
        decreases summary
      {
        CollectWord(scratch, levels, base, words, summary, last, top);
        var w := LowBit(summary);
        summary := ClearLowest(summary);
        scratch := CollectWordSlots(scratch, w, summary);
        CollectingDone(scratch, levels, base, words, summary, w);
        last := w;
      }
      CollectAll(Listed(scratch), levels, base, words, last);
    }

    /** Every occupied level of the side, from both homes. */
    method CollectAllLevels() returns (scratch: seq<(Price, FastLevel)>)
      requires Valid()
      ensures forall p: Price :: LevelAt(p) == if p in Listed(scratch) then Listed(scratch)[p] else EMPTY
      ensures NoneEmpty(scratch)
    {
      scratch := CollectWindow();
      ghost var window := Listed(scratch);
      var left := overflow.Keys;
      while left != {}
        invariant left <= overflow.Keys
        invariant forall p: Price :: p in Listed(scratch) <==> p in window || (p in overflow && p !in left)
        invariant forall p :: p in Listed(scratch) ==> Listed(scratch)[p] == LevelAt(p)
        invariant NoneEmpty(scratch)
        decreases left
      {
        var p := EndOf(left, false);
        ListedMore(scratch, p, overflow[p]);
        assert SlotOf(|levels|, base, p) < 0;
        scratch := scratch + [(p, overflow[p])];
        left := left - {p};
      }
    }

    /** Puts one collected level into its home under the current origin. */
    method Place(price: Price, lvl: FastLevel)
      requires Valid() && base >= 0 && lvl.orders != 0
      modifies this, occupied
      ensures Valid() && base == old(base)
      ensures forall p: Price :: LevelAt(p) == if p == price then lvl else old(LevelAt(p))
    {
      if WholeCents(price) && 0 <= price / 100 - base < W {
        if levels == [] {
          Allocate(W, base, base, occupied.words, overflow);
          levels := seq(W, _ => EMPTY);
        }
        Store(price, lvl, None);
      } else {
        StoreInOverflow(W, levels, base, overflow, None, price, lvl);
        overflow := overflow[price := lvl];
      }
    }

    /** Moves the window so that the best price sits where its side wants it, and puts every occupied level into its
        home under the new origin. No level changes. */
    method Recenter(best: nat)
      requires Valid()
      modifies this, occupied
      ensures Valid() && forall p: Price :: LevelAt(p) == old(LevelAt(p))
      ensures var anchor := AnchorFor(W, buy, best); var b := old(base);
              base == if b >= 0 && (if anchor > b then anchor - b else b - anchor) < W / 8 then b else anchor
    {
      var anchor := AnchorFor(W, buy, best);
      if base >= 0 {
        var delta := if anchor > base then anchor - base else base - anchor;
        if delta < W / 8 { return; }
      }
      var scratch := CollectAllLevels();
      if levels != [] { levels := seq(W, _ => EMPTY); }
      occupied.Reset();
      assert forall i: nat :: Has(occupied.words, i) == occupied.Occupied(i);
      overflow := map[];
      base := anchor;
      var i := 0;
      while i < |scratch|
        invariant i <= |scratch| && Valid() && base == anchor
        invariant forall p: Price ::
          LevelAt(p) == if p in Listed(scratch[..i]) then Listed(scratch[..i])[p] else EMPTY
      {
        Place(scratch[i].0, scratch[i].1);
        assert scratch[..i + 1] == scratch[..i] + [(scratch[i].0, scratch[i].1)];
        ListedMore(scratch[..i], scratch[i].0, scratch[i].1);
        i := i + 1;
      }
      assert scratch[..i] == scratch;
    }

    /** Moves the window when the side's best price has drifted near one of its edges. No level changes, and the best
        price ends inside the window with the one exception RebaseCovers names. */
    method MaybeRecenter() returns (have: bool, out: Price)
      requires Valid()
      modifies this, occupied
      ensures Valid() && forall p: Price :: LevelAt(p) == old(LevelAt(p))
      ensures have ==> LevelAt(out).orders != 0
      ensures forall p: Price :: LevelAt(p).orders != 0 ==> have && AtLeastAsGood(buy, out, p)
      ensures base == if have then Rebase(W, old(base), buy, out / 100) else old(base)
      ensures have ==> (Covers(W, base, out / 100) <==> !(out / 100 < old(base) < W / 8))
    {
      have, out := Best();
      if !have { return; }
      var cents := out / 100;
      RebaseCovers(W, base, buy, cents);
      if base >= 0 && W / 8 <= cents - base < W - W / 8 { return; }
      Recenter(cents);
    }
  }
}
