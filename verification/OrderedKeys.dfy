/** The two ends of an ordered map keyed by price. */
module OrderedKeys {
  import opened BookTypes

  /** p is as good as q for the given side: bids want the highest price, offers the lowest. */
  predicate AtLeastAsGood(buy: bool, p: Price, q: Price) { if buy then q <= p else p <= q }

  ghost predicate IsEnd(keys: set<Price>, buy: bool, p: Price) {
    p in keys && forall q :: q in keys ==> AtLeastAsGood(buy, p, q)
  }

  lemma {:induction false} EndExists(keys: set<Price>, buy: bool) returns (p: Price)
    requires keys != {}
    ensures IsEnd(keys, buy, p)
    decreases |keys|
  {
    var first :| first in keys;
    var rest := keys - {first};
    p := first;
    if rest != {} {
      var q := EndExists(rest, buy);
      if !AtLeastAsGood(buy, first, q) { p := q; }
    }
    assert forall x :: x in keys ==> x == first || x in rest;
  }

  /** The last key of the bids, the first of the offers. */
  method EndOf(keys: set<Price>, buy: bool) returns (p: Price)
    requires keys != {}
    ensures IsEnd(keys, buy, p)
  {
    ghost var e := EndExists(keys, buy);
    p :| p in keys && forall q :: q in keys ==> AtLeastAsGood(buy, p, q);
  }
}
