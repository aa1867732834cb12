/** What the determinism digests are taken over: the bytes of an event stream, and of a whole book, can be read only one
    way. */
module Determinism {
  import opened BookTypes
  import opened Wire
  import opened Sha256s

  // ----- fields of fixed width -----

  datatype Field = Field(value: nat, width: nat)

  ghost predicate Fits(f: Field) { f.value < Pow256(f.width) }

  function Written(fields: seq<Field>): Bytes {
    if fields == [] then [] else ToBigEndian(fields[0].value, fields[0].width) + Written(fields[1..])
  }

  ghost predicate AllFit(fields: seq<Field>) { forall f :: f in fields ==> Fits(f) }

  ghost predicate SameWidths(a: seq<Field>, b: seq<Field>) {
    |a| == |b| && forall i :: 0 <= i < |a| ==> a[i].width == b[i].width
  }

  lemma NumberFront(x: nat, y: nat, n: nat, r: Bytes, r': Bytes)
    requires x < Pow256(n) && y < Pow256(n) && ToBigEndian(x, n) + r == ToBigEndian(y, n) + r'
    ensures x == y && r == r'
  {
    BigEndianBack(x, n);
    BigEndianBack(y, n);
    var a, b := ToBigEndian(x, n) + r, ToBigEndian(y, n) + r';
    assert a[..n] == ToBigEndian(x, n) && a[n..] == r && b[..n] == ToBigEndian(y, n) && b[n..] == r';
  }

  /** Fields of the same widths, in front of anything, can be told from their bytes. */
  lemma {:induction false} FieldsFront(a: seq<Field>, b: seq<Field>, r: Bytes, r': Bytes)
    requires AllFit(a) && AllFit(b) && SameWidths(a, b) && Written(a) + r == Written(b) + r'
    ensures a == b && r == r'
  {
    if a == [] {
      assert Written(a) + r == r && Written(b) + r' == r';
    } else {
      var f, g := a[0], b[0];
      assert f in a && g in b && Fits(f) && Fits(g);
      Join(ToBigEndian(f.value, f.width), Written(a[1..]), r);
      Join(ToBigEndian(g.value, g.width), Written(b[1..]), r');
      NumberFront(f.value, g.value, f.width, Written(a[1..]) + r, Written(b[1..]) + r');
      FieldsFront(a[1..], b[1..], r, r');
      assert a == [f] + a[1..] && b == [g] + b[1..];
    }
  }

  lemma Join(a: Bytes, b: Bytes, c: Bytes)
    ensures (a + b) + c == a + (b + c)
  {
  }

  // ----- the event stream -----

  datatype PrintKind = TradePrint | CrossPrint | BrokenPrint

  /** A book effect, as the stream records it. */
  datatype Effect =
    | Added(ts: u64, locate: Locate, ref: Ref, side: u8, price: Price, shares: Shares)
    | Reduced(reduceKind: ReduceKind, ts: u64, locate: Locate, ref: Ref, qty: Shares)
    | Deleted(ts: u64, locate: Locate, ref: Ref)
    | Replaced(ts: u64, locate: Locate, oldRef: Ref, newRef: Ref, price: Price, shares: Shares)
    | Printed(printKind: PrintKind, ts: u64, locate: Locate, price: Price, printShares: u64, match_: u64)
    | System(ts: u64, code: u8)

  function Code(e: Effect): (c: u8)
    ensures 1 <= c <= 10
  {
    match e
    case Added(_, _, _, _, _, _) => 1
    case Reduced(k, _, _, _, _) => (match k case Executed => 2 case ExecutedWithPrice => 3 case Cancelled => 4)
    case Deleted(_, _, _) => 5
    case Replaced(_, _, _, _, _, _) => 6
    case Printed(k, _, _, _, _, _) => (match k case TradePrint => 7 case CrossPrint => 8 case BrokenPrint => 9)
    case System(_, _) => 10
  }

  function SymbolField(e: Effect): Locate { if e.System? then 0 else e.locate }

  /** The kind, the time and the symbol, then what the kind carries. */
  function Fields(e: Effect): seq<Field> {
    [Field(Code(e), 1), Field(e.ts, 8), Field(SymbolField(e), 4)] +
    match e
    case Added(_, _, ref, side, price, shares) => [Field(ref, 8), Field(side, 1), Field(price, 4), Field(shares, 4)]
    case Reduced(_, _, _, ref, qty) => [Field(ref, 8), Field(qty, 4)]
    case Deleted(_, _, ref) => [Field(ref, 8)]
    case Replaced(_, _, oldRef, newRef, price, shares) =>
      [Field(oldRef, 8), Field(newRef, 8), Field(price, 4), Field(shares, 4)]
    case Printed(_, _, _, price, shares, number) => [Field(price, 4), Field(shares, 8), Field(number, 8)]
    case System(_, code) => [Field(code, 1)]
  }

  lemma Widths()
    ensures Pow256(1) == 0x100 && Pow256(4) == 0x1_0000_0000 && Pow256(8) == 0x1_0000_0000_0000_0000
  {
    EightBytes();
    assert Pow256(2) == 0x1_0000 && Pow256(4) == 0x1_0000 * 0x1_0000;
  }

  lemma EffectFits(e: Effect)
    ensures AllFit(Fields(e))
  {
    Widths();
  }

  lemma SameCodeSameWidths(e: Effect, f: Effect)
    requires Code(e) == Code(f)
    ensures SameWidths(Fields(e), Fields(f))
  {
  }

  lemma FieldsTellEffects(e: Effect, f: Effect)
    requires Fields(e) == Fields(f)
    ensures e == f
  {
    var a, b := Fields(e), Fields(f);
    assert a[0] == b[0] && a[1] == b[1] && a[2] == b[2];
    assert |a| > 3 ==> a[3] == b[3];
    assert |a| > 4 ==> a[4] == b[4];
    assert |a| > 5 ==> a[5] == b[5];
    assert |a| > 6 ==> a[6] == b[6];
  }

  // ----- where each field of a record lies -----

  /** The bytes from `at` on, `width` of them, are this number, most significant byte first. */
  predicate Holds(w: Bytes, at: nat, width: nat, value: nat) {
    at + width <= |w| && w[at..at + width] == ToBigEndian(value, width)
  }

  /** Where field i begins. */
  function Offset(fields: seq<Field>, i: nat): nat
    requires i <= |fields|
  {
    if i == 0 then 0 else Offset(fields, i - 1) + fields[i - 1].width
  }

  lemma {:induction false} OffsetShifts(fields: seq<Field>, i: nat)
    requires 0 < i <= |fields|
    ensures Offset(fields, i) == fields[0].width + Offset(fields[1..], i - 1)
  {
    if i > 1 { OffsetShifts(fields, i - 1); }
  }

  lemma {:induction false} FieldHolds(fields: seq<Field>, i: nat)
    requires i < |fields|
    ensures Holds(Written(fields), Offset(fields, i), fields[i].width, fields[i].value)
    ensures |Written(fields)| == Offset(fields, |fields|)
    decreases |fields|
  {
    hide Holds, Offset;
    WrittenLength(fields);
    var front, w := ToBigEndian(fields[0].value, fields[0].width), Written(fields[1..]);
    if i > 0 {
      OffsetShifts(fields, i);
      FieldHolds(fields[1..], i - 1);
      HoldsBehind(front, w, Offset(fields[1..], i - 1), fields[i].width, fields[i].value);
    } else {
      NoOffset(fields);
      HoldsInFront(w, fields[0].width, fields[0].value);
    }
  }

  lemma NoOffset(fields: seq<Field>)
    ensures Offset(fields, 0) == 0
  {
  }

  lemma HoldsBehind(front: Bytes, w: Bytes, at: nat, width: nat, value: nat)
    requires Holds(w, at, width, value)
    ensures Holds(front + w, |front| + at, width, value)
  {
    assert (front + w)[|front| + at..|front| + at + width] == w[at..at + width];
  }

  lemma HoldsInFront(w: Bytes, width: nat, value: nat)
    ensures Holds(ToBigEndian(value, width) + w, 0, width, value)
  {
  }

  lemma {:induction false} WrittenLength(fields: seq<Field>)
    ensures |Written(fields)| == Offset(fields, |fields|)
  {
    if fields != [] {
      WrittenLength(fields[1..]);
      OffsetShifts(fields, |fields|);
    }
  }

  lemma AllHold(fields: seq<Field>)
    requires |fields| <= 7
    ensures forall i :: 0 <= i < |fields| ==>
              Holds(Written(fields), Offset(fields, i), fields[i].width, fields[i].value)
    ensures |Written(fields)| == Offset(fields, |fields|)
  {
    hide Holds, Written, Offset;
    WrittenLength(fields);
    forall i | 0 <= i < |fields| ensures Holds(Written(fields), Offset(fields, i), fields[i].width, fields[i].value) {
      FieldHolds(fields, i);
    }
  }

  /** Every record of a kind has the same length, and the same number at the same place. */
  lemma RecordLayout(e: Effect)
    ensures var w := Written(Fields(e));
            && Holds(w, 1, 8, e.ts) && Holds(w, 9, 4, if e.System? then 0 else e.locate)
            && match e
               case Added(_, _, ref, side, price, shares) =>
                 && |w| == 30 && Holds(w, 0, 1, 1) && Holds(w, 13, 8, ref) && Holds(w, 21, 1, side)
                 && Holds(w, 22, 4, price) && Holds(w, 26, 4, shares)
               case Reduced(k, _, _, ref, qty) =>
                 && |w| == 25 && Holds(w, 0, 1, if k == Executed then 2 else if k == ExecutedWithPrice then 3 else 4)
                 && Holds(w, 13, 8, ref) && Holds(w, 21, 4, qty)
               case Deleted(_, _, ref) => |w| == 21 && Holds(w, 0, 1, 5) && Holds(w, 13, 8, ref)
               case Replaced(_, _, oldRef, newRef, price, shares) =>
                 && |w| == 37 && Holds(w, 0, 1, 6) && Holds(w, 13, 8, oldRef) && Holds(w, 21, 8, newRef)
                 && Holds(w, 29, 4, price) && Holds(w, 33, 4, shares)
               case Printed(k, _, _, price, shares, number) =>
                 && |w| == 33 && Holds(w, 0, 1, if k == TradePrint then 7 else if k == CrossPrint then 8 else 9)
                 && Holds(w, 13, 4, price) && Holds(w, 17, 8, shares) && Holds(w, 25, 8, number)
               case System(_, code) => |w| == 14 && Holds(w, 0, 1, 10) && Holds(w, 13, 1, code)
  {
    hide Holds, Written;
    var fields := Fields(e);
    AllHold(fields);
    assert fields[0] == Field(Code(e), 1) && Offset(fields, 0) == 0;
    assert Offset(fields, 1) == 1;
    assert Offset(fields, 2) == 9;
    assert Offset(fields, 3) == 13;
    assert Offset(fields, 4) == 13 + fields[3].width;
    assert |fields| > 4 ==> Offset(fields, 5) == Offset(fields, 4) + fields[4].width;
    assert |fields| > 5 ==> Offset(fields, 6) == Offset(fields, 5) + fields[5].width;
    assert |fields| > 6 ==> Offset(fields, 7) == Offset(fields, 6) + fields[6].width;
  }

  function Recorded(es: seq<Effect>): Bytes {
    if es == [] then [] else Written(Fields(es[0])) + Recorded(es[1..])
  }

  /** The first effect of a stream can be told from the bytes, whatever follows it. */
  lemma EffectFront(e: Effect, f: Effect, r: Bytes, r': Bytes)
    requires Written(Fields(e)) + r == Written(Fields(f)) + r'
    ensures e == f && r == r'
  {
    hide Fields, Code;
    FirstByte(e, r);
    FirstByte(f, r');
    EffectFits(e);
    EffectFits(f);
    SameCodeSameWidths(e, f);
    FieldsFront(Fields(e), Fields(f), r, r');
    FieldsTellEffects(e, f);
  }

  lemma FirstByte(e: Effect, r: Bytes)
    ensures var bytes := Written(Fields(e)) + r; bytes != [] && bytes[0] == Code(e)
  {
    hide Code;
    var fields := Fields(e);
    assert fields[0] == Field(Code(e), 1);
    assert ToBigEndian(Code(e), 1) == [Code(e)];
  }

  lemma NotEmpty(es: seq<Effect>)
    ensures es != [] ==> Recorded(es) != []
  {
    hide Fields, Code;
    if es != [] { FirstByte(es[0], Recorded(es[1..])); }
  }

  /** Equal bytes mean equal event streams. */
  lemma {:induction false} RecordedOneWay(a: seq<Effect>, b: seq<Effect>)
    requires Recorded(a) == Recorded(b)
    ensures a == b
  {
    hide Fields;
    NotEmpty(a);
    NotEmpty(b);
    if a != [] {
      assert [a[0]] + a[1..] == a;
      EffectFront(a[0], b[0], Recorded(a[1..]), Recorded(b[1..]));
      RecordedOneWay(a[1..], b[1..]);
      assert [b[0]] + b[1..] == b;
    }
  }

  class EventStreamHash {
    const h: Sha256
    var n: nat
    ghost var effects: seq<Effect>

    ghost predicate Valid()
      reads this, h, h.buf
    {
      h.Valid() && h.Counted() && h.absorbed == Recorded(effects) && n == |effects|
    }

    constructor ()
      ensures Valid() && effects == [] && fresh(h) && fresh(h.buf)
    {
      hide Sha256.Valid, Sha256.Counted;
      h := new Sha256();
      n, effects := 0, [];
    }

    /** One effect, field by field. */
    method Record(e: Effect)
      requires Valid()
      modifies this, h, h.buf
      ensures Valid() && effects == old(effects) + [e]
    {
      hide Fields, Sha256.Valid, Sha256.Counted;
      var fields, i := Fields(e), 0;
      assert h.absorbed + Written(fields[..0]) == h.absorbed;
      while i < |fields|
        modifies h, h.buf
        invariant i <= |fields| && h.Valid() && h.Counted() && h.absorbed == old(h.absorbed) + Written(fields[..i])
      {
        h.Update(ToBigEndian(fields[i].value, fields[i].width));
        WrittenMore(fields, i);
        Join(old(h.absorbed), Written(fields[..i]), ToBigEndian(fields[i].value, fields[i].width));
        i := i + 1;
      }
      assert fields[..i] == fields;
      n := n + 1;
      RecordedMore(effects, e);
      effects := effects + [e];
    }

    /** The digest of everything recorded so far. */
    method Finish() returns (digest: Bytes)
      requires Valid()
      ensures digest == Digest(Hash(Recorded(effects)))
    {
      digest := h.Finish();
    }
  }

  lemma {:induction false} WrittenMore(fields: seq<Field>, i: nat)
    requires i < |fields|
    ensures Written(fields[..i + 1]) == Written(fields[..i]) + ToBigEndian(fields[i].value, fields[i].width)
  {
    WrittenAppend(fields[..i], fields[i]);
    assert fields[..i + 1] == fields[..i] + [fields[i]];
  }

  lemma {:induction false} WrittenAppend(a: seq<Field>, f: Field)
    ensures Written(a + [f]) == Written(a) + ToBigEndian(f.value, f.width)
  {
    if a == [] {
      assert a + [f] == [f] && [f][1..] == [];
    } else {
      WrittenAppend(a[1..], f);
      assert (a + [f])[1..] == a[1..] + [f];
      Join(ToBigEndian(a[0].value, a[0].width), Written(a[1..]), ToBigEndian(f.value, f.width));
    }
  }

  lemma {:induction false} RecordedMore(es: seq<Effect>, e: Effect)
    ensures Recorded(es + [e]) == Recorded(es) + Written(Fields(e))
  {
    hide Fields;
    if es == [] {
      assert es + [e] == [e] && [e][1..] == [];
    } else {
      RecordedMore(es[1..], e);
      assert (es + [e])[1..] == es[1..] + [e];
      Join(Written(Fields(es[0])), Recorded(es[1..]), Written(Fields(e)));
    }
  }
}
