/** Where the fields of each message lie, beside the lengths the framing goes by. */
module Layouts {
  import opened BookTypes
  import opened Wire

  /** The bytes from `offset` on, `width` of them. */
  datatype Field = Field(offset: nat, width: nat)

  /** The type byte, the locate code, the tracking number and the time of day: the start of every message. */
  const HEADER: seq<Field> := [Field(0, 1), Field(1, 2), Field(3, 2), Field(5, 6)]

  const HEADER_END := 11

  /** The fields after the header, in the order they are sent; none for a byte that is no type. */
  function LayoutOf(t: u8): seq<Field> {
    match t
    case 83 => [Field(11, 1)]                                                              // S: event
    case 82 => [Field(11, 8), Field(19, 1), Field(20, 1), Field(21, 4), Field(25, 1), Field(26, 1), Field(27, 2),
                Field(29, 1), Field(30, 1), Field(31, 1), Field(32, 1), Field(33, 1), Field(34, 4), Field(38, 1)]  // R
    case 72 => [Field(11, 8), Field(19, 1), Field(20, 1), Field(21, 4)]                    // H: stock, state, -, reason
    case 89 => [Field(11, 8), Field(19, 1)]                                                // Y: stock, action
    case 76 => [Field(11, 4), Field(15, 8), Field(23, 1), Field(24, 1), Field(25, 1)]      // L
    case 86 => [Field(11, 8), Field(19, 8), Field(27, 8)]                                  // V: three levels
    case 87 => [Field(11, 1)]                                                              // W: level breached
    case 75 => [Field(11, 8), Field(19, 4), Field(23, 1), Field(24, 4)]                    // K
    case 74 => [Field(11, 8), Field(19, 4), Field(23, 4), Field(27, 4), Field(31, 4)]      // J
    case 104 => [Field(11, 8), Field(19, 1), Field(20, 1)]                                 // h: stock, market, action
    case 65 => [Field(11, 8), Field(19, 1), Field(20, 4), Field(24, 8), Field(32, 4)]      // A: ref, side, shares, ...
    case 70 => [Field(11, 8), Field(19, 1), Field(20, 4), Field(24, 8), Field(32, 4), Field(36, 4)]  // F
    case 69 => [Field(11, 8), Field(19, 4), Field(23, 8)]                                  // E: ref, shares, match
    case 67 => [Field(11, 8), Field(19, 4), Field(23, 8), Field(31, 1), Field(32, 4)]      // C: ..., printable, price
    case 88 => [Field(11, 8), Field(19, 4)]                                                // X: ref, shares
    case 68 => [Field(11, 8)]                                                              // D: ref
    case 85 => [Field(11, 8), Field(19, 8), Field(27, 4), Field(31, 4)]                    // U: old, new, shares, price
    case 80 => [Field(11, 8), Field(19, 1), Field(20, 4), Field(24, 8), Field(32, 4), Field(36, 8)]  // P
    case 81 => [Field(11, 8), Field(19, 8), Field(27, 4), Field(31, 8), Field(39, 1)]      // Q
    case 66 => [Field(11, 8)]                                                              // B: match
    case 73 => [Field(11, 8), Field(19, 8), Field(27, 1), Field(28, 8), Field(36, 4), Field(40, 4), Field(44, 4),
                Field(48, 1), Field(49, 1)]                                                // I
    case 78 => [Field(11, 8), Field(19, 1)]                                                // N: stock, interest
    case 79 => [Field(11, 8), Field(19, 1), Field(20, 4), Field(24, 4), Field(28, 4), Field(32, 8), Field(40, 4),
                Field(44, 4)]                                                              // O
    case _ => []
  }

  /** The fields cover the bytes from start to end in order: each begins where the one before ended. */
  predicate Tiles(fields: seq<Field>, start: nat, end: nat)
    decreases |fields|
  {
    if fields == [] then start == end
    else fields[0].offset == start && fields[0].width > 0 && Tiles(fields[1..], start + fields[0].width, end)
  }

  /** The audit of one table. */
  method Audit(fields: seq<Field>, start: nat, end: nat) returns (ok: bool)
    requires forall f :: f in fields ==> f.width > 0
    ensures ok <==> Tiles(fields, start, end)
  {
    var cursor: nat, i := start, 0;
    assert fields[0..] == fields;
    while i < |fields|
      invariant i <= |fields| && (Tiles(fields, start, end) <==> Tiles(fields[i..], cursor, end))
    {
      assert fields[i..][0] == fields[i] && fields[i..][1..] == fields[i + 1..];
      if fields[i].offset != cursor { return false; }
      assert fields[i] in fields;
      cursor, i := cursor + fields[i].width, i + 1;
    }
    ok := cursor == end;
  }

  predicate Holds(f: Field, k: nat) { f.offset <= k < f.offset + f.width }

  /** Tiling is what it says: every byte of the stretch lies in exactly one field, and no other byte in any. */
  lemma {:induction false} EachByteOnce(fields: seq<Field>, start: nat, end: nat, k: nat)
    requires Tiles(fields, start, end)
    ensures start <= end
    ensures start <= k < end <==> exists i :: 0 <= i < |fields| && Holds(fields[i], k)
    ensures forall i, j :: 0 <= i < j < |fields| ==> !(Holds(fields[i], k) && Holds(fields[j], k))
    decreases |fields|
  {
    if fields != [] {
      var rest := fields[1..];
      EachByteOnce(rest, start + fields[0].width, end, k);
      assert forall i :: 0 < i < |fields| ==> fields[i] == rest[i - 1];
      if Holds(fields[0], k) { assert 0 < |fields|; }
      if i :| 0 <= i < |rest| && Holds(rest[i], k) { assert fields[i + 1] == rest[i]; }
    }
  }

  /** Each field ends where the next begins. */
  ghost predicate Chained(fields: seq<Field>) {
    forall i :: 0 <= i < |fields| ==>
      fields[i].width > 0 && (i + 1 < |fields| ==> fields[i].offset + fields[i].width == fields[i + 1].offset)
  }

  lemma {:induction false} ChainTiles(fields: seq<Field>, end: nat)
    requires fields != [] && Chained(fields)
    requires var last := fields[|fields| - 1]; last.offset + last.width == end
    ensures Tiles(fields, fields[0].offset, end)
    decreases |fields|
  {
    var rest := fields[1..];
    if rest != [] {
      assert forall i :: 0 <= i < |rest| ==> rest[i] == fields[i + 1];
      ChainTiles(rest, end);
    }
  }

  lemma ChainedFromA(t: u8)
    requires t < 69
    ensures Chained(LayoutOf(t))
  {
  }

  lemma ChainedFromE(t: u8)
    requires 69 <= t < 74
    ensures Chained(LayoutOf(t))
  {
  }

  lemma ChainedFromJ(t: u8)
    requires 74 <= t < 80
    ensures Chained(LayoutOf(t))
  {
  }

  lemma ChainedFromP(t: u8)
    requires 80 <= t < 82
    ensures Chained(LayoutOf(t))
  {
  }

  lemma ChainedFromR(t: u8)
    requires t == 82
    ensures Chained(LayoutOf(t))
  {
  }

  lemma ChainedFromS(t: u8)
    requires 82 < t
    ensures Chained(LayoutOf(t))
  {
  }

  lemma LayoutsChain(t: u8)
    ensures Chained(LayoutOf(t))
  {
    hide LayoutOf, Chained;
    if t < 69 {
      ChainedFromA(t);
    } else if t < 74 {
      ChainedFromE(t);
    } else if t < 80 {
      ChainedFromJ(t);
    } else if t < 82 {
      ChainedFromP(t);
    } else if t == 82 {
      ChainedFromR(t);
    } else {
      ChainedFromS(t);
    }
  }

  lemma HeaderChains()
    ensures Chained(HEADER) && HEADER[3].offset + HEADER[3].width == HEADER_END
  {
  }

  lemma LayoutsEnd(t: u8)
    ensures MsgLen(t) == 0 <==> LayoutOf(t) == []
    ensures var fields := LayoutOf(t);
            fields != [] ==> fields[0].offset == HEADER_END
                             && fields[|fields| - 1].offset + fields[|fields| - 1].width == MsgLen(t)
  {
  }

  /** The lengths and the fields agree: the header and then the fields of its type fill each message exactly, and a byte
      is no type exactly when it has no fields. */
  lemma LengthsTile(t: u8)
    ensures Tiles(HEADER, 0, HEADER_END)
    ensures MsgLen(t) == 0 <==> LayoutOf(t) == []
    ensures MsgLen(t) != 0 ==> Tiles(LayoutOf(t), HEADER_END, MsgLen(t))
  {
    hide Tiles, Chained, LayoutOf, MsgLen;
    HeaderChains();
    LayoutsChain(t);
    LayoutsEnd(t);
    ChainTiles(HEADER, HEADER_END);
    if MsgLen(t) != 0 { ChainTiles(LayoutOf(t), MsgLen(t)); }
  }
}
