/** Framing: how a session's bytes become messages, in both forms a file may take. */
module Wire {
  import opened BookTypes
  import Bits

  type Bytes = seq<u8>

  /** The length of each message type, with its type byte and without its prefix; zero for a byte that is no type. */
  function MsgLen(t: u8): (n: u8)
    ensures n == 0 || 12 <= n <= 50
  {
    match t
    case 83 => 12   // S
    case 82 => 39   // R
    case 72 => 25   // H
    case 89 => 20   // Y
    case 76 => 26   // L
    case 86 => 35   // V
    case 87 => 12   // W
    case 75 => 28   // K
    case 74 => 35   // J
    case 104 => 21  // h
    case 65 => 36   // A
    case 70 => 40   // F
    case 69 => 31   // E
    case 67 => 36   // C
    case 88 => 23   // X
    case 68 => 19   // D
    case 85 => 35   // U
    case 80 => 44   // P
    case 81 => 40   // Q
    case 66 => 19   // B
    case 73 => 50   // I
    case 78 => 20   // N
    case 79 => 48   // O
    case _ => 0
  }

  // ----- big-endian decoding -----

  function BigEndian(s: Bytes): nat {
    if s == [] then 0 else BigEndian(s[..|s| - 1]) * 256 + s[|s| - 1]
  }

  function Pow256(n: nat): (p: nat)
    ensures p > 0
  {
    if n == 0 then 1 else 256 * Pow256(n - 1)
  }

  function Be16(hi: u8, lo: u8): u16 { hi * 256 + lo }

  lemma EightBytes()
    ensures Pow256(8) == 0x1_0000_0000_0000_0000
  {
    assert Pow256(2) == 0x1_0000 && Pow256(4) == 0x1_0000 * 0x1_0000;
    assert Pow256(6) == 0x1_0000 * Pow256(4) && Pow256(8) == 0x1_0000 * Pow256(6);
  }

  lemma {:induction false} BigEndianFits(s: Bytes)
    ensures BigEndian(s) < Pow256(|s|)
  {
    if s != [] { BigEndianFits(s[..|s| - 1]); }
  }

  lemma {:induction false} BigEndianSplit(a: Bytes, b: Bytes)
    ensures BigEndian(a + b) == BigEndian(a) * Pow256(|b|) + BigEndian(b)
    decreases |b|
  {
    if b == [] {
      assert a + b == a;
    } else {
      var front := b[..|b| - 1];
      BigEndianSplit(a, front);
      assert (a + b)[..|a + b| - 1] == a + front;
      Shift(BigEndian(a), Pow256(|front|), BigEndian(front), b[|b| - 1]);
    }
  }

  lemma Shift(x: nat, p: nat, y: nat, z: nat)
    ensures (x * p + y) * 256 + z == x * (256 * p) + (y * 256 + z)
  {
  }

  function ToBigEndian(x: nat, n: nat): (s: Bytes)
    ensures |s| == n
  {
    if n == 0 then [] else ToBigEndian(x / 256, n - 1) + [x % 256]
  }

  lemma {:induction false} BigEndianBack(x: nat, n: nat)
    requires x < Pow256(n)
    ensures BigEndian(ToBigEndian(x, n)) == x
  {
    if n > 0 {
      BigEndianBack(x / 256, n - 1);
      var s := ToBigEndian(x, n);
      assert s[..n - 1] == ToBigEndian(x / 256, n - 1);
    }
  }

  /** The first of two bytes is the more significant one, read or written. */
  lemma PairsAreBigEndian(hi: u8, lo: u8, n: u16)
    ensures BigEndian([hi, lo]) == Be16(hi, lo) == 256 * hi + lo
    ensures ToBigEndian(n, 2) == Prefix(n) && Be16(Prefix(n)[0], Prefix(n)[1]) == n
  {
    var pair: Bytes := [hi, lo];
    assert pair[..1] == [hi];
    BigEndianOf(hi);
    assert n % 256 % 256 == n % 256;
    assert ToBigEndian(n, 2) == ToBigEndian(n / 256, 1) + [n % 256];
    assert ToBigEndian(n / 256, 1) == [] + [n / 256 % 256];
  }

  lemma BigEndianOf(x: u8)
    ensures BigEndian([x]) == x
  {
    var one: Bytes := [x];
    assert one[..0] == [];
  }

  /** Only the low bytes of a number are written. */
  lemma {:induction false} LowBytesOnly(x: nat, n: nat)
    ensures ToBigEndian(x % Pow256(n), n) == ToBigEndian(x, n)
  {
    if n > 0 {
      LowBytesOnly(x / 256, n - 1);
      LowPart(x, Pow256(n - 1));
    }
  }

  lemma LowPart(x: nat, p: nat)
    requires p > 0
    ensures 256 * p > 0 && x % (256 * p) / 256 == x / 256 % p && x % (256 * p) % 256 == x % 256
  {
    var q, r, s, t := x / 256 / p, x / 256 % p, x % 256, x / 256;
    Bits.DividedBy(t, p);
    Nest(q, p, r, s);
    Bits.ModIs(x, 256 * p, q, 256 * r + s);
  }

  lemma Nest(q: nat, p: nat, r: nat, s: nat)
    requires s < 256 && r < p
    ensures (q * p + r) * 256 + s == q * (256 * p) + (256 * r + s) && 256 * r + s < 256 * p
  {
  }

  /** The timestamp and the tracking number come out of one eight-byte load at offset 3. */
  function HeaderTail(m: Bytes): nat
    requires |m| >= 11
  {
    BigEndian(m[3..11])
  }

  function Timestamp(m: Bytes): nat
    requires |m| >= 11
  {
    Bits.And(HeaderTail(m), Bits.Pow2(48) - 1)
  }

  function Tracking(m: Bytes): nat
    requires |m| >= 11
  {
    Bits.ShiftRight(HeaderTail(m), 48)
  }

  /** They are the two fields: the six bytes from offset 5 and the two from offset 3. */
  lemma OneLoadTwoFields(m: Bytes)
    requires |m| >= 11
    ensures Timestamp(m) == BigEndian(m[5..11]) && Tracking(m) == BigEndian(m[3..5])
  {
    var high, low := m[3..5], m[5..11];
    assert m[3..11] == high + low;
    BigEndianSplit(high, low);
    BigEndianFits(low);
    SixBytes(6);
    Bits.AndMask(HeaderTail(m), 48);
    Bits.ModIs(HeaderTail(m), Bits.Pow2(48), BigEndian(high), BigEndian(low));
    ShiftDivides(HeaderTail(m), 48);
  }

  lemma {:induction false} SixBytes(n: nat)
    ensures Pow256(n) == Bits.Pow2(8 * n)
  {
    if n > 0 {
      SixBytes(n - 1);
      Bits.EightDoublings(8 * (n - 1));
    }
  }

  lemma {:induction false} ShiftDivides(x: nat, n: nat)
    ensures Bits.ShiftRight(x, n) == x / Bits.Pow2(n)
  {
    if n > 0 {
      ShiftDivides(x / 2, n - 1);
      DivideTwice(x, Bits.Pow2(n - 1));
    }
  }

  lemma DivideTwice(x: nat, p: nat)
    requires p > 0
    ensures x / 2 / p == x / (2 * p)
  {
    var half := x / 2;
    var q, r := half / p, half % p;
    Bits.DividedBy(half, p);
    Doubled(q, p, r);
    Bits.ModIs(x, 2 * p, q, 2 * r + x % 2);
  }

  lemma Doubled(q: nat, p: nat, r: nat)
    ensures 2 * (q * p + r) == q * (2 * p) + 2 * r
  {
  }

  // ----- one frame -----

  datatype Framing = LengthPrefixed | ZeroPrefixed

  datatype FrameStatus = Ok | ZeroLengthPrefix | Exhausted | Truncated | LengthMismatch | UnknownType

  /** What the reader makes of the bytes in front of it: how far it goes and, when it is a message, which. */
  datatype Frame = Frame(status: FrameStatus, size: nat, body: Bytes, oddPrefix: bool)

  function PrefixedFrame(rest: Bytes): (f: Frame)
    ensures f.size <= |rest| && (f.status in {Ok, LengthMismatch, UnknownType} ==> f.size > 2)
  {
    if rest == [] then Frame(Exhausted, 0, [], false)
    else if |rest| < 2 then Frame(Truncated, 0, [], false)
    else
      var len := Be16(rest[0], rest[1]);
      if len == 0 then Frame(ZeroLengthPrefix, 2, [], false)
      else if 2 + len > |rest| then Frame(Truncated, 0, [], false)
      else if MsgLen(rest[2]) == 0 then Frame(UnknownType, 2 + len, [], false)
      else if MsgLen(rest[2]) != len then Frame(LengthMismatch, 2 + len, [], false)
      else Frame(Ok, 2 + len, rest[2..2 + len], false)
  }

  function ZeroPrefixedFrame(rest: Bytes): (f: Frame)
    ensures f.size <= |rest| && (f.status == Ok ==> f.size > 2)
    ensures f.status in {Ok, Exhausted, Truncated}
  {
    if rest == [] then Frame(Exhausted, 0, [], false)
    else if |rest| < 3 then Frame(Truncated, 0, [], false)
    else
      var odd, len := Be16(rest[0], rest[1]) != 0, MsgLen(rest[2]);
      if len == 0 || 2 + len > |rest| then Frame(Truncated, 0, [], odd)
      else Frame(Ok, 2 + len, rest[2..2 + len], odd)
  }

  function NextFrame(rest: Bytes, framing: Framing): Frame {
    if framing == LengthPrefixed then PrefixedFrame(rest) else ZeroPrefixedFrame(rest)
  }

  /** In the zero-prefixed form an unknown type is the end: nothing says how far to skip. */
  predicate StuckOnUnknown(rest: Bytes, framing: Framing) {
    framing == ZeroPrefixed && |rest| >= 3 && MsgLen(rest[2]) == 0
  }

  // ----- a whole input -----

  /** What a replay reports: the messages handed on, the frames skipped, what was left, and how the input ended. */
  datatype Report = Report(dispatched: seq<Bytes>, unknown: nat, mismatch: nat, left: nat, end: FrameStatus)

  function Read(rest: Bytes, framing: Framing): Report
    decreases |rest|
  {
    var f := NextFrame(rest, framing);
    var odd := if f.oddPrefix then 1 else 0;
    match f.status
    case Ok => var r := Read(rest[f.size..], framing);
      r.(dispatched := [f.body] + r.dispatched, mismatch := r.mismatch + odd)
    case UnknownType => var r := Read(rest[f.size..], framing); r.(unknown := r.unknown + 1)
    case LengthMismatch => var r := Read(rest[f.size..], framing); r.(mismatch := r.mismatch + 1)
    case _ => Report([], if StuckOnUnknown(rest, framing) then 1 else 0, odd, |rest| - f.size, f.status)
  }

  predicate Stops(status: FrameStatus) { status == ZeroLengthPrefix || status == Exhausted || status == Truncated }

  /** One frame, then the rest. */
  lemma ReadUnfolds(rest: Bytes, framing: Framing)
    ensures var f := NextFrame(rest, framing);
            && f.size <= |rest| && (!Stops(f.status) ==> f.size > 0 && !StuckOnUnknown(rest, framing))
            && (f.oddPrefix ==> f.status == Ok || f.status == Truncated)
            && var odd := if f.oddPrefix then 1 else 0;
               Read(rest, framing) ==
                 match f.status
                 case Ok => var r := Read(rest[f.size..], framing);
                   r.(dispatched := [f.body] + r.dispatched, mismatch := r.mismatch + odd)
                 case UnknownType => var r := Read(rest[f.size..], framing); r.(unknown := r.unknown + 1)
                 case LengthMismatch => var r := Read(rest[f.size..], framing); r.(mismatch := r.mismatch + 1)
                 case _ => Report([], if StuckOnUnknown(rest, framing) then 1 else 0, odd, |rest| - f.size, f.status)
  {
    hide MsgLen;
  }

  /** The whole input was walked and understood. */
  predicate Clean(r: Report) { r.end != Truncated && r.unknown == 0 && r.mismatch == 0 && r.left == 0 }

  // ----- what a well-formed session is -----

  predicate Framable(body: Bytes) { 0 < |body| < 0x1_0000 }

  /** A message of a known type and its length. */
  predicate GoodMessage(body: Bytes) { body != [] && |body| == MsgLen(body[0]) }

  function Prefix(n: nat): Bytes
    requires n < 0x1_0000
  {
    [n / 256, n % 256]
  }

  function Framed(bodies: seq<Bytes>): Bytes
    requires forall b :: b in bodies ==> Framable(b)
  {
    if bodies == [] then []
    else
      assert Framable(bodies[0]);
      Prefix(|bodies[0]|) + bodies[0] + Framed(bodies[1..])
  }

  function ZeroFramed(bodies: seq<Bytes>): Bytes {
    if bodies == [] then [] else [0, 0] + bodies[0] + ZeroFramed(bodies[1..])
  }

  /** The messages among some frames. */
  function Messages(bodies: seq<Bytes>): seq<Bytes> {
    if bodies == [] then []
    else if GoodMessage(bodies[0]) then [bodies[0]] + Messages(bodies[1..]) else Messages(bodies[1..])
  }

  function Count(bodies: seq<Bytes>, unknown: bool): nat {
    if bodies == [] then 0
    else
      var b := bodies[0];
      Count(bodies[1..], unknown) + if b != [] && !GoodMessage(b) && (MsgLen(b[0]) == 0) == unknown then 1 else 0
  }

  lemma FrontFrame(body: Bytes, tail: Bytes)
    requires Framable(body)
    ensures var f := PrefixedFrame(Prefix(|body|) + body + tail);
            && f.size == 2 + |body|
            && (Prefix(|body|) + body + tail)[f.size..] == tail && !f.oddPrefix
            && f.status == (if MsgLen(body[0]) == 0 then UnknownType else if GoodMessage(body) then Ok
              else LengthMismatch)
            && (f.status == Ok ==> f.body == body)
  {
    var rest := Prefix(|body|) + body + tail;
    assert rest[2] == body[0] && Be16(rest[0], rest[1]) == |body|;
    assert rest[2..2 + |body|] == body;
    assert rest[2 + |body|..] == tail;
  }

  /** One more frame in front of an input that has been read. */
  function Ahead(b: Bytes, r: Report): Report
    requires Framable(b)
  {
    if GoodMessage(b) then r.(dispatched := [b] + r.dispatched)
    else if MsgLen(b[0]) == 0 then r.(unknown := r.unknown + 1)
    else r.(mismatch := r.mismatch + 1)
  }

  lemma FrontIsRead(b: Bytes, tail: Bytes)
    requires Framable(b)
    ensures Read(Prefix(|b|) + b + tail, LengthPrefixed) == Ahead(b, Read(tail, LengthPrefixed))
  {
    hide MsgLen, Read, PrefixedFrame, Prefix;
    FrontFrame(b, tail);
    ReadUnfolds(Prefix(|b|) + b + tail, LengthPrefixed);
  }

  lemma FramedFront(bodies: seq<Bytes>, tail: Bytes)
    requires bodies != [] && forall b :: b in bodies ==> Framable(b)
    ensures Framable(bodies[0])
            && Framed(bodies) + tail == Prefix(|bodies[0]|) + bodies[0] + (Framed(bodies[1..]) + tail)
  {
    hide Prefix;
    assert Framable(bodies[0]);
  }

  /** Frames in front of anything are read one by one: the messages among them are handed on in order, the rest are
      skipped and counted, and what follows is read as if it stood alone. */
  lemma {:induction false} FramesAreRead(bodies: seq<Bytes>, tail: Bytes)
    requires forall b :: b in bodies ==> Framable(b)
    ensures var r, r' := Read(Framed(bodies) + tail, LengthPrefixed), Read(tail, LengthPrefixed);
            r == r'.(dispatched := Messages(bodies) + r'.dispatched, unknown := Count(bodies, true) + r'.unknown,
                     mismatch := Count(bodies, false) + r'.mismatch)
  {
    hide MsgLen, Read, Prefix;
    if bodies == [] {
      assert Framed(bodies) + tail == tail;
      assert [] + Read(tail, LengthPrefixed).dispatched == Read(tail, LengthPrefixed).dispatched;
    } else {
      FramesAreRead(bodies[1..], tail);
      FramedFront(bodies, tail);
      FrontIsRead(bodies[0], Framed(bodies[1..]) + tail);
      Regroup([bodies[0]], Messages(bodies[1..]), Read(tail, LengthPrefixed).dispatched);
    }
  }

  lemma Regroup(a: seq<Bytes>, b: seq<Bytes>, c: seq<Bytes>)
    ensures a + (b + c) == (a + b) + c
  {
  }

  /** Frames that are no message can be put anywhere in a stream, or taken out, without changing what is handed on. */
  lemma SkippedFramesChangeNothing(before: seq<Bytes>, bad: Bytes, tail: Bytes)
    requires (forall b :: b in before ==> Framable(b)) && Framable(bad) && !GoodMessage(bad)
    ensures Read(Framed(before) + (Framed([bad]) + tail), LengthPrefixed).dispatched
            == Read(Framed(before) + tail, LengthPrefixed).dispatched
    ensures Read(Framed(before) + (Framed([bad]) + tail), LengthPrefixed).end ==
            Read(Framed(before) + tail, LengthPrefixed).end
  {
    FramesAreRead(before, Framed([bad]) + tail);
    FramesAreRead([bad], tail);
    FramesAreRead(before, tail);
    assert Messages([bad]) == [];
    assert [] + Read(tail, LengthPrefixed).dispatched == Read(tail, LengthPrefixed).dispatched;
  }

  ghost predicate AllMessages(bodies: seq<Bytes>) { forall b :: b in bodies ==> GoodMessage(b) }

  /** A well-formed session: messages of known types, and perhaps one zero prefix at the end. */
  ghost predicate Session(rest: Bytes, bodies: seq<Bytes>) {
    AllMessages(bodies) && (rest == Framed(bodies) || rest == Framed(bodies) + [0, 0])
  }

  lemma AllFramable(bodies: seq<Bytes>)
    requires AllMessages(bodies)
    ensures forall b :: b in bodies ==> Framable(b)
  {
    forall b | b in bodies ensures Framable(b) { assert GoodMessage(b); }
  }

  lemma {:induction false} AllKept(bodies: seq<Bytes>)
    requires AllMessages(bodies)
    ensures Messages(bodies) == bodies && Count(bodies, true) == Count(bodies, false) == 0
  {
    if bodies != [] { AllKept(bodies[1..]); }
  }

  /** Writing messages and reading them back hands on the same messages, and finds nothing wrong. */
  lemma RoundTrip(rest: Bytes, bodies: seq<Bytes>)
    requires Session(rest, bodies)
    ensures Clean(Read(rest, LengthPrefixed)) && Read(rest, LengthPrefixed).dispatched == bodies
  {
    hide MsgLen, Read, Prefix, AllMessages;
    AllFramable(bodies);
    AllKept(bodies);
    var tail := if rest == Framed(bodies) then [] else [0, 0];
    assert rest == Framed(bodies) + tail;
    FramesAreRead(bodies, tail);
    NoTail(bodies);
  }

  lemma NoTail(bodies: seq<Bytes>)
    ensures Read([], LengthPrefixed) == Report([], 0, 0, 0, Exhausted)
    ensures Read([0, 0], LengthPrefixed) == Report([], 0, 0, 0, ZeroLengthPrefix)
    ensures bodies + [] == bodies
  {
  }

  /** A clean read means a well-formed session: the messages handed on, framed, are the input. */
  lemma {:induction false} CleanIsSession(rest: Bytes)
    requires Clean(Read(rest, LengthPrefixed))
    ensures Session(rest, Read(rest, LengthPrefixed).dispatched)
    decreases |rest|
  {
    hide MsgLen, Read, PrefixedFrame, Session;
    ReadUnfolds(rest, LengthPrefixed);
    EndedFrame(rest);
    var f := PrefixedFrame(rest);
    if f.status == Ok {
      var more := rest[f.size..];
      CleanIsSession(more);
      Reframed(rest);
      SessionGrows(rest, f.body, more, Read(more, LengthPrefixed).dispatched);
    }
  }

  lemma EndedFrame(rest: Bytes)
    ensures var f := PrefixedFrame(rest);
            (f.status == Exhausted ==> rest == [])
            && (f.status == ZeroLengthPrefix && f.size == |rest| ==> rest == [0, 0])
    ensures rest == [] || rest == [0, 0] ==> Session(rest, [])
  {
  }

  lemma SessionGrows(rest: Bytes, b: Bytes, more: Bytes, bodies: seq<Bytes>)
    requires GoodMessage(b) && Session(more, bodies) && |b| < 0x1_0000 && rest == Prefix(|b|) + b + more
    ensures Session(rest, [b] + bodies)
  {
    hide MsgLen, Prefix;
    var longer := [b] + bodies;
    assert longer[1..] == bodies;
    AllFramable(bodies);
    AllFramable(longer);
    FramedFront(longer, []);
    FramedFront(longer, [0, 0]);
    assert Framed(longer) + [] == Framed(longer) && Framed(bodies) + [] == Framed(bodies);
  }

  lemma Reframed(rest: Bytes)
    requires PrefixedFrame(rest).status == Ok
    ensures var f := PrefixedFrame(rest);
            GoodMessage(f.body) && |f.body| < 0x1_0000 && rest == Prefix(|f.body|) + f.body + rest[f.size..]
  {
    var f := PrefixedFrame(rest);
    var len := Be16(rest[0], rest[1]);
    Bits.ModIs(len, 256, rest[0], rest[1]);
    assert rest == rest[..2] + rest[2..2 + len] + rest[2 + len..];
    assert rest[..2] == Prefix(len);
    assert f.body[0] == rest[2];
  }

  /** Both directions: a read is clean exactly when the input is a well-formed session. */
  lemma CleanExactly(rest: Bytes)
    ensures Clean(Read(rest, LengthPrefixed)) <==> exists bodies :: Session(rest, bodies)
  {
    if Clean(Read(rest, LengthPrefixed)) { CleanIsSession(rest); }
    if bodies :| Session(rest, bodies) { RoundTrip(rest, bodies); }
  }

  /** The zero-prefixed form reads back too. */
  lemma {:induction false} ZeroRoundTrip(bodies: seq<Bytes>)
    requires AllMessages(bodies)
    ensures Clean(Read(ZeroFramed(bodies), ZeroPrefixed)) && Read(ZeroFramed(bodies), ZeroPrefixed).dispatched == bodies
  {
    hide MsgLen, Read, ZeroPrefixedFrame;
    ReadUnfolds(ZeroFramed(bodies), ZeroPrefixed);
    if bodies == [] {
      NothingToRead();
    } else {
      ZeroRoundTrip(bodies[1..]);
      FrontZeroFrame(bodies[0], ZeroFramed(bodies[1..]));
    }
  }

  lemma NothingToRead()
    ensures Read([], ZeroPrefixed) == Report([], 0, 0, 0, Exhausted)
  {
  }

  lemma FrontZeroFrame(body: Bytes, tail: Bytes)
    requires GoodMessage(body)
    ensures var rest := [0, 0] + body + tail;
            ZeroPrefixedFrame(rest) == Frame(Ok, 2 + |body|, body, false) && rest[2 + |body|..] == tail
  {
    hide MsgLen;
    var rest := [0, 0] + body + tail;
    assert rest[2] == body[0] && rest[2..2 + |body|] == body && rest[2 + |body|..] == tail;
  }

  /** Any prefix at all is passed over in this form; one that is not zero is counted. */
  lemma AnyPrefixIsRead(hi: u8, lo: u8, body: Bytes, tail: Bytes)
    requires GoodMessage(body)
    ensures var r := Read(tail, ZeroPrefixed);
            Read([hi, lo] + body + tail, ZeroPrefixed) ==
              r.(dispatched := [body] + r.dispatched, mismatch := r.mismatch + One(hi != 0 || lo != 0))
  {
    hide MsgLen, Read;
    var rest := [hi, lo] + body + tail;
    assert rest[2] == body[0] && rest[2..2 + |body|] == body && rest[2 + |body|..] == tail;
    ReadUnfolds(rest, ZeroPrefixed);
  }

  lemma {:induction false} CleanIsZeroFramed(rest: Bytes)
    requires Clean(Read(rest, ZeroPrefixed))
    ensures var bodies := Read(rest, ZeroPrefixed).dispatched; AllMessages(bodies) && rest == ZeroFramed(bodies)
    decreases |rest|
  {
    hide MsgLen, Read, ZeroPrefixedFrame;
    ReadUnfolds(rest, ZeroPrefixed);
    ZeroFrameIs(rest);
    var f := ZeroPrefixedFrame(rest);
    if f.status == Ok {
      CleanIsZeroFramed(rest[f.size..]);
      var bodies := [f.body] + Read(rest[f.size..], ZeroPrefixed).dispatched;
      assert bodies[1..] == Read(rest[f.size..], ZeroPrefixed).dispatched;
    }
  }

  lemma ZeroFrameIs(rest: Bytes)
    ensures var f := ZeroPrefixedFrame(rest);
            && (f.status == Exhausted ==> rest == [])
            && (f.status == Ok && !f.oddPrefix ==>
                  GoodMessage(f.body) && f.size <= |rest| && rest == [0, 0] + f.body + rest[f.size..])
  {
    hide MsgLen;
    var f := ZeroPrefixedFrame(rest);
    if f.status == Ok && !f.oddPrefix {
      assert rest == rest[..2] + rest[2..f.size] + rest[f.size..];
      assert rest[..2] == [0, 0];
    }
  }

  /** Both directions here too: a read is clean exactly when the input is messages of known types after zero
      prefixes. */
  lemma ZeroCleanExactly(rest: Bytes)
    ensures Clean(Read(rest, ZeroPrefixed)) <==> exists bodies :: AllMessages(bodies) && rest == ZeroFramed(bodies)
  {
    if Clean(Read(rest, ZeroPrefixed)) { CleanIsZeroFramed(rest); }
    if bodies :| AllMessages(bodies) && rest == ZeroFramed(bodies) { ZeroRoundTrip(bodies); }
  }
}
