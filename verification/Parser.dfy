/** The framing loop: detection of the form, the frame reader, and the replay that dispatches its messages. */
module Parsers {
  import opened BookTypes
  import opened Wire
  import Bits

  // ----- which form -----

  const PROBE := 64

  /** The rest of the input, read as one form, stays consistent for the frames still to be probed. */
  predicate WalksFrom(rest: Bytes, f: Framing, i: nat)
    requires i <= PROBE
    decreases PROBE - i
  {
    if i == PROBE then true
    else if |rest| < 3 then i > 0
    else
      var pfx, implied := Be16(rest[0], rest[1]), MsgLen(rest[2]);
      if implied == 0 then false
      else if f == LengthPrefixed && pfx == 0 then i > 0
      else if f == LengthPrefixed && pfx != implied then false
      else if f == ZeroPrefixed && pfx != 0 then false
      else 2 + implied <= |rest| && WalksFrom(rest[2 + implied..], f, i + 1)
  }

  /** One turn of the probe at a position. */
  lemma WalkOnce(buf: Bytes, pos: nat, f: Framing, i: nat)
    requires i < PROBE && pos + 3 <= |buf|
    ensures var pfx, implied := Be16(buf[pos], buf[pos + 1]), MsgLen(buf[pos + 2]);
            WalksFrom(buf[pos..], f, i) ==
              if implied == 0 then false
              else if f == LengthPrefixed && pfx == 0 then i > 0
              else if f == LengthPrefixed && pfx != implied then false
              else if f == ZeroPrefixed && pfx != 0 then false
              else pos + 2 + implied <= |buf| && WalksFrom(buf[pos + 2 + implied..], f, i + 1)
  {
    hide MsgLen;
    var implied := MsgLen(buf[pos + 2]);
    if pos + 2 + implied <= |buf| { assert buf[pos..][2 + implied..] == buf[pos + 2 + implied..]; }
  }

  lemma WalkEnds(rest: Bytes, f: Framing, i: nat)
    requires i <= PROBE && (i == PROBE || |rest| < 3)
    ensures WalksFrom(rest, f, i) <==> i > 0
  {
  }

  method Walks(buf: Bytes, f: Framing) returns (ok: bool)
    ensures ok == WalksFrom(buf, f, 0)
  {
    hide MsgLen, WalksFrom;
    var pos, i := 0, 0;
    assert buf[0..] == buf;
    while i < PROBE
      invariant i <= PROBE && 0 <= pos <= |buf| && WalksFrom(buf, f, 0) == WalksFrom(buf[pos..], f, i)
    {
      if pos + 3 > |buf| {
        WalkEnds(buf[pos..], f, i);
        return i > 0;
      }
      WalkOnce(buf, pos, f, i);
      var pfx, implied := Be16(buf[pos], buf[pos + 1]), MsgLen(buf[pos + 2]);
      if implied == 0 { return false; }
      if f == LengthPrefixed {
        if pfx == 0 { return i > 0; }
        if pfx != implied { return false; }
      } else {
        if pfx != 0 { return false; }
      }
      if pos + 2 + implied > |buf| { return false; }
      pos, i := pos + 2 + implied, i + 1;
    }
    WalkEnds(buf[pos..], f, i);
    ok := true;
  }

  function FormOf(buf: Bytes): Framing {
    if WalksFrom(buf, LengthPrefixed, 0) then LengthPrefixed
    else if WalksFrom(buf, ZeroPrefixed, 0) then ZeroPrefixed else LengthPrefixed
  }

  /** Ambiguity resolves to the form that can recover from a bad frame. */
  method DetectFraming(buf: Bytes) returns (f: Framing)
    ensures f == FormOf(buf)
  {
    hide WalksFrom;
    var prefixed := Walks(buf, LengthPrefixed);
    if prefixed { return LengthPrefixed; }
    var zero := Walks(buf, ZeroPrefixed);
    f := if zero then ZeroPrefixed else LengthPrefixed;
  }

  lemma {:induction false} PrefixedWalks(bodies: seq<Bytes>, tail: Bytes, i: nat)
    requires AllMessages(bodies) && (tail == [] || tail == [0, 0]) && i <= PROBE && (bodies == [] ==> i > 0)
    ensures WalksFrom(Framed(bodies) + tail, LengthPrefixed, i)
    decreases |bodies|
  {
    hide MsgLen, WalksFrom;
    AllFramable(bodies);
    if bodies == [] || i == PROBE {
      assert Framed(bodies) + tail == tail || i == PROBE;
      WalkEnds(Framed(bodies) + tail, LengthPrefixed, i);
    } else {
      var b, more := bodies[0], Framed(bodies[1..]) + tail;
      PrefixedWalks(bodies[1..], tail, i + 1);
      FrontWalk(b, more, i);
      assert Framed(bodies) + tail == Prefix(|b|) + b + more;
    }
  }

  lemma FrontWalk(b: Bytes, more: Bytes, i: nat)
    requires GoodMessage(b) && i < PROBE && WalksFrom(more, LengthPrefixed, i + 1)
    ensures Framable(b) && WalksFrom(Prefix(|b|) + b + more, LengthPrefixed, i)
  {
    hide MsgLen;
    var rest := Prefix(|b|) + b + more;
    assert Be16(rest[0], rest[1]) == |b| && rest[2] == b[0] && rest[2 + |b|..] == more;
  }

  lemma {:induction false} ZeroWalks(bodies: seq<Bytes>, i: nat)
    requires AllMessages(bodies) && i <= PROBE && (bodies == [] ==> i > 0)
    ensures WalksFrom(ZeroFramed(bodies), ZeroPrefixed, i)
    decreases |bodies|
  {
    hide MsgLen;
    if bodies != [] && i < PROBE {
      ZeroWalks(bodies[1..], i + 1);
      FrontZeroFrame(bodies[0], ZeroFramed(bodies[1..]));
    }
  }

  /** Every session of at least one message is recognised for what it is. */
  lemma DetectionIsRight(buf: Bytes, bodies: seq<Bytes>)
    requires bodies != []
    ensures Session(buf, bodies) ==> FormOf(buf) == LengthPrefixed
    ensures AllMessages(bodies) && buf == ZeroFramed(bodies) ==> FormOf(buf) == ZeroPrefixed
  {
    hide MsgLen;
    if Session(buf, bodies) {
      var tail := if buf == Framed(bodies) then [] else [0, 0];
      PrefixedWalks(bodies, tail, 0);
      assert buf == Framed(bodies) + tail;
    }
    if AllMessages(bodies) && buf == ZeroFramed(bodies) {
      ZeroWalks(bodies, 0);
      assert !WalksFrom(buf, LengthPrefixed, 0);
    }
  }

  /** Without being told the form, a replay of either hands on exactly the messages that were written. */
  lemma EitherFormReadsBack(buf: Bytes, bodies: seq<Bytes>)
    requires bodies != [] && (Session(buf, bodies) || (AllMessages(bodies) && buf == ZeroFramed(bodies)))
    ensures Read(buf, FormOf(buf)).dispatched == bodies && Clean(Read(buf, FormOf(buf)))
  {
    hide FormOf, Read;
    DetectionIsRight(buf, bodies);
    if Session(buf, bodies) { RoundTrip(buf, bodies); } else { ZeroRoundTrip(bodies); }
  }

  // ----- what the probe looks for -----

  function FrontOf(b: Bytes, f: Framing): Bytes
    requires GoodMessage(b)
  {
    (if f == LengthPrefixed then Prefix(|b|) else [0, 0]) + b
  }

  /** The input begins with these messages in this form, and the rest follows. */
  ghost predicate Spells(rest: Bytes, f: Framing, bodies: seq<Bytes>, tail: Bytes) {
    AllMessages(bodies) && (AllFramable(bodies);
    rest == (if f == LengthPrefixed then Framed(bodies) else ZeroFramed(bodies)) + tail)
  }

  /** Where a probe may stop early: too little is left for a frame, or a zero prefix before some known type. */
  predicate MayEnd(tail: Bytes, f: Framing) {
    |tail| < 3 || (f == LengthPrefixed && tail[0] == 0 && tail[1] == 0 && MsgLen(tail[2]) != 0)
  }

  ghost predicate Probed(rest: Bytes, f: Framing, i: nat, bodies: seq<Bytes>, tail: Bytes) {
    Spells(rest, f, bodies, tail) && 0 < i + |bodies| <= 64 && (i + |bodies| == 64 || MayEnd(tail, f))
  }

  lemma SpellsNothing(rest: Bytes, f: Framing, tail: Bytes)
    ensures Spells(rest, f, [], tail) <==> rest == tail
  {
    assert [] + tail == tail;
  }

  lemma SpellsMore(f: Framing, b: Bytes, more: Bytes, bodies: seq<Bytes>, tail: Bytes)
    requires Spells(more, f, bodies, tail) && GoodMessage(b)
    ensures Spells(FrontOf(b, f) + more, f, [b] + bodies, tail)
  {
    hide MsgLen, Prefix;
    var longer := [b] + bodies;
    AllFramable(longer);
    AllFramable(bodies);
    assert longer[1..] == bodies;
    Regroup3(FrontOf(b, f), if f == LengthPrefixed then Framed(bodies) else ZeroFramed(bodies), tail);
  }

  lemma Regroup3(a: Bytes, b: Bytes, c: Bytes)
    ensures a + (b + c) == (a + b) + c
  {
  }

  lemma SpellsLess(rest: Bytes, f: Framing, bodies: seq<Bytes>, tail: Bytes) returns (more: Bytes)
    requires bodies != [] && Spells(rest, f, bodies, tail)
    ensures GoodMessage(bodies[0]) && rest == FrontOf(bodies[0], f) + more && Spells(more, f, bodies[1..], tail)
  {
    hide MsgLen, Prefix;
    AllFramable(bodies);
    AllFramable(bodies[1..]);
    var last := if f == LengthPrefixed then Framed(bodies[1..]) else ZeroFramed(bodies[1..]);
    more := last + tail;
    Regroup3(FrontOf(bodies[0], f), last, tail);
  }

  lemma WalkForth(f: Framing, b: Bytes, more: Bytes, i: nat)
    requires GoodMessage(b) && i < PROBE && WalksFrom(more, f, i + 1)
    ensures WalksFrom(FrontOf(b, f) + more, f, i)
  {
    hide WalksFrom, Prefix, GoodMessage;
    if f == LengthPrefixed { FrontWalk(b, more, i); } else { FrontZeroWalk(b, more, i); }
  }

  lemma FrontZeroWalk(b: Bytes, more: Bytes, i: nat)
    requires GoodMessage(b) && i < PROBE && WalksFrom(more, ZeroPrefixed, i + 1)
    ensures WalksFrom([0, 0] + b + more, ZeroPrefixed, i)
  {
    hide MsgLen;
    var rest := [0, 0] + b + more;
    assert Be16(rest[0], rest[1]) == 0 && rest[2] == b[0] && rest[2 + |b|..] == more;
  }

  /** Where the probe goes on, there is a message in front. */
  lemma WalkBack(rest: Bytes, f: Framing, i: nat) returns (b: Bytes, more: Bytes)
    requires i < PROBE && WalksFrom(rest, f, i) && !MayEnd(rest, f)
    ensures GoodMessage(b) && rest == FrontOf(b, f) + more && |more| < |rest| && WalksFrom(more, f, i + 1)
  {
    hide MsgLen;
    var len: nat := MsgLen(rest[2]);
    b, more := rest[2..2 + len], rest[2 + len..];
    assert rest == rest[..2] + b + more;
    if f == LengthPrefixed {
      Bits.ModIs(Be16(rest[0], rest[1]), 256, rest[0], rest[1]);
      assert rest[..2] == Prefix(|b|);
    } else {
      assert rest[..2] == [0, 0];
    }
  }

  lemma WalkStops(rest: Bytes, f: Framing, i: nat)
    requires i <= PROBE && (i == PROBE || MayEnd(rest, f))
    ensures WalksFrom(rest, f, i) <==> i > 0
  {
    if i == PROBE || |rest| < 3 {
      WalkEnds(rest, f, i);
    } else {
      ZeroPrefixEnds(rest, i);
    }
  }

  lemma ZeroPrefixEnds(rest: Bytes, i: nat)
    requires i < PROBE && |rest| >= 3 && rest[0] == 0 && rest[1] == 0 && MsgLen(rest[2]) != 0
    ensures WalksFrom(rest, LengthPrefixed, i) <==> i > 0
  {
    hide *;
    NoPrefix(rest);
    WalkOnce(rest, 0, LengthPrefixed, i);
  }

  lemma NoPrefix(rest: Bytes)
    requires |rest| >= 2 && rest[0] == 0 && rest[1] == 0
    ensures Be16(rest[0], rest[1]) == 0 && rest[0..] == rest
  {
  }

  lemma {:induction false} WalksIfProbed(rest: Bytes, f: Framing, i: nat, bodies: seq<Bytes>, tail: Bytes)
    requires Probed(rest, f, i, bodies, tail)
    ensures WalksFrom(rest, f, i)
    decreases |bodies|
  {
    hide WalksFrom, Spells, MayEnd, FrontOf, GoodMessage;
    if bodies == [] {
      SpellsNothing(rest, f, tail);
      WalkStops(rest, f, i);
    } else {
      var more := SpellsLess(rest, f, bodies, tail);
      WalksIfProbed(more, f, i + 1, bodies[1..], tail);
      WalkForth(f, bodies[0], more, i);
    }
  }

  lemma {:induction false} ProbedIfWalks(rest: Bytes, f: Framing, i: nat) returns (bodies: seq<Bytes>, tail: Bytes)
    requires i <= PROBE && WalksFrom(rest, f, i)
    ensures Probed(rest, f, i, bodies, tail)
    decreases |rest|
  {
    hide WalksFrom, Spells, MayEnd, FrontOf, GoodMessage;
    if i == PROBE || MayEnd(rest, f) {
      bodies, tail := [], rest;
      SpellsNothing(rest, f, tail);
      WalkStops(rest, f, i);
    } else {
      var b, more := WalkBack(rest, f, i);
      bodies, tail := ProbedIfWalks(more, f, i + 1);
      SpellsMore(f, b, more, bodies, tail);
      bodies := [b] + bodies;
    }
  }

  /** The probe accepts a form exactly when the input begins with sixty-four messages in it, or with fewer, but some,
      and then may end. */
  lemma ProbesExactly(buf: Bytes, f: Framing)
    ensures WalksFrom(buf, f, 0) <==> exists bodies, tail :: Probed(buf, f, 0, bodies, tail)
    ensures FormOf(buf) == ZeroPrefixed <==> WalksFrom(buf, ZeroPrefixed, 0) && !WalksFrom(buf, LengthPrefixed, 0)
  {
    hide Probed;
    if WalksFrom(buf, f, 0) { var bodies, tail := ProbedIfWalks(buf, f, 0); }
    if bodies, tail :| Probed(buf, f, 0, bodies, tail) { WalksIfProbed(buf, f, 0, bodies, tail); }
  }

  // ----- the reader -----

  lemma SliceOfRest(buf: Bytes, pos: nat, from: nat, to: nat)
    requires from <= to && pos + to <= |buf|
    ensures buf[pos..][from..to] == buf[pos + from..pos + to]
  {
  }

  class FrameReader {
    const buf: Bytes
    const framing: Framing
    var pos: nat
    var unknown: nat
    var mismatch: nat

    constructor (buf: Bytes, framing: Framing)
      ensures pos == unknown == mismatch == 0 && this.buf == buf && this.framing == framing
    {
      this.buf, this.framing := buf, framing;
      pos, unknown, mismatch := 0, 0, 0;
    }

    /** Advances by one frame. Only a good message replaces what `out` showed before. */
    method Next(last: Option<Bytes>) returns (status: FrameStatus, out: Option<Bytes>)
      requires pos <= |buf|
      modifies this
      ensures pos <= |buf|
      ensures var rest := buf[old(pos)..];
              var f := NextFrame(rest, framing);
              && status == f.status && pos == old(pos) + f.size
              && out == (if status == Ok then Some(f.body) else last)
              && unknown == old(unknown) + (if status == UnknownType || StuckOnUnknown(rest, framing) then 1 else 0)
              && mismatch == old(mismatch) + (if status == LengthMismatch || f.oddPrefix then 1 else 0)
    {
      if framing == LengthPrefixed {
        status, out := NextPrefixed(last);
      } else {
        status, out := NextZeroPrefixed(last);
      }
    }

    method NextPrefixed(last: Option<Bytes>) returns (status: FrameStatus, out: Option<Bytes>)
      requires pos <= |buf|
      modifies this
      ensures pos <= |buf|
      ensures var f := PrefixedFrame(buf[old(pos)..]);
              && status == f.status && pos == old(pos) + f.size
              && out == (if status == Ok then Some(f.body) else last)
              && unknown == old(unknown) + (if status == UnknownType then 1 else 0)
              && mismatch == old(mismatch) + (if status == LengthMismatch then 1 else 0)
    {
      hide MsgLen;
      ghost var rest := buf[pos..];
      out := last;
      if pos == |buf| { return Exhausted, last; }
      if pos + 2 > |buf| { return Truncated, last; }
      var len: nat := Be16(buf[pos], buf[pos + 1]);
      if len == 0 {
        pos := pos + 2;
        return ZeroLengthPrefix, last;
      }
      if pos + 2 + len > |buf| { return Truncated, last; }
      var body := buf[pos + 2..pos + 2 + len];
      SliceOfRest(buf, pos, 2, 2 + len);
      assert body[0] == rest[2];
      pos := pos + 2 + len;
      var implied := MsgLen(body[0]);
      if implied == 0 {
        unknown := unknown + 1;
        return UnknownType, last;
      }
      if implied != len {
        mismatch := mismatch + 1;
        return LengthMismatch, last;
      }
      status, out := Ok, Some(body);
    }

    method NextZeroPrefixed(last: Option<Bytes>) returns (status: FrameStatus, out: Option<Bytes>)
      requires pos <= |buf|
      modifies this
      ensures pos <= |buf|
      ensures var rest := buf[old(pos)..];
              var f := ZeroPrefixedFrame(rest);
              && status == f.status && pos == old(pos) + f.size
              && out == (if status == Ok then Some(f.body) else last)
              && unknown == old(unknown) + (if StuckOnUnknown(rest, ZeroPrefixed) then 1 else 0)
              && mismatch == old(mismatch) + (if f.oddPrefix then 1 else 0)
    {
      hide MsgLen;
      ghost var rest := buf[pos..];
      out := last;
      if pos == |buf| { return Exhausted, last; }
      if pos + 3 > |buf| { return Truncated, last; }
      if Be16(buf[pos], buf[pos + 1]) != 0 { mismatch := mismatch + 1; }
      var len: nat := MsgLen(buf[pos + 2]);
      if len == 0 {
        unknown := unknown + 1;
        return Truncated, last;
      }
      if pos + 2 + len > |buf| { return Truncated, last; }
      var body := buf[pos + 2..pos + 2 + len];
      SliceOfRest(buf, pos, 2, 2 + len);
      status, out := Ok, Some(body);
      pos := pos + 2 + len;
    }
  }

  // ----- the replay -----

  /** What the hooks for skipped frames are shown, given the message before. */
  function Hooks(rest: Bytes, framing: Framing, last: Option<Bytes>): seq<Option<Bytes>>
    decreases |rest|
  {
    var f := NextFrame(rest, framing);
    match f.status
    case Ok => Hooks(rest[f.size..], framing, Some(f.body))
    case UnknownType => [last] + Hooks(rest[f.size..], framing, last)
    case LengthMismatch => [last] + Hooks(rest[f.size..], framing, last)
    case _ => []
  }

  function Resumed(dispatched: seq<Bytes>, unknown: nat, mismatch: nat, r: Report): Report {
    r.(dispatched := dispatched + r.dispatched, unknown := unknown + r.unknown, mismatch := mismatch + r.mismatch)
  }

  /** One turn of the replay, added to what came before it. */
  lemma ReadOnce(done: Report, rest: Bytes, framing: Framing)
    ensures var f, r := NextFrame(rest, framing),
            Resumed(done.dispatched, done.unknown, done.mismatch, Read(rest, framing));
            && f.size <= |rest| && (!Stops(f.status) ==> f.size > 0)
            && var unknown := done.unknown + if f.status == UnknownType || StuckOnUnknown(rest, framing) then 1 else 0;
               var mismatch := done.mismatch + if f.status == LengthMismatch || f.oddPrefix then 1 else 0;
               var dispatched := done.dispatched + if f.status == Ok then [f.body] else [];
               r == if Stops(f.status) then Report(dispatched, unknown, mismatch, |rest| - f.size, f.status)
                    else Resumed(dispatched, unknown, mismatch, Read(rest[f.size..], framing))
  {
    hide NextFrame, StuckOnUnknown, Read;
    ReadUnfolds(rest, framing);
    var f := NextFrame(rest, framing);
    if f.status == Ok {
      var inner := Read(rest[f.size..], framing).dispatched;
      assert done.dispatched + ([f.body] + inner) == (done.dispatched + [f.body]) + inner;
    } else {
      assert done.dispatched + [] == done.dispatched;
    }
  }

  lemma HooksOnce(shown: seq<Option<Bytes>>, rest: Bytes, framing: Framing, last: Option<Bytes>)
    ensures var f := NextFrame(rest, framing);
            shown + Hooks(rest, framing, last) ==
              if Stops(f.status) then shown
              else if f.status == Ok then shown + Hooks(rest[f.size..], framing, Some(f.body))
              else shown + [last] + Hooks(rest[f.size..], framing, last)
  {
    hide MsgLen;
    var f := NextFrame(rest, framing);
    if f.status == UnknownType || f.status == LengthMismatch {
      assert shown + ([last] + Hooks(rest[f.size..], framing, last)) ==
               shown + [last] + Hooks(rest[f.size..], framing, last);
    }
  }

  lemma DroppedTwice(buf: Bytes, n: nat, k: nat)
    requires n + k <= |buf|
    ensures buf[n..][k..] == buf[n + k..]
  {
  }

  /** One turn of the loop, from a position in the buffer. */
  lemma Turn(buf: Bytes, pos: nat, framing: Framing, done: Report, hooks: seq<Option<Bytes>>, m: Option<Bytes>)
    requires pos <= |buf|
    ensures var rest := buf[pos..];
            var f := NextFrame(rest, framing);
            var unknown := done.unknown + if f.status == UnknownType || StuckOnUnknown(rest, framing) then 1 else 0;
            var mismatch := done.mismatch + if f.status == LengthMismatch || f.oddPrefix then 1 else 0;
            var dispatched := if f.status == Ok then done.dispatched + [f.body] else done.dispatched;
            var read := Resumed(done.dispatched, done.unknown, done.mismatch, Read(rest, framing));
            && pos + f.size <= |buf|
            && (Stops(f.status) ==>
                  && read == Report(dispatched, unknown, mismatch, |buf| - pos - f.size, f.status)
                  && hooks + Hooks(rest, framing, m) == hooks)
            && (!Stops(f.status) ==>
                  && f.size > 0
                  && read == Resumed(dispatched, unknown, mismatch, Read(buf[pos + f.size..], framing))
                  && hooks + Hooks(rest, framing, m) ==
                     (if f.status == Ok then hooks else hooks + [m])
                     + Hooks(buf[pos + f.size..], framing, if f.status == Ok then Some(f.body) else m))
  {
    hide NextFrame, StuckOnUnknown, Read, Hooks, MsgLen, Resumed;
    var rest := buf[pos..];
    ReadOnce(done, rest, framing);
    HooksOnce(hooks, rest, framing, m);
    DroppedTwice(buf, pos, NextFrame(rest, framing).size);
    assert done.dispatched + [] == done.dispatched;
  }

  /** Replays a buffer, whatever it holds: it always ends, within the buffer. */
  method Run(buf: Bytes, framing: Framing) returns (report: Report, hooks: seq<Option<Bytes>>)
    ensures report == Read(buf, framing) && hooks == Hooks(buf, framing, None)
  {
    hide NextFrame, StuckOnUnknown, Read, Hooks, MsgLen;
    var rd := new FrameReader(buf, framing);
    var dispatched: seq<Bytes>, m, status := [], None, Ok;
    hooks := [];
    assert buf[0..] == buf;
    assert Read(buf, framing) == Resumed([], 0, 0, Read(buf, framing));
    while true
      invariant fresh(rd) && rd.pos <= |buf| && rd.buf == buf && rd.framing == framing
      invariant Read(buf, framing) == Resumed(dispatched, rd.unknown, rd.mismatch, Read(buf[rd.pos..], framing))
      invariant Hooks(buf, framing, None) == hooks + Hooks(buf[rd.pos..], framing, m)
      decreases |buf| - rd.pos
    {
      Turn(buf, rd.pos, framing, Report(dispatched, rd.unknown, rd.mismatch, 0, Ok), hooks, m);
      status, m := rd.Next(m);
      if status == ZeroLengthPrefix || status == Exhausted || status == Truncated { break; }
      if status == UnknownType || status == LengthMismatch {
        hooks := hooks + [m];
      } else {
        dispatched := dispatched + [m.value];
      }
    }
    report := Report(dispatched, rd.unknown, rd.mismatch, |buf| - rd.pos, status);
  }

  // ----- what the hooks are shown -----

  /** The bodies of the frames a replay walks over, those it hands on and those it skips. */
  function Walked(rest: Bytes, framing: Framing): seq<Bytes>
    decreases |rest|
  {
    var f := NextFrame(rest, framing);
    if Stops(f.status) || f.size < 2 then [] else [rest[2..f.size]] + Walked(rest[f.size..], framing)
  }

  lemma WalkedFirst(rest: Bytes, framing: Framing)
    ensures var f := NextFrame(rest, framing);
            && (!Stops(f.status) ==> 2 < f.size <= |rest| && (f.status == Ok <==> GoodMessage(rest[2..f.size])))
            && (f.status == Ok ==> f.body == rest[2..f.size])
  {
  }

  /** What is handed on are the good ones among them. */
  lemma {:induction false} WalkedAreRead(rest: Bytes, framing: Framing)
    ensures Read(rest, framing).dispatched == Messages(Walked(rest, framing))
    decreases |rest|
  {
    hide NextFrame, Read, GoodMessage;
    ReadUnfolds(rest, framing);
    WalkedFirst(rest, framing);
    var f := NextFrame(rest, framing);
    if !Stops(f.status) { WalkedAreRead(rest[f.size..], framing); }
  }

  lemma FrontIsWalked(b: Bytes, tail: Bytes)
    requires Framable(b)
    ensures Walked(Prefix(|b|) + b + tail, LengthPrefixed) == [b] + Walked(tail, LengthPrefixed)
  {
    hide GoodMessage, MsgLen, PrefixedFrame;
    FrontFrame(b, tail);
    assert (Prefix(|b|) + b + tail)[2..2 + |b|] == b;
  }

  /** Frames in front of anything are walked one after the other. */
  lemma {:induction false} FramesAreWalked(bodies: seq<Bytes>, tail: Bytes)
    requires forall b :: b in bodies ==> Framable(b)
    ensures Walked(Framed(bodies) + tail, LengthPrefixed) == bodies + Walked(tail, LengthPrefixed)
  {
    hide Walked, Prefix, Framed, Framable;
    if bodies == [] {
      NothingFramed(tail, Walked(tail, LengthPrefixed));
    } else {
      FramedFront(bodies, tail);
      FrontIsWalked(bodies[0], Framed(bodies[1..]) + tail);
      FramesAreWalked(bodies[1..], tail);
      HeadFirst(bodies, Walked(tail, LengthPrefixed));
    }
  }

  lemma NothingFramed(tail: Bytes, walked: seq<Bytes>)
    ensures Framed([]) + tail == tail && [] + walked == walked
  {
  }

  lemma HeadFirst(bodies: seq<Bytes>, walked: seq<Bytes>)
    requires bodies != []
    ensures bodies + walked == [bodies[0]] + (bodies[1..] + walked)
  {
  }

  /** The last good message of some frames, or `last` if there is none. */
  function LastGood(walked: seq<Bytes>, last: Option<Bytes>): Option<Bytes> {
    if walked == [] then last
    else if GoodMessage(walked[|walked| - 1]) then Some(walked[|walked| - 1])
    else LastGood(walked[..|walked| - 1], last)
  }

  lemma {:induction false} LastGoodIs(walked: seq<Bytes>, last: Option<Bytes>)
    ensures (forall b :: b in walked ==> !GoodMessage(b)) ==> LastGood(walked, last) == last
    ensures (exists b :: b in walked && GoodMessage(b)) ==>
              exists g :: 0 <= g < |walked| && GoodMessage(walked[g]) && LastGood(walked, last) == Some(walked[g])
                && forall i :: g < i < |walked| ==> !GoodMessage(walked[i])
  {
    hide GoodMessage;
    if walked != [] {
      var n := |walked| - 1;
      LastGoodIs(walked[..n], last);
      if !GoodMessage(walked[n]) {
        if b :| b in walked && GoodMessage(b) {
          assert b in walked[..n];
          var g :| 0 <= g < n && GoodMessage(walked[..n][g]) && LastGood(walked[..n], last) == Some(walked[..n][g])
                   && forall i :: g < i < n ==> !GoodMessage(walked[..n][i]);
          assert forall i :: g < i < n ==> walked[..n][i] == walked[i];
          assert GoodMessage(walked[g]);
        }
      } else {
        assert walked[n] in walked && LastGood(walked, last) == Some(walked[n]);
      }
    }
  }

  /** For each skipped frame, in order, the last good message before it. */
  function PreviousGood(walked: seq<Bytes>, last: Option<Bytes>): seq<Option<Bytes>> {
    if walked == [] then []
    else
      var n := |walked| - 1;
      var front := PreviousGood(walked[..n], last);
      if GoodMessage(walked[n]) then front else front + [LastGood(walked[..n], last)]
  }

  lemma {:induction false} PreviousGoodFirst(b: Bytes, more: seq<Bytes>, last: Option<Bytes>)
    ensures LastGood([b] + more, last) == LastGood(more, if GoodMessage(b) then Some(b) else last)
    ensures PreviousGood([b] + more, last) ==
              if GoodMessage(b) then PreviousGood(more, Some(b)) else [last] + PreviousGood(more, last)
  {
    hide GoodMessage;
    if more == [] {
      assert [b] + more == [b] && [b][..0] == [];
    } else {
      var n := |more| - 1;
      assert ([b] + more)[..n + 1] == [b] + more[..n] && ([b] + more)[n + 1] == more[n];
      PreviousGoodFirst(b, more[..n], last);
    }
  }

  /** Over any input each hook for a skipped frame is shown the last good message before that frame. */
  lemma {:induction false} HooksSeeThePrevious(rest: Bytes, framing: Framing, last: Option<Bytes>)
    ensures Hooks(rest, framing, last) == PreviousGood(Walked(rest, framing), last)
    decreases |rest|
  {
    hide NextFrame, GoodMessage, PreviousGood;
    WalkedFirst(rest, framing);
    var f := NextFrame(rest, framing);
    if !Stops(f.status) {
      var b := rest[2..f.size];
      PreviousGoodFirst(b, Walked(rest[f.size..], framing), last);
      HooksSeeThePrevious(rest[f.size..], framing, if f.status == Ok then Some(b) else last);
    } else {
      NoneShown(last);
    }
  }

  lemma NoneShown(last: Option<Bytes>)
    ensures PreviousGood([], last) == []
  {
  }

  lemma {:induction false} GoodOrNothing(walked: seq<Bytes>)
    ensures LastGood(walked, None).Some? ==> GoodMessage(LastGood(walked, None).value)
    ensures forall h :: h in PreviousGood(walked, None) ==> h == None || GoodMessage(h.value)
  {
    hide GoodMessage;
    if walked != [] { GoodOrNothing(walked[..|walked| - 1]); }
  }

  /** So no hook is ever shown a frame that was skipped. */
  lemma NoHookSeesItsFrame(buf: Bytes, framing: Framing, bad: Bytes)
    requires !GoodMessage(bad)
    ensures Some(bad) !in Hooks(buf, framing, None)
  {
    hide GoodMessage, PreviousGood;
    HooksSeeThePrevious(buf, framing, None);
    GoodOrNothing(Walked(buf, framing));
  }
}
