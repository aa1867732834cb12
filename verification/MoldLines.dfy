/** Packets of one message list, from the packetizer through any arrangement of two lines to the handler. */
module MoldLines {
  import opened BookTypes
  import opened Wire
  import opened MoldReceivers
  import Parsers
  import Bits

  /** A packet of messages: the session, the number of its first message, how many there are, and the messages. */
  function Packet(session: Bytes, s: nat, bodies: seq<Bytes>): Bytes
    requires |bodies| < 0x1_0000 && forall b :: b in bodies ==> Framable(b)
  {
    session + ToBigEndian(s, 8) + Prefix(|bodies|) + Framed(bodies)
  }

  function EndPacket(session: Bytes, s: nat): Bytes { session + ToBigEndian(s, 8) + [255, 255] }

  lemma PacketFields(session: Bytes, s: nat, two: Bytes, rest: Bytes)
    requires |session| == SESSION_LEN && s < WORD && |two| == 2
    ensures var p := session + ToBigEndian(s, 8) + two + rest;
            && |p| >= HEADER_LEN && p[..SESSION_LEN] == session && Sequence(p) == s
            && MessageCount(p) == Be16(two[0], two[1]) && p[HEADER_LEN..] == rest
  {
    var p := session + ToBigEndian(s, 8) + two + rest;
    assert p[10..18] == ToBigEndian(s, 8);
    EightBytes();
    BigEndianBack(s, 8);
    assert p[18] == two[0] && p[19] == two[1] && p[HEADER_LEN..] == rest && p[..SESSION_LEN] == session;
  }

  lemma {:induction false} BlocksOfFramed(bodies: seq<Bytes>)
    requires forall b :: b in bodies ==> Framable(b)
    ensures Blocks(Framed(bodies), |bodies|) == Some(bodies)
  {
    if bodies != [] {
      var b, tail := bodies[0], Framed(bodies[1..]);
      assert Framable(b);
      BlocksOfFramed(bodies[1..]);
      FrontBlock(b, tail);
      assert [b] + bodies[1..] == bodies;
    }
  }

  lemma FrontBlock(b: Bytes, tail: Bytes)
    requires Framable(b)
    ensures var rest := Prefix(|b|) + b + tail;
            |rest| >= 2 + |b| && Be16(rest[0], rest[1]) == |b| && rest[2..2 + |b|] == b && rest[2 + |b|..] == tail
  {
    var rest := Prefix(|b|) + b + tail;
    assert rest[2..2 + |b|] == b && rest[2 + |b|..] == tail;
  }

  /** A packet reads back as what it was made from. */
  lemma PacketReadsBack(session: Bytes, s: nat, bodies: seq<Bytes>)
    requires |session| == SESSION_LEN && s < WORD && |bodies| < 0x1_0000 && forall b :: b in bodies ==> Framable(b)
    ensures var p := Packet(session, s, bodies);
            && |p| >= HEADER_LEN && p[..SESSION_LEN] == session && Sequence(p) == s && MessageCount(p) == |bodies|
            && Blocks(p[HEADER_LEN..], |bodies|) == Some(bodies)
  {
    hide BigEndian, Blocks, ToBigEndian, Framed;
    PacketFields(session, s, Prefix(|bodies|), Framed(bodies));
    BlocksOfFramed(bodies);
  }

  ghost predicate Accepts(filter: Option<Bytes>, session: Bytes) {
    |session| == SESSION_LEN && (filter.Some? ==> filter.value == session)
  }

  // ----- where a packet is not what it seems -----

  /** A packet of 0xFFFF messages reads as the end of the session, and no smaller one does. */
  lemma FullPacketReadsAsEnd(session: Bytes, s: nat, bodies: seq<Bytes>, filter: Option<Bytes>, next: u64, stale: bool)
    requires Accepts(filter, session) && s < WORD && |bodies| < 0x1_0000 && forall b :: b in bodies ==> Framable(b)
    ensures Handle(Packet(session, s, bodies), filter, next, stale).outcome == EndOfSession <==> |bodies| == 0xFFFF
    ensures |bodies| == 0xFFFF ==> Handle(Packet(session, s, bodies), filter, next, stale).entries == []
  {
    hide BigEndian, Blocks, ToBigEndian, Framed, Deliver;
    PacketReadsBack(session, s, bodies);
  }

  /** Loss at the very end goes unnoticed when the end of the session arrives: its number is not looked at. A heartbeat
      with the same number would have reported the gap. */
  lemma EndHidesLoss(session: Bytes, s: nat, filter: Option<Bytes>, next: u64, stale: bool)
    requires Accepts(filter, session) && next < s < WORD
    ensures Handle(EndPacket(session, s), filter, next, stale) == Effect(EndOfSession, [])
    ensures Handle(Packet(session, s, []), filter, next, stale) == Effect(Heartbeat, [Gap(next, s)])
  {
    hide BigEndian, Blocks, ToBigEndian, Deliver;
    PacketFields(session, s, [255, 255], []);
    assert EndPacket(session, s) == session + ToBigEndian(s, 8) + [255, 255] + [];
    PacketReadsBack(session, s, []);
  }

  /** After the end of the session numbered s, everything below s was handed on or reported lost if and only if nothing
      was missing before it came. */
  lemma EndVouchesExactly(session: Bytes, s: nat, filter: Option<Bytes>, log: seq<Entry>, next: u64, stale: bool)
    requires Accepts(filter, session) && s < WORD && Tiles(log, next)
    ensures var entries := Handle(EndPacket(session, s), filter, next, stale).entries;
            (forall x: nat :: 1 <= x < s ==> CoveredOnce(log + entries, x)) <==> s <= next
  {
    hide Handle, Tiles, CoveredOnce;
    EndSaysNothing(session, s, filter, next, stale);
    assert log + [] == log;
    TilesCount(log, next);
    if s <= next {
      forall x: nat | 1 <= x < s ensures CoveredOnce(log, x) { CoveredBelow(log, next, x); }
    } else {
      NothingCoversNext(log, next);
    }
  }

  lemma CoveredBelow(log: seq<Entry>, next: nat, x: nat)
    requires Tiles(log, next) && 1 <= x < next
    ensures CoveredOnce(log, x)
  {
    var i := TilesCover(log, next, x);
  }

  lemma NothingCoversNext(log: seq<Entry>, next: nat)
    requires Tiles(log, next)
    ensures !CoveredOnce(log, next)
  {
    forall i | 0 <= i < |log| ensures !Covers(log[i], next) { TilesBounds(log, next, i); }
  }

  /** Numbers that run past the largest one start again from zero. Such a packet is taken for a duplicate, or, if the
      numbers also run past the next one expected, handed on and the accounting is lost. */
  lemma WrappedPacket(session: Bytes, s: nat, bodies: seq<Bytes>, filter: Option<Bytes>, log: seq<Entry>, next: u64,
                      stale: bool)
    requires Accepts(filter, session) && s < WORD && 0 < |bodies| < 0xFFFF && (forall b :: b in bodies ==> Framable(b))
    requires s + |bodies| >= WORD && Tiles(log, next)
    ensures var p := Packet(session, s, bodies);
            var e := Handle(p, filter, next, stale);
            var past := s + |bodies| - WORD > next;
            && (past <==> Overruns(p, filter, next))
            && (!past ==> e == Effect(Duplicate, []))
            && (past ==> e.outcome == GapSeen && !Tiles(log + e.entries, Expecting(e.entries, next)))
  {
    hide BigEndian, Blocks, ToBigEndian, Deliver, Framed, Tiles, HasZero;
    var p := Packet(session, s, bodies);
    PacketReadsBack(session, s, bodies);
    TilesCount(log, next);
    AccountedExactly(log, p, filter, next, stale);
  }

  /** Three messages from the largest number on, first thing in a session: a gap, the largest number, and then the
      numbers zero and one. */
  lemma WrappedIsDelivered(session: Bytes, body: Bytes, filter: Option<Bytes>)
    requires Accepts(filter, session) && Framable(body)
    ensures var e := Handle(Packet(session, WORD - 1, [body, body, body]), filter, 1, false);
            && e.entries == [Gap(1, WORD - 1), Message(WORD - 1, body, true), Message(0, body, true),
              Message(1, body, true)]
            && Expecting(e.entries, 1) == 2 && !Tiles(e.entries, 2)
  {
    hide BigEndian, Blocks, ToBigEndian, Framed, Tiles, HasZero;
    var p, bodies := Packet(session, WORD - 1, [body, body, body]), [body, body, body];
    PacketReadsBack(session, WORD - 1, bodies);
    NothingDelivered();
    DeliverThree(body);
    WrappedPacket(session, WORD - 1, bodies, filter, [], 1, false);
    var e := Handle(p, filter, 1, false);
    assert [] + e.entries == e.entries;
  }

  lemma DeliverThree(body: Bytes)
    ensures Deliver([body, body, body], WORD - 1, WORD - 1, true) ==
              [Message(WORD - 1, body, true), Message(0, body, true), Message(1, body, true)]
  {
    assert [body, body, body][1..] == [body, body] && [body, body][1..] == [body] && [body][1..] == [];
    assert Deliver([body], 1, 1, true) == [Message(1, body, true)];
    assert Deliver([body, body], 0, 0, true) == [Message(0, body, true)] + Deliver([body], 1, 1, true);
  }

  lemma NothingDelivered()
    ensures Tiles([], 1)
  {
  }

  // ----- pieces of one list -----

  /** The messages of one packet, as a stretch of the list after some of them; an empty stretch is a heartbeat. */
  datatype Piece = Piece(after: nat, size: nat)

  function End(p: Piece): nat { p.after + p.size }

  predicate Fits(p: Piece, msgs: seq<Bytes>) { End(p) <= |msgs| && p.size < 0x1_0000 }

  ghost predicate AllFramed(msgs: seq<Bytes>) { forall b :: b in msgs ==> Framable(b) }

  /** The packet of a piece, where the list's first message has number `base`. */
  function PieceBytes(session: Bytes, base: nat, msgs: seq<Bytes>, p: Piece): Bytes
    requires Fits(p, msgs) && AllFramed(msgs)
  {
    Packet(session, base + p.after, msgs[p.after..End(p)])
  }

  /** How far the pieces received so far go. */
  function Reached(pieces: seq<Piece>): nat {
    if pieces == [] then 0
    else
      var before, p := Reached(pieces[..|pieces| - 1]), pieces[|pieces| - 1];
      if End(p) > before then End(p) else before
  }

  /** No piece starts beyond one past everything received before it. */
  ghost predicate NoJump(pieces: seq<Piece>) {
    forall i :: 0 <= i < |pieces| ==> pieces[i].after <= Reached(pieces[..i])
  }

  ghost predicate AllFit(pieces: seq<Piece>, msgs: seq<Bytes>) { forall p :: p in pieces ==> Fits(p, msgs) }

  /** No packet is so full that its count reads as the end of the session. */
  ghost predicate AllShort(pieces: seq<Piece>) { forall p :: p in pieces ==> p.size < END_OF_SESSION }

  /** The first n messages, handed on in order and not stale. */
  function Clean(msgs: seq<Bytes>, n: nat): (log: seq<Entry>)
    requires n <= |msgs| < WORD
    ensures |log| == n
  {
    if n == 0 then [] else Clean(msgs, n - 1) + [Message(n, msgs[n - 1], false)]
  }

  datatype Reception = Reception(log: seq<Entry>, next: u64)

  /** What a receiver has told its handler after some packets, from the start. */
  function Fed(packets: seq<Bytes>, filter: Option<Bytes>): Reception {
    if packets == [] then Reception([], 1)
    else
      var r := Fed(packets[..|packets| - 1], filter);
      var e := Handle(packets[|packets| - 1], filter, r.next, CountGaps(r.log) > 0);
      Reception(r.log + e.entries, Expecting(e.entries, r.next))
  }

  /** No packet, when it comes, runs past the largest number and the next one expected. */
  ghost predicate NoOverrun(packets: seq<Bytes>, filter: Option<Bytes>) {
    forall i :: 0 <= i < |packets| ==> !Overruns(packets[i], filter, Fed(packets[..i], filter).next)
  }

  lemma NoOverrunOneMore(packets: seq<Bytes>, filter: Option<Bytes>)
    requires packets != []
    ensures var n := |packets| - 1;
            NoOverrun(packets, filter) <==>
              NoOverrun(packets[..n], filter) && !Overruns(packets[n], filter, Fed(packets[..n], filter).next)
  {
    hide Overruns, Fed;
    var n := |packets| - 1;
    var front := packets[..n];
    forall i | 0 <= i < n ensures front[..i] == packets[..i] {}
    if NoOverrun(front, filter) && !Overruns(packets[n], filter, Fed(front, filter).next) {
      forall i | 0 <= i < |packets| ensures !Overruns(packets[i], filter, Fed(packets[..i], filter).next) {
        if i < n { assert front[..i] == packets[..i] && front[i] == packets[i]; }
      }
    }
    if NoOverrun(packets, filter) {
      forall i | 0 <= i < n ensures !Overruns(front[i], filter, Fed(front[..i], filter).next) {
        assert front[..i] == packets[..i];
      }
    }
  }

  /** Over any packets the log accounts for every number if and only if that never happens. */
  lemma {:induction false} FedAccountsExactly(packets: seq<Bytes>, filter: Option<Bytes>)
    ensures Tiles(Fed(packets, filter).log, Fed(packets, filter).next) <==> NoOverrun(packets, filter)
  {
    hide Tiles, Overruns, NoOverrun, Handle, Expecting, HasZero;
    if packets == [] {
      NothingDelivered();
      NoneOverrun(filter);
    } else {
      var n := |packets| - 1;
      var r := Fed(packets[..n], filter);
      NoOverrunOneMore(packets, filter);
      FedAccountsExactly(packets[..n], filter);
      if NoOverrun(packets[..n], filter) {
        AccountedExactly(r.log, packets[n], filter, r.next, CountGaps(r.log) > 0);
      } else {
        FedOverran(packets, filter);
      }
    }
  }

  lemma NoneOverrun(filter: Option<Bytes>)
    ensures NoOverrun([], filter)
  {
  }

  lemma FedOverran(packets: seq<Bytes>, filter: Option<Bytes>)
    requires packets != [] && !NoOverrun(packets[..|packets| - 1], filter)
    ensures !Tiles(Fed(packets, filter).log, Fed(packets, filter).next)
  {
    hide Tiles, Overruns, Handle, Expecting, HasZero, Fed;
    var front := packets[..|packets| - 1];
    var i :| 0 <= i < |front| && Overruns(front[i], filter, Fed(front[..i], filter).next);
    assert front[..i] == packets[..i] && front[i] == packets[i];
    FedHasZero(packets, filter, i);
    ZeroIsNoTile(Fed(packets, filter).log, Fed(packets, filter).next);
  }

  lemma {:induction false} FedHasZero(packets: seq<Bytes>, filter: Option<Bytes>, i: nat)
    requires i < |packets| && Overruns(packets[i], filter, Fed(packets[..i], filter).next)
    ensures HasZero(Fed(packets, filter).log)
    decreases |packets|
  {
    hide Overruns, Handle, Expecting, HasZero;
    var n := |packets| - 1;
    var front, r := packets[..n], Fed(packets[..n], filter);
    if i == n {
      OverrunHasZero(r.log, packets[n], filter, r.next, CountGaps(r.log) > 0);
    } else {
      assert front[..i] == packets[..i];
      FedHasZero(front, filter, i);
      ZeroBehind(r.log, Handle(packets[n], filter, r.next, CountGaps(r.log) > 0).entries);
    }
  }

  function AllBytes(session: Bytes, base: nat, msgs: seq<Bytes>, pieces: seq<Piece>): seq<Bytes>
    requires AllFit(pieces, msgs) && AllFramed(msgs)
  {
    if pieces == [] then []
    else AllBytes(session, base, msgs, pieces[..|pieces| - 1]) + [PieceBytes(session, base, msgs, pieces[|pieces| - 1])]
  }

  lemma {:induction false} CleanHasNoGaps(msgs: seq<Bytes>, n: nat)
    requires n <= |msgs| < WORD
    ensures CountGaps(Clean(msgs, n)) == 0
  {
    if n > 0 {
      CleanHasNoGaps(msgs, n - 1);
      assert Clean(msgs, n)[..n - 1] == Clean(msgs, n - 1);
    }
  }

  /** Handing on a stretch from its front adds what is new of it. */
  lemma {:induction false} DeliverStretch(msgs: seq<Bytes>, after: nat, end: nat, n: nat)
    requires after <= n && after <= end <= |msgs| < WORD - 1 && n <= |msgs|
    ensures var entries, m := Deliver(msgs[after..end], after + 1, n + 1, false), if end > n then end else n;
            Clean(msgs, n) + entries == Clean(msgs, m) && Expecting(entries, n + 1) == m + 1
    decreases end - after
  {
    var blocks := msgs[after..end];
    if after < end {
      assert blocks[0] == msgs[after] && blocks[1..] == msgs[after + 1..end];
      if after < n {
        DeliverStretch(msgs, after + 1, end, n);
      } else {
        var e := Message(after + 1, msgs[after], false);
        var more := Deliver(blocks[1..], after + 2, after + 2, false);
        DeliverStretch(msgs, after + 1, end, n + 1);
        assert Clean(msgs, n + 1) == Clean(msgs, n) + [e];
        assert (Clean(msgs, n) + [e]) + more == Clean(msgs, n) + ([e] + more);
        ExpectingMore(e, more, n + 1);
      }
    } else {
      assert Clean(msgs, n) + [] == Clean(msgs, n);
    }
  }

  lemma OnePiece(session: Bytes, msgs: seq<Bytes>, p: Piece, filter: Option<Bytes>, n: nat)
    requires Accepts(filter, session) && AllFramed(msgs) && |msgs| < WORD - 1 && Fits(p, msgs)
             && p.size < END_OF_SESSION && n <= |msgs| && p.after <= n
    ensures var entries, m := Handle(PieceBytes(session, 1, msgs, p), filter, n + 1, false).entries,
                              if End(p) > n then End(p) else n;
            Clean(msgs, n) + entries == Clean(msgs, m) && Expecting(entries, n + 1) == m + 1
  {
    hide BigEndian, Blocks, ToBigEndian, Deliver, Framed, Packet;
    var bodies := msgs[p.after..End(p)];
    PacketReadsBack(session, p.after + 1, bodies);
    DeliverStretch(msgs, p.after, End(p), n);
    assert Clean(msgs, n) + [] == Clean(msgs, n);
    var entries := Deliver(bodies, p.after + 1, n + 1, false);
    assert [] + entries == entries;
  }

  /** Arbitration: whatever the order, the repetition and the packet boundaries, as long as nothing received starts
      beyond one past everything received before it, the handler is given the messages from the first to the furthest
      reached, once each, in order, none stale, and no gap is reported. */
  lemma {:induction false} Arbitrates(session: Bytes, msgs: seq<Bytes>, pieces: seq<Piece>, filter: Option<Bytes>)
    requires Accepts(filter, session) && AllFramed(msgs) && |msgs| < WORD - 1 && AllFit(pieces, msgs)
             && AllShort(pieces) && NoJump(pieces)
    ensures Reached(pieces) <= |msgs|
    ensures Fed(AllBytes(session, 1, msgs, pieces), filter) ==
            Reception(Clean(msgs, Reached(pieces)), Reached(pieces) + 1)
  {
    hide Handle, PieceBytes, Clean, NoJump;
    if pieces == [] {
      NothingClean(msgs);
    } else {
      var front, p := pieces[..|pieces| - 1], pieces[|pieces| - 1];
      FrontInOrder(pieces);
      Arbitrates(session, msgs, front, filter);
      var n := Reached(front);
      CleanHasNoGaps(msgs, n);
      assert p in pieces;
      OnePiece(session, msgs, p, filter, n);
      AllBytesFront(session, msgs, pieces);
    }
  }

  lemma FrontInOrder(pieces: seq<Piece>)
    requires pieces != [] && NoJump(pieces)
    ensures NoJump(pieces[..|pieces| - 1]) && pieces[|pieces| - 1].after <= Reached(pieces[..|pieces| - 1])
  {
    hide Reached;
    var front := pieces[..|pieces| - 1];
    forall i | 0 <= i < |front| ensures front[i].after <= Reached(front[..i]) {
      assert front[..i] == pieces[..i] && front[i] == pieces[i];
    }
  }

  lemma AllBytesFront(session: Bytes, msgs: seq<Bytes>, pieces: seq<Piece>)
    requires pieces != [] && AllFit(pieces, msgs) && AllFramed(msgs)
    ensures var packets := AllBytes(session, 1, msgs, pieces);
            && packets != [] && packets[..|packets| - 1] == AllBytes(session, 1, msgs, pieces[..|pieces| - 1])
            && packets[|packets| - 1] == PieceBytes(session, 1, msgs, pieces[|pieces| - 1])
  {
    hide PieceBytes;
  }

  lemma NothingClean(msgs: seq<Bytes>)
    requires |msgs| < WORD
    ensures Clean(msgs, 0) == []
  {
  }

  lemma JumpIsReported(session: Bytes, msgs: seq<Bytes>, p: Piece, filter: Option<Bytes>, n: nat)
    requires Accepts(filter, session) && AllFramed(msgs) && |msgs| < WORD - 1 && Fits(p, msgs)
             && p.size < END_OF_SESSION && n < p.after
    ensures var entries := Handle(PieceBytes(session, 1, msgs, p), filter, n + 1, false).entries;
            entries != [] && entries[0].Gap?
  {
    hide BigEndian, Blocks, ToBigEndian, Deliver, Framed, Packet;
    PacketReadsBack(session, p.after + 1, msgs[p.after..End(p)]);
  }

  lemma {:induction false} GapsStay(log: seq<Entry>, more: seq<Entry>)
    ensures CountGaps(log) <= CountGaps(log + more)
    ensures more != [] && more[0].Gap? ==> CountGaps(log + more) > 0
  {
    if more == [] {
      assert log + more == log;
    } else {
      var front, last := more[..|more| - 1], more[|more| - 1];
      assert log + more == (log + front) + [last] && (log + more)[..|log + more| - 1] == log + front;
      GapsStay(log, front);
    }
  }

  /** The condition is exact: a gap is reported if and only if some piece received starts beyond one past everything
      received before it. */
  lemma {:induction false} GapExactlyOnJump(session: Bytes, msgs: seq<Bytes>, pieces: seq<Piece>, filter: Option<Bytes>)
    requires Accepts(filter, session) && AllFramed(msgs) && |msgs| < WORD - 1 && AllFit(pieces, msgs)
             && AllShort(pieces)
    ensures CountGaps(Fed(AllBytes(session, 1, msgs, pieces), filter).log) == 0 <==> NoJump(pieces)
  {
    hide Handle, PieceBytes, Clean, Reached;
    if NoJump(pieces) {
      Arbitrates(session, msgs, pieces, filter);
      CleanHasNoGaps(msgs, Reached(pieces));
    } else {
      var front, p := pieces[..|pieces| - 1], pieces[|pieces| - 1];
      GapExactlyOnJump(session, msgs, front, filter);
      var packets := AllBytes(session, 1, msgs, pieces);
      assert packets[..|packets| - 1] == AllBytes(session, 1, msgs, front);
      var r := Fed(AllBytes(session, 1, msgs, front), filter);
      var entries := Handle(packets[|packets| - 1], filter, r.next, CountGaps(r.log) > 0).entries;
      GapsStay(r.log, entries);
      if NoJump(front) {
        Arbitrates(session, msgs, front, filter);
        CleanHasNoGaps(msgs, Reached(front));
        JumpAtLast(pieces);
        assert p in pieces;
        JumpIsReported(session, msgs, p, filter, Reached(front));
      }
    }
  }

  lemma JumpAtLast(pieces: seq<Piece>)
    requires pieces != [] && !NoJump(pieces) && NoJump(pieces[..|pieces| - 1])
    ensures pieces[|pieces| - 1].after > Reached(pieces[..|pieces| - 1])
  {
    var front := pieces[..|pieces| - 1];
    forall i | 0 <= i < |front| ensures pieces[i].after <= Reached(pieces[..i]) { assert front[..i] == pieces[..i]; }
  }

  // ----- two lines -----

  /** One line in order: pieces end to end, up to the n-th message. */
  ghost predicate Line(pieces: seq<Piece>, n: nat) {
    if pieces == [] then n == 0
    else var last := pieces[|pieces| - 1]; End(last) == n && Line(pieces[..|pieces| - 1], last.after)
  }

  /** Some arrangement of two lines that keeps the order within each. */
  ghost predicate Interleaves(a: seq<Piece>, b: seq<Piece>, c: seq<Piece>)
    decreases |c|
  {
    if c == [] then a == [] && b == []
    else
      var front, last := c[..|c| - 1], c[|c| - 1];
      || (a != [] && a[|a| - 1] == last && Interleaves(a[..|a| - 1], b, front))
      || (b != [] && b[|b| - 1] == last && Interleaves(a, b[..|b| - 1], front))
  }

  lemma {:induction false} LinesDoNotJump(a: seq<Piece>, b: seq<Piece>, c: seq<Piece>, n: nat, m: nat)
    requires Line(a, n) && Line(b, m) && Interleaves(a, b, c)
    ensures NoJump(c) && Reached(c) == if n > m then n else m
    decreases |c|
  {
    hide NoJump;
    if c == [] {
      NoJumpYet();
    } else {
      var front, last := c[..|c| - 1], c[|c| - 1];
      if a != [] && a[|a| - 1] == last && Interleaves(a[..|a| - 1], b, front) {
        LinesDoNotJump(a[..|a| - 1], b, front, last.after, m);
      } else {
        LinesDoNotJump(a, b[..|b| - 1], front, n, last.after);
      }
      OneMoreInOrder(c);
    }
  }

  lemma NoJumpYet()
    ensures NoJump([])
  {
  }

  lemma OneMoreInOrder(c: seq<Piece>)
    requires c != [] && NoJump(c[..|c| - 1]) && c[|c| - 1].after <= Reached(c[..|c| - 1])
    ensures NoJump(c)
  {
    hide Reached;
    var front := c[..|c| - 1];
    forall i | 0 <= i < |c| ensures c[i].after <= Reached(c[..i]) {
      if i < |front| {
        assert front[..i] == c[..i] && front[i] == c[i];
      } else {
        assert c[..i] == front;
      }
    }
  }

  /** Two complete lines of one list, cut into packets differently and arriving in any arrangement, give the handler
      every message once, in order, none stale. */
  lemma TwoLinesDeliverOnce(session: Bytes, msgs: seq<Bytes>, a: seq<Piece>, b: seq<Piece>, c: seq<Piece>,
                            filter: Option<Bytes>)
    requires Accepts(filter, session) && AllFramed(msgs) && |msgs| < WORD - 1 && AllFit(c, msgs) && AllShort(c)
    requires Line(a, |msgs|) && Line(b, |msgs|) && Interleaves(a, b, c)
    ensures Fed(AllBytes(session, 1, msgs, c), filter) == Reception(Clean(msgs, |msgs|), |msgs| + 1)
  {
    LinesDoNotJump(a, b, c, |msgs|, |msgs|);
    Arbitrates(session, msgs, c, filter);
  }

  // ----- the packetizer -----

  /** The size of the last piece: a full one, or what is left over. */
  function LastSize(n: nat, most: nat): (size: nat)
    requires most > 0 && n > 0
    ensures 0 < size <= most && size <= n
  {
    if n % most == 0 then most else n % most
  }

  /** The pieces a packetizer makes: full ones, then what is left over. */
  function Chunks(n: nat, most: nat): (pieces: seq<Piece>)
    requires most > 0
    ensures forall p :: p in pieces ==> p.after + p.size <= n && 0 < p.size <= most
    decreases n
  {
    if n == 0 then []
    else Chunks(n - LastSize(n, most), most) + [Piece(n - LastSize(n, most), LastSize(n, most))]
  }

  lemma {:induction false} ChunksAreALine(n: nat, most: nat)
    requires most > 0
    ensures Line(Chunks(n, most), n)
    decreases n
  {
    hide LastSize;
    if n > 0 {
      var size := LastSize(n, most);
      ChunksAreALine(n - size, most);
      var pieces := Chunks(n, most);
      assert pieces[..|pieces| - 1] == Chunks(n - size, most);
    }
  }

  /** After full pieces, one more. */
  lemma ChunksGrow(q: nat, size: nat, most: nat)
    requires 0 < size <= most
    ensures Chunks(q * most + size, most) == Chunks(q * most, most) + [Piece(q * most, size)]
  {
    hide Chunks;
    var n := q * most + size;
    if size == most {
      Next(q, most);
      Bits.ModIs(n, most, q + 1, 0);
    } else {
      Bits.ModIs(n, most, q, size);
    }
    ChunksUnfold(n, most);
  }

  lemma Next(q: nat, most: nat)
    ensures q * most + most == (q + 1) * most + 0
  {
  }

  lemma ChunksUnfold(n: nat, most: nat)
    requires most > 0 && n > 0
    ensures Chunks(n, most) == Chunks(n - LastSize(n, most), most) + [Piece(n - LastSize(n, most), LastSize(n, most))]
  {
  }

  lemma {:induction false} FramedAppend(bodies: seq<Bytes>, b: Bytes)
    requires AllFramed(bodies) && Framable(b)
    ensures AllFramed(bodies + [b]) && Framed(bodies + [b]) == Framed(bodies) + Prefix(|b|) + b
  {
    if bodies == [] {
      assert bodies + [b] == [b] && [b][1..] == [];
    } else {
      assert bodies[0] in bodies && Framable(bodies[0]);
      FramedAppend(bodies[1..], b);
      assert (bodies + [b])[1..] == bodies[1..] + [b];
    }
  }

  lemma {:induction false} ReadsMessages(rest: Bytes)
    ensures AllMessages(Read(rest, LengthPrefixed).dispatched)
    decreases |rest|
  {
    hide MsgLen, PrefixedFrame;
    ReadUnfolds(rest, LengthPrefixed);
    var f := PrefixedFrame(rest);
    if f.status == Ok { Reframed(rest); }
    if !Stops(f.status) { ReadsMessages(rest[f.size..]); }
  }

  class MoldPacketizer {
    const session: Bytes
    const most: u16
    var nextSeq: nat

    /** The session name is padded or cut to its field; a packet takes at least one message. */
    constructor (name: Bytes, most: u16)
      ensures |session| == SESSION_LEN && nextSeq == 1 && this.most == (if most == 0 then 1 else most)
      ensures forall i :: 0 <= i < SESSION_LEN ==> session[i] == if i < |name| then name[i] else 32
    {
      session := seq(SESSION_LEN, i requires 0 <= i < SESSION_LEN => if i < |name| then name[i] else 32);
      this.most := if most == 0 then 1 else most;
      nextSeq := 1;
    }

    /** The header of a packet that starts at s, with no count yet. */
    function HeaderBytes(s: nat): Bytes { session + ToBigEndian(s, 8) + [0, 0] }

    lemma WithCount(s: nat, bodies: seq<Bytes>)
      requires |session| == SESSION_LEN && |bodies| < 0x1_0000 && AllFramed(bodies)
      ensures var p := HeaderBytes(s) + Framed(bodies);
              |p| >= HEADER_LEN && p[18 := |bodies| / 256][19 := |bodies| % 256] == Packet(session, s, bodies)
    {
      hide Framed, ToBigEndian;
    }

    /** Fills in the count of a packet and sends it. */
    method Flush(packet: Bytes, inPacket: u16, out: seq<Bytes>, ghost bodies: seq<Bytes>) returns (out': seq<Bytes>)
      requires |session| == SESSION_LEN && |bodies| == inPacket > 0 && AllFramed(bodies)
      requires packet == HeaderBytes(nextSeq) + Framed(bodies)
      modifies this
      ensures out' == out + [Packet(session, old(nextSeq), bodies)] && nextSeq == old(nextSeq) + inPacket
    {
      hide Framed, ToBigEndian, HeaderBytes, Packet;
      WithCount(nextSeq, bodies);
      var full := packet[18 := inPacket / 256][19 := inPacket % 256];
      out' := out + [full];
      nextSeq := nextSeq + inPacket;
    }

    lemma PiecesGrow(base: nat, all: seq<Bytes>, q: nat, after: nat, size: nat)
      requires 0 < size <= most && after == q * most && after + size <= |all| && AllFramed(all)
      ensures AllFit(Chunks(after, most), all) && AllFit(Chunks(after + size, most), all)
      ensures AllBytes(session, base, all, Chunks(after + size, most)) ==
                AllBytes(session, base, all, Chunks(after, most)) +
                    [Packet(session, base + after, all[after..after + size])]
    {
      hide PieceBytes, AllBytes, Packet;
      ChunksGrow(q, size, most);
      OneMorePiece(base, all, Chunks(after, most), Piece(after, size));
      PieceIs(base, all, after, size);
    }

    lemma OneMorePiece(base: nat, all: seq<Bytes>, pieces: seq<Piece>, p: Piece)
      requires AllFit(pieces, all) && Fits(p, all) && AllFramed(all)
      ensures AllFit(pieces + [p], all)
      ensures AllBytes(session, base, all, pieces + [p]) ==
                AllBytes(session, base, all, pieces) + [PieceBytes(session, base, all, p)]
    {
      assert (pieces + [p])[..|pieces|] == pieces;
    }

    lemma PieceIs(base: nat, all: seq<Bytes>, after: nat, size: nat)
      requires after + size <= |all| && size < 0x1_0000 && AllFramed(all)
      ensures PieceBytes(session, base, all, Piece(after, size)) ==
              Packet(session, base + after, all[after..after + size])
    {
    }

    /** A packet under construction: nothing yet, or a header and the messages so far. */
    ghost predicate Holds(packet: Bytes, s: nat, bodies: seq<Bytes>)
      requires AllFramed(bodies)
    {
      packet == if bodies == [] then [] else HeaderBytes(s) + Framed(bodies)
    }

    method AddTo(packet: Bytes, inPacket: u16, body: Bytes, ghost bodies: seq<Bytes>) returns (longer: Bytes)
      requires AllFramed(bodies) && Framable(body) && inPacket == |bodies| && Holds(packet, nextSeq, bodies)
      ensures AllFramed(bodies + [body]) && Holds(longer, nextSeq, bodies + [body])
    {
      hide Framed, HeaderBytes;
      FramedAppend(bodies, body);
      longer := if inPacket == 0 then HeaderBytes(nextSeq) else packet;
      if inPacket == 0 { FramedNothing(HeaderBytes(nextSeq)); }
      ghost var before := longer;
      longer := longer + Prefix(|body|) + body;
      assert longer == HeaderBytes(nextSeq) + (Framed(bodies) + Prefix(|body|) + body);
    }

    lemma FramedNothing(h: Bytes)
      ensures h + Framed([]) == h
    {
    }

    /** Everything so far: full packets sent, the rest in hand, and the stream read up to there. */
    ghost predicate Progress(all: seq<Bytes>, base: nat, q: nat, bodies: seq<Bytes>, out: seq<Bytes>, packet: Bytes,
                             rest: Bytes)
      requires AllFramed(all) && most > 0
      reads `nextSeq
    {
      && q * most + |bodies| <= |all| && bodies == all[q * most..q * most + |bodies|] && |bodies| < most
      && AllFramed(bodies) && Holds(packet, nextSeq, bodies) && nextSeq == base + q * most
      && all[q * most + |bodies|..] == Read(rest, LengthPrefixed).dispatched
      && AllFit(Chunks(q * most, most), all) && out == AllBytes(session, base, all, Chunks(q * most, most))
    }

    lemma Starts(all: seq<Bytes>, framed: Bytes)
      requires all == Read(framed, LengthPrefixed).dispatched && AllFramed(all) && most > 0
      ensures Progress(all, nextSeq, 0, [], [], [], framed)
    {
      hide Read;
    }

    /** A message more: it goes into the packet, and a full packet goes out. */
    method Take(body: Bytes, packet: Bytes, inPacket: u16, out: seq<Bytes>, ghost all: seq<Bytes>, ghost base: nat,
                ghost q: nat, ghost bodies: seq<Bytes>, ghost rest: Bytes, ghost rest': Bytes)
      returns (packet': Bytes, inPacket': u16, out': seq<Bytes>, ghost q': nat, ghost bodies': seq<Bytes>)
      requires |session| == SESSION_LEN && most > 0 && AllFramed(all) && Framable(body) && inPacket == |bodies|
      requires Progress(all, base, q, bodies, out, packet, rest)
      requires Read(rest, LengthPrefixed).dispatched == [body] + Read(rest', LengthPrefixed).dispatched
      modifies this
      ensures inPacket' == |bodies'| && Progress(all, base, q', bodies', out', packet', rest')
    {
      hide Read, Framed, HeaderBytes, Chunks, Packet, AllBytes, Holds, AllFit;
      ghost var after, taken := q * most, q * most + |bodies|;
      assert all[taken] == body && all[taken + 1..] == Read(rest', LengthPrefixed).dispatched by {
        assert all[taken..][0] == body && all[taken..][1..] == all[taken + 1..];
      }
      assert all[after..taken + 1] == bodies + [body];
      packet' := AddTo(packet, inPacket, body, bodies);
      inPacket', out', q', bodies' := inPacket + 1, out, q, bodies + [body];
      if inPacket' == most {
        PiecesGrow(base, all, q, q * most, most);
        ToFlush(packet', bodies');
        out' := Flush(packet', inPacket', out, bodies');
        Next(q, most);
        packet', inPacket', q', bodies' := [], 0, q + 1, [];
        NothingHeld();
      }
    }

    lemma ToFlush(packet: Bytes, bodies: seq<Bytes>)
      requires AllFramed(bodies) && bodies != [] && Holds(packet, nextSeq, bodies)
      ensures packet == HeaderBytes(nextSeq) + Framed(bodies)
    {
    }

    lemma NothingHeld()
      ensures Holds([], nextSeq, [])
    {
    }

    /** What is left in hand goes out, then the end of the session. */
    method Finish(packet: Bytes, inPacket: u16, out: seq<Bytes>, ghost all: seq<Bytes>, ghost base: nat, ghost q: nat,
                  ghost bodies: seq<Bytes>, ghost rest: Bytes) returns (out': seq<Bytes>)
      requires |session| == SESSION_LEN && most > 0 && AllFramed(all) && inPacket == |bodies|
      requires Progress(all, base, q, bodies, out, packet, rest) && Read(rest, LengthPrefixed).dispatched == []
      modifies this
      ensures AllFit(Chunks(|all|, most), all) && nextSeq == base + |all|
      ensures out' == AllBytes(session, base, all, Chunks(|all|, most)) + [EndPacket(session, nextSeq)]
    {
      hide Read, Framed, HeaderBytes, Chunks, Packet, AllBytes, Holds, AllFit, EndPacket;
      out' := out;
      assert |all[q * most + |bodies|..]| == 0;
      if inPacket != 0 {
        PiecesGrow(base, all, q, q * most, inPacket);
        ToFlush(packet, bodies);
        out' := Flush(packet, inPacket, out', bodies);
      }
      EndIs(nextSeq);
      out' := out' + [HeaderBytes(nextSeq)[18 := 0xFF][19 := 0xFF]];
    }

    /** Splits a framed stream into packets of its messages, then says where the session ends. */
    method Packetize(framed: Bytes) returns (out: seq<Bytes>)
      requires |session| == SESSION_LEN && most > 0
      modifies this
      ensures var all := Read(framed, LengthPrefixed).dispatched;
              && AllFramed(all) && nextSeq == old(nextSeq) + |all| && AllFit(Chunks(|all|, most), all)
              && out == AllBytes(session, old(nextSeq), all, Chunks(|all|, most)) + [EndPacket(session, nextSeq)]
    {
      hide Read, Framed, HeaderBytes, Chunks, Packet, AllBytes, Holds, AllFit, NextFrame, Progress, EndPacket;
      ghost var all, base, bodies := Read(framed, LengthPrefixed).dispatched, nextSeq, [];
      ghost var q: nat := 0;
      ReadsMessages(framed);
      AllFramable(all);
      var rd := new Parsers.FrameReader(framed, LengthPrefixed);
      var m: Option<Bytes>, packet: Bytes, inPacket: u16, status := None, [], 0, Ok;
      out := [];
      Starts(all, framed);
      assert framed[0..] == framed;
      ghost var rest := framed;
      while true
        invariant fresh(rd) && rd.pos <= |framed| && rd.buf == framed && rd.framing == LengthPrefixed
        invariant inPacket == |bodies| && rest == framed[rd.pos..] && Progress(all, base, q, bodies, out, packet, rest)
        decreases |framed| - rd.pos
      {
        ReadUnfolds(rest, LengthPrefixed);
        ReadsMessages(rest);
        assert rest[NextFrame(rest, LengthPrefixed).size..] == framed[rd.pos + NextFrame(rest, LengthPrefixed).size..];
        status, m := rd.Next(m);
        if status != Ok && status != LengthMismatch && status != UnknownType { break; }
        ghost var before := rest;
        rest := framed[rd.pos..];
        if status != Ok {
          Skipped(all, base, q, bodies, out, packet, before, rest);
        } else {
          FirstFramable(Read(before, LengthPrefixed).dispatched, m.value);
          packet, inPacket, out, q, bodies := Take(m.value, packet, inPacket, out, all, base, q, bodies, before, rest);
        }
      }
      out := Finish(packet, inPacket, out, all, base, q, bodies, rest);
    }

    lemma Skipped(all: seq<Bytes>, base: nat, q: nat, bodies: seq<Bytes>, out: seq<Bytes>, packet: Bytes, rest: Bytes,
                  rest': Bytes)
      requires AllFramed(all) && most > 0 && Progress(all, base, q, bodies, out, packet, rest)
      requires Read(rest, LengthPrefixed).dispatched == Read(rest', LengthPrefixed).dispatched
      ensures Progress(all, base, q, bodies, out, packet, rest')
    {
      hide Read;
    }

    lemma FirstFramable(bodies: seq<Bytes>, b: Bytes)
      requires AllMessages(bodies) && bodies != [] && bodies[0] == b
      ensures Framable(b)
    {
      AllFramable(bodies);
    }

    lemma EndIs(s: nat)
      requires |session| == SESSION_LEN
      ensures |HeaderBytes(s)| == HEADER_LEN && HeaderBytes(s)[18 := 0xFF][19 := 0xFF] == EndPacket(session, s)
    {
      hide ToBigEndian;
    }
  }

  // ----- end to end -----

  /** Feeds packets to a receiver from its start. */
  method ReceiveAll(rx: MoldReceiver, packets: seq<Bytes>)
    requires rx.Valid() && rx.log == [] && rx.nextExpected == 1
    modifies rx
    ensures rx.Valid() && Reception(rx.log, rx.nextExpected) == Fed(packets, rx.filter)
  {
    hide Handle, Tiles, StaleMarked;
    var n := 0;
    assert packets[..0] == [];
    while n < |packets|
      invariant n <= |packets| && rx.Valid() && Reception(rx.log, rx.nextExpected) == Fed(packets[..n], rx.filter)
    {
      assert packets[..n + 1][..n] == packets[..n];
      var outcome := rx.Receive(packets[n]);
      n := n + 1;
    }
    assert packets[..n] == packets;
  }

  lemma PacketizedIsDelivered(session: Bytes, msgs: seq<Bytes>, most: nat, filter: Option<Bytes>)
    requires Accepts(filter, session) && AllFramed(msgs) && |msgs| < WORD - 1 && 0 < most < END_OF_SESSION
    ensures AllFit(Chunks(|msgs|, most), msgs)
    ensures Fed(AllBytes(session, 1, msgs, Chunks(|msgs|, most)) + [EndPacket(session, |msgs| + 1)], filter)
            == Reception(Clean(msgs, |msgs|), |msgs| + 1)
  {
    hide Chunks, Line, Clean, Fed, EndPacket;
    var pieces := Chunks(|msgs|, most);
    ChunksAreALine(|msgs|, most);
    OneLine(pieces, |msgs|);
    Arbitrates(session, msgs, pieces, filter);
    var packets, last := AllBytes(session, 1, msgs, pieces), EndPacket(session, |msgs| + 1);
    FedOneMore(packets, last, filter);
    EndSaysNothing(session, |msgs| + 1, filter, Fed(packets, filter).next, CountGaps(Fed(packets, filter).log) > 0);
    assert Clean(msgs, |msgs|) + [] == Clean(msgs, |msgs|);
  }

  lemma FedOneMore(packets: seq<Bytes>, p: Bytes, filter: Option<Bytes>)
    ensures var r := Fed(packets, filter);
            var e := Handle(p, filter, r.next, CountGaps(r.log) > 0);
            Fed(packets + [p], filter) == Reception(r.log + e.entries, Expecting(e.entries, r.next))
  {
    assert (packets + [p])[..|packets|] == packets;
  }

  lemma EndSaysNothing(session: Bytes, s: nat, filter: Option<Bytes>, next: u64, stale: bool)
    requires Accepts(filter, session) && s < WORD
    ensures Handle(EndPacket(session, s), filter, next, stale) == Effect(EndOfSession, [])
  {
    hide BigEndian, Blocks, ToBigEndian, Deliver;
    PacketFields(session, s, [255, 255], []);
    assert EndPacket(session, s) == session + ToBigEndian(s, 8) + [255, 255] + [];
  }

  lemma {:induction false} OneLine(pieces: seq<Piece>, n: nat)
    requires Line(pieces, n)
    ensures NoJump(pieces) && Reached(pieces) == n
  {
    hide NoJump;
    if pieces == [] {
      NoJumpYet();
    } else {
      var front, last := pieces[..|pieces| - 1], pieces[|pieces| - 1];
      OneLine(front, last.after);
      OneMoreInOrder(pieces);
    }
  }

  /** From a framed stream through packets to the handler: with packets of fewer than 0xFFFF messages, every message of
      the stream arrives once, in order, none stale, whatever else the stream held. */
  method Transmit(framed: Bytes, name: Bytes, most: u16) returns (rx: MoldReceiver)
    ensures var all := Read(framed, LengthPrefixed).dispatched;
            most < END_OF_SESSION && |all| < WORD - 1 ==> rx.log == Clean(all, |all|) && !rx.stats.stale
  {
    hide Read, Clean, Chunks, AllBytes, Fed, EndPacket, AllFit;
    var line := new MoldPacketizer(name, most);
    ghost var all := Read(framed, LengthPrefixed).dispatched;
    var packets := line.Packetize(framed);
    rx := new MoldReceiver(Some(line.session));
    ReceiveAll(rx, packets);
    if most < END_OF_SESSION && |all| < WORD - 1 {
      PacketizedIsDelivered(line.session, all, line.most, rx.filter);
      CleanHasNoGaps(all, |all|);
    }
  }
}
