/** The receiving side of MoldUDP64: sequencing, gap detection and line arbitration. */
module MoldReceivers {
  import opened BookTypes
  import opened Wire

  const SESSION_LEN := 10
  const HEADER_LEN := 20
  const END_OF_SESSION: u16 := 0xFFFF
  const WORD := 0x1_0000_0000_0000_0000

  datatype Outcome = InOrder | Duplicate | GapSeen | Heartbeat | EndOfSession | Malformed | WrongSession

  /** What the handler is told, in order. */
  datatype Entry = Message(seq_: u64, body: Bytes, stale: bool) | Gap(from: u64, to: u64)

  datatype MoldStats = MoldStats(packets: nat, delivered: nat, duplicates: nat, heartbeats: nat, malformed: nat,
                                 wrongSession: nat, gaps: nat, messagesLost: nat, messagesDelivered: nat,
                                 sawEnd: bool, stale: bool)

  const NO_STATS := MoldStats(0, 0, 0, 0, 0, 0, 0, 0, 0, false, false)

  /** Unsigned addition wraps. */
  function Add64(a: u64, b: u16): u64 { if a + b < WORD then a + b else a + b - WORD }

  function Sequence(p: Bytes): (s: nat)
    requires |p| >= HEADER_LEN
  {
    BigEndian(p[10..18])
  }

  function MessageCount(p: Bytes): u16
    requires |p| >= HEADER_LEN
  {
    Be16(p[18], p[19])
  }

  lemma SequenceFits(p: Bytes)
    requires |p| >= HEADER_LEN
    ensures Sequence(p) < WORD
  {
    BigEndianFits(p[10..18]);
    EightBytes();
  }

  /** The blocks of a packet, unless one overruns it: then no boundary can be trusted. */
  function Blocks(rest: Bytes, count: nat): Option<seq<Bytes>> {
    if count == 0 then Some([])
    else if |rest| < 2 then None
    else
      var len: nat := Be16(rest[0], rest[1]);
      if 2 + len > |rest| then None
      else
        var more := Blocks(rest[2 + len..], count - 1);
        if more.None? then None else Some([rest[2..2 + len]] + more.value)
  }

  /** The messages at or beyond the expected number, in order. */
  function Deliver(blocks: seq<Bytes>, s: u64, next: u64, stale: bool): seq<Entry> {
    if blocks == [] then []
    else if s < next then Deliver(blocks[1..], Add64(s, 1), next, stale)
    else [Message(s, blocks[0], stale)] + Deliver(blocks[1..], Add64(s, 1), Add64(s, 1), stale)
  }

  /** The number expected after some messages have been handed on. */
  function Expecting(entries: seq<Entry>, next: u64): u64 {
    if entries == [] then next
    else match entries[|entries| - 1]
         case Message(s, _, _) => Add64(s, 1)
         case Gap(_, to) => to
  }

  datatype Effect = Effect(outcome: Outcome, entries: seq<Entry>)

  function GapTo(s: u64, next: u64): seq<Entry> { if s > next then [Gap(next, s)] else [] }

  /** What one packet does. */
  function Handle(p: Bytes, filter: Option<Bytes>, next: u64, stale: bool): Effect {
    if |p| < HEADER_LEN then Effect(Malformed, [])
    else if filter.Some? && p[..SESSION_LEN] != filter.value then Effect(WrongSession, [])
    else
      SequenceFits(p);
      var s: u64, count := Sequence(p), MessageCount(p);
      if count == END_OF_SESSION then Effect(EndOfSession, [])
      else if count == 0 then Effect(Heartbeat, GapTo(s, next))
      else if Add64(s, count) <= next then Effect(Duplicate, [])
      else
        var blocks := Blocks(p[HEADER_LEN..], count);
        if blocks.None? then Effect(Malformed, GapTo(s, next))
        else Effect(if s > next then GapSeen else InOrder,
                    GapTo(s, next) + Deliver(blocks.value, s, if s > next then s else next, stale || s > next))
  }

  // ----- what the log of a run looks like -----

  function Low(e: Entry): u64 { if e.Message? then e.seq_ else e.from }

  function High(e: Entry): nat { if e.Message? then e.seq_ + 1 else e.to }

  /** The entries cover the numbers from 1 up to `next` without overlap or omission, in order. */
  ghost predicate Tiles(log: seq<Entry>, next: nat) {
    if log == [] then next == 1
    else
      var last := log[|log| - 1];
      High(last) == next && Low(last) < High(last) && Tiles(log[..|log| - 1], Low(last))
  }

  function CountGaps(log: seq<Entry>): nat {
    if log == [] then 0 else CountGaps(log[..|log| - 1]) + if log[|log| - 1].Gap? then 1 else 0
  }

  function CountMessages(log: seq<Entry>): nat {
    if log == [] then 0 else CountMessages(log[..|log| - 1]) + if log[|log| - 1].Message? then 1 else 0
  }

  function Lost(log: seq<Entry>): int {
    if log == [] then 0 else
      Lost(log[..|log| - 1]) + if log[|log| - 1].Gap? then log[|log| - 1].to - log[|log| - 1].from else 0
  }

  /** A message is marked stale exactly when a gap was recorded before it. */
  ghost predicate StaleMarked(log: seq<Entry>) {
    forall i :: 0 <= i < |log| && log[i].Message? ==> (log[i].stale <==> CountGaps(log[..i]) > 0)
  }

  lemma {:induction false} GapsCounted(log: seq<Entry>)
    ensures CountGaps(log) > 0 <==> exists j :: 0 <= j < |log| && log[j].Gap?
  {
    if log != [] {
      var n := |log| - 1;
      GapsCounted(log[..n]);
      assert forall j :: 0 <= j < n ==> log[..n][j] == log[j];
      assert log[n].Gap? ==> CountGaps(log) > 0;
    }
  }

  lemma {:induction false} TilesCount(log: seq<Entry>, next: nat)
    requires Tiles(log, next)
    ensures next >= 1 && CountMessages(log) + Lost(log) + 1 == next
  {
    if log != [] { TilesCount(log[..|log| - 1], Low(log[|log| - 1])); }
  }

  /** Entries follow one another: an earlier one ends where or before a later one begins. */
  lemma {:induction false} TilesInOrder(log: seq<Entry>, next: nat, i: nat, j: nat)
    requires Tiles(log, next) && i < j < |log|
    ensures High(log[i]) <= Low(log[j]) && Low(log[i]) < High(log[i]) && Low(log[j]) < High(log[j]) <= next
    decreases |log|
  {
    var front, last := log[..|log| - 1], log[|log| - 1];
    TilesBounds(front, Low(last), i);
    if j < |log| - 1 { TilesInOrder(front, Low(last), i, j); }
  }

  lemma {:induction false} TilesBounds(log: seq<Entry>, next: nat, i: nat)
    requires Tiles(log, next) && i < |log|
    ensures 1 <= Low(log[i]) < High(log[i]) <= next
    decreases |log|
  {
    var front, last := log[..|log| - 1], log[|log| - 1];
    TilesCount(front, Low(last));
    if i < |log| - 1 { TilesBounds(front, Low(last), i); }
  }

  predicate Covers(e: Entry, s: nat) { Low(e) <= s < High(e) }

  /** Exactly one entry covers a number. */
  ghost predicate CoveredOnce(log: seq<Entry>, s: nat) {
    exists i :: 0 <= i < |log| && Covers(log[i], s) && forall j :: 0 <= j < |log| && Covers(log[j], s) ==> j == i
  }

  /** Each number below `next` is in exactly one entry. */
  lemma {:induction false} TilesCover(log: seq<Entry>, next: nat, s: nat) returns (i: nat)
    requires Tiles(log, next) && 1 <= s < next
    ensures i < |log| && Covers(log[i], s)
    ensures forall j :: 0 <= j < |log| && Covers(log[j], s) ==> j == i
    decreases |log|
  {
    var n := |log| - 1;
    if Low(log[n]) <= s {
      i := n;
    } else {
      i := TilesCover(log[..n], Low(log[n]), s);
    }
    forall j | 0 <= j < |log| && Covers(log[j], s) ensures j == i {
      if j < i { TilesInOrder(log, next, j, i); }
      if i < j { TilesInOrder(log, next, i, j); }
    }
  }

  // ----- one packet keeps it so -----

  /** The packet is handed on and its numbers wrap: they run past the largest number and, from zero, past the next one
      expected. */
  predicate Overruns(p: Bytes, filter: Option<Bytes>, next: nat) {
    && |p| >= HEADER_LEN && (filter.Some? ==> p[..SESSION_LEN] == filter.value)
    && 0 < MessageCount(p) < END_OF_SESSION && Sequence(p) + MessageCount(p) >= WORD + next + 1
    && Blocks(p[HEADER_LEN..], MessageCount(p)).Some?
  }

  /** Some entry is numbered zero, which no number is. */
  ghost predicate HasZero(log: seq<Entry>) { exists i :: 0 <= i < |log| && Low(log[i]) == 0 }

  lemma ZeroIsNoTile(log: seq<Entry>, next: nat)
    requires HasZero(log)
    ensures !Tiles(log, next)
  {
    if Tiles(log, next) {
      var i :| 0 <= i < |log| && Low(log[i]) == 0;
      TilesBounds(log, next, i);
    }
  }

  /** Once handed on, messages that run past the largest number include one numbered zero. */
  lemma {:induction false} DeliverReachesZero(blocks: seq<Bytes>, s: u64, next: u64, stale: bool)
    requires next <= s && s + |blocks| > WORD
    ensures HasZero(Deliver(blocks, s, next, stale))
    decreases |blocks|
  {
    var t: u64 := Add64(s, 1);
    var e, more := Message(s, blocks[0], stale), Deliver(blocks[1..], t, t, stale);
    if s == WORD - 1 {
      assert more[0] == Message(0, blocks[1], stale);
      assert ([e] + more)[1] == more[0];
    } else {
      DeliverReachesZero(blocks[1..], t, t, stale);
      ZeroBehind([e], more);
    }
  }

  lemma ZeroBehind(front: seq<Entry>, log: seq<Entry>)
    ensures HasZero(log) ==> HasZero(front + log)
    ensures HasZero(front) ==> HasZero(front + log)
  {
    if HasZero(log) {
      var i :| 0 <= i < |log| && Low(log[i]) == 0;
      assert (front + log)[|front| + i] == log[i];
    }
    if HasZero(front) {
      var i :| 0 <= i < |front| && Low(front[i]) == 0;
      assert (front + log)[i] == front[i];
    }
  }

  lemma OverrunHasZero(log: seq<Entry>, p: Bytes, filter: Option<Bytes>, next: u64, stale: bool)
    requires Overruns(p, filter, next)
    ensures HasZero(log + Handle(p, filter, next, stale).entries)
  {
    hide Deliver, Blocks, BigEndian, HasZero;
    SequenceFits(p);
    var s: u64, count := Sequence(p), MessageCount(p);
    BlocksCount(p[HEADER_LEN..], count);
    var blocks := Blocks(p[HEADER_LEN..], count).value;
    DeliverReachesZero(blocks, s, s, stale || s > next);
    ZeroBehind(GapTo(s, next), Deliver(blocks, s, s, stale || s > next));
    ZeroBehind(log, Handle(p, filter, next, stale).entries);
  }

  /** The accounting survives a packet exactly when that does not happen. */
  lemma AccountedExactly(log: seq<Entry>, p: Bytes, filter: Option<Bytes>, next: u64, stale: bool)
    requires Tiles(log, next)
    ensures var entries := Handle(p, filter, next, stale).entries;
            Tiles(log + entries, Expecting(entries, next)) <==> !Overruns(p, filter, next)
  {
    hide Tiles, Handle, Overruns, Expecting, HasZero;
    var entries := Handle(p, filter, next, stale).entries;
    if Overruns(p, filter, next) {
      OverrunHasZero(log, p, filter, next, stale);
      ZeroIsNoTile(log + entries, Expecting(entries, next));
    } else {
      HandleTiles(log, p, filter, next, stale);
    }
  }

  lemma TilesOneMore(log: seq<Entry>, next: nat, e: Entry)
    requires Tiles(log, next) && Low(e) == next && next < High(e)
    ensures Tiles(log + [e], High(e))
  {
    assert (log + [e])[..|log|] == log;
  }

  lemma {:induction false} DeliverTiles(log: seq<Entry>, blocks: seq<Bytes>, s: u64, next: u64, stale: bool)
    requires Tiles(log, next) && s + |blocks| < WORD && s <= next
    ensures var entries := Deliver(blocks, s, next, stale);
            && Tiles(log + entries, Expecting(entries, next))
            && Expecting(entries, next) == (if s + |blocks| <= next then next else s + |blocks|)
    decreases |blocks|
  {
    hide Tiles, Expecting;
    NothingExpected(next);
    if blocks == [] {
      assert log + [] == log;
    } else if s < next {
      DeliverTiles(log, blocks[1..], s + 1, next, stale);
    } else {
      var e, more := Message(s, blocks[0], stale), Deliver(blocks[1..], s + 1, s + 1, stale);
      TilesOneMore(log, next, e);
      DeliverTiles(log + [e], blocks[1..], s + 1, s + 1, stale);
      assert (log + [e]) + more == log + ([e] + more);
      ExpectingMore(e, more, next);
    }
  }

  lemma NothingExpected(next: u64)
    ensures Expecting([], next) == next
    ensures forall s: u64, body, stale :: Expecting([Message(s, body, stale)], next) == Add64(s, 1)
  {
  }

  lemma ExpectingMore(e: Entry, more: seq<Entry>, next: u64)
    ensures Expecting([e] + more, next) == Expecting(more, Expecting([e], next))
  {
    if more != [] { assert ([e] + more)[|more|] == more[|more| - 1]; }
  }

  lemma {:induction false} BlocksCount(rest: Bytes, count: nat)
    ensures Blocks(rest, count).Some? ==> |Blocks(rest, count).value| == count
  {
    if count > 0 && |rest| >= 2 && 2 + Be16(rest[0], rest[1]) <= |rest| {
      BlocksCount(rest[2 + Be16(rest[0], rest[1])..], count - 1);
    }
  }

  /** One packet extends the log by whole entries, in order, and the next number expected follows them. */
  lemma HandleTiles(log: seq<Entry>, p: Bytes, filter: Option<Bytes>, next: u64, stale: bool)
    requires Tiles(log, next) && !Overruns(p, filter, next)
    ensures var entries := Handle(p, filter, next, stale).entries; Tiles(log + entries, Expecting(entries, next))
  {
    hide Tiles, Deliver, Blocks, BigEndian;
    assert log + [] == log;
    if |p| >= HEADER_LEN {
      SequenceFits(p);
      var s: u64, count := Sequence(p), MessageCount(p);
      var gap := GapTo(s, next);
      if s > next { TilesOneMore(log, next, Gap(next, s)); }
      BlocksCount(p[HEADER_LEN..], count);
      if Blocks(p[HEADER_LEN..], count).Some? && s + count < WORD {
        var blocks, from: u64 := Blocks(p[HEADER_LEN..], count).value, if s > next then s else next;
        DeliverTiles(log + gap, blocks, s, from, stale || s > next);
        var entries := Deliver(blocks, s, from, stale || s > next);
        assert (log + gap) + entries == log + (gap + entries);
        if s > next { ExpectingMore(Gap(next, s), entries, next); }
        assert [] + entries == entries;
      }
    }
  }

  function Prepend(done: seq<Bytes>, more: Option<seq<Bytes>>): Option<seq<Bytes>> {
    if more.None? then None else Some(done + more.value)
  }

  lemma BlocksOnce(done: seq<Bytes>, rest: Bytes, count: nat)
    requires count > 0
    ensures Prepend(done, Blocks(rest, count)) ==
              if |rest| < 2 || 2 + Be16(rest[0], rest[1]) as int > |rest| then None
              else var len: nat := Be16(rest[0], rest[1]);
                   Prepend(done + [rest[2..2 + len]], Blocks(rest[2 + len..], count - 1))
  {
    if |rest| >= 2 && 2 + Be16(rest[0], rest[1]) as int <= |rest| {
      var len: nat := Be16(rest[0], rest[1]);
      var more := Blocks(rest[2 + len..], count - 1);
      if more.Some? { assert done + ([rest[2..2 + len]] + more.value) == (done + [rest[2..2 + len]]) + more.value; }
    }
  }

  lemma DeliverOnce(done: seq<Entry>, blocks: seq<Bytes>, i: nat, s: u64, next: u64, stale: bool)
    requires i < |blocks|
    ensures done + Deliver(blocks[i..], s, next, stale) ==
              if s < next then done + Deliver(blocks[i + 1..], Add64(s, 1), next, stale)
              else done + [Message(s, blocks[i], stale)] + Deliver(blocks[i + 1..], Add64(s, 1), Add64(s, 1), stale)
  {
    assert blocks[i..][1..] == blocks[i + 1..];
    if s >= next {
      var more := Deliver(blocks[i + 1..], Add64(s, 1), Add64(s, 1), stale);
      assert done + ([Message(s, blocks[i], stale)] + more) == done + [Message(s, blocks[i], stale)] + more;
    }
  }

  lemma LogGrows(log: seq<Entry>, e: Entry)
    ensures var longer := log + [e];
            && CountGaps(longer) == CountGaps(log) + (if e.Gap? then 1 else 0)
            && CountMessages(longer) == CountMessages(log) + (if e.Message? then 1 else 0)
            && Lost(longer) == Lost(log) + (if e.Gap? then e.to - e.from else 0)
            && (StaleMarked(log) && (e.Message? ==> (e.stale <==> CountGaps(log) > 0)) ==> StaleMarked(longer))
  {
    var longer := log + [e];
    assert longer[..|log|] == log;
    if StaleMarked(log) {
      forall i | 0 <= i < |log| && longer[i].Message? ensures longer[i].stale <==> CountGaps(longer[..i]) > 0 {
        assert longer[..i] == log[..i] && longer[i] == log[i];
      }
    }
  }

  // ----- the counters of packets -----

  /** One packet more, counted by what became of it. */
  ghost predicate CountsOne(was: MoldStats, now: MoldStats, o: Outcome) {
    && now.packets == was.packets + 1 && now.delivered == was.delivered + One(o == InOrder || o == GapSeen)
    && now.duplicates == was.duplicates + One(o == Duplicate) && now.heartbeats == was.heartbeats + One(o == Heartbeat)
    && now.malformed == was.malformed + One(o == Malformed)
    && now.wrongSession == was.wrongSession + One(o == WrongSession)
    && (now.sawEnd <==> was.sawEnd || o == EndOfSession)
  }

  /** The counters say how many packets have come to each end. */
  ghost predicate Tallied(stats: MoldStats, outcomes: seq<Outcome>) {
    var times := multiset(outcomes);
    && stats.packets == |outcomes| && stats.delivered == times[InOrder] + times[GapSeen]
    && stats.duplicates == times[Duplicate] && stats.heartbeats == times[Heartbeat]
    && stats.malformed == times[Malformed] && stats.wrongSession == times[WrongSession]
    && (stats.sawEnd <==> EndOfSession in outcomes)
  }

  lemma TalliedOnce(was: MoldStats, now: MoldStats, outcomes: seq<Outcome>, o: Outcome)
    requires Tallied(was, outcomes) && CountsOne(was, now, o)
    ensures Tallied(now, outcomes + [o])
  {
    assert multiset(outcomes + [o]) == multiset(outcomes) + multiset{o};
  }

  class MoldReceiver {
    const filter: Option<Bytes>
    var nextExpected: u64
    var stats: MoldStats
    /** The calls made to the handler. */
    var log: seq<Entry>
    /** No packet so far has run past the largest number. */
    ghost var sound: bool
    /** What has become of every packet so far. */
    ghost var outcomes: seq<Outcome>

    ghost predicate Valid()
      reads this
    {
      && StatsOk() && Tallied(stats, outcomes) && (sound ==> Tiles(log, nextExpected)) && (!sound ==> HasZero(log))
    }

    /** The counters are what the handler was told, and the stale flag is on once there has been a gap. */
    ghost predicate StatsOk()
      reads `stats, `log
    {
      && stats.messagesDelivered == CountMessages(log) && stats.messagesLost == Lost(log)
        && stats.gaps == CountGaps(log)
      && (stats.stale <==> CountGaps(log) > 0) && StaleMarked(log)
    }

    constructor (filter: Option<Bytes>)
      ensures Valid() && sound && log == [] && nextExpected == 1 && stats == NO_STATS && this.filter == filter
      ensures outcomes == []
    {
      this.filter := filter;
      nextExpected, stats, log, sound, outcomes := 1, NO_STATS, [], true, [];
    }

    method NoteGap(s: u64)
      requires StatsOk() && s > nextExpected
      modifies `nextExpected, `stats, `log
      ensures StatsOk() && nextExpected == s && log == old(log) + [Gap(old(nextExpected), s)]
      ensures stats == old(stats).(gaps := old(stats).gaps + 1, stale := true,
                                   messagesLost := old(stats).messagesLost + (s - old(nextExpected)))
    {
      LogGrows(log, Gap(nextExpected, s));
      stats := stats.(gaps := stats.gaps + 1, messagesLost := stats.messagesLost + (s - nextExpected), stale := true);
      log := log + [Gap(nextExpected, s)];
      nextExpected := s;
    }

    /** Reads a packet's blocks. */
    method ReadBlocks(p: Bytes, count: u16) returns (blocks: Option<seq<Bytes>>)
      requires |p| >= HEADER_LEN
      ensures blocks == Blocks(p[HEADER_LEN..], count)
    {
      hide Blocks;
      var pos, i, done := HEADER_LEN, 0, [];
      Unprepended(Blocks(p[HEADER_LEN..], count));
      while i < count
        invariant i <= count && HEADER_LEN <= pos <= |p|
        invariant Blocks(p[HEADER_LEN..], count) == Prepend(done, Blocks(p[pos..], count - i))
      {
        BlocksOnce(done, p[pos..], count - i);
        if pos + 2 > |p| { return None; }
        var len: nat := Be16(p[pos], p[pos + 1]);
        if pos + 2 + len > |p| { return None; }
        SliceOf(p, pos, len);
        done := done + [p[pos + 2..pos + 2 + len]];
        pos, i := pos + 2 + len, i + 1;
      }
      NoBlocks(p[pos..], done);
      blocks := Some(done);
    }

    lemma Unprepended(b: Option<seq<Bytes>>)
      ensures Prepend([], b) == b
    {
      if b.Some? { assert [] + b.value == b.value; }
    }

    lemma NoBlocks(rest: Bytes, done: seq<Bytes>)
      ensures Prepend(done, Blocks(rest, 0)) == Some(done)
    {
      assert done + [] == done;
    }

    lemma SliceOf(p: Bytes, pos: nat, len: nat)
      requires pos + 2 + len <= |p|
      ensures p[pos..][2..2 + len] == p[pos + 2..pos + 2 + len] && p[pos..][2 + len..] == p[pos + 2 + len..]
    {
    }

    /** Hands on the messages at or beyond the expected number. */
    method DeliverBlocks(blocks: seq<Bytes>, s: u64)
      requires StatsOk() && |blocks| < 0x1_0000
      modifies `nextExpected, `stats, `log
      ensures var entries := Deliver(blocks, s, old(nextExpected), old(stats).stale);
              StatsOk() && log == old(log) + entries && nextExpected == Expecting(entries, old(nextExpected))
      ensures stats == old(stats).(messagesDelivered := stats.messagesDelivered)
    {
      hide Deliver, StaleMarked, CountGaps, CountMessages, Lost, Expecting;
      ExpectingLast([], Gap(0, 0), nextExpected);
      var i, number: u64 := 0, s;
      assert blocks[0..] == blocks;
      ghost var done: seq<Entry> := [];
      ghost var all := Deliver(blocks, s, nextExpected, stats.stale);
      assert [] + all == all && log + [] == log;
      while i < |blocks|
        invariant i <= |blocks| && StatsOk() && stats == old(stats).(messagesDelivered := stats.messagesDelivered)
        invariant log == old(log) + done && nextExpected == Expecting(done, old(nextExpected))
        invariant all == done + Deliver(blocks[i..], number, nextExpected, stats.stale)
      {
        DeliverOnce(done, blocks, i, number, nextExpected, stats.stale);
        if number >= nextExpected {
          LogGrows(log, Message(number, blocks[i], stats.stale));
          ExpectingLast(done, Message(number, blocks[i], stats.stale), old(nextExpected));
          assert old(log) + (done + [Message(number, blocks[i], stats.stale)]) ==
                   log + [Message(number, blocks[i], stats.stale)];
          done := done + [Message(number, blocks[i], stats.stale)];
          log := log + [Message(number, blocks[i], stats.stale)];
          stats := stats.(messagesDelivered := stats.messagesDelivered + 1);
          nextExpected := Add64(number, 1);
        }
        number, i := Add64(number, 1), i + 1;
      }
      NothingToDeliver(done, blocks[i..], number, nextExpected, stats.stale);
    }

    lemma ExpectingLast(done: seq<Entry>, e: Entry, next: u64)
      ensures Expecting([], next) == next
      ensures Expecting(done + [e], next) == if e.Message? then Add64(e.seq_, 1) else e.to
    {
    }

    lemma NothingToDeliver(done: seq<Entry>, blocks: seq<Bytes>, s: u64, next: u64, stale: bool)
      requires blocks == []
      ensures done + Deliver(blocks, s, next, stale) == done
    {
    }

    /** One packet, from either line. */
    method Receive(p: Bytes) returns (outcome: Outcome)
      requires Valid()
      modifies this
      ensures Valid() && sound == (old(sound) && !Overruns(p, filter, old(nextExpected)))
      ensures var e := Handle(p, filter, old(nextExpected), old(stats).stale);
              outcome == e.outcome && log == old(log) + e.entries
                && nextExpected == Expecting(e.entries, old(nextExpected))
      ensures outcomes == old(outcomes) + [outcome]
    {
      hide Handle, CountsOne, Tallied, StatsOk, Tiles, Overruns, HasZero, Expecting;
      ghost var overruns, entries := Overruns(p, filter, nextExpected),
          Handle(p, filter, nextExpected, stats.stale).entries;
      if overruns { OverrunHasZero(log, p, filter, nextExpected, stats.stale); }
      if !sound { ZeroBehind(log, entries); }
      if sound && !overruns { HandleTiles(log, p, filter, nextExpected, stats.stale); }
      sound := sound && !overruns;
      ghost var was := stats;
      outcome := Take(p);
      TalliedOnce(was, stats, outcomes, outcome);
      outcomes := outcomes + [outcome];
    }

    method Take(p: Bytes) returns (outcome: Outcome)
      requires StatsOk()
      modifies `nextExpected, `stats, `log
      ensures StatsOk()
      ensures var e := Handle(p, filter, old(nextExpected), old(stats).stale);
              outcome == e.outcome && log == old(log) + e.entries
                && nextExpected == Expecting(e.entries, old(nextExpected))
      ensures CountsOne(old(stats), stats, outcome)
    {
      hide Blocks, Deliver, BigEndian, StaleMarked, Tiles, CountGaps, CountMessages, Lost;
      assert log + [] == log;
      stats := stats.(packets := stats.packets + 1);
      if |p| < HEADER_LEN {
        stats := stats.(malformed := stats.malformed + 1);
        return Malformed;
      }
      if filter.Some? && p[..SESSION_LEN] != filter.value {
        stats := stats.(wrongSession := stats.wrongSession + 1);
        return WrongSession;
      }
      SequenceFits(p);
      var s: u64, count := BigEndian(p[10..18]), Be16(p[18], p[19]);
      if count == END_OF_SESSION {
        stats := stats.(sawEnd := true);
        return EndOfSession;
      }
      if count == 0 {
        stats := stats.(heartbeats := stats.heartbeats + 1);
        if s > nextExpected { NoteGap(s); }
        return Heartbeat;
      }
      if Add64(s, count) <= nextExpected {
        stats := stats.(duplicates := stats.duplicates + 1);
        return Duplicate;
      }
      outcome := ReceiveData(p, s, count);
    }

    /** A data packet that is not yet delivered in full. */
    method ReceiveData(p: Bytes, s: u64, count: u16) returns (outcome: Outcome)
      requires StatsOk() && |p| >= HEADER_LEN
      modifies `nextExpected, `stats, `log
      ensures StatsOk()
      ensures var next, blocks := old(nextExpected), Blocks(p[HEADER_LEN..], count);
              var from: u64 := if s > next then s else next;
              var entries := if blocks.None? then GapTo(s, next)
                             else GapTo(s, next) + Deliver(blocks.value, s, from, old(stats).stale || s > next);
              && outcome == (if blocks.None? then Malformed else if s > next then GapSeen else InOrder)
              && log == old(log) + entries && nextExpected == Expecting(entries, next)
      ensures CountsOne(old(stats), stats.(packets := stats.packets + 1), outcome)
    {
      hide Blocks, Deliver, BigEndian, StaleMarked, Tiles;
      ghost var before := nextExpected;
      assert log + [] == log;
      outcome := InOrder;
      if s > nextExpected {
        NoteGap(s);
        outcome := GapSeen;
      }
      var blocks := ReadBlocks(p, count);
      if blocks.None? {
        stats := stats.(malformed := stats.malformed + 1);
        return Malformed;
      }
      BlocksCount(p[HEADER_LEN..], count);
      ghost var entries := Deliver(blocks.value, s, nextExpected, stats.stale);
      DeliverBlocks(blocks.value, s);
      JoinLogs(old(log), before, s, entries);
      stats := stats.(delivered := stats.delivered + 1);
    }

    lemma JoinLogs(log: seq<Entry>, next: u64, s: u64, entries: seq<Entry>)
      ensures (log + GapTo(s, next)) + entries == log + (GapTo(s, next) + entries)
      ensures Expecting(GapTo(s, next) + entries, next) == Expecting(entries, if s > next then s else next)
    {
      if s > next { ExpectingMore(Gap(next, s), entries, next); } else { assert [] + entries == entries; }
    }

    /** The receiver's log accounts for every number exactly as long as no packet has run past the largest one. */
    lemma SoundExactly()
      requires Valid()
      ensures sound <==> Tiles(log, nextExpected)
    {
      if !sound { ZeroIsNoTile(log, nextExpected); }
    }

    /** However packets are lost, duplicated, reordered or cut short, every number below the next one expected was
        either handed on or recorded lost, once; the counters agree; and a message is marked stale exactly after a
        gap. */
    lemma NumbersAreAccountedFor()
      requires Valid() && sound
      ensures stats.messagesDelivered + stats.messagesLost + 1 == nextExpected
      ensures forall i, j :: 0 <= i < j < |log| ==> High(log[i]) <= Low(log[j])
      ensures forall s: nat :: 1 <= s < nextExpected ==> CoveredOnce(log, s)
      ensures forall i :: 0 <= i < |log| && log[i].Message? ==>
                (log[i].stale <==> exists j :: 0 <= j < i && log[j].Gap?)
    {
      forall i | 0 <= i < |log| && log[i].Message? ensures log[i].stale <==> exists j :: 0 <= j < i && log[j].Gap? {
        GapsCounted(log[..i]);
        assert forall j :: 0 <= j < i ==> log[..i][j] == log[j];
      }
      TilesCount(log, nextExpected);
      forall i, j | 0 <= i < j < |log| ensures High(log[i]) <= Low(log[j]) { TilesInOrder(log, nextExpected, i, j); }
      forall s: nat | 1 <= s < nextExpected ensures CoveredOnce(log, s) { var i := TilesCover(log, nextExpected, s); }
    }
  }
}
