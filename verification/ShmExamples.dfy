/** Runs whose waits all end well and that still do not do what one might expect: an event decoded twice,
    totals that are too high or too low, and a file that is not in the order of its timestamps. */
module ShmExamples {
  import opened Words
  import opened ShmBuffer
  import opened ShmRuns
  import opened ShmDelivery
  import opened ShmScenarios
  import opened ShmOrder
  import opened Framing

  // ---------- a node between flushes ----------

  /** Nobody is at work in a block: calls are over, or only have to be counted. */
  predicate Restful(probes: seq<Probe>) {
    forall i :: 0 <= i < |probes| ==> probes[i].Idle? || probes[i].Counting?
  }

  /** The worker rests, and the probes see block 0; the other one is empty. */
  ghost predicate Still(s: State) {
    && Attained(s, Calm) && Shape(s) && s.worker.Resting? && FlipSeen(s) && s.clean
    && Restful(s.probes) && s.word.idx == 0
    && s.blocks[0].writers == 0 && s.blocks[1].writers == 0 && Empty(s.blocks[1])
  }

  /** A node with one probe and no call under way, at time 0, with block 0 holding these records and bytes. */
  ghost predicate Node(s: State, data: seq<byte>, records: seq<seq<byte>>, chunks: seq<Chunk>, stamped: seq<seq<byte>>) {
    && Still(s) && AllIdle(s.probes) && |s.probes| == 1 && s.clock == 0
    && s.blocks[0].offset == |Concat(records)| && s.blocks[0].data == data && Records(s.blocks[0].slots) == records
    && s.chunks == chunks && s.stamped == stamped && s.recorded == |stamped|
  }

  /** What a chunk shows of a block that was flushed. */
  predicate Shows(c: Chunk, bytes: seq<byte>, records: seq<seq<byte>>, overflow: bool, recorded: nat) {
    c.bytes == bytes && c.records == records && c.overflow == overflow && c.recorded == recorded
  }

  lemma StillSwapped(s: State) returns (t: State, c: Chunk)
    requires Still(s) && s.blocks[0].offset > 0
    ensures t == Swapped(s) && Attained(t, Calm) && Shape(t) && t.chunks == s.chunks + [c]
    ensures Shows(c, s.blocks[0].data[..FlushLen(s.blocks[0])], Records(s.blocks[0].slots), s.blocks[0].offset > CAPACITY, s.recorded)
  {
    assert Quiet(s.probes, 0);
    AttainSwapped(s, true, Calm);
    hide Attained, Tally, StampedRecords;
    t, c := Swapped(s), FlushedChunk(s, 0, FlushLen(s.blocks[0]));
  }

  /** Two flushes: the block is empty again, its bytes are still there. */
  lemma StillSwappedTwice(s: State) returns (t: State, c: Chunk)
    requires Still(s) && s.blocks[0].offset > 0
    ensures Still(t) && t.chunks == s.chunks + [c]
    ensures Shows(c, s.blocks[0].data[..FlushLen(s.blocks[0])], Records(s.blocks[0].slots), s.blocks[0].offset > CAPACITY, s.recorded)
    ensures Empty(t.blocks[0]) && t.blocks[0].data == s.blocks[0].data
    ensures t.probes == s.probes && t.clock == s.clock && t.stamped == s.stamped && t.recorded == s.recorded
  {
    var u: State;
    u, c := StillSwapped(s);
    assert Quiet(u.probes, 1);
    AttainSwapped(u, true, Calm);
    hide Attained, Tally, StampedRecords;
    t := Swapped(u);
  }

  lemma NodeSwapsTwice(s: State, data: seq<byte>, records: seq<seq<byte>>, chunks: seq<Chunk>, stamped: seq<seq<byte>>)
      returns (t: State, c: Chunk)
    requires Node(s, data, records, chunks, stamped) && 0 < |Concat(records)| <= CAPACITY && Concat(records) <= data
    ensures Node(t, data, [], chunks + [c], stamped) && Shows(c, Concat(records), records, false, |stamped|)
  {
    t, c := StillSwappedTwice(s);
    hide Still;
    assert Concat([]) == [];
    assert data[..|Concat(records)|] == Concat(records);
  }

  // ---------- one call of a node ----------

  /** Where a record lands: between what was written before it and what lies behind it. */
  lemma LeftIs(blk: Block, r: seq<byte>, i: nat, mark: nat, pre: seq<byte>, gap: seq<byte>, post: seq<byte>)
    requires blk.data == pre + gap + post && |pre| == blk.offset && |gap| == |r|
    ensures var blk' := Left(Claimed(blk, r, i), r, |blk.slots|, blk.offset, mark);
            && blk'.offset == blk.offset + |r| && blk'.writers == blk.writers && blk'.turn == blk.turn
            && blk'.data == pre + r + post && Records(blk'.slots) == Records(blk.slots) + [r]
  {
    assert blk.data[..blk.offset] == pre;
    assert blk.data[blk.offset + |r|..] == post;
    var blk' := Left(Claimed(blk, r, i), r, |blk.slots|, blk.offset, mark);
    assert Records(blk'.slots) == Records(blk.slots) + [r];
  }

  /** A call writes a record with the stamp 0 into the block, and is not counted yet. */
  lemma NodeWrites(s: State, data: seq<byte>, records: seq<seq<byte>>, chunks: seq<Chunk>, stamped: seq<seq<byte>>,
                   r: seq<byte>, pre: seq<byte>, gap: seq<byte>, post: seq<byte>) returns (t: State)
    requires Node(s, data, records, chunks, stamped) && |r| > 0 && Stamp(r, 0) == r
    requires data == pre + gap + post && |pre| == |Concat(records)| && |gap| == |r|
    ensures Still(t) && |t.probes| == |s.probes| && t.probes == s.probes[0 := Counting] && t.clock == 0
    ensures t.blocks[0].offset == |Concat(records + [r])| && t.blocks[0].data == pre + r + post
    ensures Records(t.blocks[0].slots) == records + [r]
    ensures t.chunks == chunks && t.stamped == stamped + [r] && t.recorded == |stamped| && t.dropped == s.dropped
  {
    AttainWritten(s, 0, r, Calm);
    WrittenShape(s, 0, r);
    hide Attained, Left, Claimed, Stamp;
    LeftIs(s.blocks[0], r, 0, |s.log|, pre, gap, post);
    ConcatAppend(records, r);
    t := Written(s, 0, r);
  }

  lemma NodeLogs(s: State, data: seq<byte>, records: seq<seq<byte>>, chunks: seq<Chunk>, stamped: seq<seq<byte>>,
                 r: seq<byte>, pre: seq<byte>, gap: seq<byte>, post: seq<byte>) returns (t: State)
    requires Node(s, data, records, chunks, stamped) && |r| > 0 && Stamp(r, 0) == r
    requires data == pre + gap + post && |pre| == |Concat(records)| && |gap| == |r|
    ensures Node(t, pre + r + post, records + [r], chunks, stamped + [r])
  {
    var u := NodeWrites(s, data, records, chunks, stamped, r, pre, gap, post);
    AttainTallied(u, 0, Calm);
    hide Attained, Stamp;
    t := Tallied(u, 0);
  }

  lemma NodeFresh() returns (s: State)
    ensures Node(s, seq(CAPACITY, i => 0), [], [], [])
  {
    s := AttainFresh(1, Calm);
    hide Attained;
    assert Concat([]) == [] && Records([]) == [];
  }

  // ---------- old bytes behind an overflow ----------

  /** A call too large for what is left: it is refused, and the block is flushed to its full length. */
  lemma NodeOverflows(s: State, data: seq<byte>, records: seq<seq<byte>>, chunks: seq<Chunk>, stamped: seq<seq<byte>>)
      returns (t: State, c: Chunk)
    requires Node(s, data, records, chunks, stamped) && |Concat(records)| > 0
    ensures Attained(t, Calm) && Settled(t) && t.stamped == stamped && t.recorded == |stamped|
    ensures t.chunks == chunks + [c] && Shows(c, data, records, true, |stamped|)
  {
    var big: seq<byte> := seq(CAPACITY, i => 0);
    AttainTurned(s, 0, big, Calm);
    hide Attained;
    var u := Turned(s, 0, big);
    t, c := StillSwapped(u);
    assert data[..CAPACITY] == data;
  }

  /** Two records of one header each, then two flushes. */
  lemma StaleStart(a: seq<byte>, b: seq<byte>, rest: seq<byte>) returns (t: State, c: Chunk)
    requires |a| == |b| == HEADER && Stamp(a, 0) == a && Stamp(b, 0) == b
    requires rest == seq(CAPACITY - 2 * HEADER, i => 0)
    ensures Node(t, a + b + rest, [], [c], [a, b]) && Shows(c, a + b, [a, b], false, 2)
  {
    var s := NodeFresh();
    hide Node, Stamp;
    var gap: seq<byte> := seq(HEADER, i => 0);
    var zero: seq<byte> := seq(CAPACITY, i => 0);
    assert Concat([]) == [];
    assert zero == [] + gap + (gap + rest);
    var s1 := NodeLogs(s, zero, [], [], [], a, [], gap, gap + rest);
    assert [] + [a] == [a] && [] + a + (gap + rest) == a + gap + rest;
    ConcatOne(a);
    var s2 := NodeLogs(s1, a + gap + rest, [a], [], [a], b, a, gap, rest);
    assert [a] + [b] == [a, b];
    ConcatTwo(a, b);
    t, c := NodeSwapsTwice(s2, a + b + rest, [a, b], [], [a, b]);
    assert [] + [c] == [c];
  }

  lemma ConcatOne(a: seq<byte>)
    ensures Concat([a]) == a
  {
    assert Concat([a]) == a + Concat([a][1..]);
  }

  lemma ConcatTwo(a: seq<byte>, b: seq<byte>)
    ensures Concat([a, b]) == a + b
  {
    assert [a, b][1..] == [b];
    ConcatOne(b);
  }

  /** Then one more record and a call too large for the block: the bytes of `b` are flushed again. */
  lemma StaleRun(a: seq<byte>, b: seq<byte>, c: seq<byte>, rest: seq<byte>) returns (t: State)
    requires |a| == |b| == |c| == HEADER && Stamp(a, 0) == a && Stamp(b, 0) == b && Stamp(c, 0) == c
    requires rest == seq(CAPACITY - 2 * HEADER, i => 0)
    ensures Attained(t, Calm) && Settled(t) && t.stamped == [a, b, c] && t.recorded == 3 && |t.chunks| == 2
    ensures Shows(t.chunks[0], a + b, [a, b], false, 2) && Shows(t.chunks[1], c + b + rest, [c], true, 3)
  {
    var s, x := StaleStart(a, b, rest);
    hide Node, Stamp, Attained, Settled;
    assert Concat([]) == [];
    assert a + b + rest == [] + a + (b + rest);
    var s1 := NodeLogs(s, a + b + rest, [], [x], [a, b], c, [], a, b + rest);
    assert [] + [c] == [c] && [] + c + (b + rest) == c + b + rest && [a, b] + [c] == [a, b, c];
    ConcatOne(c);
    var y: Chunk;
    t, y := NodeOverflows(s1, c + b + rest, [c], [x], [a, b, c]);
    assert t.chunks == [x, y];
  }

  // ---------- what those bytes decode to ----------

  predicate Zeros(s: seq<byte>) {
    forall i :: 0 <= i < |s| ==> s[i] == 0
  }

  /** The bytes `c + b + rest` decode to both records. */
  lemma StaleDecodes(b: Event, c: Event, rest: seq<byte>)
    requires Encodable(b) && Encodable(c) && |b.payload| == |c.payload| == 0
    requires |rest| >= HEADER && Zeros(rest)
    ensures var buf := Encode(c) + Encode(b) + rest;
            DecodeFrom(buf, |buf|, 0) == Decoded([c, b], false) && DecodeFrom(buf, |buf|, HEADER).events == [b]
  {
    hide IsRecord, Encode, DecodeFrom, Holds, Zeros;
    var rb, rc := Encode(b), Encode(c);
    EncodeIsRecord(b);
    EncodeIsRecord(c);
    ZerosDecode(rc + rb, rest);
    HoldsBoth(rc, rb, rest);
    DecodeOne(rb, b, rc + rb + rest, HEADER);
    DecodeOne(rc, c, rc + rb + rest, 0);
    assert [b] + [] == [b] && [c] + [b] == [c, b];
  }

  lemma ZerosDecode(front: seq<byte>, rest: seq<byte>)
    requires |rest| >= HEADER && Zeros(rest)
    ensures var buf := front + rest; DecodeFrom(buf, |buf|, |front|) == Decoded([], false)
  {
    DecodesZeros(front + rest, |front|);
  }

  lemma HoldsBoth(a: seq<byte>, b: seq<byte>, rest: seq<byte>)
    ensures Holds(a + b + rest, 0, a) && Holds(a + b + rest, |a|, b)
  {
  }

  lemma DecodesNothing(buf: seq<byte>)
    ensures DecodeFrom(buf, |buf|, |buf|) == Decoded([], false)
  {
  }

  lemma DecodesZeros(buf: seq<byte>, at: nat)
    requires at + HEADER <= |buf| && forall i :: at <= i < |buf| ==> buf[i] == 0
    ensures DecodeFrom(buf, |buf|, at) == Decoded([], false)
  {
    ZerosLE(buf[at..at + 4]);
  }

  lemma {:induction false} ZerosLE(s: seq<byte>)
    requires forall i :: 0 <= i < |s| ==> s[i] == 0
    ensures FromLE(s) == 0
  {
    if |s| > 0 {
      ZerosLE(s[1..]);
    }
  }

  lemma DecodeOne(r: seq<byte>, e: Event, buf: seq<byte>, at: nat)
    requires IsRecord(r, e) && Holds(buf, at, r)
    ensures var rest := DecodeFrom(buf, |buf|, at + |r|);
            DecodeFrom(buf, |buf|, at) == Decoded([e] + rest.events, rest.fault)
  {
    assert AreRecords([r], [e]);
    assert Concat([r]) == r + Concat([r][1..]) == r;
    DecodeThrough([r], [e], buf, |buf|, at);
  }

  lemma FirstDecodes(a: Event, b: Event)
    requires Encodable(a) && Encodable(b) && |a.payload| == |b.payload| == 0
    ensures var buf := Encode(a) + Encode(b);
            DecodeFrom(buf, |buf|, 0) == Decoded([a, b], false) && DecodeFrom(buf, |buf|, |buf|).events == []
  {
    var buf := Encode(a) + Encode(b);
    EncodeIsRecord(a);
    EncodeIsRecord(b);
    DecodesNothing(buf);
    HoldsBoth(Encode(a), Encode(b), []);
    assert buf == Encode(a) + Encode(b) + [];
    hide IsRecord, Encode, DecodeFrom, Holds;
    DecodeOne(Encode(b), b, buf, HEADER);
    DecodeOne(Encode(a), a, buf, 0);
    assert [b] + [] == [b] && [a] + [b] == [a, b];
  }

  /** A record that is written with the stamp 0. */
  lemma StampZero(e: Event)
    requires Encodable(e) && e.timestamp == 0
    ensures Stamp(Encode(e), 0) == Encode(e)
  {
    StampEncodes(e, 0);
    assert e.(timestamp := 0) == e;
  }

  /** A run in which every wait ended with the count at zero and the flip seen, and in which the
      event `b`, recorded once, is decoded twice. */
  lemma StaleRecordAgain(a: Event, b: Event, c: Event) returns (t: State)
    requires Encodable(a) && Encodable(b) && Encodable(c)
    requires |a.payload| == |b.payload| == |c.payload| == 0 && a.timestamp == b.timestamp == c.timestamp == 0
    ensures Attained(t, Calm) && Settled(t) && (forall r <- t.stamped :: GoodRecord(r))
    ensures Events(t.stamped) == [a, b, c] && DecodeChunks(t.chunks) == [a, b, c, b] && Stale(t.chunks) == [b]
  {
    var rest: seq<byte> := seq(CAPACITY - 2 * HEADER, i => 0);
    hide Attained, Settled, GoodRecord, Encode, DecodeFrom, DecodeChunks, Stale, Events, Encodable, Stamp, Shows;
    StampZero(a);
    StampZero(b);
    StampZero(c);
    t := StaleRun(Encode(a), Encode(b), Encode(c), rest);
    ThreeGood(a, b, c);
    var x, y := t.chunks[0], t.chunks[1];
    assert t.chunks == [x, y];
    StaleChunks(a, b, c, rest, x, y);
  }

  lemma StaleChunks(a: Event, b: Event, c: Event, rest: seq<byte>, x: Chunk, y: Chunk)
    requires Encodable(a) && Encodable(b) && Encodable(c)
    requires |a.payload| == |b.payload| == |c.payload| == 0 && |rest| >= HEADER && Zeros(rest)
    requires Shows(x, Encode(a) + Encode(b), [Encode(a), Encode(b)], false, 2)
    requires Shows(y, Encode(c) + Encode(b) + rest, [Encode(c)], true, 3)
    ensures DecodeChunks([x, y]) == [a, b, c, b] && Stale([x, y]) == [b]
  {
    hide Encode, DecodeFrom, DecodeChunks, Stale, Zeros;
    StaleDecodes(b, c, rest);
    FirstDecodes(a, b);
    TwoChunks(x, y, Encode(a), Encode(b), Encode(c));
    assert [a, b] + [c, b] == [a, b, c, b];
    assert [] + [b] == [b];
  }

  lemma ThreeGood(a: Event, b: Event, c: Event)
    requires Encodable(a) && Encodable(b) && Encodable(c)
    ensures var rs := [Encode(a), Encode(b), Encode(c)]; (forall r <- rs :: GoodRecord(r)) && Events(rs) == [a, b, c]
  {
    hide GoodRecord, Encode, EventOf, Encodable, Events;
    EncodedIsGood(a);
    EncodedIsGood(b);
    EncodedIsGood(c);
    EventsThree(Encode(a), Encode(b), Encode(c));
  }

  lemma EventsThree(x: seq<byte>, y: seq<byte>, z: seq<byte>)
    ensures Events([x, y, z]) == [EventOf(x), EventOf(y), EventOf(z)]
  {
    hide EventOf;
  }

  lemma TwoChunks(x: Chunk, y: Chunk, a: seq<byte>, b: seq<byte>, c: seq<byte>)
    requires x.bytes == a + b && x.records == [a, b] && y.records == [c] && |c| <= |y.bytes|
    ensures DecodeChunks([x, y]) == ChunkDecoded(x).events + ChunkDecoded(y).events
    ensures Stale([x, y]) == DecodeFrom(x.bytes, |x.bytes|, |x.bytes|).events + DecodeFrom(y.bytes, |y.bytes|, |c|).events
  {
    hide DecodeFrom;
    assert [x, y][..1] == [x] && [x][..0] == [];
    assert Concat([c]) == c + Concat([c][1..]) == c;
    assert Concat([b]) == b + Concat([b][1..]) == b;
    assert Concat([a, b]) == a + Concat([a, b][1..]) && [a, b][1..] == [b];
    assert DecodeChunks([x]) == DecodeChunks([x][..0]) + ChunkDecoded(x).events;
    assert Stale([x]) == Stale([x][..0]) + Tail(x).events;
  }

  // ---------- totals ----------

  /** A run of three recorded calls whose two chunks go out with the totals 2 and 3. */
  lemma TotalsTooHigh() returns (t: State)
    ensures Attained(t, Calm) && Settled(t) && t.recorded == 3
    ensures |t.chunks| == 2 && t.chunks[0].recorded == 2 && t.chunks[1].recorded == 3
  {
    var e := Event(0, 0, 0, []);
    StampZero(e);
    hide Attained, Settled, Encode, Stamp;
    t := StaleRun(Encode(e), Encode(e), Encode(e), seq(CAPACITY - 2 * HEADER, i => 0));
  }

  /** A call is counted after its record went out: the last step of a run that settles a node. */
  lemma CountsLate(s: State) returns (t: State, c: Chunk)
    requires Still(s) && s.blocks[0].offset > 0 && |s.probes| == 1 && s.probes[0].Counting?
    ensures Attained(t, Calm) && Settled(t) && t.recorded == s.recorded + 1
    ensures t.chunks == s.chunks + [c] && c.recorded == s.recorded
  {
    var u: State;
    u, c := StillSwapped(s);
    AttainTallied(u, 0, Calm);
    hide Attained, Tally, StampedRecords;
    t := Tallied(u, 0);
  }

  /** A run of one recorded call whose only chunk goes out with the total 0. */
  lemma TotalTooLow() returns (t: State)
    ensures Attained(t, Calm) && Settled(t) && t.recorded == 1 && |t.chunks| == 1 && t.chunks[0].recorded == 0
  {
    var e, zero: seq<byte> := Event(0, 0, 0, []), seq(CAPACITY, i => 0);
    var gap, rest: seq<byte> := seq(HEADER, i => 0), seq(CAPACITY - HEADER, i => 0);
    StampZero(e);
    var s := NodeFresh();
    hide Attained, Settled, Encode, Stamp;
    assert Concat([]) == [] && zero == [] + gap + rest;
    var u := NodeWrites(s, zero, [], [], [], Encode(e), [], gap, rest);
    ConcatOne(Encode(e));
    assert [] + [Encode(e)] == [Encode(e)];
    var c: Chunk;
    t, c := CountsLate(u);
  }

  lemma OneFlushed(r: seq<byte>, gap: seq<byte>, rest: seq<byte>) returns (s: State, x: Chunk)
    requires |r| == |gap| == HEADER && Stamp(r, 0) == r
    requires gap + (gap + rest) == seq(CAPACITY, i => 0)
    ensures Node(s, r + gap + rest, [], [x], [r]) && x.recorded == 1
  {
    hide Node, Stamp;
    ConcatOne(r);
    assert Concat([]) == [];
    var zero, data := seq(CAPACITY, i => 0), r + gap + rest;
    var s0 := NodeFresh();
    assert zero == [] + gap + (gap + rest) && data == [] + r + (gap + rest);
    assert [] + [r] == [r];
    var s1 := NodeLogs(s0, zero, [], [], [], r, [], gap, gap + rest);
    s, x := NodeSwapsTwice(s1, data, [r], [], [r]);
    assert [] + [x] == [x];
  }

  lemma MakesUp(s: State, r: seq<byte>, gap: seq<byte>, rest: seq<byte>, x: Chunk) returns (t: State)
    requires |r| == |gap| == HEADER && Stamp(r, 0) == r
    requires Node(s, r + gap + rest, [], [x], [r]) && x.recorded == 1
    ensures Attained(t, Calm) && Settled(t) && t.recorded == 3
    ensures |t.chunks| == 2 && t.chunks[0].recorded == 1 && t.chunks[1].recorded == 2
  {
    hide Attained, Settled, Stamp;
    assert Concat([]) == [] && r + gap + rest == [] + r + (gap + rest);
    ConcatOne(r);
    ConcatTwo(r, r);
    assert [] + [r] == [r] && [] + r + (gap + rest) == r + gap + rest && [r] + [r] == [r, r];
    var s1 := NodeLogs(s, r + gap + rest, [], [x], [r], r, [], r, gap + rest);
    var u := NodeWrites(s1, r + gap + rest, [r], [x], [r, r], r, r, gap, rest);
    var y: Chunk;
    t, y := CountsLate(u);
    assert t.chunks == [x, y];
  }

  /** A run of three recorded calls whose chunks go out with the totals 1 and 2: they add up to what was
      recorded, although neither is the number of records flushed by then. */
  lemma TotalsMakeUp() returns (t: State)
    ensures Attained(t, Calm) && Settled(t) && t.recorded == 3
    ensures |t.chunks| == 2 && t.chunks[0].recorded == 1 && t.chunks[1].recorded == 2
  {
    hide Attained, Settled, Node, Encode, Stamp;
    var e := Event(0, 0, 0, []);
    var gap, rest: seq<byte> := seq(HEADER, i => 0), seq(CAPACITY - 2 * HEADER, i => 0);
    StampZero(e);
    assert gap + (gap + rest) == seq(CAPACITY, i => 0);
    var s, x := OneFlushed(Encode(e), gap, rest);
    t := MakesUp(s, Encode(e), gap, rest, x);
  }

  // ---------- calls that overlap ----------

  /** Probe 0 claims space at time 0; probe 1 makes a whole call; the clock moves on; probe 0 reads it,
      writes its record and returns. */
  lemma OverlapCalls(a: seq<byte>, b: seq<byte>, ns: nat) returns (t: State)
    requires |a| == |b| == HEADER && ns > 0
    ensures Still(t) && AllIdle(t.probes) && t.clock == ns && t.chunks == [] && t.stamped == [Stamp(b, 0), Stamp(a, ns)]
    ensures t.blocks[0].offset == 2 * HEADER && Stamp(a, ns) + Stamp(b, 0) <= t.blocks[0].data
    ensures Records(t.blocks[0].slots) == [Stamp(a, ns), Stamp(b, 0)]
  {
    var s := AttainFresh(2, Calm);
    hide Attained, Stamp;
    AttainReserved(s, 0, a, Calm);
    var s1 := Reserved(s, 0, a);
    AttainLogged(s1, 1, b, Calm);
    var s2 := Logged(s1, 1, b);
    AttainTicked(s2, ns, Calm);
    var s3 := s2.(clock := ns, log := s2.log + [Ticked]);
    t := OverlapEnds(s3, a, Stamp(b, 0));
  }

  lemma OverlapEnds(s: State, a: seq<byte>, b: seq<byte>) returns (t: State)
    requires |a| == |b| == HEADER && Attained(s, Calm) && Shape(s) && s.worker.Resting? && FlipSeen(s) && s.clean
    requires s.word.idx == 0 && s.probes == [Stamping(a, 0, 0, 0), Idle] && s.chunks == [] && s.stamped == [b]
    requires var blk := s.blocks[0];
             && blk.writers == 1 && blk.offset == 2 * HEADER && |blk.slots| == 2
             && blk.slots[0].done == 0 && blk.slots[1].record == b && blk.data[HEADER..2 * HEADER] == b
    requires s.blocks[1].writers == 0 && Empty(s.blocks[1])
    ensures var d := Stamp(a, s.clock);
            && Still(t) && AllIdle(t.probes) && t.clock == s.clock && t.chunks == [] && t.stamped == [b, d]
            && t.blocks[0].offset == 2 * HEADER && d + b <= t.blocks[0].data && Records(t.blocks[0].slots) == [d, b]
  {
    hide Attained, Stamp;
    var blk, d := s.blocks[0], Stamp(a, s.clock);
    assert With(s, 0, Stamping(a, 0, 0, 0), blk) == s by {
      assert s.probes[0 := s.probes[0]] == s.probes && s.blocks[0 := blk] == s.blocks;
    }
    AttainCommitted(s, 0, a, 0, 0, blk, Calm);
    var u := Committed(s, 0, a, 0, 0, blk);
    AttainTallied(u, 0, Calm);
    t := Tallied(u, 0);
    assert t.blocks[0].data == d + blk.data[HEADER..];
    assert blk.data[HEADER..] == b + blk.data[2 * HEADER..];
    assert Records(t.blocks[0].slots) == [d, b];
  }

  /** A run of two calls. The call for `a` claims its space first and reads the clock last, so the file shows
      it first with the later stamp: it is not in the order of its timestamps. */
  lemma OverlapUnsorted(a: Event, b: Event, ns: nat) returns (t: State)
    requires Encodable(a) && Encodable(b) && |a.payload| == |b.payload| == 0 && 0 < ns < WORD64
    ensures Attained(t, Calm) && Settled(t) && |t.chunks| == 1 && !t.chunks[0].overflow
    ensures DecodeChunks(t.chunks) == [a.(timestamp := ns), b.(timestamp := 0)]
    ensures !InTimeOrder(DecodeChunks(t.chunks)) && Overtaken(t.log)
  {
    var x, y := a.(timestamp := ns), b.(timestamp := 0);
    Stamps(a, b, ns);
    hide Attained, Settled, Encode, Encodable, DecodeFrom, DecodeChunks, Stamp, Overtaken, InTimeOrder;
    t := OverlapRun(Encode(a), Encode(b), ns);
    FirstDecodes(x, y);
    OneChunk(t.chunks[0]);
    assert t.chunks == [t.chunks[0]];
    OverlapShown(t, x, y);
  }

  lemma Stamps(a: Event, b: Event, ns: nat)
    requires Encodable(a) && Encodable(b) && ns < WORD64
    ensures var x, y := a.(timestamp := ns), b.(timestamp := 0);
            Encodable(x) && Encodable(y) && Stamp(Encode(a), ns) == Encode(x) && Stamp(Encode(b), 0) == Encode(y)
  {
    DivModUnique(ns, WORD64, 0, ns);
    DivModUnique(0, WORD64, 0, 0);
    hide Stamp, Encode;
    StampEncodes(a, ns);
    StampEncodes(b, 0);
  }

  lemma OverlapRun(a: seq<byte>, b: seq<byte>, ns: nat) returns (t: State)
    requires |a| == |b| == HEADER && ns > 0
    ensures Attained(t, Calm) && Settled(t) && t.clock == ns && t.stamped == [Stamp(b, 0), Stamp(a, ns)]
    ensures |t.chunks| == 1 && !t.chunks[0].overflow && t.chunks[0].bytes == Stamp(a, ns) + Stamp(b, 0)
  {
    hide Attained, Settled, Stamp, AllIdle;
    var s := OverlapCalls(a, b, ns);
    var c: Chunk;
    t, c := StillSettles(s);
    OverlapBytes(c, Stamp(a, ns), Stamp(b, 0), s.blocks[0].data);
  }

  /** A flush that leaves nothing behind. */
  lemma StillSettles(s: State) returns (t: State, c: Chunk)
    requires Still(s) && AllIdle(s.probes) && 0 < s.blocks[0].offset <= CAPACITY && s.chunks == []
    ensures Attained(t, Calm) && Settled(t) && t.clock == s.clock && t.stamped == s.stamped && t.chunks == [c]
    ensures !c.overflow && c.bytes == s.blocks[0].data[..s.blocks[0].offset]
  {
    t, c := StillSwapped(s);
    hide Attained, Tally, StampedRecords, Extended;
    assert [] + [c] == [c];
  }

  lemma OverlapBytes(c: Chunk, x: seq<byte>, y: seq<byte>, data: seq<byte>)
    requires |x| == |y| == HEADER && x + y <= data && c.bytes == data[..2 * HEADER]
    ensures c.bytes == x + y
  {
  }

  lemma OverlapShown(t: State, x: Event, y: Event)
    requires Attained(t, Calm) && Settled(t) && t.clock < WORD64 && Encodable(x) && Encodable(y)
    requires t.stamped == [Encode(y), Encode(x)] && |t.chunks| == 1 && !t.chunks[0].overflow
    requires DecodeChunks(t.chunks) == [x, y] && x.timestamp > y.timestamp
    ensures !InTimeOrder(DecodeChunks(t.chunks)) && Overtaken(t.log)
  {
    hide Attained, Settled, Encode, DecodeChunks, Overtaken, GoodRecord;
    EncodedIsGood(x);
    EncodedIsGood(y);
    var es := [x, y];
    assert es[0].timestamp > es[1].timestamp;
    FileSortedIff(t);
  }

  lemma OneChunk(x: Chunk)
    ensures DecodeChunks([x]) == ChunkDecoded(x).events
  {
    hide ChunkDecoded;
    assert [x][..0] == [];
    assert DecodeChunks([x]) == DecodeChunks([x][..0]) + ChunkDecoded(x).events;
  }
}
