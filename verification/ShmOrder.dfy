/** When the file of a node is in the order of its timestamps: exactly when the schedule lets no call
    take its stamp after a call with a later place in the file has taken an earlier one. */
module ShmOrder {
  import opened Words
  import opened ShmBuffer
  import opened ShmRuns
  import opened ShmDelivery
  import opened ShmClock
  import opened Framing

  predicate InTimeOrder(es: seq<Event>) {
    forall i, j :: 0 <= i < j < |es| ==> es[i].timestamp <= es[j].timestamp
  }

  /** The call of mark `n` has a place before that of mark `m`, but took its stamp later: the clock had
      moved on in between. */
  ghost predicate Overtakes(log: seq<Mark>, m: nat, n: nat) {
    && m < n < |log| && log[m].Stamped? && log[n].Stamped?
    && Earlier(log[n].place, log[m].place) && TickBetween(log, m, n)
  }

  ghost predicate Overtaken(log: seq<Mark>) {
    exists m: nat, n: nat :: Overtakes(log, m, n)
  }

  // ---------- the marks of a file ----------

  /** The marks of all records of the file, in its order. */
  function FileMarks(chunks: seq<Chunk>): seq<nat> {
    if |chunks| == 0 then [] else FileMarks(chunks[..|chunks| - 1]) + chunks[|chunks| - 1].marks
  }

  /** Mark `m` was made for `r` in a turn before `turn`. */
  predicate MarkOf(log: seq<Mark>, m: nat, r: seq<byte>, turn: nat) {
    m < |log| && log[m].Stamped? && log[m].record == r && log[m].place.turn < turn
  }

  /** The marks belong to the records one by one, and their places rise. */
  ghost predicate MarksRise(log: seq<Mark>, ms: seq<nat>, rs: seq<seq<byte>>, turn: nat) {
    && |ms| == |rs|
    && (forall i :: 0 <= i < |ms| ==> MarkOf(log, ms[i], rs[i], turn))
    && (forall i, j :: 0 <= i < j < |ms| ==> Earlier(log[ms[i]].place, log[ms[j]].place))
  }

  lemma ChunkRises(log: seq<Mark>, ms: seq<nat>, rs: seq<seq<byte>>, c: Chunk, turn: nat)
    requires MarksRise(log, ms, rs, c.turn) && ChunkFiled(log, c) && c.turn < turn
    ensures MarksRise(log, ms + c.marks, rs + c.records, turn)
  {
    var n := |ms|;
    var all, recs := ms + c.marks, rs + c.records;
    forall i | 0 <= i < |all|
      ensures MarkOf(log, all[i], recs[i], turn)
      ensures i >= n ==> log[all[i]].place == Place(c.turn, i - n)
      ensures i < n ==> log[all[i]].place.turn < c.turn
    {
      if i < n {
        assert MarkOf(log, ms[i], rs[i], c.turn);
      } else {
        assert MarkAt(log, c.marks[i - n], Place(c.turn, i - n), c.records[i - n]);
      }
    }
    forall i, j | 0 <= i < j < |all|
      ensures Earlier(log[all[i]].place, log[all[j]].place)
    {
      if j < n {
        assert Earlier(log[ms[i]].place, log[ms[j]].place);
      }
    }
  }

  lemma {:induction false} FileRises(log: seq<Mark>, chunks: seq<Chunk>, turn: nat)
    requires (forall c <- chunks :: ChunkFiled(log, c)) && Rising(chunks, turn)
    ensures MarksRise(log, FileMarks(chunks), Flushed(chunks), turn)
    decreases |chunks|
  {
    hide ChunkFiled, MarksRise;
    if |chunks| == 0 {
      NoMarks(log, turn);
    } else {
      var front, c := chunks[..|chunks| - 1], chunks[|chunks| - 1];
      FileRises(log, front, c.turn);
      ChunkRises(log, FileMarks(front), Flushed(front), c, turn);
    }
  }

  lemma NoMarks(log: seq<Mark>, turn: nat)
    ensures MarksRise(log, [], [], turn)
  {
  }

  lemma {:induction false} FileHas(chunks: seq<Chunk>, c: Chunk, m: nat)
    requires c in chunks && InChunk(c, m)
    ensures m in FileMarks(chunks)
    decreases |chunks|
  {
    var front, last := chunks[..|chunks| - 1], chunks[|chunks| - 1];
    if c == last {
      var k :| 0 <= k < |c.marks| && c.marks[k] == m;
      assert c.marks[k] in c.marks;
    } else {
      assert c in front;
      FileHas(front, c, m);
    }
  }

  /** Once the node has settled, every stamp ever taken is in the file. */
  lemma SettledHas(t: State, m: nat)
    requires History(t) && Settled(t) && m < |t.log| && t.log[m].Stamped?
    ensures m in FileMarks(t.chunks)
  {
    assert Stored(t, m);
    assert !InBlock(t.blocks[0], m) && !InBlock(t.blocks[1], m);
    var c :| c in t.chunks && InChunk(c, m);
    FileHas(t.chunks, c, m);
  }

  // ---------- stamps and timestamps ----------

  const WORD64: nat := 0x1_0000_0000_0000_0000

  lemma StampRead(x: Mark)
    requires x.Stamped? && Dated(x) && GoodRecord(x.record) && x.time < WORD64
    ensures EventOf(x.record).timestamp == x.time
  {
    DivModUnique(x.time, WORD64, 0, x.time);
    FieldFits(x.time, 8);
  }

  /** What a call copies is the record of its event, with the clock reading for its timestamp. */
  lemma StampEncodes(e: Event, now: nat)
    requires Encodable(e)
    ensures var d := e.(timestamp := now % WORD64);
            Encodable(d) && Stamp(Encode(e), now) == Encode(d) && GoodRecord(Stamp(Encode(e), now))
  {
    hide ToLE, GoodRecord;
    var d := e.(timestamp := now % WORD64);
    var front := ToLE(HEADER + |e.payload|, 4) + ToLE(e.rank, 2) + ToLE(e.eventType, 2);
    var back := ToLE(|e.payload|, 4) + ToLE(0, 4) + e.payload;
    assert Encode(e) == front + ToLE(e.timestamp, 8) + back;
    assert Encode(d) == front + ToLE(d.timestamp, 8) + back;
    EncodedIsGood(d);
  }

  // ---------- the order of the file ----------

  /** The timestamps of the records are the times of their marks. */
  ghost predicate TimesAre(log: seq<Mark>, ms: seq<nat>, es: seq<Event>) {
    |ms| == |es| && forall i :: 0 <= i < |ms| ==> ms[i] < |log| && log[ms[i]].Stamped? && es[i].timestamp == log[ms[i]].time
  }

  lemma OvertakenUnsorted(log: seq<Mark>, clock: nat, ms: seq<nat>, rs: seq<seq<byte>>, turn: nat, es: seq<Event>, m: nat, n: nat)
    requires Timed(log, clock) && MarksRise(log, ms, rs, turn) && TimesAre(log, ms, es)
    requires Overtakes(log, m, n) && m in ms && n in ms
    ensures !InTimeOrder(es)
  {
    var i :| 0 <= i < |ms| && ms[i] == m;
    var j :| 0 <= j < |ms| && ms[j] == n;
    assert j < i by {
      assert i < j ==> Earlier(log[ms[i]].place, log[ms[j]].place);
    }
    assert log[m].time < log[n].time;
    assert es[j].timestamp > es[i].timestamp;
  }

  lemma UnsortedOvertaken(log: seq<Mark>, clock: nat, ms: seq<nat>, rs: seq<seq<byte>>, turn: nat, es: seq<Event>)
    requires Timed(log, clock) && MarksRise(log, ms, rs, turn) && TimesAre(log, ms, es)
    requires !InTimeOrder(es)
    ensures Overtaken(log)
  {
    hide TickBetween;
    var i, j :| 0 <= i < j < |es| && es[i].timestamp > es[j].timestamp;
    var n, m := ms[i], ms[j];
    assert log[n].time > log[m].time;
    assert Earlier(log[n].place, log[m].place);
    assert m < n;
    assert Overtakes(log, m, n);
  }

  lemma FileTimes(t: State, turn: nat)
    requires History(t) && t.clock < WORD64 && (forall r <- Flushed(t.chunks) :: GoodRecord(r))
    requires MarksRise(t.log, FileMarks(t.chunks), Flushed(t.chunks), turn)
    ensures TimesAre(t.log, FileMarks(t.chunks), Events(Flushed(t.chunks)))
  {
    var ms, rs := FileMarks(t.chunks), Flushed(t.chunks);
    hide Inv, TurnOk, OrderOk, FiledOk, StoredOk, GoodRecord, EventOf, Dated;
    forall i | 0 <= i < |ms|
      ensures ms[i] < |t.log| && t.log[ms[i]].Stamped? && Events(rs)[i].timestamp == t.log[ms[i]].time
    {
      assert MarkOf(t.log, ms[i], rs[i], turn);
      assert t.log[ms[i]] in t.log && rs[i] in rs;
      StampRead(t.log[ms[i]]);
    }
  }

  /** The events of the file that were recorded in it come in the order of their timestamps if and only if
      no call was overtaken. */
  lemma RecordsSortedIff(t: State)
    requires Attained(t, Calm) && Settled(t) && t.clock < WORD64
    requires forall r <- t.stamped :: GoodRecord(r)
    ensures InTimeOrder(Events(Flushed(t.chunks))) <==> !Overtaken(t.log)
  {
    CalmHistory(t);
    SettledGood(t);
    var ms, rs, turn := FileMarks(t.chunks), Flushed(t.chunks), NextTurn(t);
    FileRises(t.log, t.chunks, turn);
    FileTimes(t, turn);
    if Overtaken(t.log) {
      var m: nat, n: nat :| Overtakes(t.log, m, n);
      SettledHas(t, m);
      SettledHas(t, n);
      OvertakenUnsorted(t.log, t.clock, ms, rs, turn, Events(rs), m, n);
    }
    if !InTimeOrder(Events(rs)) {
      UnsortedOvertaken(t.log, t.clock, ms, rs, turn, Events(rs));
    }
  }

  lemma SettledGood(t: State)
    requires Attained(t, Calm) && Settled(t) && forall r <- t.stamped :: GoodRecord(r)
    ensures forall r <- Flushed(t.chunks) :: GoodRecord(r)
  {
    SettledFlushed(t);
    hide GoodRecord, Settled, Attained;
    forall r <- Flushed(t.chunks)
      ensures GoodRecord(r)
    {
      assert r in multiset(Flushed(t.chunks));
    }
  }

  // ---------- with what lies behind overflowed chunks ----------

  predicate Before(a: seq<Event>, b: seq<Event>) {
    forall x, y :: x in a && y in b ==> x.timestamp <= y.timestamp
  }

  lemma OrderConcat(a: seq<Event>, b: seq<Event>)
    ensures InTimeOrder(a + b) <==> InTimeOrder(a) && InTimeOrder(b) && Before(a, b)
  {
    var ab := a + b;
    if InTimeOrder(ab) {
      assert forall i :: 0 <= i < |a| ==> ab[i] == a[i];
      assert forall j :: 0 <= j < |b| ==> ab[|a| + j] == b[j];
      forall x, y | x in a && y in b
        ensures x.timestamp <= y.timestamp
      {
        var i :| 0 <= i < |a| && a[i] == x;
        var j :| 0 <= j < |b| && b[j] == y;
        assert ab[i].timestamp <= ab[|a| + j].timestamp;
      }
    }
  }

  /** The events decoded from behind the records of a chunk fit in where they come out. */
  ghost predicate StaleInOrder(chunks: seq<Chunk>) {
    |chunks| > 0 ==>
      var front, c := chunks[..|chunks| - 1], chunks[|chunks| - 1];
      && StaleInOrder(front) && InTimeOrder(Tail(c).events)
      && Before(Stale(front), Events(c.records))
      && Before(DecodeChunks(front) + Events(c.records), Tail(c).events)
  }

  lemma BeforeUnion(d: seq<Event>, f: seq<Event>, s: seq<Event>, e: seq<Event>)
    requires multiset(d) == multiset(f) + multiset(s)
    ensures Before(d, e) <==> Before(f, e) && Before(s, e)
  {
    forall x: Event
      ensures x in d <==> x in f || x in s
    {
      assert x in d <==> x in multiset(d);
      assert x in f <==> x in multiset(f);
      assert x in s <==> x in multiset(s);
    }
  }

  lemma {:induction false} DecodedSortedIff(chunks: seq<Chunk>)
    requires forall c <- chunks :: ChunkOk(c)
    requires forall r <- Flushed(chunks) :: GoodRecord(r)
    ensures InTimeOrder(DecodeChunks(chunks)) <==> InTimeOrder(Events(Flushed(chunks))) && StaleInOrder(chunks)
    decreases |chunks|
  {
    if |chunks| > 0 {
      var front, c := chunks[..|chunks| - 1], chunks[|chunks| - 1];
      assert Flushed(chunks) == Flushed(front) + c.records;
      hide ChunkOk, GoodRecord, InTimeOrder, Before, Tail, Events, Stale;
      DecodedSortedIff(front);
      ChunksDecode(front);
      LastDecodes(chunks, front, c);
      EventsConcat(Flushed(front), c.records);
      hide DecodeChunks, Flushed;
      LastSortedIff(DecodeChunks(front), Events(Flushed(front)), Stale(front), Events(c.records), Tail(c).events);
    }
  }

  lemma LastDecodes(chunks: seq<Chunk>, front: seq<Chunk>, c: Chunk)
    requires |chunks| > 0 && front == chunks[..|chunks| - 1] && c == chunks[|chunks| - 1] && ChunkOk(c)
    requires forall r <- c.records :: GoodRecord(r)
    ensures DecodeChunks(chunks) == (DecodeChunks(front) + Events(c.records)) + Tail(c).events
  {
    ChunkDecodes(c);
    hide ChunkOk, GoodRecord, Tail, Events, ChunkDecoded;
    assert DecodeChunks(chunks) == DecodeChunks(front) + ChunkDecoded(c).events;
  }

  lemma LastSortedIff(d: seq<Event>, f: seq<Event>, s: seq<Event>, e: seq<Event>, tail: seq<Event>)
    requires multiset(d) == multiset(f) + multiset(s)
    ensures InTimeOrder((d + e) + tail) <==>
            InTimeOrder(d) && InTimeOrder(e) && InTimeOrder(tail) && Before(f, e) && Before(s, e) && Before(d + e, tail)
    ensures InTimeOrder(f + e) <==> InTimeOrder(f) && InTimeOrder(e) && Before(f, e)
  {
    hide InTimeOrder, Before;
    OrderConcat(d + e, tail);
    OrderConcat(d, e);
    OrderConcat(f, e);
    BeforeUnion(d, f, s, e);
  }

  lemma {:induction false} IdleInOrder(chunks: seq<Chunk>)
    requires forall c <- chunks :: |Tail(c).events| == 0
    ensures StaleInOrder(chunks)
    decreases |chunks|
  {
    if |chunks| > 0 {
      var front := chunks[..|chunks| - 1];
      hide Tail, DecodeChunks;
      IdleInOrder(front);
      StaleEmpty(front);
    }
  }

  /** Take any run of a node whose waits ended well, once it has settled. Decoding its file gives events in
      the order of their timestamps if and only if no call was overtaken while it held its place, and
      whatever is decoded from behind overflowed chunks fits in. Where the decoder stops behind those,
      it depends on the overtaking alone. */
  lemma FileSortedIff(t: State)
    requires Attained(t, Calm) && Settled(t) && t.clock < WORD64
    requires forall r <- t.stamped :: GoodRecord(r)
    ensures InTimeOrder(DecodeChunks(t.chunks)) <==> !Overtaken(t.log) && StaleInOrder(t.chunks)
    ensures (forall c <- t.chunks :: c.overflow ==> TailIdle(c)) ==> StaleInOrder(t.chunks)
  {
    hide InTimeOrder, Overtaken, StaleInOrder, Attained, Settled, GoodRecord, ChunkOk, TailIdle;
    RecordsSortedIff(t);
    SettledFlushed(t);
    SettledGood(t);
    DecodedSortedIff(t.chunks);
    if forall c <- t.chunks :: c.overflow ==> TailIdle(c) {
      NothingStaleIff(t.chunks);
      StaleEmpty(t.chunks);
      hide Tail;
      IdleInOrder(t.chunks);
    }
  }

  // ---------- calls that do not overlap ----------

  /** A call that is overtaken had begun before the stamp of the other was taken. */
  lemma OvertakingOverlaps(t: State, m: nat, n: nat)
    requires Attained(t, Calm) && Overtakes(t.log, m, n)
    ensures t.log[n].since <= m
  {
    CalmHistory(t);
    assert AllEarlier(t.log, t.log[n].since, t.log[n].place);
  }

  predicate AllIdle(probes: seq<Probe>) {
    forall i :: 0 <= i < |probes| ==> probes[i].Idle?
  }

  /** No call begins while another is under way. */
  ghost predicate OneByOne(s: State, acts: seq<Action>)
    decreases |acts|
  {
    |acts| > 0 && Shape(s) && Enabled(s, acts[0]) ==>
      && (acts[0].Begin? && acts[0].rank < MAX_LOCAL_RANKS ==> AllIdle(s.probes))
      && OneByOne(Step(s, acts[0]), acts[1..])
  }

  predicate OnlyTicks(log: seq<Mark>, m: nat, n: nat) {
    n <= |log| && forall j :: m <= j < n ==> log[j].Ticked?
  }

  /** At most one call is under way, and nothing has been stamped since it began unless by itself. */
  ghost predicate Serial(s: State) {
    && |s.calls| == |s.probes|
    && (forall i, j :: 0 <= i < j < |s.probes| ==> s.probes[i].Idle? || s.probes[j].Idle?)
    && (forall i :: 0 <= i < |s.probes| && PreStamp(s.probes[i]) ==>
          s.calls[i].since <= |s.log| && OnlyTicks(s.log, s.calls[i].since, |s.log|))
    && (forall n :: 0 <= n < |s.log| && s.log[n].Stamped? ==>
          s.log[n].since <= n && OnlyTicks(s.log, s.log[n].since, n))
  }

  lemma SerialProbe(s: State, i: nat)
    requires Shape(s) && Enabled(s, ProbeStep(i)) && Serial(s)
    ensures Serial(StepProbe(s, i))
  {
    var p, s' := s.probes[i], StepProbe(s, i);
    LogStep(s, ProbeStep(i));
    if PreStamp(s'.probes[i]) {
      StillPre(p, Outside(s), s.blocks[Target(p)], i);
      PlaceTurn(p, Outside(s), s.blocks[Target(p)], i);
    }
    forall j | 0 <= j < |s'.probes| && j != i
      ensures s'.probes[j] == s.probes[j] && s'.probes[j].Idle?
    {
      assert s.probes[j].Idle?;
    }
    hide ProbeTurn, Stamp;
  }

  lemma SerialOther(s: State, a: Action)
    requires Shape(s) && Enabled(s, a) && Serial(s) && !a.ProbeStep?
    requires a.Begin? && a.rank < MAX_LOCAL_RANKS ==> AllIdle(s.probes)
    ensures Serial(Step(s, a))
  {
    LogStep(s, a);
    var s' := Step(s, a);
    if a.WorkerStep? {
      assert s'.probes == s.probes && s'.calls == s.calls;
    }
  }

  lemma {:induction false} SerialRun(s: State, acts: seq<Action>, t: State)
    requires Shape(s) && Serial(s) && Run(s, acts, t) && OneByOne(s, acts)
    ensures Serial(t)
    decreases |acts|
  {
    hide Serial, AllIdle;
    if |acts| > 0 {
      var a := acts[0];
      ShapeStep(s, a);
      if a.ProbeStep? {
        SerialProbe(s, a.probe);
      } else {
        SerialOther(s, a);
      }
      hide Step;
      SerialRun(Step(s, a), acts[1..], t);
    }
  }

  /** If no call begins while another is under way, no call is overtaken: the recorded events are in the
      order of their timestamps, and the whole file is unless something left behind an overflowed chunk
      comes out of order. */
  lemma SerialSorted(n: nat, zero: seq<byte>, acts: seq<Action>, t: State)
    requires |zero| == CAPACITY && Run(Init(n, zero), acts, t) && WaitsEnd(Init(n, zero), acts, Calm)
    requires OneByOne(Init(n, zero), acts)
    ensures !Overtaken(t.log)
    ensures Settled(t) && t.clock < WORD64 && (forall r <- t.stamped :: GoodRecord(r)) ==>
            && InTimeOrder(Events(Flushed(t.chunks)))
            && (InTimeOrder(DecodeChunks(t.chunks)) <==> StaleInOrder(t.chunks))
  {
    SerialRun(Init(n, zero), acts, t);
    if Overtaken(t.log) {
      var m: nat, k: nat :| Overtakes(t.log, m, k);
      OvertakingOverlaps(t, m, k);
      assert false;
    }
    hide Overtaken, InTimeOrder, StaleInOrder, OneByOne, GoodRecord, Settled, Serial;
    if Settled(t) && t.clock < WORD64 && forall r <- t.stamped :: GoodRecord(r) {
      RecordsSortedIff(t);
      FileSortedIff(t);
    }
  }
}
