/** Consequences of the double-buffer invariant for the producers and for the decoder: disjoint
    reservations, bounded probe calls, exact accounting, and what decoding the chunks delivers. */
module ShmDelivery {
  import opened Words
  import opened ShmBuffer
  import opened ShmRuns
  import opened Framing

  // ---------- disjoint reservations ----------

  lemma RegionsApart(p: Probe, i: nat, q: Probe, j: nat, blk: Block)
    requires BlockOk(blk) && i != j
    requires p.Copying? && p.done < |p.record| && Linked(p, i, blk)
    requires q.Copying? && q.done < |q.record| && Linked(q, j, blk)
    ensures p.at + |p.record| <= CAPACITY && q.at + |q.record| <= CAPACITY
    ensures p.at + |p.record| <= q.at || q.at + |q.record| <= p.at
  {
    SlotEnd(blk.slots, p.slot);
    SlotEnd(blk.slots, q.slot);
    if p.slot < q.slot {
      SlotsDisjoint(blk.slots, p.slot, q.slot);
    } else {
      assert p.slot != q.slot;
      SlotsDisjoint(blk.slots, q.slot, p.slot);
    }
  }

  /** In a run whose waits ended well, two probes that are still copying into the same block write to
      disjoint byte ranges. */
  lemma DisjointRegions(s: State, i: nat, j: nat)
    requires Attained(s, Calm)
    requires i < |s.probes| && j < |s.probes| && i != j
    requires s.probes[i].Copying? && s.probes[i].done < |s.probes[i].record|
    requires s.probes[j].Copying? && s.probes[j].done < |s.probes[j].record|
    requires s.probes[i].buf == s.probes[j].buf
    ensures var p, q := s.probes[i], s.probes[j];
            && p.at + |p.record| <= CAPACITY && q.at + |q.record| <= CAPACITY
            && (p.at + |p.record| <= q.at || q.at + |q.record| <= p.at)
  {
    CalmFaithful(s);
    hide Attained, BlockOk, AllOwned, WorkerOk;
    RegionsApart(s.probes[i], i, s.probes[j], j, s.blocks[s.probes[i].buf]);
  }

  // ---------- a probe call is bounded ----------

  /** An upper bound on the steps a probe still takes before its call returns. */
  function StepBound(p: Probe): nat {
    match p
    case Idle => 0
    case Trying(r, n) => |r| + 15 - 4 * (if n > 1 then 1 else n)
    case Loaded(r, n, _) => |r| + 14 - 4 * (if n > 1 then 1 else n)
    case Registered(r, n, _) => |r| + 13 - 4 * (if n > 1 then 1 else n)
    case Leaving(r, n, _) => |r| + 12 - 4 * (if n > 1 then 1 else n)
    case Verified(r, _) => |r| + 4
    case Stamping(r, _, _, _) => |r| + 3
    case Copying(r, _, _, _, d) => if d <= |r| then 2 + |r| - d else 2
    case Refused(_) => 2
    case Dropping => 1
    case Counting => 1
  }

  lemma TurnProgress(p: Probe, env: Env, blk: Block, me: nat)
    requires ProbeShape(p) && BlockShape(blk) && !p.Idle?
    ensures StepBound(ProbeTurn(p, env, blk, me).probe) < StepBound(p)
  {
  }

  /** How many steps of `acts` are taken by probe `i`. */
  function OwnSteps(acts: seq<Action>, i: nat): nat {
    if |acts| == 0 then 0 else (if acts[0] == ProbeStep(i) then 1 else 0) + OwnSteps(acts[1..], i)
  }

  predicate NoBegin(acts: seq<Action>, i: nat) {
    forall k :: 0 <= k < |acts| ==> !(acts[k].Begin? && acts[k].probe == i)
  }

  /** A probe always has its next step ready, and however the other probes and the worker are
      scheduled a call returns after at most `|record| + 15` steps of its own. */
  lemma {:induction false} ProbeBounded(s: State, acts: seq<Action>, t: State, i: nat)
    requires Shape(s) && i < |s.probes| && Run(s, acts, t) && NoBegin(acts, i)
    ensures i < |t.probes| && OwnSteps(acts, i) + StepBound(t.probes[i]) <= StepBound(s.probes[i])
    ensures !t.probes[i].Idle? ==> Enabled(t, ProbeStep(i))
    decreases |acts|
  {
    if |acts| > 0 {
      var a := acts[0];
      var s' := Step(s, a);
      ShapeStep(s, a);
      if a == ProbeStep(i) {
        TurnProgress(s.probes[i], Outside(s), s.blocks[Target(s.probes[i])], i);
      } else {
        assert !(acts[0].Begin? && acts[0].probe == i);
        assert s'.probes[i] == s.probes[i];
      }
      ProbeBounded(s', acts[1..], t, i);
    }
  }

  lemma CallBound(s: State, acts: seq<Action>, t: State, i: nat, rank: nat, r: seq<byte>)
    requires Shape(s) && i < |s.probes| && Enabled(s, Begin(i, rank, r))
    requires Run(Step(s, Begin(i, rank, r)), acts, t) && NoBegin(acts, i)
    ensures OwnSteps(acts, i) <= |r| + 15
    ensures OwnSteps(acts, i) == |r| + 15 ==> i < |t.probes| && t.probes[i].Idle?
  {
    ShapeStep(s, Begin(i, rank, r));
    ProbeBounded(Step(s, Begin(i, rank, r)), acts, t, i);
  }

  // ---------- accounting ----------

  lemma {:induction false} TallyUpdate(ps: seq<Probe>, i: nat, p: Probe, f: Probe -> bool)
    requires i < |ps|
    ensures Tally(ps[i := p], f) == Tally(ps, f) - (if f(ps[i]) then 1 else 0) + (if f(p) then 1 else 0)
    decreases |ps|
  {
    if i == 0 {
      assert ps[i := p][1..] == ps[1..];
    } else {
      assert ps[i := p][1..] == ps[1..][i - 1 := p];
      TallyUpdate(ps[1..], i - 1, p, f);
    }
  }

  /** Every call is recorded, dropped, ignored for its rank or still running, and every stamped
      record is counted or held. */
  ghost predicate Accounted(s: State) {
    && s.attempts == s.recorded + s.dropped + s.ignored + Tally(s.probes, InCall)
    && |s.stamped| == s.recorded + Tally(s.probes, HoldsRecord)
  }

  lemma AccountedTurn(s: State, i: nat)
    requires Shape(s) && i < |s.probes| && !s.probes[i].Idle? && Accounted(s)
    ensures Accounted(StepProbe(s, i))
  {
    var p' := StepProbe(s, i).probes[i];
    TallyUpdate(s.probes, i, p', InCall);
    TallyUpdate(s.probes, i, p', HoldsRecord);
  }

  lemma AccountedStep(s: State, a: Action)
    requires Shape(s) && Enabled(s, a) && Accounted(s)
    ensures Accounted(Step(s, a))
  {
    hide Shape;
    if a.ProbeStep? {
      AccountedTurn(s, a.probe);
    } else if a.Begin? {
      TallyUpdate(s.probes, a.probe, Trying(a.record, 0), InCall);
      TallyUpdate(s.probes, a.probe, Trying(a.record, 0), HoldsRecord);
    }
  }

  lemma {:induction false} AccountedRun(s: State, acts: seq<Action>, t: State)
    requires Shape(s) && Accounted(s) && Run(s, acts, t)
    ensures Accounted(t)
    decreases |acts|
  {
    if |acts| > 0 {
      AccountedStep(s, acts[0]);
      ShapeStep(s, acts[0]);
      AccountedRun(Step(s, acts[0]), acts[1..], t);
    }
  }

  lemma {:induction false} TallyIdle(ps: seq<Probe>, f: Probe -> bool)
    requires forall i :: 0 <= i < |ps| ==> ps[i].Idle?
    requires !f(Idle)
    ensures Tally(ps, f) == 0
  {
    if |ps| > 0 {
      TallyIdle(ps[1..], f);
    }
  }

  lemma ReachableAccounted(t: State)
    requires Reachable(t)
    ensures Accounted(t)
  {
    var n: nat, zero: seq<byte>, acts :| |zero| == CAPACITY && Run(Init(n, zero), acts, t);
    var s := Init(n, zero);
    TallyIdle(s.probes, InCall);
    TallyIdle(s.probes, HoldsRecord);
    FaithfulInit(n, zero);
    AccountedRun(s, acts, t);
  }

  /** The counts that go out with a chunk are those of all calls begun by then, but for the ignored ones and
      those under way. */
  predicate Settles(c: Chunk) {
    c.attempts == c.recorded + c.dropped + c.ignored + c.running
  }

  /** So it is for every chunk, and none says more than is true by now. */
  ghost predicate CountsHold(s: State) {
    forall c <- s.chunks ::
      Settles(c) && c.attempts <= s.attempts && c.recorded <= s.recorded && c.dropped <= s.dropped && c.ignored <= s.ignored
  }

  lemma CountsGrow(s: State, a: Action)
    requires Shape(s) && Enabled(s, a)
    ensures var t := Step(s, a);
            && s.attempts <= t.attempts && s.recorded <= t.recorded && s.dropped <= t.dropped && s.ignored <= t.ignored
  {
    hide Tally, StampedRecords;
  }

  lemma CountsHoldStep(s: State, a: Action)
    requires Shape(s) && Enabled(s, a) && Accounted(s) && CountsHold(s)
    ensures CountsHold(Step(s, a))
  {
    CountsGrow(s, a);
    ChunksChange(s, a);
    if a.WorkerStep? && s.worker.Flushing? {
      var c := FlushedChunk(s, s.worker.buf, s.worker.len);
      assert Settles(c) && c.attempts == s.attempts;
    }
    hide Step, FlushedChunk, Accounted, Settles, Shape;
  }

  lemma {:induction false} CountsHoldRun(s: State, acts: seq<Action>, t: State)
    requires Shape(s) && Accounted(s) && CountsHold(s) && Run(s, acts, t)
    ensures CountsHold(t)
    decreases |acts|
  {
    hide CountsHold, Accounted;
    if |acts| > 0 {
      AccountedStep(s, acts[0]);
      CountsHoldStep(s, acts[0]);
      ShapeStep(s, acts[0]);
      CountsHoldRun(Step(s, acts[0]), acts[1..], t);
    }
  }

  lemma ReachableCounts(t: State)
    requires Reachable(t)
    ensures CountsHold(t)
  {
    var n: nat, zero: seq<byte>, acts :| |zero| == CAPACITY && Run(Init(n, zero), acts, t);
    var s := Init(n, zero);
    TallyIdle(s.probes, InCall);
    TallyIdle(s.probes, HoldsRecord);
    FaithfulInit(n, zero);
    CountsHoldRun(s, acts, t);
  }

  // ---------- the totals that go out with chunks ----------

  /** The total that goes out with a chunk, and the calls not counted yet, make up the records flushed so
      far and those stamped in the other block. */
  predicate Books(c: Chunk, flushed: nat) {
    c.recorded + c.late == flushed + c.ahead
  }

  /** The books of every chunk, when `n` records have been stamped. */
  ghost predicate AllBooked(chunks: seq<Chunk>, n: nat) {
    forall i :: 0 <= i < |chunks| ==>
      Books(chunks[i], |Flushed(chunks[..i + 1])|) && chunks[i].recorded + chunks[i].late <= n
  }

  ghost predicate Totals(s: State) {
    AllBooked(s.chunks, |s.stamped|)
  }

  lemma BookedAppend(chunks: seq<Chunk>, n: nat, c: Chunk)
    requires AllBooked(chunks, n) && Books(c, |Flushed(chunks + [c])|) && c.recorded + c.late <= n
    ensures AllBooked(chunks + [c], n)
  {
    hide Flushed, Books;
    var all := chunks + [c];
    assert all[..|chunks| + 1] == all;
    assert forall i :: 0 <= i < |chunks| ==> all[..i + 1] == chunks[..i + 1] && all[i] == chunks[i];
  }

  lemma ConservedSize(s: State)
    requires |s.blocks| == 2 && Conserved(s)
    ensures |s.stamped| == |Flushed(s.chunks)| + |Pending(s, 0)| + |Pending(s, 1)|
  {
    hide Pending, Flushed;
    assert |multiset(s.stamped)| == |multiset(Flushed(s.chunks))| + |multiset(Pending(s, 0))| + |multiset(Pending(s, 1))|;
  }

  lemma PendingOther(s: State)
    requires Shape(s) && s.worker.Flushing?
    ensures Pending(s, 1 - s.worker.buf) == StampedRecords(s.blocks[1 - s.worker.buf].slots)
  {
  }

  /** What a flush leaves: every stamped record is in a chunk or in the other block. */
  lemma FlushSizes(s: State)
    requires Inv(s) && s.clean && Conserved(s) && s.worker.Flushing?
    ensures |s.stamped| == |Flushed(StepWorker(s).chunks)| + |StampedRecords(s.blocks[1 - s.worker.buf].slots)|
  {
    hide Conserved, StepWorker, Pending, Flushed, StampedRecords, Safe, Counted;
    FlushMoves(s);
    PendingOther(s);
    ConservedSize(s);
    hide Inv, Shape;
    assert s.worker.buf == 0 || s.worker.buf == 1;
  }

  lemma TotalsFlush(s: State)
    requires Inv(s) && s.clean && Conserved(s) && Accounted(s) && Totals(s) && s.worker.Flushing?
    ensures Totals(StepWorker(s))
  {
    hide Conserved, Flushed, StampedRecords, AllBooked, Safe, Counted, Tally;
    FlushSizes(s);
    if s.worker.len > 0 {
      BookedAppend(s.chunks, |s.stamped|, FlushedChunk(s, s.worker.buf, s.worker.len));
    }
  }

  lemma HistoryGrows(s: State, a: Action)
    requires Shape(s) && Enabled(s, a) && !(a.WorkerStep? && s.worker.Flushing?)
    ensures Step(s, a).chunks == s.chunks && |Step(s, a).stamped| >= |s.stamped|
  {
    hide Tally, StampedRecords;
  }

  lemma TotalsStep(s: State, a: Action)
    requires Inv(s) && s.clean && Conserved(s) && Accounted(s) && Totals(s) && Enabled(s, a)
    ensures Totals(Step(s, a))
  {
    hide Conserved, Flushed, Books, Accounted, Safe, Counted;
    if a.WorkerStep? && s.worker.Flushing? {
      TotalsFlush(s);
    } else {
      HistoryGrows(s, a);
      hide Step;
    }
  }

  lemma {:induction false} TotalsRun(s: State, acts: seq<Action>, t: State)
    requires Faithful(s) && s.clean && Accounted(s) && Totals(s) && Run(s, acts, t) && WaitsEnd(s, acts, Calm)
    ensures Totals(t)
    decreases |acts|
  {
    if |acts| > 0 {
      var a := acts[0];
      CalmStep(s, a);
      FaithfulStep(s, a);
      AccountedStep(s, a);
      TotalsStep(s, a);
      hide Faithful, Accounted, Totals;
      TotalsRun(Step(s, a), acts[1..], t);
    }
  }

  /** In a run whose waits ended well: what each chunk's total says about the records flushed so far. */
  lemma CalmTotals(t: State)
    requires Attained(t, Calm)
    ensures Totals(t)
  {
    var n: nat, zero: seq<byte>, acts :|
      |zero| == CAPACITY && Run(Init(n, zero), acts, t) && WaitsEnd(Init(n, zero), acts, Calm);
    var s := Init(n, zero);
    TallyIdle(s.probes, InCall);
    TallyIdle(s.probes, HoldsRecord);
    FaithfulInit(n, zero);
    TotalsRun(s, acts, t);
  }

  // ---------- delivery ----------

  /** The event a record carries. */
  function EventOf(r: seq<byte>): Event {
    if |r| >= HEADER then
      var h := ReadHeader(r, 0);
      Event(h.rank, h.eventType, h.timestamp, r[HEADER..])
    else Event(0, 0, 0, [])
  }

  function Events(rs: seq<seq<byte>>): (es: seq<Event>)
    ensures |es| == |rs|
  {
    seq(|rs|, i requires 0 <= i < |rs| => EventOf(rs[i]))
  }

  ghost predicate GoodRecord(r: seq<byte>) {
    |r| >= HEADER && IsRecord(r, EventOf(r))
  }

  lemma EncodedIsGood(e: Event)
    requires Encodable(e)
    ensures GoodRecord(Encode(e)) && EventOf(Encode(e)) == e
  {
    EncodeIsRecord(e);
  }

  lemma {:induction false} GoodAreRecords(rs: seq<seq<byte>>)
    requires forall r <- rs :: GoodRecord(r)
    ensures AreRecords(rs, Events(rs))
    decreases |rs|
  {
    if |rs| > 0 {
      assert GoodRecord(rs[0]);
      GoodAreRecords(rs[1..]);
      assert Events(rs)[1..] == Events(rs[1..]);
    }
  }

  /** The decoder stops right behind the records of the chunk: no header fits there, or the length
      found there is zero or runs past the end. */
  predicate TailIdle(c: Chunk) {
    var used := |Concat(c.records)|;
    used + HEADER > |c.bytes| ||
    var len := ReadHeader(c.bytes, used).recordLen;
    len == 0 || used + len > |c.bytes|
  }

  /** What the bytes behind the records of a chunk decode to. */
  function Tail(c: Chunk): Decoded {
    var used := |Concat(c.records)|;
    if used <= |c.bytes| then DecodeFrom(c.bytes, |c.bytes|, used) else Decoded([], false)
  }

  function ChunkDecoded(c: Chunk): Decoded {
    DecodeFrom(c.bytes, |c.bytes|, 0)
  }

  lemma TailIdleIff(c: Chunk)
    requires ChunkOk(c)
    ensures TailIdle(c) <==> Tail(c) == Decoded([], false)
    ensures !c.overflow ==> TailIdle(c)
  {
  }

  /** A chunk decodes to its records followed by whatever the bytes behind them decode to, so it
      decodes to exactly its records if and only if the decoder's guard stops it there. Those bytes
      are absent when no reservation overflowed; otherwise they are left over from an earlier epoch. */
  lemma ChunkDecodes(c: Chunk)
    requires ChunkOk(c) && forall r <- c.records :: GoodRecord(r)
    ensures ChunkDecoded(c) == Decoded(Events(c.records) + Tail(c).events, Tail(c).fault)
    ensures ChunkDecoded(c) == Decoded(Events(c.records), false) <==> !c.overflow || TailIdle(c)
  {
    GoodAreRecords(c.records);
    var used := |Concat(c.records)|;
    assert c.bytes[0..used] == c.bytes[..used];
    DecodeThrough(c.records, Events(c.records), c.bytes, |c.bytes|, 0);
    TailIdleIff(c);
    if |Events(c.records) + Tail(c).events| == |Events(c.records)| {
      assert Tail(c).events == [];
    }
  }

  function DecodeChunks(chunks: seq<Chunk>): seq<Event> {
    if |chunks| == 0 then []
    else DecodeChunks(chunks[..|chunks| - 1]) + ChunkDecoded(chunks[|chunks| - 1]).events
  }

  /** The events decoded from behind the records of each chunk. */
  function Stale(chunks: seq<Chunk>): seq<Event> {
    if |chunks| == 0 then [] else Stale(chunks[..|chunks| - 1]) + Tail(chunks[|chunks| - 1]).events
  }

  predicate Faulty(chunks: seq<Chunk>) {
    exists c <- chunks :: ChunkDecoded(c).fault
  }

  lemma EventsConcat(a: seq<seq<byte>>, b: seq<seq<byte>>)
    ensures Events(a + b) == Events(a) + Events(b)
  {
  }

  lemma {:induction false} ChunksDecode(chunks: seq<Chunk>)
    requires forall c <- chunks :: ChunkOk(c)
    requires forall r <- Flushed(chunks) :: GoodRecord(r)
    ensures multiset(DecodeChunks(chunks)) == multiset(Events(Flushed(chunks))) + multiset(Stale(chunks))
    decreases |chunks|
  {
    if |chunks| > 0 {
      var front, c := chunks[..|chunks| - 1], chunks[|chunks| - 1];
      assert Flushed(chunks) == Flushed(front) + c.records;
      hide ChunkOk, GoodRecord;
      ChunksDecode(front);
      ChunkDecodes(c);
      EventsConcat(Flushed(front), c.records);
    }
  }

  lemma {:induction false} FlushedHolds(chunks: seq<Chunk>, c: Chunk)
    requires c in chunks
    ensures forall r <- c.records :: r in Flushed(chunks)
    decreases |chunks|
  {
    var front, last := chunks[..|chunks| - 1], chunks[|chunks| - 1];
    if c != last {
      assert c in front;
      FlushedHolds(front, c);
    }
  }

  lemma {:induction false} StaleEmpty(chunks: seq<Chunk>)
    ensures |Stale(chunks)| == 0 <==> forall c <- chunks :: |Tail(c).events| == 0
    decreases |chunks|
  {
    if |chunks| > 0 {
      var front, last := chunks[..|chunks| - 1], chunks[|chunks| - 1];
      hide Tail;
      StaleEmpty(front);
      assert forall c <- chunks :: c in front || c == last;
    }
  }

  /** Nothing stale is decoded exactly when the decoder's guard holds behind every chunk that
      overflowed. */
  lemma NothingStaleIff(chunks: seq<Chunk>)
    requires forall c <- chunks :: ChunkOk(c)
    requires forall r <- Flushed(chunks) :: GoodRecord(r)
    ensures |Stale(chunks)| == 0 && !Faulty(chunks) <==> forall c <- chunks :: c.overflow ==> TailIdle(c)
  {
    hide ChunkOk, GoodRecord;
    StaleEmpty(chunks);
    forall c <- chunks
      ensures (c.overflow ==> TailIdle(c)) <==> |Tail(c).events| == 0 && !ChunkDecoded(c).fault
    {
      FlushedHolds(chunks, c);
      ChunkDecodes(c);
      TailIdleIff(c);
      hide Tail, TailIdle, ChunkDecoded;
    }
    hide Tail, TailIdle, ChunkDecoded;
  }

  /** Where the decoder's guard holds, events come out in the order in which their space was claimed,
      chunk by chunk. */
  lemma {:induction false} ChunksInOrder(chunks: seq<Chunk>)
    requires forall c <- chunks :: ChunkOk(c) && (c.overflow ==> TailIdle(c))
    requires forall r <- Flushed(chunks) :: GoodRecord(r)
    ensures DecodeChunks(chunks) == Events(Flushed(chunks)) && !Faulty(chunks)
    decreases |chunks|
  {
    if |chunks| > 0 {
      var front, c := chunks[..|chunks| - 1], chunks[|chunks| - 1];
      assert Flushed(chunks) == Flushed(front) + c.records;
      hide ChunkOk, GoodRecord, TailIdle, ChunkDecoded;
      ChunksInOrder(front);
      ChunkDecodes(c);
      EventsConcat(Flushed(front), c.records);
      assert forall d <- chunks :: d in front || d == c;
    }
  }

  lemma {:induction false} EventsPermute(a: seq<seq<byte>>, b: seq<seq<byte>>)
    requires multiset(a) == multiset(b)
    ensures multiset(Events(a)) == multiset(Events(b))
    decreases |a|
  {
    hide EventOf;
    if |a| == 0 {
      assert |b| == |multiset(b)| == 0;
    } else {
      var x := a[|a| - 1];
      assert a == a[..|a| - 1] + [x];
      assert x in multiset(b);
      var j :| 0 <= j < |b| && b[j] == x;
      RemoveAt(b, j);
      Cancel(multiset(a[..|a| - 1]), multiset(b[..j] + b[j + 1..]), x);
      EventsPermute(a[..|a| - 1], b[..j] + b[j + 1..]);
      EventsConcat(a[..|a| - 1], [x]);
      RemoveAt(Events(b), j);
      EventsConcat(b[..j], b[j + 1..]);
      assert Events(b)[..j] == Events(b[..j]) && Events(b)[j + 1..] == Events(b[j + 1..]);
      assert Events([x]) == [EventOf(x)];
    }
  }

  lemma Cancel<T>(p: multiset<T>, q: multiset<T>, x: T)
    requires p + multiset{x} == q + multiset{x}
    ensures p == q
  {
    assert p == (p + multiset{x}) - multiset{x};
    assert q == (q + multiset{x}) - multiset{x};
  }

  lemma RemoveAt<T>(s: seq<T>, j: nat)
    requires j < |s|
    ensures multiset(s) == multiset(s[..j] + s[j + 1..]) + multiset{s[j]}
  {
    assert s == s[..j] + [s[j]] + s[j + 1..];
  }

  /** All calls have returned and the worker has flushed everything. */
  ghost predicate Settled(s: State) {
    && |s.blocks| == 2
    && (forall i :: 0 <= i < |s.probes| ==> s.probes[i].Idle?)
    && s.worker.Resting?
    && |s.blocks[0].slots| == 0 && |s.blocks[1].slots| == 0
  }

  lemma SettledFlushed(t: State)
    requires Attained(t, Calm) && Settled(t)
    ensures multiset(t.stamped) == multiset(Flushed(t.chunks))
    ensures |t.stamped| == |Flushed(t.chunks)| == t.recorded
    ensures t.attempts == t.recorded + t.dropped + t.ignored
    ensures forall c <- t.chunks :: ChunkOk(c)
  {
    CalmFaithful(t);
    AttainedReachable(t, Calm);
    ReachableAccounted(t);
    TallyIdle(t.probes, InCall);
    TallyIdle(t.probes, HoldsRecord);
    assert Pending(t, 0) == [] && Pending(t, 1) == [];
    assert |multiset(t.stamped)| == |multiset(Flushed(t.chunks))|;
  }

  /** Take any run whose drain waits all ended with the writer count at zero and the flip visible.
      Once the system has settled, decoding the chunks yields every event of a successful call
      exactly once, and besides them what the bytes behind overflowed chunks decode to. That extra
      part is nothing if and only if the decoder's guard stops it behind each of those chunks. */
  lemma EveryEventDelivered(t: State)
    requires Attained(t, Calm) && Settled(t)
    requires forall r <- t.stamped :: GoodRecord(r)
    ensures multiset(DecodeChunks(t.chunks)) == multiset(Events(t.stamped)) + multiset(Stale(t.chunks))
    ensures |DecodeChunks(t.chunks)| == t.recorded + |Stale(t.chunks)|
    ensures multiset(DecodeChunks(t.chunks)) == multiset(Events(t.stamped)) && !Faulty(t.chunks) <==>
            forall c <- t.chunks :: c.overflow ==> TailIdle(c)
    ensures t.attempts == t.recorded + t.dropped + t.ignored
  {
    SettledFlushed(t);
    hide ChunkOk, GoodRecord, Settled, Attained;
    forall r <- Flushed(t.chunks)
      ensures GoodRecord(r)
    {
      assert r in multiset(Flushed(t.chunks));
    }
    ChunksDecode(t.chunks);
    NothingStaleIff(t.chunks);
    EventsPermute(t.stamped, Flushed(t.chunks));
    SumSize(DecodeChunks(t.chunks), Events(t.stamped), Stale(t.chunks));
  }

  lemma SumSize<T>(all: seq<T>, a: seq<T>, b: seq<T>)
    requires multiset(all) == multiset(a) + multiset(b)
    ensures |all| == |a| + |b|
    ensures multiset(all) == multiset(a) <==> |b| == 0
  {
    assert |multiset(all)| == |multiset(a)| + |multiset(b)|;
  }
}
