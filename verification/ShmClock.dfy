/** Timestamps: a probe reads the clock after it has claimed its space. What holds of the stamps taken, the
    places given and the records of the file, in every run whose waits ended well. */
module ShmClock {
  import opened Options
  import opened Words
  import opened ShmBuffer
  import opened ShmRuns

  predicate Earlier(p: Place, q: Place) {
    p.turn < q.turn || (p.turn == q.turn && p.slot < q.slot)
  }

  predicate AtMost(p: Place, q: Place) {
    p == q || Earlier(p, q)
  }

  /** A step of a run whose waits end well. */
  ghost predicate CalmMove(s: State, a: Action) {
    && Inv(s) && s.clean && Enabled(s, a)
    && Inv(Step(s, a)) && Step(s, a).clean
  }

  // ---------- the clock ----------

  ghost predicate TickBetween(log: seq<Mark>, m: nat, n: nat)
    requires n <= |log|
  {
    exists j :: m < j < n && log[j].Ticked?
  }

  /** Stamps rise with the clock, and strictly exactly where it has moved on. */
  ghost predicate Timed(log: seq<Mark>, clock: nat) {
    && (forall m :: 0 <= m < |log| && log[m].Stamped? ==>
          log[m].time <= clock && (log[m].time < clock <==> TickBetween(log, m, |log|)))
    && (forall m, n :: 0 <= m < n < |log| && log[m].Stamped? && log[n].Stamped? ==>
          log[m].time <= log[n].time && (log[m].time < log[n].time <==> TickBetween(log, m, n)))
  }

  lemma BetweenAppend(log: seq<Mark>, x: Mark, m: nat, n: nat)
    requires n <= |log|
    ensures TickBetween(log + [x], m, n) <==> TickBetween(log, m, n)
    ensures m < |log| ==> (TickBetween(log + [x], m, |log| + 1) <==> TickBetween(log, m, |log|) || x.Ticked?)
  {
    var all := log + [x];
    assert forall j :: 0 <= j < |log| ==> all[j] == log[j];
    if TickBetween(log, m, n) {
      var j :| m < j < n && log[j].Ticked?;
      assert all[j].Ticked?;
    }
    if m < |log| && TickBetween(log, m, |log|) {
      var j :| m < j < |log| && log[j].Ticked?;
      assert all[j].Ticked?;
    }
    if m < |log| && x.Ticked? {
      assert all[|log|].Ticked?;
    }
  }

  lemma TimedTick(log: seq<Mark>, clock: nat, ns: nat)
    requires Timed(log, clock) && ns > 0
    ensures Timed(log + [Ticked], clock + ns)
  {
    hide TickBetween;
    var all := log + [Ticked];
    forall m | 0 <= m < |all| && all[m].Stamped?
      ensures all[m].time <= clock + ns && (all[m].time < clock + ns <==> TickBetween(all, m, |all|))
    {
      BetweenAppend(log, Ticked, m, 0);
    }
    forall m, n | 0 <= m < n < |all| && all[m].Stamped? && all[n].Stamped?
      ensures all[m].time <= all[n].time && (all[m].time < all[n].time <==> TickBetween(all, m, n))
    {
      BetweenAppend(log, Ticked, m, n);
    }
  }

  lemma TimedStamp(log: seq<Mark>, clock: nat, x: Mark)
    requires Timed(log, clock) && x.Stamped? && x.time == clock
    ensures Timed(log + [x], clock)
  {
    hide TickBetween;
    var all := log + [x];
    NoneBetween(all, |log|);
    forall m | 0 <= m < |all| && all[m].Stamped?
      ensures all[m].time <= clock && (all[m].time < clock <==> TickBetween(all, m, |all|))
    {
      BetweenAppend(log, x, m, 0);
    }
    forall m, n | 0 <= m < n < |all| && all[m].Stamped? && all[n].Stamped?
      ensures all[m].time <= all[n].time && (all[m].time < all[n].time <==> TickBetween(all, m, n))
    {
      BetweenAppend(log, x, m, n);
    }
  }

  lemma NoneBetween(log: seq<Mark>, m: nat)
    requires m + 1 <= |log|
    ensures !TickBetween(log, m, m + 1)
  {
  }

  /** The record of a mark carries its time. */
  predicate Dated(x: Mark) {
    x.Stamped? && |x.record| >= STAMP_AT + 8 ==>
      x.record[STAMP_AT..STAMP_AT + 8] == ToLE(x.time % 0x1_0000_0000_0000_0000, 8)
  }

  lemma StampDated(r: seq<byte>, now: nat)
    ensures |r| >= STAMP_AT + 8 ==>
            Stamp(r, now)[STAMP_AT..STAMP_AT + 8] == ToLE(now % 0x1_0000_0000_0000_0000, 8)
  {
  }

  ghost predicate TimeOk(s: State) {
    Timed(s.log, s.clock) && forall x <- s.log :: Dated(x)
  }

  lemma TimeStep(s: State, a: Action)
    requires Shape(s) && Enabled(s, a) && TimeOk(s)
    ensures TimeOk(Step(s, a))
  {
    hide Timed;
    match a
    case Tick(ns) => TimedTick(s.log, s.clock, ns);
    case ProbeStep(i) =>
      if s.probes[i].Stamping? {
        StampDated(s.probes[i].record, s.clock);
        TimedStamp(s.log, s.clock, StampMark(s, i));
      }
    case _ => SameMarks(s, a);
  }

  lemma SameMarks(s: State, a: Action)
    requires Shape(s) && Enabled(s, a) && !a.Tick? && !a.ProbeStep?
    ensures Step(s, a).log == s.log && Step(s, a).clock == s.clock
  {
  }

  // ---------- turns ----------

  /** The block the probes see has the later turn exactly when the worker is at work on the other one. */
  predicate WorksOnOther(s: State) {
    (s.worker.Draining? && |s.unseen| == 0) || s.worker.Drained? || s.worker.Flushing? || s.worker.Recycling?
  }

  ghost predicate TurnsOk(s: State)
    requires Shape(s)
  {
    var seen, other := s.blocks[s.word.idx].turn, s.blocks[1 - s.word.idx].turn;
    if WorksOnOther(s) then other + 1 == seen else other == seen + 1
  }

  /** The turn of the next chunk, if there is one. */
  function NextTurn(s: State): nat
    requires Shape(s)
  {
    if WorksOnOther(s) && !s.worker.Recycling? then s.blocks[1 - s.word.idx].turn else s.blocks[s.word.idx].turn
  }

  predicate Rising(chunks: seq<Chunk>, next: nat) {
    && (forall c, d :: 0 <= c < d < |chunks| ==> chunks[c].turn < chunks[d].turn)
    && (forall c :: 0 <= c < |chunks| ==> chunks[c].turn < next)
  }

  ghost predicate TurnOk(s: State)
    requires Shape(s)
  {
    TurnsOk(s) && Rising(s.chunks, NextTurn(s))
  }

  lemma TurnKept(p: Probe, env: Env, blk: Block, me: nat)
    requires ProbeShape(p) && BlockShape(blk)
    ensures ProbeTurn(p, env, blk, me).block.turn == blk.turn
  {
  }

  lemma TurnProbe(s: State, i: nat)
    requires Shape(s) && i < |s.probes| && TurnOk(s)
    requires Shape(StepProbe(s, i))
    ensures TurnOk(StepProbe(s, i))
  {
    var p := s.probes[i];
    TurnKept(p, Outside(s), s.blocks[Target(p)], i);
    hide Rising, ProbeTurn;
  }

  /** What a step of the worker does to the history: a flush adds a chunk, recycling clears a block. */
  lemma WorkerHistory(s: State)
    requires Shape(s)
    ensures var s' := StepWorker(s);
            && s'.log == s.log && |s'.blocks| == 2
            && (forall b :: 0 <= b < 2 ==>
                  s'.blocks[b] == if s.worker == Recycling(b) then Recycled(s.blocks[b]) else s.blocks[b])
            && s'.chunks == if s.worker.Flushing? && s.worker.len > 0
                            then s.chunks + [FlushedChunk(s, s.worker.buf, s.worker.len)] else s.chunks
  {
    hide FlushedChunk;
  }

  lemma TurnFlush(s: State)
    requires Inv(s) && s.clean && TurnOk(s) && s.worker.Flushing?
    requires Shape(StepWorker(s))
    ensures TurnOk(StepWorker(s))
  {
    hide Sound, AllHeld, Counted, Tally, StampedRecords, Records, Marks;
  }

  lemma TurnWorker(s: State)
    requires CalmMove(s, WorkerStep) && TurnOk(s)
    ensures TurnOk(StepWorker(s))
  {
    hide Sound, AllHeld, Counted, Rising;
    if s.worker.Flushing? {
      hide StepWorker, TurnOk;
      TurnFlush(s);
    } else {
      WorkerHistory(s);
      hide FlushedChunk;
    }
  }

  lemma TurnStep(s: State, a: Action)
    requires CalmMove(s, a) && TurnOk(s)
    ensures TurnOk(Step(s, a))
  {
    match a
    case ProbeStep(i) => TurnProbe(s, i);
    case WorkerStep => TurnWorker(s);
    case _ => TurnOther(s, a);
  }

  lemma TurnOther(s: State, a: Action)
    requires CalmMove(s, a) && TurnOk(s) && !a.ProbeStep? && !a.WorkerStep?
    ensures TurnOk(Step(s, a))
  {
    hide Sound, AllHeld, Counted, Rising;
  }

  // ---------- a call that begins later gets a later place ----------

  /** The call has not taken its stamp yet and may still do so. */
  predicate PreStamp(p: Probe) {
    p.Trying? || p.Loaded? || p.Registered? || p.Leaving? || p.Verified? || p.Stamping?
  }

  /** The first place the call can still get, or the place it has. */
  function Reach(s: State, i: nat): Place
    requires Shape(s) && i < |s.probes|
  {
    var p := s.probes[i];
    if p.Stamping? then Place(s.blocks[p.buf].turn, p.slot)
    else if p.Verified? then Place(s.blocks[p.buf].turn, |s.blocks[p.buf].slots|)
    else Frontier(s)
  }

  /** Every mark among the first `n` is at an earlier place than `q`. */
  predicate AllEarlier(log: seq<Mark>, n: nat, q: Place) {
    n <= |log| && forall m :: 0 <= m < n && log[m].Stamped? ==> Earlier(log[m].place, q)
  }

  ghost predicate FloorOk(s: State, i: nat)
    requires Shape(s) && i < |s.probes|
  {
    PreStamp(s.probes[i]) ==>
      AtMost(s.calls[i].floor, Reach(s, i)) && AllEarlier(s.log, s.calls[i].since, s.calls[i].floor)
  }

  /** Whatever was stamped before a call began lies at an earlier place than the call's own record. */
  predicate InCallOrder(log: seq<Mark>) {
    forall n :: 0 <= n < |log| && log[n].Stamped? ==> log[n].since <= n && AllEarlier(log, log[n].since, log[n].place)
  }

  ghost predicate OrderOk(s: State)
    requires Shape(s)
  {
    && (forall i :: 0 <= i < |s.probes| ==> FloorOk(s, i))
    && AllEarlier(s.log, |s.log|, Frontier(s))
    && InCallOrder(s.log)
  }

  lemma EarlierOn(log: seq<Mark>, n: nat, q: Place, q': Place)
    requires AllEarlier(log, n, q) && AtMost(q, q')
    ensures AllEarlier(log, n, q')
  {
  }

  lemma EarlierAppend(log: seq<Mark>, x: Mark, n: nat, q: Place)
    requires AllEarlier(log, n, q)
    ensures AllEarlier(log + [x], n, q)
    ensures n == |log| && (x.Stamped? ==> Earlier(x.place, q)) ==> AllEarlier(log + [x], n + 1, q)
  {
    assert forall m :: 0 <= m < |log| ==> (log + [x])[m] == log[m];
  }

  lemma OrderAppend(log: seq<Mark>, x: Mark)
    requires InCallOrder(log)
    requires x.Stamped? ==> AllEarlier(log, x.since, x.place)
    ensures InCallOrder(log + [x])
  {
    var all := log + [x];
    forall n | 0 <= n < |all| && all[n].Stamped?
      ensures all[n].since <= n && AllEarlier(all, all[n].since, all[n].place)
    {
      EarlierAppend(log, x, all[n].since, all[n].place);
    }
  }

  /** A block the probes see, or on which some probe is still active. */
  predicate Claimable(s: State, b: nat) {
    b == s.word.idx || !Quiet(s.probes, b)
  }

  lemma NotRecycling(s: State, b: nat)
    requires Inv(s) && s.clean && b < 2 && Claimable(s, b)
    ensures s.worker != Recycling(b)
  {
    if s.worker == Recycling(b) {
      DrainedQuiet(s, b);
    }
  }

  lemma SlotsProbe(s: State, i: nat, b: nat)
    requires Shape(s) && i < |s.probes| && b < 2
    ensures var s' := StepProbe(s, i);
            s'.blocks[b].turn == s.blocks[b].turn && |s'.blocks[b].slots| >= |s.blocks[b].slots|
  {
    var p := s.probes[i];
    TurnKept(p, Outside(s), s.blocks[Target(p)], i);
  }

  lemma SlotsWorker(s: State, b: nat)
    requires Shape(s) && b < 2 && s.worker != Recycling(b)
    ensures |StepWorker(s).blocks| == 2 && StepWorker(s).blocks[b] == s.blocks[b]
  {
    hide Tally, StampedRecords;
  }

  /** Such a block loses no reservation. */
  lemma SlotsStay(s: State, a: Action, b: nat)
    requires CalmMove(s, a) && b < 2 && Claimable(s, b)
    ensures Step(s, a).blocks[b].turn == s.blocks[b].turn
    ensures |Step(s, a).blocks[b].slots| >= |s.blocks[b].slots|
  {
    NotRecycling(s, b);
    hide Safe, Counted;
    match a
    case ProbeStep(i) => SlotsProbe(s, i, b);
    case WorkerStep => SlotsWorker(s, b);
    case _ =>
  }

  lemma WordKept(s: State, a: Action)
    requires Shape(s) && Enabled(s, a) && !a.Publish?
    ensures Step(s, a).word == s.word
  {
    hide Tally, StampedRecords;
  }

  lemma PublishRises(s: State)
    requires CalmMove(s, Publish) && TurnOk(s)
    ensures Frontier(s).turn < Frontier(Step(s, Publish)).turn
  {
    hide Sound, Counted, AllHeld, Rising;
  }

  lemma FrontierRises(s: State, a: Action)
    requires CalmMove(s, a) && TurnOk(s)
    ensures AtMost(Frontier(s), Frontier(Step(s, a)))
  {
    hide Safe, Counted, TurnOk, WorkerShape, ProbeShape;
    if a.Publish? {
      PublishRises(s);
      hide Step;
    } else {
      SlotsStay(s, a, s.word.idx);
      WordKept(s, a);
      hide Step;
    }
  }

  lemma ReachOther(s: State, a: Action, j: nat)
    requires CalmMove(s, a) && TurnOk(s) && j < |s.probes| && PreStamp(s.probes[j])
    requires |Step(s, a).probes| == |s.probes| && Step(s, a).probes[j] == s.probes[j]
    ensures AtMost(Reach(s, j), Reach(Step(s, a), j))
  {
    FrontierRises(s, a);
    var p := s.probes[j];
    if p.Verified? || p.Stamping? {
      assert Active(p, p.buf);
      SlotsStay(s, a, p.buf);
    }
    hide Safe, Counted, Step, TurnOk;
  }

  lemma ReachSelf(s: State, i: nat)
    requires CalmMove(s, ProbeStep(i)) && TurnOk(s) && PreStamp(s.probes[i]) && PreStamp(StepProbe(s, i).probes[i])
    ensures AtMost(Reach(s, i), Reach(StepProbe(s, i), i))
  {
    var p, s' := s.probes[i], StepProbe(s, i);
    FrontierRises(s, ProbeStep(i));
    SlotsProbe(s, i, Target(p));
    PlaceTurn(p, Outside(s), s.blocks[Target(p)], i);
    assert s'.probes[i] == ProbeTurn(p, Outside(s), s.blocks[Target(p)], i).probe && s'.word == s.word;
    hide Safe, Counted, TurnOk, StepProbe, ProbeTurn;
  }

  /** How a call comes to its place: it passes the epoch check on the block the probes see, and claims the
      next reservation there. */
  lemma PlaceTurn(p: Probe, env: Env, blk: Block, me: nat)
    requires ProbeShape(p) && BlockShape(blk) && PreStamp(p)
    ensures var q := ProbeTurn(p, env, blk, me).probe;
            PreStamp(q) ==>
              && !p.Stamping? && (p.Verified? ==> q.Stamping?)
              && (q.Stamping? ==> p.Verified? && q.buf == p.buf && q.slot == |blk.slots|)
              && (q.Verified? ==> q.buf == env.word.idx == Target(p))
  {
  }

  lemma StampBelow(s: State, i: nat)
    requires Inv(s) && s.clean && TurnOk(s) && i < |s.probes| && s.probes[i].Stamping?
    ensures Earlier(StampMark(s, i).place, Frontier(s)) && StampMark(s, i).place == Reach(s, i)
  {
    LinkedAt(s, i);
    StampTurn(s, i);
    hide Inv, TurnOk;
  }

  /** A probe about to stamp is in the block the probes see, or in the one of the turn before. */
  lemma StampTurn(s: State, i: nat)
    requires Inv(s) && s.clean && TurnOk(s) && i < |s.probes| && s.probes[i].Stamping?
    ensures var b := s.probes[i].buf; b == s.word.idx || s.blocks[b].turn < s.blocks[s.word.idx].turn
  {
    hide Safe, Counted, Rising, WorkerShape, BlockShape;
    assert s.probes[i].buf < 2;
    hide ProbeShape;
    StampHeld(s, i);
    DrainedSeen(s);
  }

  lemma StampHeld(s: State, i: nat)
    requires Inv(s) && s.clean && i < |s.probes| && s.probes[i].Stamping?
    ensures var b := s.probes[i].buf; b == s.word.idx || (s.worker.Draining? && s.worker.buf == b)
  {
    hide Sound, WorkerOk, Counted;
    assert Held(s.probes[i], s.word, s.worker);
  }

  /** A worker that waits for a block the probes do not see has its flip seen. */
  lemma DrainedSeen(s: State)
    requires Inv(s) && s.clean
    ensures Shape(s) && (s.worker.Draining? && s.worker.buf != s.word.idx ==> |s.unseen| == 0)
  {
    hide Sound, AllHeld, Counted;
  }

  lemma OrderStamp(s: State, i: nat)
    requires Inv(s) && s.clean && TurnOk(s) && OrderOk(s) && i < |s.probes| && s.probes[i].Stamping?
    ensures InCallOrder(s.log + [StampMark(s, i)])
    ensures AllEarlier(s.log + [StampMark(s, i)], |s.log| + 1, Frontier(s))
  {
    StampBelow(s, i);
    hide Safe, Counted, TurnOk, InCallOrder, AllEarlier;
    var x := StampMark(s, i);
    assert FloorOk(s, i);
    EarlierOn(s.log, x.since, s.calls[i].floor, x.place);
    OrderAppend(s.log, x);
    EarlierAppend(s.log, x, |s.log|, Frontier(s));
  }

  /** The marks after a step: at most one more. */
  lemma LogStep(s: State, a: Action)
    requires Shape(s) && Enabled(s, a)
    ensures var s' := Step(s, a);
            if a.Tick? then s'.log == s.log + [Ticked]
            else if a.ProbeStep? && s.probes[a.probe].Stamping? then s'.log == s.log + [StampMark(s, a.probe)]
            else s'.log == s.log
  {
    hide Tally, StampedRecords;
  }

  lemma OrderLog(s: State, a: Action)
    requires CalmMove(s, a) && TurnOk(s) && OrderOk(s)
    ensures var s' := Step(s, a); InCallOrder(s'.log) && AllEarlier(s'.log, |s'.log|, Frontier(s'))
  {
    FrontierRises(s, a);
    LogStep(s, a);
    if a.ProbeStep? && s.probes[a.probe].Stamping? {
      OrderStamp(s, a.probe);
    } else if a.Tick? {
      OrderAppend(s.log, Ticked);
      EarlierAppend(s.log, Ticked, |s.log|, Frontier(s));
    }
    hide Safe, Counted, TurnOk, Step, InCallOrder, AllEarlier;
    EarlierOn(Step(s, a).log, |Step(s, a).log|, Frontier(s), Frontier(Step(s, a)));
  }

  lemma FloorBegin(s: State, i: nat, rank: nat, r: seq<byte>)
    requires CalmMove(s, Begin(i, rank, r)) && OrderOk(s) && rank < MAX_LOCAL_RANKS
    ensures FloorOk(Step(s, Begin(i, rank, r)), i)
  {
    hide Safe, Counted, AllEarlier, InCallOrder;
  }

  /** Which probes a step leaves as they were. */
  lemma ProbesStep(s: State, a: Action, j: nat)
    requires Shape(s) && Enabled(s, a) && j < |s.probes|
    ensures |Step(s, a).probes| == |s.probes| == |Step(s, a).calls|
    ensures !((a.ProbeStep? || a.Begin?) && a.probe == j) ==>
            Step(s, a).probes[j] == s.probes[j] && Step(s, a).calls[j] == s.calls[j]
    ensures a.ProbeStep? ==> Step(s, a).calls == s.calls
    ensures a.Begin? && a.rank >= MAX_LOCAL_RANKS ==> Step(s, a).probes == s.probes && Step(s, a).calls == s.calls
  {
    ShapeStep(s, a);
    hide Tally, StampedRecords;
  }

  lemma EarlierGrows(s: State, a: Action, n: nat, q: Place)
    requires Shape(s) && Enabled(s, a) && AllEarlier(s.log, n, q)
    ensures AllEarlier(Step(s, a).log, n, q)
  {
    LogStep(s, a);
    hide Step, AllEarlier;
    if a.Tick? {
      EarlierAppend(s.log, Ticked, n, q);
    } else if a.ProbeStep? && s.probes[a.probe].Stamping? {
      EarlierAppend(s.log, StampMark(s, a.probe), n, q);
    }
  }

  lemma FloorStep(s: State, a: Action, j: nat)
    requires CalmMove(s, a) && TurnOk(s) && OrderOk(s) && j < |s.probes|
    requires j < |Step(s, a).probes|
    ensures FloorOk(Step(s, a), j)
  {
    hide Safe, Counted, TurnOk, AllEarlier, InCallOrder, Reach;
    ProbesStep(s, a, j);
    assert FloorOk(s, j);
    if a.Begin? && a.probe == j && a.rank < MAX_LOCAL_RANKS {
      FloorBegin(s, a.probe, a.rank, a.record);
    } else {
      if PreStamp(Step(s, a).probes[j]) {
        FloorKept(s, a, j);
      }
    }
  }

  lemma FloorKept(s: State, a: Action, j: nat)
    requires CalmMove(s, a) && TurnOk(s) && j < |s.probes| && FloorOk(s, j)
    requires j < |Step(s, a).probes| && PreStamp(Step(s, a).probes[j])
    requires !(a.Begin? && a.probe == j && a.rank < MAX_LOCAL_RANKS)
    ensures FloorOk(Step(s, a), j)
  {
    hide Safe, Counted, TurnOk, AllEarlier, Reach;
    ProbesStep(s, a, j);
    if a == ProbeStep(j) {
      StillPre(s.probes[j], Outside(s), s.blocks[Target(s.probes[j])], j);
      ReachSelf(s, j);
    } else {
      ReachOther(s, a, j);
    }
    EarlierGrows(s, a, s.calls[j].since, s.calls[j].floor);
    hide Step;
  }

  lemma StillPre(p: Probe, env: Env, blk: Block, me: nat)
    requires ProbeShape(p) && BlockShape(blk) && PreStamp(ProbeTurn(p, env, blk, me).probe)
    ensures PreStamp(p)
  {
  }

  lemma OrderStep(s: State, a: Action)
    requires CalmMove(s, a) && TurnOk(s) && OrderOk(s)
    ensures OrderOk(Step(s, a))
  {
    OrderLog(s, a);
    var s' := Step(s, a);
    forall j | 0 <= j < |s'.probes|
      ensures FloorOk(s', j)
    {
      ShapeStep(s, a);
      FloorStep(s, a, j);
    }
  }

  // ---------- every mark is in a block or in a chunk ----------

  /** Mark `m` was made for the record `r` at `place`. */
  predicate MarkAt(log: seq<Mark>, m: nat, place: Place, r: seq<byte>) {
    m < |log| && log[m].Stamped? && log[m].place == place && log[m].record == r
  }

  predicate SlotFiled(log: seq<Mark>, turn: nat, k: nat, sl: Slot) {
    sl.mark.Some? ==> MarkAt(log, sl.mark.value, Place(turn, k), sl.record)
  }

  predicate BlockFiled(log: seq<Mark>, blk: Block) {
    forall k :: 0 <= k < |blk.slots| ==> SlotFiled(log, blk.turn, k, blk.slots[k])
  }

  predicate ChunkFiled(log: seq<Mark>, c: Chunk) {
    && |c.marks| == |c.records|
    && forall k :: 0 <= k < |c.marks| ==> MarkAt(log, c.marks[k], Place(c.turn, k), c.records[k])
  }

  /** Reservations and chunks name the marks that were made for their records. */
  ghost predicate FiledOk(s: State)
    requires Shape(s)
  {
    BlockFiled(s.log, s.blocks[0]) && BlockFiled(s.log, s.blocks[1]) && forall c <- s.chunks :: ChunkFiled(s.log, c)
  }

  lemma BlockFiledAppend(log: seq<Mark>, x: Mark, blk: Block)
    requires BlockFiled(log, blk)
    ensures BlockFiled(log + [x], blk)
  {
    forall k | 0 <= k < |blk.slots|
      ensures SlotFiled(log + [x], blk.turn, k, blk.slots[k])
    {
      assert SlotFiled(log, blk.turn, k, blk.slots[k]);
    }
  }

  lemma ChunkFiledAppend(log: seq<Mark>, x: Mark, c: Chunk)
    requires ChunkFiled(log, c)
    ensures ChunkFiled(log + [x], c)
  {
    forall k | 0 <= k < |c.marks|
      ensures MarkAt(log + [x], c.marks[k], Place(c.turn, k), c.records[k])
    {
      assert MarkAt(log, c.marks[k], Place(c.turn, k), c.records[k]);
    }
  }

  lemma FiledAppend(s: State, x: Mark)
    requires Shape(s) && FiledOk(s)
    ensures var log := s.log + [x];
            && BlockFiled(log, s.blocks[0]) && BlockFiled(log, s.blocks[1])
            && forall c <- s.chunks :: ChunkFiled(log, c)
  {
    hide BlockFiled, ChunkFiled;
    BlockFiledAppend(s.log, x, s.blocks[0]);
    BlockFiledAppend(s.log, x, s.blocks[1]);
    forall c <- s.chunks
      ensures ChunkFiled(s.log + [x], c)
    {
      ChunkFiledAppend(s.log, x, c);
    }
  }

  /** A step other than stamping names no new mark and loses none. */
  lemma TurnFiled(p: Probe, env: Env, blk: Block, me: nat, log: seq<Mark>)
    requires ProbeShape(p) && BlockShape(blk) && BlockFiled(log, blk) && !p.Stamping?
    ensures BlockFiled(log, ProbeTurn(p, env, blk, me).block)
  {
    var blk' := ProbeTurn(p, env, blk, me).block;
    forall k | 0 <= k < |blk'.slots|
      ensures SlotFiled(log, blk'.turn, k, blk'.slots[k])
    {
      if k < |blk.slots| {
        assert SlotFiled(log, blk.turn, k, blk.slots[k]);
      }
    }
  }

  lemma StampFiled(blk: Block, r: seq<byte>, k: nat, log: seq<Mark>, time: nat, since: nat)
    requires BlockFiled(log, blk)
    ensures BlockFiled(log + [Stamped(Place(blk.turn, k), r, time, since)], StampSlot(blk, r, k, |log|))
  {
    var x := Stamped(Place(blk.turn, k), r, time, since);
    BlockFiledAppend(log, x, blk);
    var blk' := StampSlot(blk, r, k, |log|);
    forall j | 0 <= j < |blk'.slots|
      ensures SlotFiled(log + [x], blk'.turn, j, blk'.slots[j])
    {
      assert SlotFiled(log + [x], blk.turn, j, blk.slots[j]);
    }
  }

  lemma FiledProbe(s: State, i: nat)
    requires Shape(s) && i < |s.probes| && FiledOk(s)
    requires Shape(StepProbe(s, i))
    ensures FiledOk(StepProbe(s, i))
  {
    hide BlockFiled, ChunkFiled;
    var p := s.probes[i];
    if p.Stamping? {
      FiledAppend(s, StampMark(s, i));
      StampFiled(s.blocks[p.buf], Stamp(p.record, s.clock), p.slot, s.log, s.clock, s.calls[i].since);
      hide Stamp, StampSlot;
    } else {
      TurnFiled(p, Outside(s), s.blocks[Target(p)], i, s.log);
      hide ProbeTurn;
    }
  }

  /** The reservations of a block about to be flushed all have their mark. */
  lemma FlushMarked(s: State)
    requires Inv(s) && s.clean && s.worker.Flushing?
    ensures forall k :: 0 <= k < |s.blocks[s.worker.buf].slots| ==> s.blocks[s.worker.buf].slots[k].mark.Some?
  {
    var b := s.worker.buf;
    DrainedQuiet(s, b);
    DrainedFinished(s, b);
    assert BlockOk(s.blocks[b]);
    forall k | 0 <= k < |s.blocks[b].slots|
      ensures s.blocks[b].slots[k].mark.Some?
    {
      assert SlotOk(s.blocks[b].slots[k], s.blocks[b].data);
    }
  }

  lemma FlushFiled(s: State)
    requires Inv(s) && s.clean && s.worker.Flushing? && FiledOk(s)
    ensures ChunkFiled(s.log, FlushedChunk(s, s.worker.buf, s.worker.len))
  {
    hide Safe, Counted, Tally, StampedRecords, BlockFiled, ChunkFiled;
    FlushMarked(s);
    var blk, c := s.blocks[s.worker.buf], FlushedChunk(s, s.worker.buf, s.worker.len);
    assert BlockFiled(s.log, blk);
    BlockChunkFiled(s.log, blk, c);
  }

  lemma BlockChunkFiled(log: seq<Mark>, blk: Block, c: Chunk)
    requires BlockFiled(log, blk) && c.marks == Marks(blk.slots) && c.records == Records(blk.slots) && c.turn == blk.turn
    requires forall k :: 0 <= k < |blk.slots| ==> blk.slots[k].mark.Some?
    ensures ChunkFiled(log, c)
  {
    forall k | 0 <= k < |c.marks|
      ensures MarkAt(log, c.marks[k], Place(c.turn, k), c.records[k])
    {
      assert SlotFiled(log, blk.turn, k, blk.slots[k]);
    }
  }

  lemma FiledWorker(s: State)
    requires CalmMove(s, WorkerStep) && FiledOk(s)
    ensures FiledOk(StepWorker(s))
  {
    WorkerHistory(s);
    if s.worker.Flushing? {
      FlushFiled(s);
    }
    assert forall blk: Block :: BlockFiled(s.log, Recycled(blk));
    hide Safe, Counted, BlockFiled, ChunkFiled, FlushedChunk, StepWorker, Recycled;
  }

  lemma FiledOther(s: State, a: Action)
    requires Shape(s) && Enabled(s, a) && !a.ProbeStep? && !a.WorkerStep? && FiledOk(s)
    requires Shape(Step(s, a))
    ensures FiledOk(Step(s, a))
  {
    hide BlockFiled, ChunkFiled;
    if a.Tick? {
      FiledAppend(s, Ticked);
    }
  }

  lemma FiledStep(s: State, a: Action)
    requires CalmMove(s, a) && FiledOk(s)
    ensures FiledOk(Step(s, a))
  {
    hide FiledOk, Safe, Counted;
    match a
    case ProbeStep(i) => FiledProbe(s, i);
    case WorkerStep => FiledWorker(s);
    case _ => FiledOther(s, a);
  }

  predicate InChunk(c: Chunk, m: nat) {
    exists k :: 0 <= k < |c.marks| && c.marks[k] == m
  }

  predicate InBlock(blk: Block, m: nat) {
    exists k :: 0 <= k < |blk.slots| && blk.slots[k].mark == Some(m)
  }

  /** Mark `m` is named by a chunk, or by a reservation that is not part of one yet. */
  ghost predicate Stored(s: State, m: nat)
    requires |s.blocks| == 2
  {
    || (exists c <- s.chunks :: InChunk(c, m))
    || (exists b :: 0 <= b < 2 && s.worker != Recycling(b) && InBlock(s.blocks[b], m))
  }

  ghost predicate StoredOk(s: State)
    requires Shape(s)
  {
    forall m :: 0 <= m < |s.log| && s.log[m].Stamped? ==> Stored(s, m)
  }

  lemma TurnStored(p: Probe, env: Env, blk: Block, me: nat, m: nat)
    requires ProbeShape(p) && BlockShape(blk) && Linked(p, me, blk)
    ensures InBlock(blk, m) ==> InBlock(ProbeTurn(p, env, blk, me).block, m)
    ensures p.Stamping? ==> InBlock(ProbeTurn(p, env, blk, me).block, env.mark)
  {
    var blk' := ProbeTurn(p, env, blk, me).block;
    if InBlock(blk, m) {
      var k :| 0 <= k < |blk.slots| && blk.slots[k].mark == Some(m);
      assert blk'.slots[k].mark == Some(m);
    }
    if p.Stamping? {
      assert blk'.slots[p.slot].mark == Some(env.mark);
    }
  }

  lemma StoredNew(s: State, i: nat)
    requires Inv(s) && s.clean && i < |s.probes| && s.probes[i].Stamping?
    ensures |StepProbe(s, i).blocks| == 2 && Stored(StepProbe(s, i), |s.log|)
  {
    LinkedAt(s, i);
    NotStampingRecycled(s, i);
    hide Safe, Counted;
    var p := s.probes[i];
    TurnStored(p, Outside(s), s.blocks[p.buf], i, 0);
    hide InBlock, InChunk, ProbeTurn, Linked;
    assert InBlock(StepProbe(s, i).blocks[p.buf], |s.log|);
  }

  lemma StoredOld(s: State, i: nat, m: nat)
    requires Inv(s) && s.clean && i < |s.probes| && Stored(s, m)
    ensures |StepProbe(s, i).blocks| == 2 && Stored(StepProbe(s, i), m)
  {
    LinkedAt(s, i);
    hide Inv, Stored, StepProbe;
    var p := s.probes[i];
    TurnStored(p, Outside(s), s.blocks[Target(p)], i, m);
    StoredTurn(s, i, m);
  }

  lemma StoredProbe(s: State, i: nat)
    requires CalmMove(s, ProbeStep(i)) && StoredOk(s)
    ensures StoredOk(StepProbe(s, i))
  {
    LogStep(s, ProbeStep(i));
    hide Safe, Counted, Stored, StepProbe, StampMark;
    var s' := StepProbe(s, i);
    forall m | 0 <= m < |s'.log| && s'.log[m].Stamped?
      ensures Stored(s', m)
    {
      if m < |s.log| {
        assert s'.log[m] == s.log[m];
        StoredOld(s, i, m);
      } else {
        StoredNew(s, i);
      }
    }
  }

  lemma NotStampingRecycled(s: State, i: nat)
    requires Inv(s) && s.clean && i < |s.probes| && s.probes[i].Stamping?
    ensures s.worker != Recycling(s.probes[i].buf)
  {
    assert Active(s.probes[i], s.probes[i].buf);
    NotRecycling(s, s.probes[i].buf);
  }

  lemma StoredTurn(s: State, i: nat, m: nat)
    requires Shape(s) && i < |s.probes| && Stored(s, m)
    requires var p := s.probes[i];
             InBlock(s.blocks[Target(p)], m) ==> InBlock(ProbeTurn(p, Outside(s), s.blocks[Target(p)], i).block, m)
    ensures |StepProbe(s, i).blocks| == 2 && Stored(StepProbe(s, i), m)
  {
    hide InBlock, InChunk, ProbeTurn;
    var s' := StepProbe(s, i);
    if b :| 0 <= b < 2 && s.worker != Recycling(b) && InBlock(s.blocks[b], m) {
      assert s'.worker != Recycling(b) && InBlock(s'.blocks[b], m);
    }
  }

  lemma FlushStored(s: State, m: nat)
    requires Inv(s) && s.clean && s.worker.Flushing? && InBlock(s.blocks[s.worker.buf], m)
    ensures s.worker.len > 0 && InChunk(FlushedChunk(s, s.worker.buf, s.worker.len), m)
  {
    FlushOk(s);
    hide Safe, Counted, Tally, StampedRecords;
    var blk, c := s.blocks[s.worker.buf], FlushedChunk(s, s.worker.buf, s.worker.len);
    var k :| 0 <= k < |blk.slots| && blk.slots[k].mark == Some(m);
    assert c.marks[k] == m;
  }

  lemma StoredWorkerOne(s: State, m: nat)
    requires CalmMove(s, WorkerStep) && Stored(s, m)
    ensures Stored(StepWorker(s), m)
  {
    WorkerHistory(s);
    WorkerMoves(s);
    var s' := StepWorker(s);
    if b :| 0 <= b < 2 && s.worker != Recycling(b) && InBlock(s.blocks[b], m) {
      if s.worker.Flushing? && s.worker.buf == b {
        FlushStored(s, m);
        hide Inv, InBlock, InChunk, FlushedChunk, StepWorker;
        assert FlushedChunk(s, b, s.worker.len) in s'.chunks;
      } else {
        hide Inv, InBlock, InChunk, FlushedChunk, StepWorker;
        assert s'.worker != Recycling(b) && InBlock(s'.blocks[b], m);
      }
    } else {
      hide Inv, InBlock, InChunk, FlushedChunk, StepWorker;
    }
  }

  lemma WorkerMoves(s: State)
    requires Shape(s)
    ensures forall b :: StepWorker(s).worker == Recycling(b) ==> s.worker.Flushing? && s.worker.buf == b
  {
    hide FlushedChunk;
  }

  lemma StoredWorker(s: State)
    requires CalmMove(s, WorkerStep) && StoredOk(s)
    ensures StoredOk(StepWorker(s))
  {
    WorkerHistory(s);
    hide Safe, Counted, Stored, StepWorker;
    forall m | 0 <= m < |s.log| && s.log[m].Stamped?
      ensures Stored(StepWorker(s), m)
    {
      StoredWorkerOne(s, m);
    }
  }

  lemma StoredOther(s: State, a: Action)
    requires Shape(s) && Enabled(s, a) && !a.ProbeStep? && !a.WorkerStep? && StoredOk(s)
    requires Shape(Step(s, a))
    ensures StoredOk(Step(s, a))
  {
    hide InBlock, InChunk;
    var s' := Step(s, a);
    assert s'.blocks == s.blocks && s'.chunks == s.chunks;
    assert forall b :: s'.worker == Recycling(b) ==> s.worker == Recycling(b);
    LogStep(s, a);
    hide Step;
    forall m | 0 <= m < |s'.log| && s'.log[m].Stamped?
      ensures Stored(s', m)
    {
      assert m < |s.log| && s'.log[m] == s.log[m];
      assert Stored(s, m);
    }
  }

  lemma StoredStep(s: State, a: Action)
    requires CalmMove(s, a) && StoredOk(s)
    ensures StoredOk(Step(s, a))
  {
    hide StoredOk, Safe, Counted;
    match a
    case ProbeStep(i) => StoredProbe(s, i);
    case WorkerStep => StoredWorker(s);
    case _ => StoredOther(s, a);
  }

  // ---------- whole runs ----------

  /** What a run whose waits end well keeps about stamps and places. */
  ghost predicate History(s: State) {
    Inv(s) && s.clean && TimeOk(s) && TurnOk(s) && OrderOk(s) && FiledOk(s) && StoredOk(s)
  }

  lemma HistoryStep(s: State, a: Action)
    requires History(s) && Enabled(s, a) && (EndsWait(s, a) ==> Calm(s))
    ensures History(Step(s, a))
  {
    CalmStep(s, a);
    hide Safe, Counted, TimeOk, TurnOk, OrderOk, FiledOk, StoredOk, Step;
    TimeStep(s, a);
    TurnStep(s, a);
    OrderStep(s, a);
    FiledStep(s, a);
    StoredStep(s, a);
  }

  lemma {:induction false} HistoryRun(s: State, acts: seq<Action>, t: State)
    requires History(s) && Run(s, acts, t) && WaitsEnd(s, acts, Calm)
    ensures History(t)
    decreases |acts|
  {
    hide History, Step;
    if |acts| > 0 {
      HistoryStep(s, acts[0]);
      HistoryRun(Step(s, acts[0]), acts[1..], t);
    }
  }

  lemma HistoryInit(n: nat, zero: seq<byte>)
    requires |zero| == CAPACITY
    ensures History(Init(n, zero))
  {
    FaithfulInit(n, zero);
    hide Safe, Counted;
  }

  lemma CalmHistory(t: State)
    requires Attained(t, Calm)
    ensures History(t)
  {
    hide History;
    var n: nat, zero: seq<byte>, acts :|
      |zero| == CAPACITY && Run(Init(n, zero), acts, t) && WaitsEnd(Init(n, zero), acts, Calm);
    HistoryInit(n, zero);
    HistoryRun(Init(n, zero), acts, t);
  }
}
