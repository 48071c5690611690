/** What holds over whole runs of the double buffer: no record is torn, lost or duplicated as long as
    every drain wait ends with the writer count at zero and the flip visible to the probes. */
module ShmRuns {
  import opened Options
  import opened Words
  import opened ShmBuffer
  import Framing

  // ---------- runs ----------

  /** `acts` leads from `s` to `t`, each action being possible when it happens. */
  ghost predicate Run(s: State, acts: seq<Action>, t: State)
    decreases |acts|
  {
    if |acts| == 0 then s == t
    else Shape(s) && Enabled(s, acts[0]) && Run(Step(s, acts[0]), acts[1..], t)
  }

  ghost predicate Reachable(t: State) {
    exists n: nat, zero: seq<byte>, acts: seq<Action> :: |zero| == CAPACITY && Run(Init(n, zero), acts, t)
  }

  // ---------- how drain waits end ----------

  /** The action ends a drain wait: the count has reached zero, or 500 polls have been made. */
  predicate EndsWait(s: State, a: Action)
    requires Shape(s)
  {
    a.WorkerStep? && s.worker.Draining? && (s.blocks[s.worker.buf].writers <= 0 || s.worker.spins >= MAX_SPINS)
  }

  /** The count the worker reads is zero. */
  predicate NoWriters(s: State) {
    s.worker.Draining? && s.worker.buf < |s.blocks| && s.blocks[s.worker.buf].writers <= 0
  }

  /** The probes see the worker's flip. */
  predicate FlipSeen(s: State) {
    |s.unseen| == 0
  }

  predicate Calm(s: State) {
    NoWriters(s) && FlipSeen(s)
  }

  /** Every drain wait of the run ends in a state that meets `ok`. */
  ghost predicate WaitsEnd(s: State, acts: seq<Action>, ok: State -> bool)
    decreases |acts|
  {
    |acts| > 0 && Shape(s) && Enabled(s, acts[0]) ==>
      (EndsWait(s, acts[0]) ==> ok(s)) && WaitsEnd(Step(s, acts[0]), acts[1..], ok)
  }

  /** Some run from an initial state, in which every drain wait ends as `ok` says, leads to `t`. */
  ghost predicate Attained(t: State, ok: State -> bool) {
    exists n: nat, zero: seq<byte>, acts: seq<Action> ::
      |zero| == CAPACITY && Run(Init(n, zero), acts, t) && WaitsEnd(Init(n, zero), acts, ok)
  }

  lemma AttainedReachable(t: State, ok: State -> bool)
    requires Attained(t, ok)
    ensures Reachable(t)
  {
    var n: nat, zero: seq<byte>, acts :|
      |zero| == CAPACITY && Run(Init(n, zero), acts, t) && WaitsEnd(Init(n, zero), acts, ok);
  }

  // ---------- chunks ----------

  /** The chunk starts with its records, and holds nothing else unless a reservation overflowed. */
  ghost predicate ChunkOk(c: Chunk) {
    && 0 < |c.bytes| <= CAPACITY
    && |Framing.Concat(c.records)| <= |c.bytes|
    && c.bytes[..|Framing.Concat(c.records)|] == Framing.Concat(c.records)
    && (!c.overflow ==> c.bytes == Framing.Concat(c.records))
  }

  ghost predicate Finished(slots: seq<Slot>) {
    forall k :: 0 <= k < |slots| ==> slots[k].done == |slots[k].record|
  }

  /** Finished reservations spell out their records from the start of the block. */
  lemma {:induction false} FinishedBytes(slots: seq<Slot>, data: seq<byte>)
    requires Contiguous(slots) && Finished(slots) && Used(slots) <= |data|
    requires forall k :: 0 <= k < |slots| ==> SlotOk(slots[k], data)
    ensures data[..Used(slots)] == Framing.Concat(Records(slots))
    decreases |slots|
  {
    if |slots| > 0 {
      var n := |slots| - 1;
      FinishedBytes(slots[..n], data);
      assert Records(slots) == Records(slots[..n]) + [slots[n].record];
      Framing.ConcatAppend(Records(slots[..n]), slots[n].record);
      assert SlotOk(slots[n], data);
      assert slots[n].record[..slots[n].done] == slots[n].record;
      assert data[..Used(slots)] == data[..Used(slots[..n])] + data[Used(slots[..n])..Used(slots)];
    }
  }

  lemma DrainedFinished(s: State, b: nat)
    requires Shape(s) && Safe(s) && b < 2
    requires Quiet(s.probes, b)
    ensures Finished(s.blocks[b].slots)
  {
    var slots := s.blocks[b].slots;
    assert BlockOk(s.blocks[b]) && AllOwned(slots, b, s.probes);
    forall k | 0 <= k < |slots|
      ensures slots[k].done == |slots[k].record|
    {
      assert SlotOk(slots[k], s.blocks[b].data);
      assert Owned(slots[k], k, b, s.probes);
      assert slots[k].owner < |s.probes| ==> !Active(s.probes[slots[k].owner], b);
    }
  }

  ghost predicate Exclusive(w: Worker, b: nat) {
    (w.Drained? || w.Flushing? || w.Recycling?) && w.buf == b
  }

  /** From the end of the drain wait until the block is recycled, no probe can write to it. */
  lemma DrainedQuiet(s: State, b: nat)
    requires Inv(s) && s.clean && Exclusive(s.worker, b)
    ensures Quiet(s.probes, b)
  {
    forall i | 0 <= i < |s.probes|
      ensures !Active(s.probes[i], b)
    {
      assert Held(s.probes[i], s.word, s.worker);
    }
  }

  lemma FlushOk(s: State)
    requires Inv(s) && s.clean && s.worker.Flushing?
    ensures s.worker.len > 0 ==> ChunkOk(FlushedChunk(s, s.worker.buf, s.worker.len))
    ensures s.worker.len == 0 ==> |s.blocks[s.worker.buf].slots| == 0
  {
    var b, len := s.worker.buf, s.worker.len;
    var blk := s.blocks[b];
    DrainedQuiet(s, b);
    DrainedFinished(s, b);
    assert BlockOk(blk);
    FinishedBytes(blk.slots, blk.data);
    assert blk.data[..len][..Used(blk.slots)] == blk.data[..Used(blk.slots)];
    if |blk.slots| > 0 {
      SlotEnd(blk.slots, 0);
      assert SlotOk(blk.slots[0], blk.data);
    }
  }

  // ---------- nothing lost, nothing duplicated ----------

  function Flushed(chunks: seq<Chunk>): seq<seq<byte>> {
    if |chunks| == 0 then [] else Flushed(chunks[..|chunks| - 1]) + chunks[|chunks| - 1].records
  }

  /** The stamped records of block `b` that are not yet part of a chunk. */
  function Pending(s: State, b: nat): seq<seq<byte>>
    requires |s.blocks| == 2 && b < 2
  {
    if s.worker == Recycling(b) then [] else StampedRecords(s.blocks[b].slots)
  }

  ghost predicate Conserved(s: State)
    requires |s.blocks| == 2
  {
    multiset(s.stamped) == multiset(Flushed(s.chunks)) + multiset(Pending(s, 0)) + multiset(Pending(s, 1))
  }

  ghost predicate Faithful(s: State) {
    && Inv(s)
    && (s.clean ==> Conserved(s) && forall c <- s.chunks :: ChunkOk(c))
  }

  /** Once they are finished, all reservations are stamped. */
  lemma {:induction false} FinishedStamped(slots: seq<Slot>, data: seq<byte>)
    requires Finished(slots) && forall k :: 0 <= k < |slots| ==> SlotOk(slots[k], data)
    ensures StampedRecords(slots) == Records(slots)
    decreases |slots|
  {
    if |slots| > 0 {
      var n := |slots| - 1;
      FinishedStamped(slots[..n], data);
      assert SlotOk(slots[n], data);
      assert Records(slots) == Records(slots[..n]) + [slots[n].record];
    }
  }

  /** Work on a stamped reservation, short of its record, changes no stamped record. */
  lemma {:induction false} StampedSame(slots: seq<Slot>, k: nat, sl: Slot)
    requires k < |slots| && sl.record == slots[k].record && sl.mark == slots[k].mark
    ensures StampedRecords(slots[k := sl]) == StampedRecords(slots)
    decreases |slots|
  {
    var n := |slots| - 1;
    if k < n {
      StampedSame(slots[..n], k, sl);
      assert slots[k := sl][..n] == slots[..n][k := sl];
    } else {
      assert slots[k := sl][..n] == slots[..n];
    }
  }

  lemma StampedLast(slots: seq<Slot>)
    requires |slots| > 0
    ensures var n := |slots| - 1;
            multiset(StampedRecords(slots)) ==
            multiset(StampedRecords(slots[..n])) + (if slots[n].mark.Some? then multiset{slots[n].record} else multiset{})
  {
  }

  lemma {:induction false} StampedOne(slots: seq<Slot>, k: nat, r: seq<byte>, mark: nat)
    requires k < |slots| && slots[k].mark.None?
    ensures var slots' := slots[k := slots[k].(record := r, mark := Some(mark))];
            multiset(StampedRecords(slots')) == multiset(StampedRecords(slots)) + multiset{r}
    decreases |slots|
  {
    hide StampedRecords;
    var n := |slots| - 1;
    var sl := slots[k].(record := r, mark := Some(mark));
    StampedLast(slots);
    StampedLast(slots[k := sl]);
    if k < n {
      StampedOne(slots[..n], k, r, mark);
      assert slots[k := sl][..n] == slots[..n][k := sl];
    } else {
      assert slots[k := sl][..n] == slots[..n];
    }
  }

  /** What a step of a probe adds to the stamped records. */
  function Added(p: Probe, now: nat): multiset<seq<byte>> {
    if p.Stamping? then multiset{Stamp(p.record, now)} else multiset{}
  }

  lemma TurnRecords(p: Probe, env: Env, blk: Block, me: nat)
    requires ProbeShape(p) && BlockShape(blk) && Linked(p, me, blk)
    ensures var t := ProbeTurn(p, env, blk, me);
            multiset(StampedRecords(t.block.slots)) == multiset(StampedRecords(blk.slots)) + Added(p, env.clock)
  {
    if p.Stamping? {
      StampedOne(blk.slots, p.slot, Stamp(p.record, env.clock), env.mark);
    } else if p.Verified? && blk.offset + |p.record| <= CAPACITY {
      var sl := Slot(blk.offset, p.record, 0, me, None);
      assert (blk.slots + [sl])[..|blk.slots|] == blk.slots;
    } else if p.Copying? && p.done < |p.record| {
      StampedSame(blk.slots, p.slot, blk.slots[p.slot].(done := p.done + 1));
    }
  }

  lemma PendingProbe(s: State, i: nat, b: nat)
    requires Inv(s) && s.clean && i < |s.probes| && b < 2
    requires |StepProbe(s, i).blocks| == 2
    ensures var p, s' := s.probes[i], StepProbe(s, i);
            multiset(Pending(s', b)) == multiset(Pending(s, b)) + if b == Target(p) then Added(p, s.clock) else multiset{}
  {
    LinkedAt(s, i);
    NotRecycled(s, i, b);
    hide Inv, StampedRecords, Added;
    var p := s.probes[i];
    if b == Target(p) {
      TurnRecords(p, Outside(s), s.blocks[b], i);
      hide ProbeTurn;
    }
  }

  lemma LinkedAt(s: State, i: nat)
    requires Inv(s) && s.clean && i < |s.probes|
    ensures Shape(s) && Linked(s.probes[i], i, s.blocks[Target(s.probes[i])])
  {
    hide BlockOk, AllOwned;
  }

  /** Nobody stamps into a block that is being recycled. */
  lemma NotRecycled(s: State, i: nat, b: nat)
    requires Inv(s) && s.clean && i < |s.probes| && b < 2
    ensures s.worker == Recycling(b) && b == Target(s.probes[i]) ==> Added(s.probes[i], s.clock) == multiset{}
  {
    assert Held(s.probes[i], s.word, s.worker);
    hide Sound;
  }

  lemma ConservedProbe(s: State, i: nat)
    requires Inv(s) && s.clean && i < |s.probes| && Conserved(s)
    requires |StepProbe(s, i).blocks| == 2
    ensures Conserved(StepProbe(s, i))
  {
    PendingProbe(s, i, 0);
    PendingProbe(s, i, 1);
    StampedProbe(s, i);
    TargetInside(s, i);
    hide Pending, StepProbe, Inv, Added;
  }

  lemma StampedProbe(s: State, i: nat)
    requires Shape(s) && i < |s.probes|
    ensures var s' := StepProbe(s, i);
            s'.chunks == s.chunks && multiset(s'.stamped) == multiset(s.stamped) + Added(s.probes[i], s.clock)
  {
    hide Stamp;
  }

  lemma TargetInside(s: State, i: nat)
    requires Shape(s) && i < |s.probes|
    ensures Target(s.probes[i]) < 2
  {
  }

  /** A flush moves the reservations of its block into a chunk. */
  lemma FlushMoves(s: State)
    requires Inv(s) && s.clean && s.worker.Flushing?
    ensures var b, s' := s.worker.buf, StepWorker(s);
            && b < 2 && |s'.blocks| == 2 && s'.stamped == s.stamped
            && Flushed(s'.chunks) == Flushed(s.chunks) + Pending(s, b)
            && Pending(s', b) == [] && Pending(s', 1 - b) == Pending(s, 1 - b)
  {
    FlushOk(s);
    FlushStamped(s);
    hide Inv, ChunkOk, StampedRecords;
    var s' := StepWorker(s);
    if s.worker.len > 0 {
      assert s'.chunks[..|s.chunks|] == s.chunks;
    } else {
      assert Records(s.blocks[s.worker.buf].slots) == [];
    }
  }

  /** Every reservation of a block about to be flushed has its stamp. */
  lemma FlushStamped(s: State)
    requires Inv(s) && s.clean && s.worker.Flushing?
    ensures StampedRecords(s.blocks[s.worker.buf].slots) == Records(s.blocks[s.worker.buf].slots)
  {
    var b := s.worker.buf;
    DrainedQuiet(s, b);
    DrainedFinished(s, b);
    assert BlockOk(s.blocks[b]);
    FinishedStamped(s.blocks[b].slots, s.blocks[b].data);
  }

  lemma ConservedFlush(s: State)
    requires Inv(s) && s.clean && s.worker.Flushing? && Conserved(s)
    requires |StepWorker(s).blocks| == 2
    ensures Conserved(StepWorker(s))
  {
    hide StepWorker, Pending, Flushed, Safe, Counted, Sound;
    FlushMoves(s);
    var b := s.worker.buf;
    MultisetMoves(Flushed(s.chunks), Pending(s, b), Pending(s, 1 - b));
  }

  lemma MultisetMoves<T>(f: seq<T>, p: seq<T>, q: seq<T>)
    ensures var all := multiset(f) + multiset(p) + multiset(q);
            && all == multiset(f) + multiset(q) + multiset(p)
            && all == multiset(f + p) + multiset([]) + multiset(q)
            && all == multiset(f + p) + multiset(q) + multiset([])
  {
  }

  lemma PendingWorker(s: State, b: nat)
    requires Shape(s) && b < 2 && !s.worker.Flushing?
    ensures |StepWorker(s).blocks| == 2 && Pending(StepWorker(s), b) == Pending(s, b)
    ensures StepWorker(s).chunks == s.chunks && StepWorker(s).stamped == s.stamped
  {
  }

  lemma ConservedWorker(s: State)
    requires Inv(s) && s.clean && Conserved(s)
    requires |StepWorker(s).blocks| == 2
    ensures Conserved(StepWorker(s))
  {
    if s.worker.Flushing? {
      ConservedFlush(s);
    } else {
      PendingWorker(s, 0);
      PendingWorker(s, 1);
    }
  }

  lemma ConservedStep(s: State, a: Action)
    requires Inv(s) && s.clean && Enabled(s, a) && Conserved(s)
    requires |Step(s, a).blocks| == 2
    ensures Conserved(Step(s, a))
  {
    hide Inv, Pending;
    match a
    case Begin(i, rank, r) => SamePending(s, a);
    case ProbeStep(i) => ConservedProbe(s, i);
    case Wake(force) => SamePending(s, a);
    case WorkerStep => ConservedWorker(s);
    case Publish => SamePending(s, a);
    case Tick(ns) => SamePending(s, a);
  }

  lemma SamePending(s: State, a: Action)
    requires Inv(s) && Enabled(s, a) && !a.ProbeStep? && !a.WorkerStep?
    ensures var s' := Step(s, a);
            && s'.stamped == s.stamped && s'.chunks == s.chunks && |s'.blocks| == 2
            && Pending(s', 0) == Pending(s, 0) && Pending(s', 1) == Pending(s, 1)
  {
  }

  lemma FaithfulStep(s: State, a: Action)
    requires Faithful(s) && Enabled(s, a)
    ensures Faithful(Step(s, a))
  {
    InvStep(s, a);
    hide Step, Conserved, ChunkOk;
    CleanBefore(s, a);
    TwoBlocks(Step(s, a));
    if s.clean {
      ConservedStep(s, a);
      ChunksStep(s, a);
    }
  }

  lemma TwoBlocks(s: State)
    requires Inv(s)
    ensures |s.blocks| == 2
  {
  }

  /** Only a flush adds a chunk. */
  lemma ChunksChange(s: State, a: Action)
    requires Shape(s) && Enabled(s, a)
    ensures Step(s, a).chunks ==
            if a.WorkerStep? && s.worker.Flushing? && s.worker.len > 0
            then s.chunks + [FlushedChunk(s, s.worker.buf, s.worker.len)] else s.chunks
  {
  }

  lemma ChunksStep(s: State, a: Action)
    requires Inv(s) && Enabled(s, a) && s.clean && forall c <- s.chunks :: ChunkOk(c)
    ensures forall c <- Step(s, a).chunks :: ChunkOk(c)
  {
    hide ChunkOk, Step, FlushedChunk, Safe, Counted;
    ChunksChange(s, a);
    if a.WorkerStep? && s.worker.Flushing? {
      FlushOk(s);
    }
  }

  lemma {:induction false} FaithfulRun(s: State, acts: seq<Action>, t: State)
    requires Faithful(s) && Run(s, acts, t)
    ensures Faithful(t)
    decreases |acts|
  {
    if |acts| > 0 {
      FaithfulStep(s, acts[0]);
      FaithfulRun(Step(s, acts[0]), acts[1..], t);
    }
  }

  lemma {:induction false} CountIdle(n: nat, ps: seq<Probe>, b: nat)
    requires ps == seq(n, i => Idle)
    ensures Count(ps, b) == 0
    decreases n
  {
    if n > 0 {
      assert ps[1..] == seq(n - 1, i => Idle);
      CountIdle(n - 1, ps[1..], b);
    }
  }

  lemma FaithfulInit(n: nat, zero: seq<byte>)
    requires |zero| == CAPACITY
    ensures Faithful(Init(n, zero))
  {
    var s := Init(n, zero);
    CountIdle(n, s.probes, 0);
    CountIdle(n, s.probes, 1);
  }

  /** In every reachable state, unless some drain wait ended on an active probe or an unseen flip:
      each chunk is its records back to back (followed by old bytes only if a reservation
      overflowed), and the records stamped so far are exactly those in chunks and in the blocks. */
  lemma ReachableFaithful(t: State)
    requires Reachable(t)
    ensures Inv(t)
    ensures t.clean ==> Conserved(t) && forall c <- t.chunks :: ChunkOk(c)
  {
    var n: nat, zero: seq<byte>, acts :| |zero| == CAPACITY && Run(Init(n, zero), acts, t);
    FaithfulInit(n, zero);
    FaithfulRun(Init(n, zero), acts, t);
  }

  // ---------- runs whose waits ended well ----------

  /** Whoever passed the epoch check on a block is counted there. */
  lemma CountZeroQuiet(s: State, b: nat)
    requires Inv(s) && b < 2 && s.blocks[b].writers <= 0
    ensures Quiet(s.probes, b)
  {
    forall i | 0 <= i < |s.probes|
      ensures !Active(s.probes[i], b)
    {
      CountZero(s.probes, b, i);
    }
  }

  lemma CalmStep(s: State, a: Action)
    requires Inv(s) && s.clean && Enabled(s, a) && (EndsWait(s, a) ==> Calm(s))
    ensures Inv(Step(s, a)) && Step(s, a).clean
  {
    InvStep(s, a);
    if EndsWait(s, a) {
      CountZeroQuiet(s, s.worker.buf);
    }
  }

  lemma {:induction false} CalmRun(s: State, acts: seq<Action>, t: State)
    requires Inv(s) && s.clean && Run(s, acts, t) && WaitsEnd(s, acts, Calm)
    ensures Inv(t) && t.clean
    decreases |acts|
  {
    if |acts| > 0 {
      CalmStep(s, acts[0]);
      CalmRun(Step(s, acts[0]), acts[1..], t);
    }
  }

  /** If every drain wait of a run ended with the writer count at zero and the flip visible, every
      chunk is intact, and no record was lost or duplicated. */
  lemma CalmFaithful(t: State)
    requires Attained(t, Calm)
    ensures Inv(t) && t.clean && Conserved(t) && forall c <- t.chunks :: ChunkOk(c)
  {
    AttainedReachable(t, Calm);
    ReachableFaithful(t);
    var n: nat, zero: seq<byte>, acts :|
      |zero| == CAPACITY && Run(Init(n, zero), acts, t) && WaitsEnd(Init(n, zero), acts, Calm);
    FaithfulInit(n, zero);
    CalmRun(Init(n, zero), acts, t);
  }
}
