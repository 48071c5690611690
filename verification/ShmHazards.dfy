/** Exactly when a drain wait is safe, and how runs are put together from single steps. */
module ShmHazards {
  import opened Words
  import opened ShmBuffer
  import opened ShmRuns
  import opened ShmDelivery

  // ---------- building runs ----------

  lemma {:induction false} RunThen(s: State, acts: seq<Action>, t: State, a: Action)
    requires Run(s, acts, t) && Shape(t) && Enabled(t, a)
    ensures Run(s, acts + [a], Step(t, a))
    decreases |acts|
  {
    if |acts| == 0 {
      assert acts + [a] == [a];
      assert Run(Step(s, a), [a][1..], Step(t, a));
    } else {
      assert (acts + [a])[1..] == acts[1..] + [a];
      RunThen(Step(s, acts[0]), acts[1..], t, a);
    }
  }

  lemma {:induction false} WaitsThen(s: State, acts: seq<Action>, t: State, a: Action, ok: State -> bool)
    requires Run(s, acts, t) && Shape(t) && Enabled(t, a)
    requires WaitsEnd(s, acts, ok) && (EndsWait(t, a) ==> ok(t))
    ensures WaitsEnd(s, acts + [a], ok)
    decreases |acts|
  {
    if |acts| == 0 {
      assert acts + [a] == [a];
      assert WaitsEnd(Step(s, a), [a][1..], ok);
    } else {
      assert (acts + [a])[1..] == acts[1..] + [a];
      WaitsThen(Step(s, acts[0]), acts[1..], t, a, ok);
    }
  }

  lemma AttainStep(t: State, a: Action, ok: State -> bool)
    requires Attained(t, ok) && Shape(t) && Enabled(t, a)
    requires EndsWait(t, a) ==> ok(t)
    ensures Attained(Step(t, a), ok)
  {
    hide Shape, Step;
    var n: nat, zero: seq<byte>, acts :|
      |zero| == CAPACITY && Run(Init(n, zero), acts, t) && WaitsEnd(Init(n, zero), acts, ok);
    RunThen(Init(n, zero), acts, t, a);
    WaitsThen(Init(n, zero), acts, t, a, ok);
  }

  lemma AttainInit(n: nat, zero: seq<byte>, ok: State -> bool)
    requires |zero| == CAPACITY
    ensures Attained(Init(n, zero), ok)
  {
    var s := Init(n, zero);
    assert Run(s, [], s) && WaitsEnd(s, [], ok);
  }

  // ---------- the drain wait ----------

  predicate NoWake(acts: seq<Action>) {
    forall k :: 0 <= k < |acts| ==> !acts[k].Wake?
  }

  /** The step `a` stores to block `b` on behalf of a probe: it claims space, fills in the stamp or copies a
      byte. */
  predicate Stores(s: State, a: Action, b: nat) {
    a.ProbeStep? && a.probe < |s.probes| && Active(s.probes[a.probe], b)
  }

  lemma {:induction false} CleanStays(s: State, acts: seq<Action>, t: State)
    requires Inv(s) && s.clean && !s.worker.Observed? && !s.worker.Flipping? && !s.worker.Draining?
    requires Run(s, acts, t) && NoWake(acts)
    ensures Inv(t) && t.clean
    decreases |acts|
  {
    if |acts| > 0 {
      InvStep(s, acts[0]);
      assert !acts[0].Wake?;
      CleanStays(Step(s, acts[0]), acts[1..], t);
    }
  }

  /** Until the worker wakes again, no schedule lets a probe store to block `b` between the end of
      the drain wait and the recycling of the block. */
  ghost predicate NeverStored(s: State, b: nat) {
    forall acts: seq<Action>, t: State, a: Action ::
      Run(s, acts, t) && NoWake(acts) && Exclusive(t.worker, b) ==> !Stores(t, a, b)
  }

  /** The parts of a state that steps of one probe leave alone. */
  ghost predicate OnlyProbe(s: State, t: State, i: nat) {
    && Shape(t) && |t.probes| == |s.probes| && i < |t.probes|
    && t.word == s.word && t.unseen == s.unseen && t.worker == s.worker
  }

  /** A probe left to itself comes back from its call. */
  lemma {:induction false} Returns(s: State, i: nat) returns (acts: seq<Action>, t: State)
    requires Shape(s) && i < |s.probes|
    ensures Run(s, acts, t) && NoWake(acts) && OnlyProbe(s, t, i) && t.probes[i].Idle?
    decreases StepBound(s.probes[i])
  {
    if s.probes[i].Idle? {
      acts, t := [], s;
    } else {
      var s' := StepProbe(s, i);
      ShapeProbe(s, i);
      TurnProgress(s.probes[i], Outside(s), s.blocks[Target(s.probes[i])], i);
      var more: seq<Action>;
      more, t := Returns(s', i);
      acts := [ProbeStep(i)] + more;
      assert acts[1..] == more;
    }
  }

  /** The record still fits into block `b`. */
  predicate HasRoom(s: State, b: nat, r: seq<byte>)
    requires Shape(s)
  {
    b < 2 && s.blocks[b].offset + |r| <= 16 * 1024 * 1024
  }

  /** How a call left to itself will end. It is recorded if its record fits into the block it finds. A call that
      sees another epoch than the one it loaded starts over, but only once. */
  predicate WillRecord(s: State, i: nat)
    requires Shape(s) && i < |s.probes|
  {
    match s.probes[i]
    case Idle => false
    case Trying(r, n) => HasRoom(s, s.word.idx, r)
    case Loaded(r, n, w) => HasRoom(s, s.word.idx, r) && (w == s.word || n == 0)
    case Registered(r, n, w) => HasRoom(s, s.word.idx, r) && (w == s.word || n == 0)
    case Leaving(r, n, b) => HasRoom(s, s.word.idx, r) && n == 0
    case Verified(r, b) => HasRoom(s, b, r)
    case Stamping(_, _, _, _) => true
    case Copying(_, _, _, _, _) => true
    case Counting => true
    case Refused(_) => false
    case Dropping => false
  }

  lemma OutcomeKept(s: State, i: nat)
    requires Shape(s) && i < |s.probes| && !s.probes[i].Idle?
    ensures var s' := StepProbe(s, i);
            && Shape(s') && |s'.probes| == |s.probes|
            && (!s'.probes[i].Idle? ==>
                  WillRecord(s', i) == WillRecord(s, i) && s'.recorded == s.recorded && s'.dropped == s.dropped)
            && (s'.probes[i].Idle? ==>
                  && s'.recorded == s.recorded + (if WillRecord(s, i) then 1 else 0)
                  && s'.dropped == s.dropped + (if WillRecord(s, i) then 0 else 1))
  {
    ShapeProbe(s, i);
    hide Stamp, StampSlot, StampMark;
  }

  /** Only probe `i` takes steps. */
  predicate OnlySteps(acts: seq<Action>, i: nat) {
    forall k :: 0 <= k < |acts| ==> acts[k] == ProbeStep(i)
  }

  /** A call left to itself is recorded or dropped, as its place tells. */
  lemma {:induction false} AloneEnds(s: State, i: nat) returns (acts: seq<Action>, t: State)
    requires Shape(s) && i < |s.probes| && !s.probes[i].Idle?
    ensures Run(s, acts, t) && OnlySteps(acts, i) && |t.probes| == |s.probes| && t.probes[i].Idle?
    ensures t.recorded == s.recorded + (if WillRecord(s, i) then 1 else 0)
    ensures t.dropped == s.dropped + (if WillRecord(s, i) then 0 else 1)
    decreases StepBound(s.probes[i])
  {
    hide StepProbe, WillRecord, Shape;
    var s' := StepProbe(s, i);
    OutcomeKept(s, i);
    StepsDown(s, i);
    if s'.probes[i].Idle? {
      acts, t := [ProbeStep(i)], s';
      assert Run(s', acts[1..], t);
    } else {
      var more: seq<Action>;
      more, t := AloneEnds(s', i);
      acts := [ProbeStep(i)] + more;
      assert acts[1..] == more;
    }
  }

  lemma StepsDown(s: State, i: nat)
    requires Shape(s) && i < |s.probes| && !s.probes[i].Idle?
    ensures |StepProbe(s, i).probes| == |s.probes| && StepBound(StepProbe(s, i).probes[i]) < StepBound(s.probes[i])
  {
    TurnProgress(s.probes[i], Outside(s), s.blocks[Target(s.probes[i])], i);
  }

  lemma StepOn(s: State, acts: seq<Action>, t: State, i: nat, a: Action)
    requires Run(s, acts, t) && NoWake(acts) && OnlyProbe(s, t, i) && Enabled(t, a)
    requires a == ProbeStep(i) || (a.Begin? && a.probe == i)
    ensures Run(s, acts + [a], Step(t, a)) && NoWake(acts + [a]) && OnlyProbe(s, Step(t, a), i)
  {
    RunThen(s, acts, t, a);
    ShapeStep(t, a);
  }

  /** A probe that starts a call now passes the epoch check on the block the probes see. */
  lemma Enters(s: State, i: nat) returns (acts: seq<Action>, t: State)
    requires Shape(s) && i < |s.probes|
    ensures Run(s, acts, t) && NoWake(acts) && OnlyProbe(s, t, i) && Active(t.probes[i], s.word.idx)
  {
    acts, t := Returns(s, i);
    hide Run, NoWake, Shape;
    StepOn(s, acts, t, i, Begin(i, 0, [0]));
    acts, t := acts + [Begin(i, 0, [0])], Step(t, Begin(i, 0, [0]));
    assert t.probes[i] == Trying([0], 0);
    StepOn(s, acts, t, i, ProbeStep(i));
    acts, t := acts + [ProbeStep(i)], Step(t, ProbeStep(i));
    assert t.probes[i] == Loaded([0], 0, s.word);
    StepOn(s, acts, t, i, ProbeStep(i));
    acts, t := acts + [ProbeStep(i)], Step(t, ProbeStep(i));
    assert t.probes[i] == Registered([0], 0, s.word);
    StepOn(s, acts, t, i, ProbeStep(i));
    acts, t := acts + [ProbeStep(i)], Step(t, ProbeStep(i));
    assert t.probes[i] == Verified([0], s.word.idx);
  }

  lemma QuietStays(s: State, b: nat)
    requires Inv(s) && s.clean && s.worker == Drained(b)
    ensures NeverStored(s, b)
  {
    forall acts: seq<Action>, t: State, a: Action
      | Run(s, acts, t) && NoWake(acts) && Exclusive(t.worker, b)
      ensures !Stores(t, a, b)
    {
      CleanStays(s, acts, t);
      DrainedQuiet(t, b);
    }
  }

  lemma UnseenStored(s: State, b: nat)
    requires Shape(s) && s.worker == Drained(b) && s.word.idx == b && |s.probes| > 0
    ensures !NeverStored(s, b)
  {
    var acts, t := Enters(s, 0);
    assert Exclusive(t.worker, b) && Stores(t, ProbeStep(0), b);
  }

  /** When the drain wait on block `b` ends, by count or by timeout, the block is left alone until
      it is recycled, whatever the schedule, if and only if at that moment no probe holds an
      unfinished reservation or a passed epoch check on it, and the probes see the flip. */
  lemma DrainSafeIff(s: State, b: nat)
    requires Inv(s) && s.clean && s.worker.Draining? && s.worker.buf == b
    requires EndsWait(s, WorkerStep)
    ensures NeverStored(StepWorker(s), b) <==> Quiet(s.probes, b) && (FlipSeen(s) || |s.probes| == 0)
  {
    hide StepWorker, Run, NeverStored, Safe, Counted, Shape;
    var s' := StepWorker(s);
    InvStep(s, WorkerStep);
    DrainEnds(s, b);
    if Quiet(s.probes, b) {
      if FlipSeen(s) {
        QuietStays(s', b);
      } else if |s.probes| > 0 {
        UnseenStored(s', b);
      } else {
        NobodyStores(s', b);
      }
    } else {
      var i :| 0 <= i < |s.probes| && Active(s.probes[i], b);
      ActiveStored(s', b, i);
    }
  }

  lemma DrainEnds(s: State, b: nat)
    requires Inv(s) && s.clean && s.worker.Draining? && s.worker.buf == b && EndsWait(s, WorkerStep)
    ensures var s' := StepWorker(s);
            && s'.worker == Drained(b) && s'.probes == s.probes && s'.word == s.word
            && (s'.clean <==> Quiet(s.probes, b) && FlipSeen(s))
            && (!FlipSeen(s) ==> s.word.idx == b)
  {
  }

  lemma ActiveStored(s: State, b: nat, i: nat)
    requires s.worker == Drained(b) && i < |s.probes| && Active(s.probes[i], b)
    ensures !NeverStored(s, b)
  {
    assert Run(s, [], s) && NoWake([]);
    assert Stores(s, ProbeStep(i), b);
  }

  lemma {:induction false} ProbesStay(s: State, acts: seq<Action>, t: State)
    requires Run(s, acts, t) && Shape(s)
    ensures |t.probes| == |s.probes|
    decreases |acts|
  {
    if |acts| > 0 {
      ShapeStep(s, acts[0]);
      ProbesStay(Step(s, acts[0]), acts[1..], t);
    }
  }

  lemma NobodyStores(s: State, b: nat)
    requires Shape(s) && |s.probes| == 0
    ensures NeverStored(s, b)
  {
    forall acts: seq<Action>, t: State, a: Action
      | Run(s, acts, t) && NoWake(acts) && Exclusive(t.worker, b)
      ensures !Stores(t, a, b)
    {
      ProbesStay(s, acts, t);
    }
  }

  /** A count of zero proves the block quiet at that moment. It keeps the block safe if and only if
      the probes see the flip when the count is read: a release store followed by an acquire load
      does not promise that. */
  lemma CountZeroSafeIff(s: State, b: nat)
    requires Inv(s) && s.clean && s.worker.Draining? && s.worker.buf == b && NoWriters(s)
    ensures Quiet(s.probes, b)
    ensures NeverStored(StepWorker(s), b) <==> FlipSeen(s) || |s.probes| == 0
  {
    CountZeroQuiet(s, b);
    DrainSafeIff(s, b);
  }

  // ---------- epochs, waits and ranks ----------

  /** The epoch counts the flips modulo 2^32, and the two blocks take turns with it. */
  predicate InStep(w: Word) {
    w.epoch < 0x1_0000_0000 && w.idx == w.epoch % 2
  }

  predicate ProbeInStep(p: Probe) {
    (p.Loaded? || p.Registered?) ==> InStep(p.seen)
  }

  predicate WorkerInStep(w: Worker) {
    (w.Observed? || w.Flipping?) ==> InStep(w.word)
  }

  ghost predicate AllInStep(s: State) {
    && InStep(s.word) && (forall w <- s.unseen :: InStep(w)) && WorkerInStep(s.worker)
    && forall i :: 0 <= i < |s.probes| ==> ProbeInStep(s.probes[i])
  }

  lemma FlipInStep(w: Word)
    requires InStep(w)
    ensures w.idx < 2 && InStep(Flip(w)) && Flip(w) != w
    ensures Flip(w).epoch == if w.epoch == 0xFFFF_FFFF then 0 else w.epoch + 1
  {
  }

  lemma InStepStep(s: State, a: Action)
    requires Shape(s) && Enabled(s, a) && AllInStep(s)
    ensures AllInStep(Step(s, a))
  {
    hide Flip, FlushedChunk, StampMark, Frontier, Recycled, Stamp, StampSlot;
    if a.WorkerStep? && s.worker.Flipping? {
      FlipInStep(s.worker.word);
    }
  }

  lemma {:induction false} InStepRun(s: State, acts: seq<Action>, t: State)
    requires Shape(s) && AllInStep(s) && Run(s, acts, t)
    ensures AllInStep(t)
    decreases |acts|
  {
    hide AllInStep;
    if |acts| > 0 {
      InStepStep(s, acts[0]);
      ShapeStep(s, acts[0]);
      InStepRun(Step(s, acts[0]), acts[1..], t);
    }
  }

  /** In every reachable state, whatever anybody has read of the epoch word. */
  lemma ReachableInStep(t: State)
    requires Reachable(t)
    ensures AllInStep(t)
  {
    var n: nat, zero: seq<byte>, acts :| |zero| == CAPACITY && Run(Init(n, zero), acts, t);
    FaithfulInit(n, zero);
    InStepRun(Init(n, zero), acts, t);
  }

  /** Worker steps only. */
  function Polls(n: nat): (acts: seq<Action>)
    ensures |acts| == n
  {
    seq(n, i => WorkerStep)
  }

  /** While a writer is counted, the wait goes on for exactly 500 polls and then gives up. */
  lemma {:induction false} WaitLasts(s: State, b: nat, n: nat)
    requires Shape(s) && s.worker == Draining(b, n) && s.blocks[b].writers > 0 && n <= 500
    ensures Run(s, Polls(500 - n), s.(worker := Draining(b, 500)))
    ensures StepWorker(s.(worker := Draining(b, 500))).worker == Drained(b)
    decreases 500 - n
  {
    if n < 500 {
      var t := s.(worker := Draining(b, n + 1));
      assert StepWorker(s) == t;
      WaitLasts(t, b, n + 1);
      assert Polls(500 - n)[1..] == Polls(500 - (n + 1));
    } else {
      assert Polls(0) == [];
    }
  }

  /** Calls of ranks from 256 on are ignored, and only those. */
  lemma IgnoredIff(s: State, i: nat, rank: nat, r: seq<byte>)
    requires Shape(s) && Enabled(s, Begin(i, rank, r))
    ensures var t := Step(s, Begin(i, rank, r));
            && (rank >= 256 <==> t.probes[i].Idle?)
            && t.ignored == s.ignored + (if rank >= 256 then 1 else 0) && t.attempts == s.attempts + 1
  {
  }
}
