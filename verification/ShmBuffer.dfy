/** The epoch-hazard double buffer between the probes of a node and its I/O worker, as a state
    machine whose steps are the atomic operations of the two sides. Any number of probes run
    concurrently with one worker; every step may be interleaved with every other. The worker's
    flip is a plain release store: the probes see it only when it is published, at any later step.
    A clock runs on its own; a probe reads it after it has claimed its space. */
module ShmBuffer {
  import opened Options
  import opened Words

  const CAPACITY: nat := 16 * 1024 * 1024
  const MAX_LOCAL_RANKS: nat := 256
  const MAX_PROBE_RETRIES: nat := 2
  const MAX_SPINS: nat := 500
  const EPOCHS: nat := 0x1_0000_0000

  /** The packed word `active_epoch_buffer`. */
  datatype Word = Word(epoch: nat, idx: nat)

  /** A reservation: where it starts, the record meant for it, how much of it has been copied, by
      which probe, and, once the record has its timestamp, the number of the mark made then.
      Reservations are history: the code keeps only the bytes. */
  datatype Slot = Slot(at: nat, record: seq<byte>, done: nat, owner: nat, mark: Option<nat>)

  /** A buffer block. Its `turn` is history: the uses of the two blocks are numbered in order. */
  datatype Block = Block(offset: nat, writers: int, data: seq<byte>, slots: seq<Slot>, turn: nat)

  /** Where a record will be in the file: in which use of a block, and the how-manieth there. */
  datatype Place = Place(turn: nat, slot: nat)

  /** What the schedule did to timestamps: the clock moved on, or a call took its stamp for the record
      at `place`. The call had begun when the first `since` marks were made. */
  datatype Mark =
    | Ticked
    | Stamped(place: Place, record: seq<byte>, time: nat, since: nat)

  /** A call: how many marks there were when it began, and the first place free at that moment. */
  datatype Call = Call(since: nat, floor: Place)

  /** Where a rank stands in `log_event`. */
  datatype Probe =
    | Idle
    | Trying(record: seq<byte>, retry: nat)
    | Loaded(record: seq<byte>, retry: nat, seen: Word)
    | Registered(record: seq<byte>, retry: nat, seen: Word)
    | Leaving(record: seq<byte>, retry: nat, buf: nat)
    | Verified(record: seq<byte>, buf: nat)
    | Stamping(record: seq<byte>, buf: nat, slot: nat, at: nat)
    | Copying(record: seq<byte>, buf: nat, slot: nat, at: nat, done: nat)
    | Refused(buf: nat)
    | Dropping
    | Counting

  /** Where the I/O worker stands in `swap_and_flush`. */
  datatype Worker =
    | Resting
    | Observed(force: bool, word: Word)
    | Flipping(word: Word)
    | Draining(buf: nat, spins: nat)
    | Drained(buf: nat)
    | Flushing(buf: nat, len: nat)
    | Recycling(buf: nat)

  /** A chunk handed to the container writer, with the totals of the counters that go with it. The rest
      is history: the reservations of the block at that moment with their marks, the block's turn, the
      stamped calls not counted yet (`late`), the stamped records in the other block (`ahead`), and the calls
      begun, ignored and under way. */
  datatype Chunk = Chunk(bytes: seq<byte>, records: seq<seq<byte>>, overflow: bool, recorded: nat, dropped: nat,
                         turn: nat, marks: seq<nat>, late: nat, ahead: nat, attempts: nat, ignored: nat, running: nat)

  /** `word` is what the probes see; `unseen` holds the flips the worker has stored since, oldest
      first. `ignored` counts the calls of ranks that have no counters. The records in `stamped`, the
      marks in `log` and `calls`, one for each probe, are history. */
  datatype State = State(
    word: Word,
    unseen: seq<Word>,
    blocks: seq<Block>,
    probes: seq<Probe>,
    worker: Worker,
    clock: nat,
    attempts: nat, recorded: nat, dropped: nat, ignored: nat,
    stamped: seq<seq<byte>>,
    calls: seq<Call>,
    log: seq<Mark>,
    chunks: seq<Chunk>,
    clean: bool)

  datatype Action =
    | Begin(probe: nat, rank: nat, record: seq<byte>)
    | ProbeStep(probe: nat)
    | Wake(force: bool)
    | WorkerStep
    | Publish
    | Tick(ns: nat)

  // ---------- well-formed states ----------

  predicate BlockShape(blk: Block) {
    |blk.data| == CAPACITY
  }

  predicate ProbeShape(p: Probe) {
    match p
    case Idle => true
    case Trying(r, n) => |r| > 0 && n < MAX_PROBE_RETRIES
    case Loaded(r, n, w) => |r| > 0 && n < MAX_PROBE_RETRIES && w.idx < 2
    case Registered(r, n, w) => |r| > 0 && n < MAX_PROBE_RETRIES && w.idx < 2
    case Leaving(r, n, b) => |r| > 0 && n < MAX_PROBE_RETRIES && b < 2
    case Verified(r, b) => |r| > 0 && b < 2
    case Stamping(r, b, k, at) => |r| > 0 && b < 2 && at + |r| <= CAPACITY
    case Copying(r, b, k, at, d) => b < 2 && d <= |r| && at + |r| <= CAPACITY
    case Refused(b) => b < 2
    case Dropping => true
    case Counting => true
  }

  predicate WorkerShape(w: Worker) {
    match w
    case Resting => true
    case Observed(f, word) => word.idx < 2
    case Flipping(word) => word.idx < 2
    case Draining(b, n) => b < 2
    case Drained(b) => b < 2
    case Flushing(b, len) => b < 2 && len <= CAPACITY
    case Recycling(b) => b < 2
  }

  predicate Shape(s: State) {
    && |s.blocks| == 2 && s.word.idx < 2
    && (forall w <- s.unseen :: w.idx < 2)
    && (forall b :: 0 <= b < 2 ==> BlockShape(s.blocks[b]))
    && (forall i :: 0 <= i < |s.probes| ==> ProbeShape(s.probes[i]))
    && |s.calls| == |s.probes|
    && WorkerShape(s.worker)
  }

  // ---------- steps of a probe ----------

  /** What one step of a probe leaves behind: its new place, and the block it works on. */
  datatype Turn = Turn(probe: Probe, block: Block)

  /** The block a probe's next step may touch. */
  function Target(p: Probe): nat {
    match p
    case Loaded(_, _, w) => w.idx
    case Registered(_, _, w) => w.idx
    case Leaving(_, _, b) => b
    case Verified(_, b) => b
    case Stamping(_, b, _, _) => b
    case Copying(_, b, _, _, _) => b
    case Refused(b) => b
    case _ => 0
  }

  /** `write_offset.fetch_add` and the capacity test. */
  function Reserve(r: seq<byte>, b: nat, blk: Block, me: nat): Turn {
    if blk.offset + |r| <= CAPACITY then
      Turn(Stamping(r, b, |blk.slots|, blk.offset),
           blk.(offset := blk.offset + |r|, slots := blk.slots + [Slot(blk.offset, r, 0, me, None)]))
    else
      Turn(Refused(b), blk.(offset := blk.offset + |r|))
  }

  const STAMP_AT: nat := 8

  /** The record with the clock reading in the place of its timestamp. */
  function Stamp(r: seq<byte>, now: nat): (t: seq<byte>)
    ensures |t| == |r|
  {
    if |r| < STAMP_AT + 8 then r
    else r[..STAMP_AT] + ToLE(now % 0x1_0000_0000_0000_0000, 8) + r[STAMP_AT + 8..]
  }

  /** The clock is read and the reservation gets the record to be copied. */
  function StampSlot(blk: Block, r: seq<byte>, k: nat, mark: nat): Block {
    blk.(slots := if k < |blk.slots| then blk.slots[k := blk.slots[k].(record := r, mark := Some(mark))] else blk.slots)
  }

  /** One byte of the record lands in the reserved region. */
  function CopyByte(blk: Block, r: seq<byte>, k: nat, at: nat, d: nat): Block
    requires d < |r| && at + |r| <= |blk.data|
  {
    blk.(data := blk.data[at + d := r[d]],
         slots := if k < |blk.slots| then blk.slots[k := blk.slots[k].(done := d + 1)] else blk.slots)
  }

  /** What a step of a probe reads besides its block: the epoch word and the clock; and the number that
      its mark would get. */
  datatype Env = Env(word: Word, clock: nat, mark: nat)

  function Outside(s: State): Env {
    Env(s.word, s.clock, |s.log|)
  }

  function ProbeTurn(p: Probe, env: Env, blk: Block, me: nat): Turn
    requires ProbeShape(p) && BlockShape(blk)
  {
    match p
    case Idle => Turn(p, blk)
    case Trying(r, n) => Turn(Loaded(r, n, env.word), blk)
    case Loaded(r, n, w) => Turn(Registered(r, n, w), blk.(writers := blk.writers + 1))
    case Registered(r, n, w) => Turn(if env.word == w then Verified(r, w.idx) else Leaving(r, n, w.idx), blk)
    case Leaving(r, n, b) =>
      Turn(if n + 1 < MAX_PROBE_RETRIES then Trying(r, n + 1) else Dropping, blk.(writers := blk.writers - 1))
    case Verified(r, b) => Reserve(r, b, blk, me)
    case Stamping(r, b, k, at) => Turn(Copying(Stamp(r, env.clock), b, k, at, 0), StampSlot(blk, Stamp(r, env.clock), k, env.mark))
    case Copying(r, b, k, at, d) =>
      if d < |r| then Turn(Copying(r, b, k, at, d + 1), CopyByte(blk, r, k, at, d))
      else Turn(Counting, blk.(writers := blk.writers - 1))
    case Refused(b) => Turn(Dropping, blk.(writers := blk.writers - 1))
    case Dropping => Turn(Idle, blk)
    case Counting => Turn(Idle, blk)
  }

  function StepProbe(s: State, i: nat): State
    requires Shape(s) && i < |s.probes|
  {
    var p := s.probes[i];
    var t := ProbeTurn(p, Outside(s), s.blocks[Target(p)], i);
    s.(blocks := s.blocks[Target(p) := t.block],
       probes := s.probes[i := t.probe],
       recorded := if p.Counting? then s.recorded + 1 else s.recorded,
       dropped := if p.Dropping? then s.dropped + 1 else s.dropped,
       stamped := if p.Stamping? then s.stamped + [Stamp(p.record, s.clock)] else s.stamped,
       log := if p.Stamping? then s.log + [StampMark(s, i)] else s.log)
  }

  /** The mark that probe `i` makes when it takes its stamp. */
  function StampMark(s: State, i: nat): Mark
    requires Shape(s) && i < |s.probes| && s.probes[i].Stamping?
  {
    var p := s.probes[i];
    Stamped(Place(s.blocks[p.buf].turn, p.slot), Stamp(p.record, s.clock), s.clock, s.calls[i].since)
  }

  /** The place that the next reservation in the block the probes see would get. */
  function Frontier(s: State): Place
    requires Shape(s)
  {
    Place(s.blocks[s.word.idx].turn, |s.blocks[s.word.idx].slots|)
  }

  // ---------- steps of the worker ----------

  /** A probe that may still write to block `b`: it passed the epoch check and has bytes to store. */
  predicate Active(p: Probe, b: nat) {
    ((p.Verified? || p.Stamping?) && p.buf == b) || (p.Copying? && p.buf == b && p.done < |p.record|)
  }

  predicate Quiet(probes: seq<Probe>, b: nat) {
    forall i :: 0 <= i < |probes| ==> !Active(probes[i], b)
  }

  function Records(slots: seq<Slot>): (rs: seq<seq<byte>>)
    ensures |rs| == |slots|
  {
    seq(|slots|, k requires 0 <= k < |slots| => slots[k].record)
  }

  /** The records that have their timestamp. */
  function StampedRecords(slots: seq<Slot>): seq<seq<byte>> {
    if |slots| == 0 then []
    else
      var last := slots[|slots| - 1];
      StampedRecords(slots[..|slots| - 1]) + if last.mark.Some? then [last.record] else []
  }

  /** The marks of the reservations. */
  function Marks(slots: seq<Slot>): (ms: seq<nat>)
    ensures |ms| == |slots|
  {
    seq(|slots|, k requires 0 <= k < |slots| => if slots[k].mark.Some? then slots[k].mark.value else 0)
  }

  function Tally(ps: seq<Probe>, f: Probe -> bool): nat {
    if |ps| == 0 then 0 else (if f(ps[0]) then 1 else 0) + Tally(ps[1..], f)
  }

  /** The call has stamped its record and is not counted yet. */
  predicate HoldsRecord(p: Probe) {
    p.Copying? || p.Counting?
  }

  predicate InCall(p: Probe) {
    !p.Idle?
  }

  function FlushedChunk(s: State, b: nat, len: nat): Chunk
    requires Shape(s) && b < 2 && len <= CAPACITY
  {
    var blk := s.blocks[b];
    Chunk(blk.data[..len], Records(blk.slots), blk.offset > CAPACITY, s.recorded, s.dropped,
          blk.turn, Marks(blk.slots), Tally(s.probes, HoldsRecord), |StampedRecords(s.blocks[1 - b].slots)|,
          s.attempts, s.ignored, Tally(s.probes, InCall))
  }

  /** The epoch word as the worker itself reads it. */
  function Latest(s: State): Word {
    if |s.unseen| == 0 then s.word else s.unseen[|s.unseen| - 1]
  }

  function Flip(w: Word): Word
    requires w.idx < 2
  {
    Word((w.epoch + 1) % EPOCHS, 1 - w.idx)
  }

  function StepWorker(s: State): State
    requires Shape(s)
  {
    match s.worker
    case Resting => s
    case Observed(force, w) =>
      s.(worker := if s.blocks[w.idx].offset == 0 && !force then Resting else Flipping(w))
    case Flipping(w) =>
      s.(unseen := s.unseen + [Flip(w)], worker := Draining(w.idx, 0))
    case Draining(b, n) =>
      if s.blocks[b].writers > 0 && n < MAX_SPINS then s.(worker := Draining(b, n + 1))
      else s.(worker := Drained(b), clean := s.clean && Quiet(s.probes, b) && |s.unseen| == 0)
    case Drained(b) =>
      s.(worker := Flushing(b, if s.blocks[b].offset > CAPACITY then CAPACITY else s.blocks[b].offset))
    case Flushing(b, len) =>
      s.(worker := Recycling(b),
         chunks := if len > 0 then s.chunks + [FlushedChunk(s, b, len)] else s.chunks)
    case Recycling(b) =>
      s.(blocks := s.blocks[b := Recycled(s.blocks[b])], worker := Resting)
  }

  function Recycled(blk: Block): Block {
    blk.(offset := 0, slots := [], turn := blk.turn + 2)
  }

  predicate Enabled(s: State, a: Action) {
    match a
    case Begin(i, rank, r) => i < |s.probes| && s.probes[i].Idle? && |r| > 0
    case ProbeStep(i) => i < |s.probes| && !s.probes[i].Idle?
    case Wake(force) => s.worker.Resting?
    case WorkerStep => !s.worker.Resting?
    case Publish => |s.unseen| > 0
    case Tick(ns) => ns > 0
  }

  function Step(s: State, a: Action): State
    requires Shape(s) && Enabled(s, a)
  {
    match a
    case Begin(i, rank, r) =>
      if rank >= MAX_LOCAL_RANKS then s.(attempts := s.attempts + 1, ignored := s.ignored + 1)
      else s.(probes := s.probes[i := Trying(r, 0)], attempts := s.attempts + 1,
              calls := s.calls[i := Call(|s.log|, Frontier(s))])
    case ProbeStep(i) => StepProbe(s, i)
    case Wake(force) => s.(worker := Observed(force, Latest(s)))
    case WorkerStep => StepWorker(s)
    case Publish => s.(word := s.unseen[0], unseen := s.unseen[1..])
    case Tick(ns) => s.(clock := s.clock + ns, log := s.log + [Ticked])
  }

  function Init(probes: nat, zero: seq<byte>): State {
    State(Word(0, 0), [], [Block(0, 0, zero, [], 0), Block(0, 0, zero, [], 1)], seq(probes, i => Idle), Resting,
          0, 0, 0, 0, 0, [], seq(probes, i => Call(0, Place(0, 0))), [], [], true)
  }

  lemma TurnShape(p: Probe, env: Env, blk: Block, me: nat)
    requires ProbeShape(p) && BlockShape(blk) && env.word.idx < 2
    ensures var t := ProbeTurn(p, env, blk, me);
            ProbeShape(t.probe) && BlockShape(t.block)
  {
  }

  lemma ShapeProbe(s: State, i: nat)
    requires Shape(s) && i < |s.probes|
    ensures Shape(StepProbe(s, i)) && |StepProbe(s, i).probes| == |s.probes|
  {
    var p := s.probes[i];
    TurnShape(p, Outside(s), s.blocks[Target(p)], i);
  }

  lemma ShapeStep(s: State, a: Action)
    requires Shape(s) && Enabled(s, a)
    ensures Shape(Step(s, a)) && |Step(s, a).probes| == |s.probes|
  {
    if a.ProbeStep? {
      hide Shape;
      ShapeProbe(s, a.probe);
    }
  }

  // ---------- the invariant ----------

  /** A probe counted in `active_writers` of block `b`. */
  predicate On(p: Probe, b: nat) {
    !p.Idle? && !p.Trying? && !p.Loaded? && !p.Dropping? && !p.Counting? && Target(p) == b
  }

  function Count(ps: seq<Probe>, b: nat): nat {
    if |ps| == 0 then 0 else (if On(ps[0], b) then 1 else 0) + Count(ps[1..], b)
  }

  ghost predicate Counted(s: State) {
    |s.blocks| == 2 && forall b :: 0 <= b < 2 ==> s.blocks[b].writers == Count(s.probes, b)
  }

  /** Bytes reserved by `slots`. */
  function Used(slots: seq<Slot>): nat {
    if |slots| == 0 then 0 else Used(slots[..|slots| - 1]) + |slots[|slots| - 1].record|
  }

  /** Reservations follow each other without gap or overlap. */
  predicate Contiguous(slots: seq<Slot>) {
    |slots| == 0 ||
    (Contiguous(slots[..|slots| - 1]) && slots[|slots| - 1].at == Used(slots[..|slots| - 1]))
  }

  predicate SlotOk(sl: Slot, data: seq<byte>) {
    && 0 < |sl.record| && sl.done <= |sl.record|
    && sl.at + |sl.record| <= |data|
    && (sl.done > 0 ==> sl.mark.Some?)
    && data[sl.at..sl.at + sl.done] == sl.record[..sl.done]
  }

  /** Either every reservation so far fitted, or one did not and none will until the block is recycled. */
  ghost predicate BlockOk(blk: Block) {
    && BlockShape(blk)
    && Contiguous(blk.slots)
    && Used(blk.slots) <= CAPACITY
    && (blk.offset == Used(blk.slots) || blk.offset > CAPACITY)
    && forall k :: 0 <= k < |blk.slots| ==> SlotOk(blk.slots[k], blk.data)
  }

  /** A probe with a stamp to take or bytes left to copy owns the reservation it works on. */
  predicate Linked(p: Probe, i: nat, blk: Block) {
    && (p.Stamping? ==> p.slot < |blk.slots| && blk.slots[p.slot] == Slot(p.at, p.record, 0, i, None))
    && (p.Copying? && p.done < |p.record| ==>
          && p.slot < |blk.slots| && blk.slots[p.slot].mark.Some?
          && blk.slots[p.slot] == Slot(p.at, p.record, p.done, i, blk.slots[p.slot].mark))
  }

  /** An unfinished reservation has its owner at work on it. */
  predicate Owned(sl: Slot, k: nat, b: nat, probes: seq<Probe>) {
    sl.done < |sl.record| ==>
      && sl.owner < |probes|
      && probes[sl.owner] == if sl.mark.Some? then Copying(sl.record, b, k, sl.at, sl.done)
                             else Stamping(sl.record, b, k, sl.at)
  }

  predicate AllOwned(slots: seq<Slot>, b: nat, probes: seq<Probe>) {
    forall k :: 0 <= k < |slots| ==> Owned(slots[k], k, b, probes)
  }

  /** Active probes work on the current buffer, or on the one the worker is still waiting for. */
  predicate Held(p: Probe, word: Word, worker: Worker) {
    (p.Verified? || p.Stamping? || (p.Copying? && p.done < |p.record|)) ==>
      p.buf == word.idx || (worker.Draining? && worker.buf == p.buf)
  }

  /** Only while the worker waits can its flip be unseen; the other block is then still empty. */
  predicate WorkerOk(s: State)
    requires Shape(s)
  {
    var other := 1 - s.word.idx;
    match s.worker
    case Resting => |s.unseen| == 0 && Empty(s.blocks[other])
    case Observed(_, w) => |s.unseen| == 0 && w == s.word && Empty(s.blocks[other])
    case Flipping(w) => |s.unseen| == 0 && w == s.word && Empty(s.blocks[other])
    case Draining(b, _) =>
      if |s.unseen| == 0 then b == other
      else |s.unseen| == 1 && s.unseen[0].idx == other && b == s.word.idx && Empty(s.blocks[other])
    case Drained(b) => |s.unseen| == 0 && b == other
    case Flushing(b, len) =>
      |s.unseen| == 0 && b == other && len == if s.blocks[b].offset > CAPACITY then CAPACITY else s.blocks[b].offset
    case Recycling(b) => |s.unseen| == 0 && b == other
  }

  predicate Empty(blk: Block) {
    blk.offset == 0 && |blk.slots| == 0
  }

  /** Every reservation and the probe that fills it agree about each other. */
  ghost predicate Sound(blocks: seq<Block>, probes: seq<Probe>) {
    && |blocks| == 2
    && (forall b :: 0 <= b < 2 ==> BlockOk(blocks[b]))
    && (forall b :: 0 <= b < 2 ==> AllOwned(blocks[b].slots, b, probes))
    && (forall i :: 0 <= i < |probes| ==> Target(probes[i]) < 2 && Linked(probes[i], i, blocks[Target(probes[i])]))
  }

  ghost predicate AllHeld(probes: seq<Probe>, word: Word, worker: Worker) {
    forall i :: 0 <= i < |probes| ==> Held(probes[i], word, worker)
  }

  ghost predicate Safe(s: State)
    requires Shape(s)
  {
    Sound(s.blocks, s.probes) && AllHeld(s.probes, s.word, s.worker) && WorkerOk(s)
  }

  ghost predicate Inv(s: State) {
    Shape(s) && Counted(s) && (s.clean ==> Safe(s))
  }

  // ---------- counting writers ----------

  lemma {:induction false} CountUpdate(ps: seq<Probe>, i: nat, p: Probe, b: nat)
    requires i < |ps|
    ensures Count(ps[i := p], b)
         == Count(ps, b) - (if On(ps[i], b) then 1 else 0) + (if On(p, b) then 1 else 0)
    decreases |ps|
  {
    if i == 0 {
      assert ps[i := p][1..] == ps[1..];
    } else {
      assert ps[i := p][1..] == ps[1..][i - 1 := p];
      CountUpdate(ps[1..], i - 1, p, b);
    }
  }

  lemma {:induction false} CountZero(ps: seq<Probe>, b: nat, i: nat)
    requires Count(ps, b) == 0 && i < |ps|
    ensures !On(ps[i], b)
    decreases |ps|
  {
    if i > 0 {
      CountZero(ps[1..], b, i - 1);
    }
  }

  lemma TurnCount(p: Probe, env: Env, blk: Block, me: nat, b: nat)
    requires ProbeShape(p) && BlockShape(blk)
    ensures var t := ProbeTurn(p, env, blk, me);
            b == Target(p) ==>
              t.block.writers - blk.writers == (if On(t.probe, b) then 1 else 0) - (if On(p, b) then 1 else 0)
    ensures var t := ProbeTurn(p, env, blk, me);
            b != Target(p) ==> !On(p, b) && !On(t.probe, b)
  {
  }

  lemma CountedStep(s: State, a: Action)
    requires Shape(s) && Enabled(s, a) && Counted(s)
    ensures Counted(Step(s, a))
  {
    var s' := Step(s, a);
    if a.ProbeStep? || a.Begin? {
      forall b | 0 <= b < 2
        ensures s'.blocks[b].writers == Count(s'.probes, b)
      {
        CountUpdate(s.probes, a.probe, s'.probes[a.probe], b);
        if a.ProbeStep? {
          var p := s.probes[a.probe];
          TurnCount(p, Outside(s), s.blocks[Target(p)], a.probe, b);
        }
      }
    }
  }

  // ---------- what one step does to a block ----------

  lemma {:induction false} SlotEnd(slots: seq<Slot>, k: nat)
    requires Contiguous(slots) && k < |slots|
    ensures slots[k].at + |slots[k].record| <= Used(slots)
    decreases |slots|
  {
    var front := slots[..|slots| - 1];
    if k < |front| {
      SlotEnd(front, k);
      assert front[k] == slots[k];
    }
  }

  lemma {:induction false} SlotsDisjoint(slots: seq<Slot>, j: nat, k: nat)
    requires Contiguous(slots) && j < k < |slots|
    ensures slots[j].at + |slots[j].record| <= slots[k].at
    decreases |slots|
  {
    var front := slots[..|slots| - 1];
    if k < |front| {
      SlotsDisjoint(front, j, k);
      assert front[j] == slots[j] && front[k] == slots[k];
    } else {
      SlotEnd(front, j);
      assert front[j] == slots[j];
    }
  }

  /** Work on a reservation moves none. */
  lemma {:induction false} SlotChange(slots: seq<Slot>, k: nat, sl: Slot)
    requires Contiguous(slots) && k < |slots| && sl.at == slots[k].at && |sl.record| == |slots[k].record|
    ensures Contiguous(slots[k := sl]) && Used(slots[k := sl]) == Used(slots)
    decreases |slots|
  {
    var n := |slots| - 1;
    if k < n {
      SlotChange(slots[..n], k, sl);
      assert slots[k := sl][..n] == slots[..n][k := sl];
    } else {
      assert slots[k := sl][..n] == slots[..n];
    }
  }

  lemma ReserveOk(r: seq<byte>, b: nat, blk: Block, me: nat)
    requires BlockOk(blk) && |r| > 0
    ensures BlockOk(Reserve(r, b, blk, me).block)
  {
    var blk' := Reserve(r, b, blk, me).block;
    if blk.offset + |r| <= CAPACITY {
      assert blk'.slots[..|blk.slots|] == blk.slots;
      var sl := blk'.slots[|blk.slots|];
      assert blk'.data[sl.at..sl.at] == [] == sl.record[..0];
    }
  }

  lemma CopySlot(blk: Block, r: seq<byte>, k: nat, at: nat, d: nat, me: nat, j: nat)
    requires BlockOk(blk) && d < |r| && k < |blk.slots| && j < |blk.slots|
    requires blk.slots[k] == Slot(at, r, d, me, blk.slots[k].mark) && blk.slots[k].mark.Some?
    ensures at + |r| <= |blk.data|
    ensures SlotOk(CopyByte(blk, r, k, at, d).slots[j], CopyByte(blk, r, k, at, d).data)
  {
    assert SlotOk(blk.slots[k], blk.data) && SlotOk(blk.slots[j], blk.data);
    var data' := blk.data[at + d := r[d]];
    var sl := blk.slots[j];
    if j == k {
      assert data'[at..at + d + 1] == blk.data[at..at + d] + [r[d]];
      assert r[..d + 1] == r[..d] + [r[d]];
    } else {
      if j < k {
        SlotsDisjoint(blk.slots, j, k);
      } else {
        SlotsDisjoint(blk.slots, k, j);
      }
      assert data'[sl.at..sl.at + sl.done] == blk.data[sl.at..sl.at + sl.done];
    }
  }

  lemma CopyOk(blk: Block, r: seq<byte>, k: nat, at: nat, d: nat, me: nat)
    requires BlockOk(blk) && d < |r| && k < |blk.slots| && at + |r| <= |blk.data|
    requires blk.slots[k] == Slot(at, r, d, me, blk.slots[k].mark) && blk.slots[k].mark.Some?
    ensures BlockOk(CopyByte(blk, r, k, at, d))
  {
    SlotChange(blk.slots, k, blk.slots[k].(done := d + 1));
    var blk' := CopyByte(blk, r, k, at, d);
    forall j | 0 <= j < |blk'.slots|
      ensures SlotOk(blk'.slots[j], blk'.data)
    {
      CopySlot(blk, r, k, at, d, me, j);
    }
  }

  lemma StampOk(blk: Block, r: seq<byte>, k: nat, mark: nat)
    requires BlockOk(blk) && k < |blk.slots| && blk.slots[k].done == 0 && |r| == |blk.slots[k].record|
    ensures BlockOk(StampSlot(blk, r, k, mark))
  {
    var sl := blk.slots[k].(record := r, mark := Some(mark));
    SlotChange(blk.slots, k, sl);
    assert SlotOk(blk.slots[k], blk.data);
    assert blk.data[sl.at..sl.at] == [] == r[..0];
  }

  lemma TurnBlockOk(p: Probe, env: Env, blk: Block, me: nat)
    requires ProbeShape(p) && BlockOk(blk) && Linked(p, me, blk)
    ensures BlockOk(ProbeTurn(p, env, blk, me).block)
  {
    if p.Verified? {
      ReserveOk(p.record, p.buf, blk, me);
    } else if p.Stamping? {
      StampOk(blk, Stamp(p.record, env.clock), p.slot, env.mark);
    } else if p.Copying? && p.done < |p.record| {
      CopyOk(blk, p.record, p.slot, p.at, p.done, me);
    }
  }

  /** A probe that is not active only moves the writer count. */
  lemma TurnQuiet(p: Probe, env: Env, blk: Block, me: nat)
    requires ProbeShape(p) && BlockShape(blk) && !Active(p, Target(p))
    ensures ProbeTurn(p, env, blk, me).block.(writers := blk.writers) == blk
  {
  }

  lemma TurnLinked(p: Probe, env: Env, blk: Block, me: nat)
    requires ProbeShape(p) && BlockShape(blk) && Linked(p, me, blk)
    ensures var t := ProbeTurn(p, env, blk, me);
            && (t.probe.Copying? || t.probe.Stamping? ==> Target(t.probe) == Target(p))
            && Linked(t.probe, me, t.block)
  {
  }

  /** Reservations of other probes stay as they are. */
  lemma TurnSlots(p: Probe, env: Env, blk: Block, me: nat, k: nat)
    requires ProbeShape(p) && BlockShape(blk) && Linked(p, me, blk)
    requires k < |blk.slots|
    ensures var t := ProbeTurn(p, env, blk, me);
            && k < |t.block.slots|
            && (t.block.slots[k] == blk.slots[k] ||
                ((p.Stamping? || (p.Copying? && p.done < |p.record|)) && k == p.slot && blk.slots[k].owner == me))
  {
  }

  lemma TurnOwned(p: Probe, env: Env, blk: Block, me: nat, k: nat, b: nat, probes: seq<Probe>)
    requires ProbeShape(p) && BlockShape(blk) && Linked(p, me, blk)
    requires me < |probes| && probes[me] == p && b == Target(p)
    requires AllOwned(blk.slots, b, probes)
    requires var t := ProbeTurn(p, env, blk, me); k < |t.block.slots|
    ensures var t := ProbeTurn(p, env, blk, me);
            Owned(t.block.slots[k], k, b, probes[me := t.probe])
  {
    if k < |blk.slots| {
      TurnSlots(p, env, blk, me, k);
      assert Owned(blk.slots[k], k, b, probes);
    }
  }

  lemma TurnHeld(p: Probe, env: Env, blk: Block, me: nat, worker: Worker)
    requires ProbeShape(p) && BlockShape(blk) && Held(p, env.word, worker)
    ensures Held(ProbeTurn(p, env, blk, me).probe, env.word, worker)
  {
  }

  // ---------- every step keeps the invariant ----------

  lemma SoundBlocks(s: State, i: nat)
    requires Shape(s) && Sound(s.blocks, s.probes) && i < |s.probes|
    ensures var s' := StepProbe(s, i);
            && |s'.blocks| == 2
            && (forall b :: 0 <= b < 2 ==> BlockOk(s'.blocks[b]))
            && (forall b :: 0 <= b < 2 ==> AllOwned(s'.blocks[b].slots, b, s'.probes))
  {
    var s' := StepProbe(s, i);
    var p := s.probes[i];
    var c := Target(p);
    TurnBlockOk(p, Outside(s), s.blocks[c], i);
    forall b, k | 0 <= b < 2 && 0 <= k < |s'.blocks[b].slots|
      ensures Owned(s'.blocks[b].slots[k], k, b, s'.probes)
    {
      assert AllOwned(s.blocks[b].slots, b, s.probes);
      if b == c {
        TurnOwned(p, Outside(s), s.blocks[c], i, k, b, s.probes);
      } else {
        assert Owned(s.blocks[b].slots[k], k, b, s.probes);
      }
    }
  }

  lemma SoundProbe(s: State, i: nat)
    requires Shape(s) && Sound(s.blocks, s.probes) && i < |s.probes|
    ensures Sound(StepProbe(s, i).blocks, StepProbe(s, i).probes)
  {
    hide BlockOk, AllOwned, ProbeTurn;
    SoundBlocks(s, i);
    var s' := StepProbe(s, i);
    var p := s.probes[i];
    var c := Target(p);
    TurnShape(p, Outside(s), s.blocks[c], i);
    TurnLinked(p, Outside(s), s.blocks[c], i);
    forall j | 0 <= j < |s'.probes|
      ensures Target(s'.probes[j]) < 2 && Linked(s'.probes[j], j, s'.blocks[Target(s'.probes[j])])
    {
      var q := s.probes[j];
      if j != i && (q.Stamping? || (q.Copying? && q.done < |q.record|)) && q.buf == c {
        TurnSlots(p, Outside(s), s.blocks[c], i, q.slot);
      }
    }
  }

  lemma HeldProbe(s: State, i: nat)
    requires Shape(s) && AllHeld(s.probes, s.word, s.worker) && i < |s.probes|
    ensures var s' := StepProbe(s, i); AllHeld(s'.probes, s'.word, s'.worker)
  {
    var p := s.probes[i];
    TurnHeld(p, Outside(s), s.blocks[Target(p)], i, s.worker);
  }

  lemma WorkerOkProbe(s: State, i: nat)
    requires Shape(s) && AllHeld(s.probes, s.word, s.worker) && WorkerOk(s) && i < |s.probes|
    requires Shape(StepProbe(s, i))
    ensures WorkerOk(StepProbe(s, i))
  {
    var p := s.probes[i];
    if Target(p) != s.word.idx && !(s.worker.Draining? && s.worker.buf == Target(p)) {
      assert Held(p, s.word, s.worker);
      TurnQuiet(p, Outside(s), s.blocks[Target(p)], i);
    }
  }

  lemma SafeProbe(s: State, i: nat)
    requires Shape(s) && Safe(s) && i < |s.probes|
    requires Shape(StepProbe(s, i))
    ensures Safe(StepProbe(s, i))
  {
    hide Sound, AllHeld, WorkerOk;
    SoundProbe(s, i);
    HeldProbe(s, i);
    WorkerOkProbe(s, i);
  }

  lemma SafeBegin(s: State, i: nat, rank: nat, r: seq<byte>)
    requires Shape(s) && Safe(s) && Enabled(s, Begin(i, rank, r))
    requires Shape(Step(s, Begin(i, rank, r)))
    ensures Safe(Step(s, Begin(i, rank, r)))
  {
    hide BlockOk;
  }

  /** The probes see the flip: those at work on the old block are the ones the worker waits for. */
  lemma SafePublish(s: State)
    requires Shape(s) && Safe(s) && Enabled(s, Publish)
    requires Shape(Step(s, Publish))
    ensures Safe(Step(s, Publish))
  {
    hide Sound;
    assert s.worker.Draining?;
  }

  lemma SafeTick(s: State, ns: nat)
    requires Shape(s) && Safe(s) && Enabled(s, Tick(ns))
    requires Shape(Step(s, Tick(ns)))
    ensures Safe(Step(s, Tick(ns)))
  {
    hide Sound;
  }

  lemma SafeWake(s: State, force: bool)
    requires Shape(s) && Safe(s) && Enabled(s, Wake(force))
    requires Shape(Step(s, Wake(force)))
    ensures Safe(Step(s, Wake(force)))
  {
    hide Sound;
  }

  lemma SafeFlip(s: State)
    requires Shape(s) && Safe(s) && s.worker.Flipping?
    requires Shape(StepWorker(s))
    ensures Safe(StepWorker(s))
  {
    hide Sound;
  }

  lemma SafeDrain(s: State)
    requires Shape(s) && Safe(s) && s.worker.Draining?
    requires Shape(StepWorker(s))
    ensures StepWorker(s).clean ==> Safe(StepWorker(s))
  {
    hide Sound;
    var s' := StepWorker(s);
    if s'.clean && s'.worker.Drained? {
      forall i | 0 <= i < |s.probes|
        ensures Held(s'.probes[i], s'.word, s'.worker)
      {
        assert Held(s.probes[i], s.word, s.worker);
        assert !Active(s.probes[i], s.worker.buf);
      }
    }
  }

  lemma SafeRecycle(s: State)
    requires Shape(s) && Safe(s) && s.worker.Recycling?
    requires Shape(StepWorker(s))
    ensures Safe(StepWorker(s))
  {
    hide Sound;
    var b := s.worker.buf;
    forall i | 0 <= i < |s.probes|
      ensures !Active(s.probes[i], b)
    {
      assert Held(s.probes[i], s.word, s.worker);
    }
    SoundRecycle(s.blocks, s.probes, b);
  }

  lemma SoundRecycle(blocks: seq<Block>, probes: seq<Probe>, b: nat)
    requires Sound(blocks, probes) && b < 2 && Quiet(probes, b)
    ensures Sound(blocks[b := Recycled(blocks[b])], probes)
  {
    var blocks' := blocks[b := Recycled(blocks[b])];
    assert BlockOk(blocks[b]);
    assert BlockOk(blocks'[b]);
    hide BlockOk;
    forall i | 0 <= i < |probes|
      ensures Linked(probes[i], i, blocks'[Target(probes[i])])
    {
      assert !Active(probes[i], b);
    }
  }

  lemma SafeWorker(s: State)
    requires Shape(s) && Safe(s) && !s.worker.Resting?
    requires Shape(StepWorker(s))
    ensures StepWorker(s).clean ==> Safe(StepWorker(s))
  {
    hide Sound, AllOwned;
    match s.worker
    case Observed(_, _) =>
    case Flipping(_) => SafeFlip(s);
    case Draining(_, _) => SafeDrain(s);
    case Drained(_) =>
    case Flushing(_, _) =>
    case Recycling(_) => SafeRecycle(s);
  }

  lemma SafeStep(s: State, a: Action)
    requires Shape(s) && Enabled(s, a) && Safe(s)
    requires Shape(Step(s, a))
    ensures Step(s, a).clean ==> Safe(Step(s, a))
  {
    hide Safe, Shape;
    match a
    case Begin(i, rank, r) => SafeBegin(s, i, rank, r);
    case ProbeStep(i) => SafeProbe(s, i);
    case Wake(force) => SafeWake(s, force);
    case WorkerStep => SafeWorker(s);
    case Publish => SafePublish(s);
    case Tick(ns) => SafeTick(s, ns);
  }

  lemma CleanBefore(s: State, a: Action)
    requires Shape(s) && Enabled(s, a)
    ensures Step(s, a).clean ==> s.clean
  {
  }

  lemma InvStep(s: State, a: Action)
    requires Inv(s) && Enabled(s, a)
    ensures Inv(Step(s, a))
  {
    hide Safe, Counted;
    ShapeStep(s, a);
    CountedStep(s, a);
    CleanBefore(s, a);
    if s.clean {
      SafeStep(s, a);
    }
  }
}
