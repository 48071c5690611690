/** Runs of a node built from whole calls and whole flushes, and those among them that end badly or
    otherwise than one might expect. */
module ShmScenarios {
  import opened Options
  import opened Words
  import opened ShmBuffer
  import opened ShmRuns
  import opened ShmHazards
  import opened Framing

  /** The state with probe `i` at `p` and `blk` as the block the probes see. */
  function With(s: State, i: nat, p: Probe, blk: Block): State
    requires Shape(s) && i < |s.probes|
  {
    s.(probes := s.probes[i := p], blocks := s.blocks[s.word.idx := blk])
  }

  function Current(s: State): Block
    requires Shape(s)
  {
    s.blocks[s.word.idx]
  }

  /** Probe `i` can start a call. */
  ghost predicate Ready(s: State, i: nat, ok: State -> bool) {
    Attained(s, ok) && Shape(s) && i < |s.probes| && s.probes[i].Idle?
  }

  // ---------- one call ----------

  /** The counters and the history once probe `i` has begun a call. */
  function Begun(s: State, i: nat): State
    requires Shape(s) && i < |s.probes|
  {
    s.(attempts := s.attempts + 1, calls := s.calls[i := Call(|s.log|, Frontier(s))])
  }

  /** A step of the probe that changes only its place and the block. */
  lemma AttainTurn(s: State, i: nat, p: Probe, blk: Block, p': Probe, blk': Block, ok: State -> bool)
    requires Shape(s) && i < |s.probes| && Attained(With(s, i, p, blk), ok)
    requires ProbeShape(p) && BlockShape(blk) && Target(p) == s.word.idx
    requires !p.Idle? && !p.Stamping? && !p.Counting? && !p.Dropping?
    requires ProbeTurn(p, Outside(s), blk, i) == Turn(p', blk')
    ensures Attained(With(s, i, p', blk'), ok)
  {
    hide Attained;
    var t := With(s, i, p, blk);
    AttainStep(t, ProbeStep(i), ok);
    var u := Step(t, ProbeStep(i));
    assert u.blocks == With(s, i, p', blk').blocks;
    assert u.probes == With(s, i, p', blk').probes;
    assert u == With(s, i, p', blk');
  }

  lemma AttainLoaded(s: State, i: nat, r: seq<byte>, ok: State -> bool)
    requires Ready(s, i, ok) && |r| > 0
    ensures Attained(With(Begun(s, i), i, Loaded(r, 0, s.word), Current(s)), ok)
  {
    var a := Begin(i, 0, r);
    AttainStep(s, a, ok);
    ShapeStep(s, a);
    hide Attained;
    var base := Begun(s, i);
    assert Step(s, a) == With(base, i, Trying(r, 0), Current(s)) by {
      assert s.blocks[s.word.idx := Current(s)] == s.blocks;
    }
    var t := Step(s, a);
    AttainStep(t, ProbeStep(i), ok);
    var u, v := Step(t, ProbeStep(i)), With(base, i, Loaded(r, 0, s.word), Current(s));
    assert u.blocks == s.blocks == v.blocks;
    assert u.probes == v.probes;
    assert u == v;
  }

  /** The call has passed the epoch check. */
  lemma AttainVerified(s: State, i: nat, r: seq<byte>, ok: State -> bool)
    requires Ready(s, i, ok) && |r| > 0
    ensures var blk := Current(s);
            Attained(With(Begun(s, i), i, Verified(r, s.word.idx), blk.(writers := blk.writers + 1)), ok)
  {
    AttainLoaded(s, i, r, ok);
    hide Attained;
    var blk := Current(s);
    var on := blk.(writers := blk.writers + 1);
    AttainTurn(Begun(s, i), i, Loaded(r, 0, s.word), blk, Registered(r, 0, s.word), on, ok);
    AttainTurn(Begun(s, i), i, Registered(r, 0, s.word), on, Verified(r, s.word.idx), on, ok);
  }

  /** The block with space claimed for `r` by probe `i`. */
  function Claimed(blk: Block, r: seq<byte>, i: nat): Block {
    blk.(offset := blk.offset + |r|, writers := blk.writers + 1, slots := blk.slots + [Slot(blk.offset, r, 0, i, None)])
  }

  /** Probe `i` has claimed space and not read the clock yet. */
  function Reserved(s: State, i: nat, r: seq<byte>): State
    requires Shape(s) && i < |s.probes| && Current(s).offset + |r| <= CAPACITY
  {
    var blk := Current(s);
    With(Begun(s, i), i, Stamping(r, s.word.idx, |blk.slots|, blk.offset), Claimed(blk, r, i))
  }

  lemma AttainReserved(s: State, i: nat, r: seq<byte>, ok: State -> bool)
    requires Ready(s, i, ok) && |r| > 0 && Current(s).offset + |r| <= CAPACITY
    ensures Attained(Reserved(s, i, r), ok)
  {
    AttainVerified(s, i, r, ok);
    hide Attained;
    var blk, b := Current(s), s.word.idx;
    var on := blk.(writers := blk.writers + 1);
    AttainTurn(Begun(s, i), i, Verified(r, b), on, Stamping(r, b, |blk.slots|, blk.offset), Claimed(blk, r, i), ok);
  }

  /** Probe `i`, with space at `at` claimed as reservation `k` of `blk`, has read the clock. */
  function StampTaken(s: State, i: nat, r: seq<byte>, k: nat, at: nat, blk: Block): State
    requires Shape(s) && i < |s.probes|
  {
    var d := Stamp(r, s.clock);
    With(s, i, Copying(d, s.word.idx, k, at, 0), StampSlot(blk, d, k, |s.log|))
      .(stamped := s.stamped + [d], log := s.log + [Stamped(Place(blk.turn, k), d, s.clock, s.calls[i].since)])
  }

  lemma AttainStamped(s: State, i: nat, r: seq<byte>, k: nat, at: nat, blk: Block, ok: State -> bool)
    requires Shape(s) && i < |s.probes| && BlockShape(blk) && |r| > 0 && at + |r| <= CAPACITY
    requires Attained(With(s, i, Stamping(r, s.word.idx, k, at), blk), ok)
    ensures Attained(StampTaken(s, i, r, k, at, blk), ok)
  {
    hide Attained;
    var t := With(s, i, Stamping(r, s.word.idx, k, at), blk);
    AttainStep(t, ProbeStep(i), ok);
    hide Stamp;
    var u, v := Step(t, ProbeStep(i)), StampTaken(s, i, r, k, at, blk);
    assert u.blocks == v.blocks;
    assert u.probes == v.probes;
    assert u == v;
  }

  /** The block with `d` bytes of `r` copied to `at`, where reservation `k` is. */
  function Copied(blk: Block, r: seq<byte>, k: nat, at: nat, d: nat): Block
    requires at + |r| <= |blk.data| && d <= |r| && k < |blk.slots|
  {
    blk.(data := blk.data[..at] + r[..d] + blk.data[at + d..], slots := blk.slots[k := blk.slots[k].(done := d)])
  }

  lemma CopyOne(blk: Block, r: seq<byte>, k: nat, at: nat, d: nat)
    requires at + |r| <= |blk.data| && d < |r| && k < |blk.slots|
    ensures CopyByte(Copied(blk, r, k, at, d), r, k, at, d) == Copied(blk, r, k, at, d + 1)
  {
    var data := blk.data[..at] + r[..d] + blk.data[at + d..];
    assert data[at + d := r[d]] == blk.data[..at] + r[..d + 1] + blk.data[at + d + 1..];
  }

  lemma {:induction false} AttainCopied(s: State, i: nat, r: seq<byte>, k: nat, at: nat, blk: Block, d: nat, ok: State -> bool)
    requires Shape(s) && i < |s.probes| && BlockShape(blk)
    requires at + |r| <= CAPACITY && d <= |r| && k < |blk.slots|
    requires Attained(With(s, i, Copying(r, s.word.idx, k, at, d), Copied(blk, r, k, at, d)), ok)
    ensures Attained(With(s, i, Copying(r, s.word.idx, k, at, |r|), Copied(blk, r, k, at, |r|)), ok)
    decreases |r| - d
  {
    hide Attained;
    if d < |r| {
      var b := s.word.idx;
      CopyOne(blk, r, k, at, d);
      AttainTurn(s, i, Copying(r, b, k, at, d), Copied(blk, r, k, at, d),
                 Copying(r, b, k, at, d + 1), Copied(blk, r, k, at, d + 1), ok);
      AttainCopied(s, i, r, k, at, blk, d + 1, ok);
    }
  }

  /** The last step of a call: one counter goes up. */
  lemma AttainReturned(s: State, i: nat, p: Probe, blk: Block, ok: State -> bool)
    requires Shape(s) && i < |s.probes| && BlockShape(blk) && Attained(With(s, i, p, blk), ok)
    requires p.Counting? || p.Dropping?
    ensures Ready(With(s, i, Idle, blk).(recorded := if p.Counting? then s.recorded + 1 else s.recorded,
                                         dropped := if p.Dropping? then s.dropped + 1 else s.dropped), i, ok)
  {
    var t := With(s, i, p, blk);
    AttainStep(t, ProbeStep(i), ok);
    ShapeStep(t, ProbeStep(i));
    hide Attained;
    var u := Step(t, ProbeStep(i));
    assert u.blocks == t.blocks;
    assert u.probes == With(s, i, Idle, blk).probes;
  }

  /** The block once the record `r`, stamped as mark `mark`, has been copied and its call has left. */
  function Left(blk: Block, r: seq<byte>, k: nat, at: nat, mark: nat): Block
    requires at + |r| <= |blk.data| && k < |blk.slots|
  {
    Copied(StampSlot(blk, r, k, mark), r, k, at, |r|).(writers := blk.writers - 1)
  }

  /** A call that held reservation `k` has stamped and copied its record and left the block; it is not
      counted yet. */
  function Committed(s: State, i: nat, r: seq<byte>, k: nat, at: nat, blk: Block): State
    requires Shape(s) && i < |s.probes| && at + |r| <= |blk.data| && k < |blk.slots|
  {
    var d := Stamp(r, s.clock);
    With(s, i, Counting, Left(blk, d, k, at, |s.log|))
      .(stamped := s.stamped + [d], log := s.log + [Stamped(Place(blk.turn, k), d, s.clock, s.calls[i].since)])
  }

  lemma AttainCommitted(s: State, i: nat, r: seq<byte>, k: nat, at: nat, blk: Block, ok: State -> bool)
    requires Shape(s) && i < |s.probes| && BlockShape(blk) && |r| > 0 && at + |r| <= CAPACITY && k < |blk.slots|
    requires blk.slots[k].done == 0
    requires Attained(With(s, i, Stamping(r, s.word.idx, k, at), blk), ok)
    ensures Attained(Committed(s, i, r, k, at, blk), ok)
  {
    hide Attained;
    AttainStamped(s, i, r, k, at, blk, ok);
    var d, b := Stamp(r, s.clock), s.word.idx;
    var x := Stamped(Place(blk.turn, k), d, s.clock, s.calls[i].since);
    hide Stamp;
    var base := s.(stamped := s.stamped + [d], log := s.log + [x]);
    var dated := StampSlot(blk, d, k, |s.log|);
    assert Copied(dated, d, k, at, 0) == dated by {
      assert dated.data[..at] + [] + dated.data[at..] == dated.data;
    }
    AttainCopied(base, i, d, k, at, dated, 0, ok);
    AttainTurn(base, i, Copying(d, b, k, at, |d|), Copied(dated, d, k, at, |d|), Counting, Left(blk, d, k, at, |s.log|), ok);
  }

  /** The state after a whole call that found room, up to its being counted. */
  function Written(s: State, i: nat, r: seq<byte>): State
    requires Shape(s) && i < |s.probes| && Current(s).offset + |r| <= CAPACITY
  {
    var blk := Current(s);
    Committed(Begun(s, i), i, r, |blk.slots|, blk.offset, Claimed(blk, r, i))
  }

  lemma AttainWritten(s: State, i: nat, r: seq<byte>, ok: State -> bool)
    requires Ready(s, i, ok) && |r| > 0 && Current(s).offset + |r| <= CAPACITY
    ensures Attained(Written(s, i, r), ok)
  {
    hide Attained, Committed;
    AttainReserved(s, i, r, ok);
    var blk := Current(s);
    AttainCommitted(Begun(s, i), i, r, |blk.slots|, blk.offset, Claimed(blk, r, i), ok);
  }

  /** The call that has written its record is counted and returns. */
  function Tallied(s: State, i: nat): State
    requires i < |s.probes|
  {
    s.(probes := s.probes[i := Idle], recorded := s.recorded + 1)
  }

  lemma AttainTallied(s: State, i: nat, ok: State -> bool)
    requires Attained(s, ok) && Shape(s) && i < |s.probes| && s.probes[i].Counting?
    ensures Ready(Tallied(s, i), i, ok)
  {
    AttainStep(s, ProbeStep(i), ok);
    ShapeStep(s, ProbeStep(i));
    hide Attained;
    var u := Step(s, ProbeStep(i));
    assert u.blocks == s.blocks;
    assert u == Tallied(s, i);
  }

  /** The state after a whole call that found room. */
  function Logged(s: State, i: nat, r: seq<byte>): State
    requires Shape(s) && i < |s.probes| && Current(s).offset + |r| <= CAPACITY
  {
    Tallied(Written(s, i, r), i)
  }

  lemma WrittenShape(s: State, i: nat, r: seq<byte>)
    requires Shape(s) && i < |s.probes| && Current(s).offset + |r| <= CAPACITY
    ensures Shape(Written(s, i, r)) && Written(s, i, r).probes == s.probes[i := Counting]
  {
  }

  lemma AttainLogged(s: State, i: nat, r: seq<byte>, ok: State -> bool)
    requires Ready(s, i, ok) && |r| > 0 && Current(s).offset + |r| <= CAPACITY
    ensures Ready(Logged(s, i, r), i, ok)
  {
    AttainWritten(s, i, r, ok);
    WrittenShape(s, i, r);
    hide Attained, Written;
    AttainTallied(Written(s, i, r), i, ok);
  }

  /** The state after a whole call that found no room. */
  function Turned(s: State, i: nat, r: seq<byte>): State
    requires Shape(s) && i < |s.probes|
  {
    var blk := Current(s);
    With(Begun(s, i), i, Idle, blk.(offset := blk.offset + |r|)).(dropped := s.dropped + 1)
  }

  lemma AttainTurned(s: State, i: nat, r: seq<byte>, ok: State -> bool)
    requires Ready(s, i, ok) && |r| > 0 && Current(s).offset + |r| > CAPACITY
    ensures Ready(Turned(s, i, r), i, ok)
  {
    AttainVerified(s, i, r, ok);
    hide Attained;
    var blk, b := Current(s), s.word.idx;
    var full := blk.(offset := blk.offset + |r|);
    var over := full.(writers := blk.writers + 1);
    AttainTurn(Begun(s, i), i, Verified(r, b), blk.(writers := blk.writers + 1), Refused(b), over, ok);
    AttainTurn(Begun(s, i), i, Refused(b), over, Dropping, full, ok);
    AttainReturned(Begun(s, i), i, Dropping, full, ok);
  }

  lemma AttainTicked(s: State, ns: nat, ok: State -> bool)
    requires Attained(s, ok) && Shape(s) && ns > 0
    ensures Attained(s.(clock := s.clock + ns, log := s.log + [Ticked]), ok)
  {
    AttainStep(s, Tick(ns), ok);
  }

  // ---------- one flush ----------

  function FlushLen(blk: Block): nat {
    if blk.offset > CAPACITY then CAPACITY else blk.offset
  }

  /** The chunks after block `b` has been flushed. */
  function Extended(s: State, b: nat): seq<Chunk>
    requires Shape(s) && b < 2
  {
    if FlushLen(s.blocks[b]) > 0 then s.chunks + [FlushedChunk(s, b, FlushLen(s.blocks[b]))] else s.chunks
  }

  /** The state after the worker has flipped and published, waited, flushed and recycled. */
  function Swapped(s: State): State
    requires Shape(s)
  {
    s.(word := Flip(s.word), blocks := s.blocks[s.word.idx := Recycled(Current(s))], chunks := Extended(s, s.word.idx))
  }

  /** The worker flips when it is told to, or finds something in the block. */
  lemma AttainFlipped(s: State, force: bool, ok: State -> bool)
    requires Attained(s, ok) && Shape(s) && s.worker.Resting? && FlipSeen(s) && (force || Current(s).offset > 0)
    ensures Attained(s.(unseen := [Flip(s.word)], worker := Draining(s.word.idx, 0)), ok)
  {
    AttainStep(s, Wake(force), ok);
    AttainStep(s.(worker := Observed(force, s.word)), WorkerStep, ok);
    AttainStep(s.(worker := Flipping(s.word)), WorkerStep, ok);
    assert s.unseen + [Flip(s.word)] == [Flip(s.word)];
  }

  /** Otherwise it changes nothing. */
  lemma AwakeForNothing(s: State)
    requires Shape(s) && s.worker.Resting? && s.blocks[Latest(s).idx].offset == 0 && Latest(s).idx < 2
    ensures Run(s, [Wake(false), WorkerStep], s)
  {
    var t := Step(s, Wake(false));
    assert Step(t, WorkerStep) == s;
    assert Run(s, [], s);
    assert [Wake(false), WorkerStep][1..] == [WorkerStep] && [WorkerStep][1..] == [];
    assert Run(t, [WorkerStep], s);
  }

  lemma AttainPublished(s: State, force: bool, ok: State -> bool)
    requires Attained(s, ok) && Shape(s) && s.worker.Resting? && FlipSeen(s) && (force || Current(s).offset > 0)
    ensures Attained(s.(word := Flip(s.word), worker := Draining(s.word.idx, 0)), ok)
  {
    AttainFlipped(s, force, ok);
    hide Attained;
    var t := s.(unseen := [Flip(s.word)], worker := Draining(s.word.idx, 0));
    AttainStep(t, Publish, ok);
    assert [Flip(s.word)][1..] == [] == s.unseen;
    assert Step(t, Publish) == s.(word := Flip(s.word), worker := Draining(s.word.idx, 0));
  }

  /** From the end of the wait on: flush and recycle. */
  lemma AttainFlushed(s: State, b: nat, ok: State -> bool)
    requires Attained(s, ok) && Shape(s) && s.worker == Drained(b)
    ensures Attained(s.(worker := Recycling(b), chunks := Extended(s, b)), ok)
  {
    hide Attained, Tally, StampedRecords;
    AttainStep(s, WorkerStep, ok);
    var t := s.(worker := Flushing(b, FlushLen(s.blocks[b])));
    AttainStep(t, WorkerStep, ok);
    assert FlushedChunk(t, b, FlushLen(s.blocks[b])) == FlushedChunk(s, b, FlushLen(s.blocks[b]));
  }

  lemma AttainRecycled(s: State, b: nat, ok: State -> bool)
    requires Attained(s, ok) && Shape(s) && s.worker == Drained(b)
    ensures Attained(s.(worker := Resting, chunks := Extended(s, b), blocks := s.blocks[b := Recycled(s.blocks[b])]), ok)
  {
    hide Attained, Extended;
    AttainFlushed(s, b, ok);
    var t := s.(worker := Recycling(b), chunks := Extended(s, b));
    AttainStep(t, WorkerStep, ok);
  }

  lemma AttainSwapped(s: State, force: bool, ok: State -> bool)
    requires Attained(s, ok) && Shape(s) && s.worker.Resting? && FlipSeen(s) && Current(s).writers == 0
    requires force || Current(s).offset > 0
    requires s.clean ==> Quiet(s.probes, s.word.idx)
    requires ok(s.(word := Flip(s.word), worker := Draining(s.word.idx, 0)))
    ensures Attained(Swapped(s), ok) && Shape(Swapped(s))
  {
    AttainPublished(s, force, ok);
    hide Attained;
    var b := s.word.idx;
    var t := s.(word := Flip(s.word), worker := Draining(b, 0));
    AttainStep(t, WorkerStep, ok);
    var u := t.(worker := Drained(b));
    assert Step(t, WorkerStep) == u;
    AttainRecycled(u, b, ok);
    SameExtended(s, u, b);
    hide Extended;
    assert u.(worker := Resting, chunks := Extended(u, b), blocks := u.blocks[b := Recycled(u.blocks[b])]) == Swapped(s);
  }

  lemma SameExtended(s: State, u: State, b: nat)
    requires Shape(s) && Shape(u) && b < 2 && u.blocks == s.blocks && u.probes == s.probes && u.chunks == s.chunks
    requires u.recorded == s.recorded && u.dropped == s.dropped && u.attempts == s.attempts && u.ignored == s.ignored
    ensures Extended(u, b) == Extended(s, b)
  {
    hide Tally, StampedRecords;
  }

  // ---------- runs that end badly ----------

  /** A block whose first byte is zero although a record of one byte, 1, was claimed in it. */
  lemma TornChunk(c: Chunk)
    requires |c.bytes| == 1 && c.bytes[0] == 0 && c.records == [[1]] && !c.overflow
    ensures !ChunkOk(c)
  {
    assert Concat([[1]]) == [1] + Concat([[1]][1..]) == [1];
  }

  lemma AttainTorn(s: State, ok: State -> bool) returns (t: State)
    requires Attained(s, ok) && Shape(s) && s.worker == Drained(0) && |s.chunks| == 0
    requires s.blocks[0].offset == 1 && |s.blocks[0].slots| == 1 && s.blocks[0].slots[0].record == [1]
    requires s.blocks[0].data[0] == 0
    ensures Attained(t, ok)
    ensures |t.chunks| == 1 && !t.chunks[0].overflow && !ChunkOk(t.chunks[0])
  {
    hide Attained, Tally, StampedRecords;
    AttainFlushed(s, 0, ok);
    t := s.(worker := Recycling(0), chunks := Extended(s, 0));
    assert Records(s.blocks[0].slots) == [[1]];
    TornChunk(t.chunks[0]);
  }

  lemma AttainFresh(n: nat, ok: State -> bool) returns (s: State)
    ensures Attained(s, ok) && Shape(s) && s.worker.Resting? && FlipSeen(s) && s.clean
    ensures s == Init(n, seq(CAPACITY, i => 0))
  {
    var zero: seq<byte> := seq(CAPACITY, i => 0);
    s := Init(n, zero);
    AttainInit(n, zero, ok);
  }

  lemma {:induction false} AttainSpun(t: State, n: nat, ok: State -> bool)
    requires Attained(t, ok) && Shape(t) && t.worker == Draining(0, n) && n <= MAX_SPINS
    requires t.blocks[0].writers > 0
    ensures Attained(t.(worker := Draining(0, MAX_SPINS)), ok)
    decreases MAX_SPINS - n
  {
    if n < MAX_SPINS {
      AttainStep(t, WorkerStep, ok);
      hide Attained;
      AttainSpun(t.(worker := Draining(0, n + 1)), n + 1, ok);
    } else {
      assert t == t.(worker := Draining(0, MAX_SPINS));
    }
  }

  /** The wait for block 0 gives up although some probe is at work there. */
  lemma AttainGivenUp(s: State, i: nat, ok: State -> bool)
    requires Attained(s, ok) && Shape(s) && s.worker.Resting? && FlipSeen(s) && s.word.idx == 0
    requires s.blocks[0].writers > 0 && i < |s.probes| && Active(s.probes[i], 0)
    requires ok(s.(word := Flip(s.word), worker := Draining(0, MAX_SPINS)))
    ensures Attained(s.(word := Flip(s.word), worker := Drained(0), clean := false), ok)
  {
    AttainPublished(s, true, ok);
    hide Attained;
    var b := s.(word := Flip(s.word), worker := Draining(0, 0));
    AttainSpun(b, 0, ok);
    var c := b.(worker := Draining(0, MAX_SPINS));
    AttainStep(c, WorkerStep, ok);
    assert !Quiet(s.probes, 0);
    assert Step(c, WorkerStep) == c.(worker := Drained(0), clean := false);
  }

  /** After 500 polls the worker flushes although a call has not filled its space: a run whose flips are
      all seen in time, and whose chunk, with no overflow, does not hold the record it should. */
  lemma TimeoutTearsRecord() returns (t: State)
    ensures Attained(t, FlipSeen)
    ensures |t.chunks| == 1 && !t.chunks[0].overflow && !ChunkOk(t.chunks[0])
  {
    hide Attained;
    var s := AttainFresh(1, FlipSeen);
    AttainReserved(s, 0, [1], FlipSeen);
    var a := Reserved(s, 0, [1]);
    AttainGivenUp(a, 0, FlipSeen);
    t := AttainTorn(a.(word := Flip(a.word), worker := Drained(0), clean := false), FlipSeen);
  }

  /** Two probes at work in one block on the same bytes. */
  predicate Collide(p: Probe, q: Probe) {
    && p.Copying? && p.done < |p.record| && q.Copying? && q.done < |q.record|
    && p.buf == q.buf && p.at == q.at
  }

  /** A call is still copying when its wait gives up; the block is flushed, recycled and used again, and the
      next call is given the same space. A run whose flips are all seen in time, and in which two probes
      copy to the same bytes. */
  lemma TimeoutSharesSpace() returns (t: State)
    ensures Attained(t, FlipSeen) && |t.probes| == 2 && Collide(t.probes[0], t.probes[1])
  {
    hide Attained, Extended;
    var s := AttainFresh(2, FlipSeen);
    AttainReserved(s, 0, [1], FlipSeen);
    var blk := Claimed(Current(s), [1], 0);
    AttainStamped(Begun(s, 0), 0, [1], 0, 0, blk, FlipSeen);
    var a := StampTaken(Begun(s, 0), 0, [1], 0, 0, blk);
    AttainGivenUp(a, 0, FlipSeen);
    var b := a.(word := Flip(a.word), worker := Drained(0), clean := false);
    AttainRecycled(b, 0, FlipSeen);
    var c := b.(worker := Resting, chunks := Extended(b, 0), blocks := b.blocks[0 := Recycled(b.blocks[0])]);
    AttainSwapped(c, true, FlipSeen);
    t := ShareAgain(Swapped(c));
  }

  /** The second call, into the block that was taken from the first. */
  lemma ShareAgain(s: State) returns (t: State)
    requires Attained(s, FlipSeen) && Shape(s) && s.word.idx == 0 && Empty(s.blocks[0])
    requires |s.probes| == 2 && s.probes[0] == Copying([1], 0, 0, 0, 0) && s.probes[1].Idle?
    ensures Attained(t, FlipSeen) && |t.probes| == 2 && Collide(t.probes[0], t.probes[1])
  {
    hide Attained;
    AttainReserved(s, 1, [1], FlipSeen);
    var blk := Claimed(Current(s), [1], 1);
    AttainStamped(Begun(s, 1), 1, [1], 0, 0, blk, FlipSeen);
    t := StampTaken(Begun(s, 1), 1, [1], 0, 0, blk);
  }

  /** The worker stores its flip and reads a count of zero before the probes see the flip; a probe
      then enters the block under the old epoch. A run without any timeout whose chunk, with no
      overflow, does not hold the record it should. */
  lemma UnseenFlipTearsRecord() returns (t: State)
    ensures Attained(t, NoWriters)
    ensures |t.chunks| == 1 && !t.chunks[0].overflow && !ChunkOk(t.chunks[0])
  {
    hide Attained;
    var s := AttainFresh(1, NoWriters);
    AttainFlipped(s, true, NoWriters);
    var a := s.(unseen := [Flip(s.word)], worker := Draining(0, 0));
    AttainStep(a, WorkerStep, NoWriters);
    var b := a.(worker := Drained(0), clean := false);
    assert Step(a, WorkerStep) == b;
    AttainReserved(b, 0, [1], NoWriters);
    t := AttainTorn(Reserved(b, 0, [1]), NoWriters);
  }
}
