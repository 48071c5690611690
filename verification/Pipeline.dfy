/** The whole path of a trace: probe calls on a node, the shared buffer, the container file, the
    decoder. */
module Pipeline {
  import opened Options
  import opened Words
  import Crc32
  import Framing
  import ShmBuffer
  import ShmRuns
  import ShmDelivery
  import ShmExamples
  import Container
  import ContainerWriter
  import ContainerFile

  const EVENT_STREAM: nat := 1
  const WORD32: nat := 0x1_0000_0000

  // ---------- what the worker hands to the writer ----------

  /** The chunk data the I/O worker handed to the container writer. */
  function Raws(chunks: seq<ShmBuffer.Chunk>): (raws: seq<seq<byte>>)
    ensures |raws| == |chunks|
  {
    seq(|chunks|, i requires 0 <= i < |chunks| => chunks[i].bytes)
  }

  lemma {:induction false} RawEventsAppend(raws: seq<seq<byte>>, raw: seq<byte>)
    ensures ContainerFile.RawEvents(raws + [raw])
         == ContainerFile.RawEvents(raws) + Framing.DecodeFrom(raw, |raw|, 0).events
    decreases |raws|
  {
    if |raws| == 0 {
      assert raws + [raw] == [raw];
      assert ContainerFile.RawEvents([raw][1..]) == [];
    } else {
      assert (raws + [raw])[1..] == raws[1..] + [raw];
      RawEventsAppend(raws[1..], raw);
    }
  }

  lemma {:induction false} RawEventsAreDecoded(chunks: seq<ShmBuffer.Chunk>)
    ensures ContainerFile.RawEvents(Raws(chunks)) == ShmDelivery.DecodeChunks(chunks)
    decreases |chunks|
  {
    if |chunks| > 0 {
      var front, c := chunks[..|chunks| - 1], chunks[|chunks| - 1];
      RawEventsAreDecoded(front);
      assert Raws(chunks) == Raws(front) + [c.bytes];
      RawEventsAppend(Raws(front), c.bytes);
    }
  }

  lemma RawFaultsAreFaulty(chunks: seq<ShmBuffer.Chunk>)
    ensures ContainerFile.AnyRawFault(Raws(chunks)) == ShmDelivery.Faulty(chunks)
  {
    hide Framing.DecodeFrom;
    if ShmDelivery.Faulty(chunks) {
      var c :| c in chunks && ShmDelivery.ChunkDecoded(c).fault;
      var i :| 0 <= i < |chunks| && chunks[i] == c;
      assert Raws(chunks)[i] == c.bytes;
    }
    if ContainerFile.AnyRawFault(Raws(chunks)) {
      var i :| 0 <= i < |chunks| && Framing.DecodeFrom(Raws(chunks)[i], |Raws(chunks)[i]|, 0).fault;
      assert chunks[i] in chunks && ShmDelivery.ChunkDecoded(chunks[i]).fault;
    }
  }

  // ---------- the codec ----------

  /** The most bytes LZ4 makes of `n`. */
  function PackBound(n: nat): nat {
    n + n / 255 + 16
  }

  /** Compression of a block never fails, keeps to its bound, and decompression undoes it. */
  ghost predicate Codec(pack: seq<byte> -> seq<byte>, unpack: Container.Unpacker) {
    forall raw: seq<byte> :: 0 < |raw| <= ShmBuffer.CAPACITY ==>
      0 < |pack(raw)| <= PackBound(|raw|) && unpack(pack(raw), |raw|) == Some(raw)
  }

  // ---------- the file of a node ----------

  /** One chunk as the writer stores it; the counters are cut to 32 bits. */
  function Made(c: ShmBuffer.Chunk, startNs: nat, endNs: nat, pack: seq<byte> -> seq<byte>): Container.Chunk {
    ContainerFile.MakeChunk(EVENT_STREAM, c.bytes, pack(c.bytes), c.recorded % WORD32, c.dropped % WORD32, startNs, endNs)
  }

  function AllMade(chunks: seq<ShmBuffer.Chunk>, times: seq<nat>, pack: seq<byte> -> seq<byte>): (cs: seq<Container.Chunk>)
    requires |times| == |chunks| + 1
    ensures |cs| == |chunks|
  {
    seq(|chunks|, i requires 0 <= i < |chunks| => Made(chunks[i], times[i], times[i + 1], pack))
  }

  predicate Storable(chunks: seq<ShmBuffer.Chunk>, times: seq<nat>) {
    && |chunks| < WORD32 && |times| == |chunks| + 1
    && (forall t <- times :: t < 0x1_0000_0000_0000_0000)
    && forall c <- chunks :: 0 < |c.bytes| <= ShmBuffer.CAPACITY
  }

  lemma MadeFits(c: ShmBuffer.Chunk, startNs: nat, endNs: nat, pack: seq<byte> -> seq<byte>, unpack: Container.Unpacker)
    requires Codec(pack, unpack) && 0 < |c.bytes| <= ShmBuffer.CAPACITY
    requires startNs < 0x1_0000_0000_0000_0000 && endNs < 0x1_0000_0000_0000_0000
    ensures 0 < |pack(c.bytes)| <= PackBound(ShmBuffer.CAPACITY) && Made(c, startNs, endNs, pack).packed == pack(c.bytes)
    ensures ContainerFile.Carries(Made(c, startNs, endNs, pack), c.bytes, unpack)
    ensures ContainerFile.Storable(Made(c, startNs, endNs, pack))
  {
    var packed := pack(c.bytes);
    ContainerFile.MadeChunkCarries(EVENT_STREAM, c.bytes, packed, c.recorded % WORD32, c.dropped % WORD32,
                                   startNs, endNs, unpack);
  }

  lemma FitsAt(chunks: seq<ShmBuffer.Chunk>, times: seq<nat>, pack: seq<byte> -> seq<byte>, unpack: Container.Unpacker, i: nat)
    requires Codec(pack, unpack) && Storable(chunks, times) && i < |chunks|
    ensures var c := AllMade(chunks, times, pack)[i];
            && ContainerFile.Storable(c) && ContainerFile.Carries(c, Raws(chunks)[i], unpack)
            && |c.packed| <= PackBound(ShmBuffer.CAPACITY)
  {
    hide Codec, ContainerFile.Carries, ContainerFile.Storable, Made, PackBound;
    assert chunks[i] in chunks && times[i] in times && times[i + 1] in times;
    MadeFits(chunks[i], times[i], times[i + 1], pack, unpack);
  }

  lemma AllFit(chunks: seq<ShmBuffer.Chunk>, times: seq<nat>, pack: seq<byte> -> seq<byte>, unpack: Container.Unpacker)
    requires Codec(pack, unpack) && Storable(chunks, times)
    ensures var cs := AllMade(chunks, times, pack);
            && (forall c <- cs :: ContainerFile.Storable(c))
            && (forall i :: 0 <= i < |cs| ==> ContainerFile.Carries(cs[i], Raws(chunks)[i], unpack))
            && (forall i :: 0 <= i < |cs| ==> |cs[i].packed| <= PackBound(ShmBuffer.CAPACITY))
  {
    hide Codec, ContainerFile.Carries, ContainerFile.Storable, Made, PackBound;
    var cs := AllMade(chunks, times, pack);
    forall i | 0 <= i < |cs|
      ensures ContainerFile.Storable(cs[i]) && ContainerFile.Carries(cs[i], Raws(chunks)[i], unpack)
      ensures |cs[i].packed| <= PackBound(ShmBuffer.CAPACITY)
    {
      FitsAt(chunks, times, pack, unpack, i);
    }
  }

  lemma {:induction false} ConcatBound(bs: seq<seq<byte>>, m: nat)
    requires forall b <- bs :: |b| <= m
    ensures |Framing.Concat(bs)| <= |bs| * m
    decreases |bs|
  {
    if |bs| > 0 {
      assert bs[0] in bs;
      ConcatBound(bs[1..], m);
      assert |bs| * m == m + (|bs| - 1) * m;
    }
  }

  lemma {:induction false} SumsBound(cs: seq<Container.Chunk>)
    requires forall c <- cs :: ContainerFile.Storable(c)
    ensures ContainerFile.SumRecords(cs) <= |cs| * WORD32 && ContainerFile.SumDropped(cs) <= |cs| * WORD32
    decreases |cs|
  {
    if |cs| > 0 {
      var front, c := cs[..|cs| - 1], cs[|cs| - 1];
      assert c in cs;
      SumsBound(front);
    }
  }

  lemma ImagesBound(cs: seq<Container.Chunk>, m: nat)
    requires forall c <- cs :: ContainerFile.Storable(c)
    requires forall i :: 0 <= i < |cs| ==> Container.CHUNK_HEADER + |cs[i].packed| <= m
    ensures |Framing.Concat(ContainerFile.Images(cs))| <= |cs| * m
  {
    var bs := ContainerFile.Images(cs);
    forall b <- bs
      ensures |b| <= m
    {
      var i :| 0 <= i < |bs| && bs[i] == b;
      assert cs[i] in cs;
      ContainerWriter.ChunkBytesRead(cs[i]);
      hide ContainerFile.Storable, ContainerWriter.ChunkBytes;
    }
    ConcatBound(bs, m);
  }

  /** Chunks of this size never fill a 64-bit file offset. */
  lemma FileBound(header: seq<byte>, cs: seq<Container.Chunk>)
    requires |header| == Container.FILE_HEADER && |cs| < WORD32
    requires forall c <- cs :: ContainerFile.Storable(c)
    requires forall i :: 0 <= i < |cs| ==> |cs[i].packed| <= PackBound(ShmBuffer.CAPACITY)
    ensures |header + Framing.Concat(ContainerFile.Images(cs))| < 0x1_0000_0000_0000_0000
    ensures ContainerFile.SumRecords(cs) < 0x1_0000_0000_0000_0000
    ensures ContainerFile.SumDropped(cs) < 0x1_0000_0000_0000_0000
  {
    hide ContainerFile.Storable, ContainerFile.Images, Framing.Concat, ContainerFile.SumRecords, ContainerFile.SumDropped;
    ImagesBound(cs, 0x200_0000);
    SumsBound(cs);
  }

  /** `file` is readable unless a payload runs past its chunk, and then decodes to the events of the
      chunks in order, with every chunk listed and every checksum valid. */
  ghost predicate Holds(file: seq<byte>, chunks: seq<ShmBuffer.Chunk>, node: nat, unpack: Container.Unpacker) {
    && Container.Acceptable(file) && !Container.Broken(file)
    && (Container.Readable(file, unpack) <==> !ShmDelivery.Faulty(chunks))
    && (Container.Readable(file, unpack) ==>
          var df := Container.FileContents(file, unpack);
          && df.node == node && df.events == Framing.ShowAll(ShmDelivery.DecodeChunks(chunks), node)
          && |df.listed| == |chunks|
          && forall k :: 0 <= k < |chunks| ==> df.listed[k].crcValid)
  }

  lemma FileHolds(chunks: seq<ShmBuffer.Chunk>, times: seq<nat>, header: seq<byte>, node: nat,
                  index: seq<ContainerWriter.IndexEntry>, pack: seq<byte> -> seq<byte>, unpack: Container.Unpacker)
    requires Codec(pack, unpack) && Storable(chunks, times) && |index| == |chunks|
    requires |header| == Container.FILE_HEADER && Container.Acceptable(header) && Container.U(header, 12, 4) == node
    ensures var cs := AllMade(chunks, times, pack);
            Holds(ContainerFile.ClosedFile(header, cs, index, ContainerFile.SumRecords(cs), ContainerFile.SumDropped(cs)),
                  chunks, node, unpack)
  {
    var cs := AllMade(chunks, times, pack);
    AllFit(chunks, times, pack, unpack);
    hide Codec, Storable, AllMade, Made, ContainerFile.Carries, ContainerFile.Storable, Container.Broken, Container.Readable;
    FileBound(header, cs);
    RawEventsAreDecoded(chunks);
    RawFaultsAreFaulty(chunks);
    ContainerFile.FileRoundTrip(header, cs, Raws(chunks), index, ContainerFile.SumRecords(cs), ContainerFile.SumDropped(cs),
                                unpack);
  }

  /** One `write_chunk` and the `flush` that follows it. */
  method StoreChunk(w: ContainerFile.Writer, c: ShmBuffer.Chunk, startNs: nat, endNs: nat,
                    pack: seq<byte> -> seq<byte>, ghost unpack: Container.Unpacker)
    requires w.Valid() && w.isOpen && Codec(pack, unpack) && 0 < |c.bytes| <= ShmBuffer.CAPACITY
    requires startNs < 0x1_0000_0000_0000_0000 && endNs < 0x1_0000_0000_0000_0000
    modifies w
    ensures w.Valid() && w.isOpen && w.chunks == old(w.chunks) + [Made(c, startNs, endNs, pack)]
  {
    MadeFits(c, startNs, endNs, pack, unpack);
    var ok := w.WriteChunk(EVENT_STREAM, c.bytes, c.recorded % WORD32, c.dropped % WORD32, startNs, endNs, pack);
    w.Flush();
  }

  /** A container writer is opened, fed the chunks one after the other and closed. */
  method StoreNode(chunks: seq<ShmBuffer.Chunk>, times: seq<nat>, job: nat, node: nat, rest: seq<byte>,
                   pack: seq<byte> -> seq<byte>, ghost unpack: Container.Unpacker) returns (file: seq<byte>)
    requires job < WORD32 && node < WORD32 && |rest| == 112
    requires Codec(pack, unpack) && Storable(chunks, times)
    ensures Holds(file, chunks, node, unpack)
  {
    hide Codec, Holds, Made, ContainerFile.ClosedFile, ContainerFile.FileHeaderBytes, Container.Acceptable;
    hide ContainerFile.Placed;
    var w := new ContainerFile.Writer(job, node, rest);
    ContainerFile.FileHeaderRead(job, node, rest);
    ghost var cs := AllMade(chunks, times, pack);
    for i := 0 to |chunks|
      invariant w.Valid() && w.isOpen && w.chunks == cs[..i]
    {
      assert chunks[i] in chunks && times[i] in times && times[i + 1] in times;
      StoreChunk(w, chunks[i], times[i], times[i + 1], pack, unpack);
      assert cs[..i + 1] == cs[..i] + [cs[i]];
    }
    assert cs[..|chunks|] == cs;
    w.Close();
    file := w.file;
    FileHolds(chunks, times, w.header, node, w.index, pack, unpack);
  }

  lemma SettledStorable(t: ShmBuffer.State, times: seq<nat>)
    requires ShmRuns.Attained(t, ShmRuns.Calm) && ShmDelivery.Settled(t)
    requires |t.chunks| < WORD32 && |times| == |t.chunks| + 1
    requires forall time <- times :: time < 0x1_0000_0000_0000_0000
    ensures Storable(t.chunks, times)
  {
    ShmDelivery.SettledFlushed(t);
    hide ShmRuns.Attained, ShmDelivery.Settled, Framing.Concat;
  }

  lemma HoldsReadable(file: seq<byte>, chunks: seq<ShmBuffer.Chunk>, node: nat, unpack: Container.Unpacker)
    requires Holds(file, chunks, node, unpack)
    ensures Container.Acceptable(file)
    ensures Container.Readable(file, unpack) <==> !ShmDelivery.Faulty(chunks)
  {
    hide Container.Readable, Container.Broken, ShmDelivery.Faulty, Container.Acceptable;
  }

  /** Take any run of a node whose drain waits all ended with the writer count at zero and the flip
      seen. Once it has settled, the file written from its chunks is not broken, and it is readable
      unless a payload left behind an overflow runs past its chunk. Decoding it then yields every
      event of every successful `log_event` call exactly once, and besides them only what lies behind
      overflowed chunks: nothing, if and only if the decoder's guard stops it there. */
  method NodePipeline(ghost t: ShmBuffer.State, chunks: seq<ShmBuffer.Chunk>, times: seq<nat>, job: nat, node: nat,
                      rest: seq<byte>, pack: seq<byte> -> seq<byte>, ghost unpack: Container.Unpacker)
      returns (file: seq<byte>)
    requires ShmRuns.Attained(t, ShmRuns.Calm) && ShmDelivery.Settled(t) && t.chunks == chunks
    requires forall r <- t.stamped :: ShmDelivery.GoodRecord(r)
    requires |chunks| < WORD32 && |times| == |chunks| + 1
    requires forall time <- times :: time < 0x1_0000_0000_0000_0000
    requires job < WORD32 && node < WORD32 && |rest| == 112 && Codec(pack, unpack)
    ensures Holds(file, chunks, node, unpack)
    ensures var events := ShmDelivery.DecodeChunks(chunks);
            && multiset(events) == multiset(ShmDelivery.Events(t.stamped)) + multiset(ShmDelivery.Stale(chunks))
            && |events| == t.recorded + |ShmDelivery.Stale(chunks)|
            && Container.Acceptable(file)
            && (Container.Readable(file, unpack) && multiset(events) == multiset(ShmDelivery.Events(t.stamped)) <==>
                forall c <- chunks :: c.overflow ==> ShmDelivery.TailIdle(c))
  {
    hide Codec, Holds, Storable, ShmRuns.Attained, ShmDelivery.Settled, ShmDelivery.GoodRecord, ShmDelivery.TailIdle;
    hide ShmDelivery.Faulty, ShmDelivery.Stale, ShmDelivery.DecodeChunks, ShmDelivery.Events, Container.Readable;
    SettledStorable(t, times);
    ShmDelivery.EveryEventDelivered(t);
    file := StoreNode(chunks, times, job, node, rest, pack, unpack);
    HoldsReadable(file, chunks, node, unpack);
  }

  // ---------- the totals in the trailer ----------

  /** The count in the header of a chunk: the total cut to 32 bits. */
  function Announced(c: ShmBuffer.Chunk): nat {
    c.recorded % WORD32
  }

  function SumAnnounced(chunks: seq<ShmBuffer.Chunk>): nat {
    if |chunks| == 0 then 0 else SumAnnounced(chunks[..|chunks| - 1]) + Announced(chunks[|chunks| - 1])
  }

  function SumDrops(chunks: seq<ShmBuffer.Chunk>): nat {
    if |chunks| == 0 then 0 else SumDrops(chunks[..|chunks| - 1]) + chunks[|chunks| - 1].dropped % WORD32
  }

  lemma MadeCount(c: ShmBuffer.Chunk, startNs: nat, endNs: nat, pack: seq<byte> -> seq<byte>)
    ensures var h := Made(c, startNs, endNs, pack).header;
            && h.recordCount == Announced(c) && h.droppedCount == c.dropped % WORD32
            && h.startNs == startNs && h.endNs == endNs && h.chunkType == 1
  {
    hide Crc32.Crc;
  }

  /** The trailer adds up what the chunk headers announce. */
  lemma {:induction false} TrailerSum(chunks: seq<ShmBuffer.Chunk>, times: seq<nat>, pack: seq<byte> -> seq<byte>)
    requires |times| == |chunks| + 1
    ensures ContainerFile.SumRecords(AllMade(chunks, times, pack)) == SumAnnounced(chunks)
    ensures ContainerFile.SumDropped(AllMade(chunks, times, pack)) == SumDrops(chunks)
    decreases |chunks|
  {
    hide Made, Announced;
    if |chunks| > 0 {
      var n := |chunks| - 1;
      var cs := AllMade(chunks, times, pack);
      TrailerSum(chunks[..n], times[..n + 1], pack);
      assert cs[..n] == AllMade(chunks[..n], times[..n + 1], pack);
      MadeCount(chunks[n], times[n], times[n + 1], pack);
    }
  }

  /** What is missing in the count of the last chunk: the calls that had stamped their record and were not
      counted yet when it went out, and what 32 bits do not hold. */
  function Missing(c: ShmBuffer.Chunk): nat {
    c.late + (c.recorded - c.recorded % WORD32)
  }

  /** Once a node has settled, all it recorded had been flushed with the last chunk. */
  lemma LastTotal(t: ShmBuffer.State)
    requires ShmRuns.Attained(t, ShmRuns.Calm) && ShmDelivery.Settled(t) && |t.chunks| > 0
    ensures var last := t.chunks[|t.chunks| - 1]; last.recorded + last.late == t.recorded
  {
    ShmDelivery.SettledFlushed(t);
    ShmDelivery.CalmTotals(t);
    hide ShmRuns.Attained, ShmDelivery.Settled, ShmRuns.ChunkOk, ShmRuns.Flushed;
    var n := |t.chunks| - 1;
    assert t.chunks[..n + 1] == t.chunks;
  }

  /** With every chunk the worker passes the totals since the start, and the trailer adds them up. For every
      settled run whose waits ended well, the trailer is right if and only if the counts of the earlier
      chunks happen to make up for what is missing in that of the last one. */
  lemma TrailerExactIff(t: ShmBuffer.State, times: seq<nat>, pack: seq<byte> -> seq<byte>)
    requires ShmRuns.Attained(t, ShmRuns.Calm) && ShmDelivery.Settled(t) && |times| == |t.chunks| + 1
    ensures var n := |t.chunks| - 1;
            ContainerFile.SumRecords(AllMade(t.chunks, times, pack)) == t.recorded <==>
              n < 0 || SumAnnounced(t.chunks[..n]) == Missing(t.chunks[n])
  {
    TrailerSum(t.chunks, times, pack);
    if |t.chunks| > 0 {
      LastTotal(t);
    } else {
      ShmDelivery.SettledFlushed(t);
    }
    hide AllMade, ShmRuns.Attained, ShmDelivery.Settled;
  }

  lemma SumTwo(chunks: seq<ShmBuffer.Chunk>)
    requires |chunks| == 2
    ensures SumAnnounced(chunks) == Announced(chunks[0]) + Announced(chunks[1])
  {
    assert chunks[..1][..0] == [];
    assert SumAnnounced(chunks[..1]) == SumAnnounced(chunks[..1][..0]) + Announced(chunks[0]);
  }

  /** A run of three recorded calls whose trailer claims five. */
  lemma TrailerOvercounts(times: seq<nat>, pack: seq<byte> -> seq<byte>) returns (t: ShmBuffer.State)
    requires |times| == 3
    ensures ShmRuns.Attained(t, ShmRuns.Calm) && ShmDelivery.Settled(t) && t.recorded == 3 && |t.chunks| == 2
    ensures ContainerFile.SumRecords(AllMade(t.chunks, times, pack)) == 5
  {
    t := ShmExamples.TotalsTooHigh();
    hide ShmRuns.Attained, ShmDelivery.Settled, AllMade, SumAnnounced;
    TrailerSum(t.chunks, times, pack);
    SumTwo(t.chunks);
  }

  /** A run of one recorded call whose trailer claims none: the record went out before it was counted. */
  lemma TrailerUndercounts(times: seq<nat>, pack: seq<byte> -> seq<byte>) returns (t: ShmBuffer.State)
    requires |times| == 2
    ensures ShmRuns.Attained(t, ShmRuns.Calm) && ShmDelivery.Settled(t) && t.recorded == 1 && |t.chunks| == 1
    ensures ContainerFile.SumRecords(AllMade(t.chunks, times, pack)) == 0
  {
    t := ShmExamples.TotalTooLow();
    hide ShmRuns.Attained, ShmDelivery.Settled, AllMade;
    TrailerSum(t.chunks, times, pack);
    assert t.chunks[..0] == [];
  }

  /** A run of three recorded calls in two chunks whose trailer is right. */
  lemma TrailerMadeUp(times: seq<nat>, pack: seq<byte> -> seq<byte>) returns (t: ShmBuffer.State)
    requires |times| == 3
    ensures ShmRuns.Attained(t, ShmRuns.Calm) && ShmDelivery.Settled(t) && t.recorded == 3 && |t.chunks| == 2
    ensures Announced(t.chunks[0]) > 0 && ContainerFile.SumRecords(AllMade(t.chunks, times, pack)) == 3
  {
    t := ShmExamples.TotalsMakeUp();
    hide ShmRuns.Attained, ShmDelivery.Settled, AllMade, SumAnnounced;
    TrailerSum(t.chunks, times, pack);
    SumTwo(t.chunks);
  }
}
