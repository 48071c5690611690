/** The container writer as an object, and the round trip through the file it leaves behind. */
module ContainerFile {
  import opened Options
  import opened Words
  import opened Container
  import opened ContainerWriter
  import Crc32
  import Framing

  const FILE_VERSION: nat := 0x10000
  const TRAILER_WIDTHS: seq<nat> := [4, 4, 8, 8, 8, 8]
  const INDEX_WIDTHS: seq<nat> := [8, 4, 2, 2, 8, 8, 4, 4]

  /** The file header: magic, version, job, node, and 112 bytes the decoder skips or only displays. */
  function FileHeaderBytes(job: nat, node: nat, rest: seq<byte>): seq<byte> {
    Layout([4, 4, 4, 4], [FILE_MAGIC, FILE_VERSION, job, node]) + rest
  }

  function TrailerBytes(chunks: nat, records: nat, dropped: nat, offset: nat): seq<byte> {
    Layout(TRAILER_WIDTHS, [chunks, 0, records, dropped, offset, TRAILER_MAGIC])
  }

  function IndexBytes(index: seq<IndexEntry>): seq<byte> {
    if |index| == 0 then []
    else
      var e := index[0];
      Layout(INDEX_WIDTHS, [e.offset, e.packedSize, e.chunkType, e.codec, e.startNs, e.endNs, e.recordCount, e.droppedCount])
      + IndexBytes(index[1..])
  }

  function Images(cs: seq<Chunk>): (bs: seq<seq<byte>>)
    ensures |bs| == |cs|
  {
    seq(|cs|, i requires 0 <= i < |cs| => ChunkBytes(cs[i]))
  }

  predicate Storable(c: Chunk) {
    Fits(c.header) && c.header.magic == CHUNK_MAGIC && c.header.packedSize == |c.packed|
  }

  lemma {:induction false} StorableChunks(cs: seq<Chunk>)
    requires forall c <- cs :: Storable(c)
    ensures AreChunks(Images(cs), cs)
    decreases |cs|
  {
    if |cs| > 0 {
      assert Storable(cs[0]);
      ChunkBytesRead(cs[0]);
      StorableChunks(cs[1..]);
      assert Images(cs)[1..] == Images(cs[1..]);
    }
  }

  lemma ImagesAppend(cs: seq<Chunk>, c: Chunk)
    ensures Framing.Concat(Images(cs + [c])) == Framing.Concat(Images(cs)) + ChunkBytes(c)
  {
    assert Images(cs + [c]) == Images(cs) + [ChunkBytes(c)];
    Framing.ConcatAppend(Images(cs), ChunkBytes(c));
  }

  lemma TrailerOffsets()
    ensures Offset(TRAILER_WIDTHS, 0) == 0 && Offset(TRAILER_WIDTHS, 2) == 8 && Offset(TRAILER_WIDTHS, 3) == 16
    ensures Offset(TRAILER_WIDTHS, 4) == 24 && Offset(TRAILER_WIDTHS, 5) == 32 && Offset(TRAILER_WIDTHS, 6) == TRAILER
  {
  }

  lemma TrailerFits(v: seq<nat>)
    requires |v| == 6 && v[0] < 0x1_0000_0000 && v[1] == 0
    requires forall i :: 2 <= i < 6 ==> v[i] < 0x1_0000_0000_0000_0000
    ensures Representable(TRAILER_WIDTHS, v) && Total(TRAILER_WIDTHS) == TRAILER
  {
    Pow2Values();
    hide Pow2, Offset, Total;
    TrailerOffsets();
    TotalIsOffset(TRAILER_WIDTHS);
  }

  /** The numbers of a trailer are read back, among them where the index starts and the magic. */
  lemma TrailerRead(file: seq<byte>, pre: seq<byte>, chunks: nat, records: nat, dropped: nat, offset: nat)
    requires file == pre + TrailerBytes(chunks, records, dropped, offset)
    requires chunks < 0x1_0000_0000
    requires records < 0x1_0000_0000_0000_0000 && dropped < 0x1_0000_0000_0000_0000
    requires offset < 0x1_0000_0000_0000_0000
    ensures |file| == |pre| + TRAILER
    ensures U(file, |file| - 8, 8) == TRAILER_MAGIC && U(file, |file| - 16, 8) == offset
    ensures U(file, |pre|, 4) == chunks && U(file, |pre| + 8, 8) == records && U(file, |pre| + 16, 8) == dropped
  {
    var v := [chunks, 0, records, dropped, offset, TRAILER_MAGIC];
    hide Layout, Offset, Total, Fields, Representable, U;
    TrailerFits(v);
    TrailerOffsets();
    LayoutLength(TRAILER_WIDTHS, v);
    assert file == pre + (Layout(TRAILER_WIDTHS, v) + []);
    LayoutFields(file, pre, TRAILER_WIDTHS, v, []);
    FieldAt(file, |pre|, TRAILER_WIDTHS, v, 0);
    FieldAt(file, |pre|, TRAILER_WIDTHS, v, 2);
    FieldAt(file, |pre|, TRAILER_WIDTHS, v, 3);
    FieldAt(file, |pre|, TRAILER_WIDTHS, v, 4);
    FieldAt(file, |pre|, TRAILER_WIDTHS, v, 5);
  }

  lemma FileHeaderRead(job: nat, node: nat, rest: seq<byte>)
    requires job < 0x1_0000_0000 && node < 0x1_0000_0000 && |rest| == 112
    ensures var h := FileHeaderBytes(job, node, rest);
            |h| == 128 && Acceptable(h) && U(h, 4, 4) == 0x10000 && U(h, 8, 4) == job && U(h, 12, 4) == node
  {
    var h, w, v := FileHeaderBytes(job, node, rest), [4, 4, 4, 4], [FILE_MAGIC, FILE_VERSION, job, node];
    Pow2Values();
    assert Representable(w, v);
    LayoutLength(w, v);
    TotalIsOffset(w);
    assert Offset(w, 1) == 4 && Offset(w, 2) == 8 && Offset(w, 3) == 12 && Offset(w, 4) == 16;
    assert h == [] + (Layout(w, v) + rest);
    LayoutFields(h, [], w, v, rest);
    FieldAt(h, 0, w, v, 0);
    FieldAt(h, 0, w, v, 1);
    FieldAt(h, 0, w, v, 2);
    FieldAt(h, 0, w, v, 3);
  }

  /** Index table and trailer, for a chunk area that ends at `end`. */
  function FileTail(index: seq<IndexEntry>, records: nat, dropped: nat, end: nat): seq<byte> {
    IndexBytes(index) + TrailerBytes(|index|, records, dropped, end)
  }

  /** The file a writer leaves when it closes after storing `cs`. */
  function ClosedFile(header: seq<byte>, cs: seq<Chunk>, index: seq<IndexEntry>, records: nat, dropped: nat): seq<byte> {
    var body := header + Framing.Concat(Images(cs));
    body + FileTail(index, records, dropped, |body|)
  }

  function SumRecords(cs: seq<Chunk>): nat {
    if |cs| == 0 then 0 else SumRecords(cs[..|cs| - 1]) + cs[|cs| - 1].header.recordCount
  }

  function SumDropped(cs: seq<Chunk>): nat {
    if |cs| == 0 then 0 else SumDropped(cs[..|cs| - 1]) + cs[|cs| - 1].header.droppedCount
  }

  /** Entry `e` describes chunk `c` and says where it starts in `image`. */
  predicate Indexes(e: IndexEntry, c: Chunk, image: seq<byte>) {
    && e == IndexEntry(e.offset, c.header.packedSize, c.header.chunkType, c.header.codec, c.header.startNs,
                       c.header.endNs, c.header.recordCount, c.header.droppedCount)
    && e.offset + |ChunkBytes(c)| <= |image|
    && image[e.offset..e.offset + |ChunkBytes(c)|] == ChunkBytes(c)
  }

  function Entry(c: Chunk, offset: nat): (e: IndexEntry)
    ensures e.offset == offset && e.packedSize == c.header.packedSize
    ensures e.chunkType == c.header.chunkType && e.codec == c.header.codec
    ensures e.startNs == c.header.startNs && e.endNs == c.header.endNs
    ensures e.recordCount == c.header.recordCount && e.droppedCount == c.header.droppedCount
  {
    IndexEntry(offset, c.header.packedSize, c.header.chunkType, c.header.codec, c.header.startNs, c.header.endNs,
               c.header.recordCount, c.header.droppedCount)
  }

  /** Every chunk can be stored, has an index entry, and is part of the totals. */
  ghost predicate Booked(cs: seq<Chunk>, index: seq<IndexEntry>, records: nat, dropped: nat) {
    && (forall c <- cs :: Storable(c))
    && records == SumRecords(cs) && dropped == SumDropped(cs)
    && |index| == |cs|
  }

  /** Each entry describes its chunk and points at its start. */
  predicate PointsAt(index: seq<IndexEntry>, cs: seq<Chunk>) {
    |index| == |cs| && forall k :: 0 <= k < |cs| ==> index[k] == Entry(cs[k], StartOf(cs, k))
  }

  lemma PointsBehind(index: seq<IndexEntry>, cs: seq<Chunk>)
    requires PointsAt(index, cs)
    ensures FirstBehind(index)
  {
    if |cs| > 0 {
      assert Images(cs[..0]) == [];
      assert index[0] == Entry(cs[0], StartOf(cs, 0)) && StartOf(cs, 0) == FILE_HEADER;
    }
  }

  lemma PointsAppend(index: seq<IndexEntry>, cs: seq<Chunk>, c: Chunk)
    requires PointsAt(index, cs)
    ensures PointsAt(index + [Entry(c, FILE_HEADER + |Framing.Concat(Images(cs))|)], cs + [c])
  {
    hide Images, Framing.Concat;
    var all := cs + [c];
    assert all[..|cs|] == cs;
    forall k | 0 <= k < |cs|
      ensures StartOf(all, k) == StartOf(cs, k)
    {
      assert all[..k] == cs[..k];
    }
  }

  /** The first entry points right behind the file header. */
  predicate FirstBehind(index: seq<IndexEntry>) {
    |index| > 0 ==> index[0].offset == FILE_HEADER
  }

  /** `image` is the header and every chunk, and each index entry points at its chunk. */
  ghost predicate Placed(header: seq<byte>, cs: seq<Chunk>, index: seq<IndexEntry>, image: seq<byte>) {
    && image == header + Framing.Concat(Images(cs))
    && |index| == |cs| && |header| == FILE_HEADER && PointsAt(index, cs)
    && forall k :: 0 <= k < |cs| ==> Indexes(index[k], cs[k], image)
  }

  lemma BookedAppend(cs: seq<Chunk>, index: seq<IndexEntry>, records: nat, dropped: nat, c: Chunk, offset: nat)
    requires Booked(cs, index, records, dropped) && Storable(c)
    ensures Booked(cs + [c], index + [Entry(c, offset)], records + c.header.recordCount, dropped + c.header.droppedCount)
  {
    assert (cs + [c])[..|cs|] == cs;
  }

  lemma AppendAssoc(a: seq<byte>, b: seq<byte>, c: seq<byte>)
    ensures a + (b + c) == (a + b) + c
  {
  }

  lemma PlacedAppend(header: seq<byte>, cs: seq<Chunk>, index: seq<IndexEntry>, image: seq<byte>, c: Chunk)
    requires Placed(header, cs, index, image)
    ensures Placed(header, cs + [c], index + [Entry(c, |image|)], image + ChunkBytes(c))
  {
    hide ChunkBytes, Indexes, Images, Framing.Concat, PointsAt;
    PointsAppend(index, cs, c);
    ImagesAppend(cs, c);
    AppendAssoc(header, Framing.Concat(Images(cs)), ChunkBytes(c));
    IndexesStay(index + [Entry(c, |image|)], cs, c, image);
  }

  lemma StagedLength(c: Chunk)
    requires Storable(c)
    ensures |ChunkBytes(c)| == CHUNK_HEADER + |c.packed|
  {
    ChunkBytesRead(c);
  }

  class Writer {
    var isOpen: bool
    var file: seq<byte>
    var staging: seq<byte>
    var index: seq<IndexEntry>
    var totalRecords: nat
    var totalDropped: nat
    ghost const header: seq<byte>
    ghost var chunks: seq<Chunk>

    /** While open, what is on disk followed by what is staged is the header and every chunk so far,
        and each index entry points at its chunk. */
    ghost predicate Valid()
      reads this
    {
      && |header| == FILE_HEADER && Acceptable(header)
      && Booked(chunks, index, totalRecords, totalDropped)
      && (isOpen ==> Placed(header, chunks, index, file + staging))
    }

    /** `open`. */
    constructor (job: nat, node: nat, rest: seq<byte>)
      requires job < 0x1_0000_0000 && node < 0x1_0000_0000 && |rest| == 112
      ensures Valid() && isOpen && chunks == []
      ensures header == FileHeaderBytes(job, node, rest)
    {
      FileHeaderRead(job, node, rest);
      isOpen, staging, index, totalRecords, totalDropped := true, [], [], 0, 0;
      file := FileHeaderBytes(job, node, rest);
      header := FileHeaderBytes(job, node, rest);
      chunks := [];
    }

    /** `flush_staging_buffer_locked`: what was staged moves to disk. */
    method Flush()
      requires Valid()
      modifies this
      ensures Valid() && chunks == old(chunks) && isOpen == old(isOpen) && index == old(index)
      ensures isOpen ==> staging == [] && file == old(file + staging)
      ensures !isOpen ==> file == old(file)
    {
      if isOpen {
        file := file + staging;
        staging := [];
        assert file + staging == file;
      }
    }

    /** `write_chunk`: compress, describe, index and stage one chunk. */
    method WriteChunk(chunkType: nat, raw: seq<byte>, recordCount: nat, droppedCount: nat, startNs: nat, endNs: nat,
                      pack: seq<byte> -> seq<byte>) returns (ok: bool)
      requires Valid()
      requires chunkType < 0x1_0000 && |raw| < 0x1_0000_0000 && |pack(raw)| < 0x1_0000_0000
      requires recordCount < 0x1_0000_0000 && droppedCount < 0x1_0000_0000
      requires startNs < 0x1_0000_0000_0000_0000 && endNs < 0x1_0000_0000_0000_0000
      modifies this
      ensures Valid() && isOpen == old(isOpen)
      ensures ok <==> old(isOpen) && |raw| > 0 && |pack(raw)| > 0
      ensures !ok ==> chunks == old(chunks)
      ensures ok ==> chunks == old(chunks) + [MakeChunk(chunkType, raw, pack(raw), recordCount, droppedCount, startNs, endNs)]
      ensures ok ==> |staging| < 2 * 1024 * 1024
      ensures ok && old(|staging|) + CHUNK_HEADER + |pack(raw)| < 2 * 1024 * 1024 ==> file == old(file)
    {
      if |raw| == 0 || !isOpen {
        return false;
      }
      var packed := pack(raw);
      if |packed| == 0 {
        return false;
      }
      var crc := Crc32.ComputeCrc32(packed);
      Crc32.CrcIsRemainder(packed);
      Stage(Chunk(ChunkHeader(CHUNK_MAGIC, chunkType, CODEC_LZ4, |raw|, |packed|, startNs, endNs, recordCount,
                              droppedCount, crc), packed));
      if |staging| >= STRIPE {
        Flush();
      }
      ok := true;
    }

    /** The chunk is indexed, counted and appended to the staging buffer. */
    method Stage(c: Chunk)
      requires Valid() && isOpen && Storable(c)
      modifies this
      ensures Valid() && isOpen && chunks == old(chunks) + [c]
      ensures file == old(file) && |staging| == old(|staging|) + CHUNK_HEADER + |c.packed|
    {
      StagedLength(c);
      hide Booked, Placed, Storable, ChunkBytes;
      ghost var image := file + staging;
      var entry, bytes := Entry(c, |file| + |staging|), ChunkBytes(c);
      BookedAppend(chunks, index, totalRecords, totalDropped, c, |image|);
      PlacedAppend(header, chunks, index, image, c);
      AppendAssoc(file, staging, bytes);
      index := index + [entry];
      totalRecords, totalDropped := totalRecords + c.header.recordCount, totalDropped + c.header.droppedCount;
      staging := staging + bytes;
      chunks := chunks + [c];
    }

    /** `close`: flush, then index table and trailer. */
    method Close()
      requires Valid()
      modifies this
      ensures !isOpen && chunks == old(chunks)
      ensures old(isOpen) ==> file == ClosedFile(header, chunks, index, SumRecords(chunks), SumDropped(chunks))
      ensures old(isOpen) ==> FirstBehind(index) && PointsAt(index, chunks)
      ensures !old(isOpen) ==> file == old(file)
      ensures index == old(index)
    {
      if !isOpen {
        return;
      }
      PointsBehind(index, chunks);
      Flush();
      assert file + staging == file;
      var body := file;
      if |index| > 0 {
        file := file + IndexBytes(index);
      }
      assert file == body + IndexBytes(index);
      AppendAssoc(body, IndexBytes(index), TrailerBytes(|index|, totalRecords, totalDropped, |body|));
      file := file + TrailerBytes(|index|, totalRecords, totalDropped, |body|);
      isOpen := false;
    }
  }

  function MakeChunk(chunkType: nat, raw: seq<byte>, packed: seq<byte>, recordCount: nat, droppedCount: nat,
                     startNs: nat, endNs: nat): (c: Chunk)
    ensures c.packed == packed && c.header.rawSize == |raw| && c.header.packedSize == |packed|
    ensures c.header.chunkType == chunkType && c.header.startNs == startNs && c.header.endNs == endNs
    ensures c.header.recordCount == recordCount && c.header.droppedCount == droppedCount && c.header.codec == 1
  {
    var crc := Crc32.Crc(packed);
    Chunk(ChunkHeader(CHUNK_MAGIC, chunkType, CODEC_LZ4, |raw|, |packed|, startNs, endNs, recordCount, droppedCount,
                      if crc >= 0 then crc else 0), packed)
  }

  lemma IndexesStay(index: seq<IndexEntry>, cs: seq<Chunk>, c: Chunk, image: seq<byte>)
    requires |index| == |cs| + 1
    requires forall k :: 0 <= k < |cs| ==> Indexes(index[k], cs[k], image)
    requires index[|cs|] == IndexEntry(|image|, c.header.packedSize, c.header.chunkType, c.header.codec,
                                       c.header.startNs, c.header.endNs, c.header.recordCount, c.header.droppedCount)
    ensures forall k :: 0 <= k <= |cs| ==> Indexes(index[k], (cs + [c])[k], image + ChunkBytes(c))
  {
    var image' := image + ChunkBytes(c);
    forall k | 0 <= k <= |cs|
      ensures Indexes(index[k], (cs + [c])[k], image')
    {
      if k < |cs| {
        assert Indexes(index[k], cs[k], image);
        var lo, hi := index[k].offset, index[k].offset + |ChunkBytes(cs[k])|;
        assert image'[lo..hi] == image[lo..hi];
      }
    }
  }

  // ---------- the round trip ----------

  /** A closed file names the end of its chunk area. */
  lemma ClosedFileEnd(header: seq<byte>, cs: seq<Chunk>, index: seq<IndexEntry>, records: nat, dropped: nat)
    requires |header| == FILE_HEADER
    requires |index| < 0x1_0000_0000
    requires records < 0x1_0000_0000_0000_0000 && dropped < 0x1_0000_0000_0000_0000
    requires |header + Framing.Concat(Images(cs))| < 0x1_0000_0000_0000_0000
    ensures ChunkEnd(ClosedFile(header, cs, index, records, dropped)) == FILE_HEADER + |Framing.Concat(Images(cs))|
  {
    hide IndexBytes, TrailerBytes, Images, Framing.Concat;
    var body := header + Framing.Concat(Images(cs));
    var file := ClosedFile(header, cs, index, records, dropped);
    AppendAssoc(body, IndexBytes(index), TrailerBytes(|index|, records, dropped, |body|));
    TrailerRead(file, body + IndexBytes(index), |index|, records, dropped, |body|);
  }

  /** Decoding a closed file lists exactly the chunks that were written. */
  lemma ClosedFileLists(header: seq<byte>, cs: seq<Chunk>, index: seq<IndexEntry>, records: nat, dropped: nat)
    requires |header| == FILE_HEADER && Acceptable(header)
    requires forall c <- cs :: Storable(c)
    requires |index| < 0x1_0000_0000
    requires records < 0x1_0000_0000_0000_0000 && dropped < 0x1_0000_0000_0000_0000
    requires |header + Framing.Concat(Images(cs))| < 0x1_0000_0000_0000_0000
    ensures var file := ClosedFile(header, cs, index, records, dropped);
            && Acceptable(file) && U(file, 12, 4) == U(header, 12, 4)
            && ListChunks(file) == Listing(Expected(FileReader(file), cs, FILE_HEADER), cs, false)
  {
    ClosedFileEnd(header, cs, index, records, dropped);
    var file, tail := ClosedFile(header, cs, index, records, dropped),
                      FileTail(index, records, dropped, |header + Framing.Concat(Images(cs))|);
    assert file == header + Framing.Concat(Images(cs)) + tail;
    StorableChunks(cs);
    hide ClosedFile, FileTail, ChunkEnd, ListChunks, FileReader, Storable, AreChunks, Images, Framing.Concat;
    HeaderKept(file, header);
    ListRoundTrip(file, header, Images(cs), cs, tail);
  }

  lemma HeaderKept(file: seq<byte>, header: seq<byte>)
    requires |header| == FILE_HEADER && Acceptable(header) && header <= file
    ensures Acceptable(file) && U(file, 12, 4) == U(header, 12, 4)
  {
    assert file[0..4] == header[0..4];
    assert file[12..16] == header[12..16];
  }

  /** The packed data of `c` unpacks to `raw`, and its checksum is right. */
  ghost predicate Carries(c: Chunk, raw: seq<byte>, unpack: Unpacker) {
    && unpack(c.packed, c.header.rawSize) == Some(raw) && c.header.rawSize == |raw|
    && c.header.crc == Crc32.Crc(c.packed)
  }

  /** What `WriteChunk` appends carries the raw bytes, and fits the file, whenever decompression
      undoes compression. */
  lemma MadeChunkCarries(chunkType: nat, raw: seq<byte>, packed: seq<byte>, recordCount: nat, droppedCount: nat,
                         startNs: nat, endNs: nat, unpack: Unpacker)
    requires unpack(packed, |raw|) == Some(raw)
    requires chunkType < 0x1_0000 && |raw| < 0x1_0000_0000 && |packed| < 0x1_0000_0000
    requires recordCount < 0x1_0000_0000 && droppedCount < 0x1_0000_0000
    requires startNs < 0x1_0000_0000_0000_0000 && endNs < 0x1_0000_0000_0000_0000
    ensures var c := MakeChunk(chunkType, raw, packed, recordCount, droppedCount, startNs, endNs);
            Carries(c, raw, unpack) && Storable(c)
  {
    Crc32.CrcIsRemainder(packed);
  }

  function RawEvents(raws: seq<seq<byte>>): seq<Framing.Event> {
    if |raws| == 0 then [] else Framing.DecodeFrom(raws[0], |raws[0]|, 0).events + RawEvents(raws[1..])
  }

  predicate AnyRawFault(raws: seq<seq<byte>>) {
    exists i :: 0 <= i < |raws| && Framing.DecodeFrom(raws[i], |raws[i]|, 0).fault
  }

  lemma CarriedEvents(c: Chunk, raw: seq<byte>, unpack: Unpacker)
    requires Carries(c, raw, unpack)
    ensures ChunkEvents(c, unpack) == Framing.DecodeFrom(raw, |raw|, 0)
  {
  }

  lemma {:induction false} UnpackedEvents(cs: seq<Chunk>, raws: seq<seq<byte>>, unpack: Unpacker)
    requires |cs| == |raws| && forall i :: 0 <= i < |cs| ==> Carries(cs[i], raws[i], unpack)
    ensures AllEvents(cs, unpack) == RawEvents(raws)
    decreases |cs|
  {
    hide Carries;
    if |cs| > 0 {
      CarriedEvents(cs[0], raws[0], unpack);
      forall i | 0 <= i < |cs[1..]|
        ensures Carries(cs[1..][i], raws[1..][i], unpack)
      {
        assert Carries(cs[i + 1], raws[i + 1], unpack);
      }
      UnpackedEvents(cs[1..], raws[1..], unpack);
    }
  }

  lemma UnpackedFaults(cs: seq<Chunk>, raws: seq<seq<byte>>, unpack: Unpacker)
    requires |cs| == |raws| && forall i :: 0 <= i < |cs| ==> Carries(cs[i], raws[i], unpack)
    ensures AnyFault(cs, unpack) == AnyRawFault(raws)
  {
    hide Carries, ChunkEvents, Framing.DecodeFrom;
    forall i | 0 <= i < |cs|
      ensures ChunkEvents(cs[i], unpack) == Framing.DecodeFrom(raws[i], |raws[i]|, 0)
    {
      CarriedEvents(cs[i], raws[i], unpack);
    }
  }

  lemma {:induction false} StartIsArea(cs: seq<Chunk>, k: nat)
    requires k <= |cs| && forall c <- cs :: Storable(c)
    ensures StartOf(cs, k) == FILE_HEADER + Area(cs, k)
    decreases k
  {
    hide ChunkBytes;
    if k > 0 {
      StartIsArea(cs, k - 1);
      StartsFollow(cs, k - 1);
      AreaNext(cs, k - 1);
      assert Storable(cs[k - 1]);
      ChunkBytesRead(cs[k - 1]);
    } else {
      assert Images(cs[..0]) == [];
    }
  }

  lemma ListedValid(r: Reader, cs: seq<Chunk>, raws: seq<seq<byte>>, unpack: Unpacker)
    requires |cs| == |raws| && forall i :: 0 <= i < |cs| ==> Carries(cs[i], raws[i], unpack)
    requires (forall c <- cs :: Storable(c)) && forall data: seq<byte> :: r.crc(data) == Crc32.Crc(data)
    ensures var l := Expected(r, cs, FILE_HEADER);
            forall k :: 0 <= k < |cs| ==> l[k].crcValid && l[k].header == cs[k].header && l[k].offset == StartOf(cs, k)
  {
    hide StartOf, Area, Storable;
    forall k | 0 <= k < |cs|
      ensures var l := Expected(r, cs, FILE_HEADER)[k];
              l.crcValid && l.header == cs[k].header && l.offset == StartOf(cs, k)
    {
      ExpectedAt(r, cs, FILE_HEADER, k);
      StartIsArea(cs, k);
      assert Carries(cs[k], raws[k], unpack);
    }
  }

  /** From chunk data to file and back: the closed file is not broken, and reading it is sound if and
      only if no payload of the raw data runs past its end. Decoding then yields every event of every
      chunk in order, every checksum agrees, and no chunk is missing. */
  lemma FileRoundTrip(header: seq<byte>, cs: seq<Chunk>, raws: seq<seq<byte>>, index: seq<IndexEntry>,
                      records: nat, dropped: nat, unpack: Unpacker)
    requires |header| == FILE_HEADER && Acceptable(header)
    requires forall c <- cs :: Storable(c)
    requires |cs| == |raws| && forall i :: 0 <= i < |cs| ==> Carries(cs[i], raws[i], unpack)
    requires |index| < 0x1_0000_0000
    requires records < 0x1_0000_0000_0000_0000 && dropped < 0x1_0000_0000_0000_0000
    requires |header + Framing.Concat(Images(cs))| < 0x1_0000_0000_0000_0000
    ensures var file := ClosedFile(header, cs, index, records, dropped);
            && Acceptable(file) && !Broken(file)
            && (Readable(file, unpack) <==> !AnyRawFault(raws))
            && (Readable(file, unpack) ==>
                  var df := FileContents(file, unpack);
                  && df.node == U(header, 12, 4)
                  && df.events == Framing.ShowAll(RawEvents(raws), df.node)
                  && |df.listed| == |cs|
                  && forall k :: 0 <= k < |cs| ==>
                    df.listed[k].crcValid && df.listed[k].header == cs[k].header && df.listed[k].offset == StartOf(cs, k))
  {
    ClosedFileLists(header, cs, index, records, dropped);
    var file := ClosedFile(header, cs, index, records, dropped);
    hide ClosedFile, Carries, ListChunks, StartOf, Storable;
    UnpackedEvents(cs, raws, unpack);
    UnpackedFaults(cs, raws, unpack);
    ListedValid(FileReader(file), cs, raws, unpack);
  }

  // ---------- a file cut short ----------

  /** Where chunk `k` starts when the chunks lie one after the other behind the file header. */
  function StartOf(cs: seq<Chunk>, k: nat): nat
    requires k <= |cs|
  {
    FILE_HEADER + |Framing.Concat(Images(cs[..k]))|
  }

  lemma StartsFollow(cs: seq<Chunk>, k: nat)
    requires k < |cs|
    ensures StartOf(cs, k + 1) == StartOf(cs, k) + |ChunkBytes(cs[k])|
    ensures StartOf(cs, k + 1) <= FILE_HEADER + |Framing.Concat(Images(cs))|
    ensures Framing.Concat(Images(cs[..k + 1])) == Framing.Concat(Images(cs[..k])) + ChunkBytes(cs[k])
    ensures Framing.Concat(Images(cs[..k + 1])) <= Framing.Concat(Images(cs))
  {
    Framing.ConcatTake(Images(cs), k);
    assert Images(cs)[..k] == Images(cs[..k]) && Images(cs)[..k + 1] == Images(cs[..k + 1]);
  }

  /** The file ends inside `b`, which starts at `at`. */
  predicate EndsInside(file: seq<byte>, at: nat, b: seq<byte>) {
    at <= |file| < at + |b| && file[at..] <= b
  }

  lemma CutHeader(file: seq<byte>, at: nat, b: seq<byte>)
    requires EndsInside(file, at, b) && at + CHUNK_HEADER <= |file|
    ensures ReadChunkHeader(file, at) == ReadChunkHeader(b, 0)
  {
    assert file[at..at + CHUNK_HEADER] == file[at..][..CHUNK_HEADER] == b[..CHUNK_HEADER];
    HeaderLocal(file, at, b);
  }

  /** Where a chunk is cut, the listing breaks if it gets there. */
  lemma CutChunk(file: seq<byte>, end: nat, at: nat, c: Chunk)
    requires Storable(c) && EndsInside(file, at, ChunkBytes(c))
    ensures ListWith(FileReader(file), file, end, at).broken <==> at + CHUNK_HEADER <= end
  {
    ChunkBytesRead(c);
    hide ChunkBytes, Fits;
    if at + CHUNK_HEADER <= |file| {
      CutHeader(file, at, ChunkBytes(c));
      hide ReadChunkHeader, EndsInside;
      assert |ChunkBytes(c)| == CHUNK_HEADER + |c.packed|;
    }
  }

  /** The lowest byte of the magic number of a chunk. */
  const MAGIC_BYTE: byte := 0x4B

  lemma NoMagic(file: seq<byte>, at: nat)
    requires at + CHUNK_HEADER <= |file| && file[at] != MAGIC_BYTE
    ensures ReadChunkHeader(file, at).magic != CHUNK_MAGIC
  {
    var s := file[at..at + 4];
    assert FromLE(s) == s[0] + 256 * FromLE(s[1..]);
  }

  /** Where no chunk starts, the listing breaks only if the file is too short for a header. */
  lemma CutTail(file: seq<byte>, end: nat, at: nat)
    requires at <= |file| && (at < |file| ==> file[at] != MAGIC_BYTE)
    ensures ListWith(FileReader(file), file, end, at).broken <==> |file| < at + CHUNK_HEADER <= end
  {
    if at + CHUNK_HEADER <= |file| {
      NoMagic(file, at);
      hide ReadChunkHeader;
    }
  }

  /** A whole chunk is passed over, unless the chunk area is said to end before it. */
  lemma PassChunk(r: Reader, b: seq<byte>, c: Chunk, file: seq<byte>, end: nat, at: nat)
    requires FindsOne(r.head, at, b, c) && Framing.Holds(file, at, b)
    ensures ListWith(r, file, end, at).broken <==>
            at + CHUNK_HEADER <= end && ListWith(r, file, end, at + |b|).broken
  {
  }

  lemma StopsBeyond(r: Reader, file: seq<byte>, end: nat, at: nat)
    requires at <= |file|
    ensures ListWith(r, file, end, at).broken ==> at + CHUNK_HEADER <= end
  {
  }

  lemma {:induction false} PassChunks(r: Reader, bs: seq<seq<byte>>, cs: seq<Chunk>, file: seq<byte>, end: nat, at: nat)
    requires Finds(r.head, at, bs, cs) && Framing.Holds(file, at, Framing.Concat(bs))
    ensures ListWith(r, file, end, at).broken <==> ListWith(r, file, end, at + |Framing.Concat(bs)|).broken
    decreases |bs|
  {
    hide ListWith, FindsOne, Framing.Holds;
    if |bs| > 0 {
      var next := at + |bs[0]|;
      Framing.HoldsConcat(file, at, bs[0], Framing.Concat(bs[1..]));
      PassChunk(r, bs[0], cs[0], file, end, at);
      PassChunks(r, bs[1..], cs[1..], file, end, next);
      HoldsInside(file, next, Framing.Concat(bs[1..]));
      StopsBeyond(r, file, end, next);
    }
  }

  lemma HoldsInside(file: seq<byte>, at: nat, b: seq<byte>)
    requires Framing.Holds(file, at, b)
    ensures at + |b| <= |file|
  {
  }

  /** Chunks that lie whole at the front of the file; listing goes on behind them. */
  lemma ListsFront(file: seq<byte>, end: nat, front: seq<Chunk>)
    requires forall c <- front :: Storable(c)
    requires Framing.Holds(file, FILE_HEADER, Framing.Concat(Images(front)))
    ensures var at := FILE_HEADER + |Framing.Concat(Images(front))|;
            && at <= |file|
            && ListWith(FileReader(file), file, end, FILE_HEADER).broken ==
               ListWith(FileReader(file), file, end, at).broken
  {
    hide FileReader, Images, Storable, AreChunks, Finds, Framing.Concat, ListWith;
    StorableChunks(front);
    ChunksFound(Images(front), front, file, FILE_HEADER);
    PassChunks(FileReader(file), Images(front), front, file, end, FILE_HEADER);
  }

  /** How many chunks the first `cut` bytes hold whole. */
  function WholeChunks(cs: seq<Chunk>, cut: nat): (k: nat)
    ensures k <= |cs|
  {
    if cut < FILE_HEADER then 0 else Framing.WholeRecords(Images(cs), cut - FILE_HEADER)
  }

  lemma WholeExact(cs: seq<Chunk>, cut: nat)
    requires cut >= FILE_HEADER
    ensures var k := WholeChunks(cs, cut); StartOf(cs, k) <= cut && (k < |cs| ==> cut < StartOf(cs, k + 1))
  {
    var bs, k := Images(cs), WholeChunks(cs, cut);
    Framing.WholeRecordsExact(bs, cut - FILE_HEADER);
    assert bs[..k] == Images(cs[..k]);
    if k < |cs| {
      assert bs[..k + 1] == Images(cs[..k + 1]);
    }
  }

  lemma CutPrefix(header: seq<byte>, all: seq<byte>, front: seq<byte>, next: seq<byte>, file: seq<byte>)
    requires front + next <= all && |header| + |front| <= |file| < |header| + |front| + |next|
    requires file <= header + all
    ensures Framing.Holds(file, |header|, front) && EndsInside(file, |header| + |front|, next)
  {
    assert file == header + (front + next)[..|file| - |header|];
    assert file == header + front + next[..|file| - |header| - |front|];
  }

  /** A file cut inside a chunk: the whole chunks, then part of the next. */
  lemma CutBytes(header: seq<byte>, cs: seq<Chunk>, tail: seq<byte>, k: nat, file: seq<byte>)
    requires |header| == FILE_HEADER && file <= header + (Framing.Concat(Images(cs)) + tail)
    requires k < |cs| && StartOf(cs, k) <= |file| < StartOf(cs, k + 1)
    ensures Framing.Holds(file, FILE_HEADER, Framing.Concat(Images(cs[..k])))
    ensures EndsInside(file, StartOf(cs, k), ChunkBytes(cs[k]))
  {
    StartsFollow(cs, k);
    hide Images, ChunkBytes, Framing.Concat;
    var all := Framing.Concat(Images(cs));
    assert all <= all + tail;
    CutPrefix(header, all + tail, Framing.Concat(Images(cs[..k])), ChunkBytes(cs[k]), file);
  }

  /** A file cut behind its chunks: all of them, then part of what follows. */
  lemma CutBehind(header: seq<byte>, all: seq<byte>, tail: seq<byte>, file: seq<byte>)
    requires file <= header + (all + tail) && |header| + |all| <= |file|
    ensures Framing.Holds(file, |header|, all)
    ensures |header| + |all| < |file| ==> |tail| > 0 && file[|header| + |all|] == tail[0]
  {
    var whole := header + (all + tail);
    assert file == whole[..|file|];
    assert whole == header + all + tail;
    assert file[|header|..|header| + |all|] == all;
  }

  lemma ListsThenCut(file: seq<byte>, end: nat, front: seq<Chunk>, c: Chunk, at: nat)
    requires (forall x <- front :: Storable(x)) && Storable(c)
    requires at == FILE_HEADER + |Framing.Concat(Images(front))|
    requires Framing.Holds(file, FILE_HEADER, Framing.Concat(Images(front))) && EndsInside(file, at, ChunkBytes(c))
    ensures ListWith(FileReader(file), file, end, FILE_HEADER).broken <==> at + CHUNK_HEADER <= end
  {
    hide Images, ChunkBytes, Framing.Concat, ListWith, Storable, FileReader, Framing.Holds;
    ListsFront(file, end, front);
    CutChunk(file, end, at, c);
  }

  lemma ListsThenTail(header: seq<byte>, cs: seq<Chunk>, tail: seq<byte>, file: seq<byte>, end: nat)
    requires |header| == FILE_HEADER && forall c <- cs :: Storable(c)
    requires |tail| > 0 && tail[0] != MAGIC_BYTE
    requires file <= header + (Framing.Concat(Images(cs)) + tail) && StartOf(cs, |cs|) <= |file|
    ensures ListWith(FileReader(file), file, end, FILE_HEADER).broken <==>
            |file| < StartOf(cs, |cs|) + CHUNK_HEADER <= end
  {
    hide Images, Framing.Concat, ListWith, Storable, FileReader, Framing.Holds;
    assert cs[..|cs|] == cs;
    CutBehind(header, Framing.Concat(Images(cs)), tail, file);
    ListsFront(file, end, cs);
    CutTail(file, end, StartOf(cs, |cs|));
  }

  /** Behind the chunks comes the index table or, without chunks, the trailer: no chunk starts there. */
  lemma TailStart(index: seq<IndexEntry>, records: nat, dropped: nat, end: nat)
    requires FirstBehind(index)
    ensures var tail := FileTail(index, records, dropped, end); |tail| > 0 && tail[0] != MAGIC_BYTE
  {
    var tail := FileTail(index, records, dropped, end);
    if |index| > 0 {
      var first := ToLE(FILE_HEADER, 8);
      assert first[0] == FILE_HEADER % 256;
      assert tail[0] == IndexBytes(index)[0] == first[0];
    } else {
      assert IndexBytes(index) == [];
      assert tail == TrailerBytes(0, records, dropped, end);
      assert tail[0] == ToLE(0, 4)[0];
    }
  }

  lemma StartIs(cs: seq<Chunk>, k: nat)
    requires k <= |cs|
    ensures StartOf(cs, k) == FILE_HEADER + |Framing.Concat(Images(cs[..k]))|
  {
  }

  /** Listing a file that was cut, whatever its end and whatever the chunk area is said to be. */
  lemma CutListing(header: seq<byte>, cs: seq<Chunk>, tail: seq<byte>, file: seq<byte>, end: nat)
    requires |header| == FILE_HEADER && forall c <- cs :: Storable(c)
    requires |tail| > 0 && tail[0] != MAGIC_BYTE
    requires file <= header + (Framing.Concat(Images(cs)) + tail) && |file| >= FILE_HEADER
    ensures var k := WholeChunks(cs, |file|);
            var at := StartOf(cs, k);
            ListWith(FileReader(file), file, end, FILE_HEADER).broken <==>
            at + CHUNK_HEADER <= end && (k < |cs| || |file| < at + CHUNK_HEADER)
  {
    hide StartOf, Framing.Concat, Images, Storable, ListWith, FileReader, ChunkBytes, EndsInside, Framing.Holds, WholeChunks;
    WholeExact(cs, |file|);
    var k := WholeChunks(cs, |file|);
    if k < |cs| {
      CutBytes(header, cs, tail, k, file);
      StartIs(cs, k);
      ListsThenCut(file, end, cs[..k], cs[k], StartOf(cs, k));
    } else {
      ListsThenTail(header, cs, tail, file, end);
    }
  }

  /** Any front part of a closed file, down to its header. With `k` chunks whole in it, the next one starting at
      `at`: it is broken if and only if the chunk area is said to go on there for another header, and either
      that chunk is cut short or, all chunks being there, no header fits. Where the end does not look like a
      trailer, that means: the cut leaves the header of some chunk but not all of its data. A cut inside a
      chunk header, between chunks or behind them goes unnoticed. */
  lemma TruncatedBrokenIff(header: seq<byte>, cs: seq<Chunk>, index: seq<IndexEntry>, records: nat, dropped: nat, file: seq<byte>)
    requires |header| == FILE_HEADER && Acceptable(header) && (forall c <- cs :: Storable(c)) && FirstBehind(index)
    requires header <= file <= ClosedFile(header, cs, index, records, dropped)
    ensures Acceptable(file)
    ensures var k := WholeChunks(cs, |file|);
            var at := StartOf(cs, k);
            && (Broken(file) <==>
                  at + CHUNK_HEADER <= ChunkEnd(file) && (k < |cs| || |file| < at + CHUNK_HEADER))
            && (ChunkEnd(file) == |file| ==> (Broken(file) <==> k < |cs| && at + CHUNK_HEADER <= |file|))
  {
    hide StartOf, Framing.Concat, Images, Storable, ChunkEnd, ListWith, Acceptable, FileTail, WholeChunks, FirstBehind;
    var all := Framing.Concat(Images(cs));
    var tail := FileTail(index, records, dropped, |header + all|);
    HeaderKept(file, header);
    TailStart(index, records, dropped, |header + all|);
    AppendAssoc(header, all, tail);
    CutListing(header, cs, tail, file, ChunkEnd(file));
  }

  // ---------- a file that breaks ----------

  function Zeros(n: nat): (s: seq<byte>)
    ensures |s| == n && forall i :: 0 <= i < n ==> s[i] == 0
  {
    seq(n, i => 0)
  }

  lemma NoTrailer(file: seq<byte>)
    requires |file| >= 8 && file[|file| - 8] == 0
    ensures ChunkEnd(file) == |file|
  {
    var s := file[|file| - 8..|file|];
    assert FromLE(s) == s[0] + 256 * FromLE(s[1..]);
  }

  lemma ZeroChunk() returns (c: Chunk)
    ensures Storable(c) && c.packed == Zeros(20) && |ChunkBytes(c)| == CHUNK_HEADER + 20
  {
    c := MakeChunk(0, Zeros(20), Zeros(20), 0, 0, 0, 0);
    Crc32.CrcIsRemainder(Zeros(20));
    ChunkBytesRead(c);
  }

  lemma OneWhole(c: Chunk, cut: nat)
    requires cut >= FILE_HEADER
    ensures StartOf([c], 0) == FILE_HEADER && StartOf([c], 1) == FILE_HEADER + |ChunkBytes(c)|
    ensures WholeChunks([c], cut) == if cut < FILE_HEADER + |ChunkBytes(c)| then 0 else 1
  {
    hide ChunkBytes, WholeChunks;
    StartsFollow([c], 0);
    assert Images([c][..0]) == [];
    WholeExact([c], cut);
  }

  /** The bytes of a file with one chunk, and of one cut in its data. */
  lemma OneChunk(header: seq<byte>, c: Chunk, tail: seq<byte>, cut: nat)
    requires cut < |ChunkBytes(c)|
    ensures header + ChunkBytes(c)[..cut] < header + Framing.Concat(Images([c])) + tail
  {
    hide ChunkBytes;
    OneLength(c);
    var b := ChunkBytes(c);
    assert b == b[..cut] + b[cut..];
    assert header + b + tail == (header + b[..cut]) + (b[cut..] + tail);
  }

  /** A closed file of one chunk with 20 bytes of data, and its front up to the sixteenth of them. */
  lemma ZeroFile() returns (header: seq<byte>, c: Chunk, whole: seq<byte>, file: seq<byte>)
    ensures |header| == FILE_HEADER && Acceptable(header) && Storable(c) && |ChunkBytes(c)| == CHUNK_HEADER + 20
    ensures whole == ClosedFile(header, [c], [Entry(c, FILE_HEADER)], 0, 0)
    ensures file == header + ChunkBytes(c)[..CHUNK_HEADER + 16] && header <= file < whole && file[|file| - 8] == 0
  {
    hide FileHeaderBytes, Acceptable, FileTail, Framing.Concat, Images;
    header := FileHeaderBytes(0, 0, Zeros(112));
    FileHeaderRead(0, 0, Zeros(112));
    c := ZeroChunk();
    var index := [Entry(c, FILE_HEADER)];
    whole := ClosedFile(header, [c], index, 0, 0);
    file := header + ChunkBytes(c)[..CHUNK_HEADER + 16];
    OneChunk(header, c, FileTail(index, 0, 0, |header + Framing.Concat(Images([c]))|), CHUNK_HEADER + 16);
    assert file[|file| - 8] == c.packed[8];
  }

  /** The first reads; the second, cut inside its data, breaks. */
  lemma TruncatedBreaks() returns (header: seq<byte>, c: Chunk, whole: seq<byte>, file: seq<byte>)
    ensures |header| == FILE_HEADER && Storable(c) && |ChunkBytes(c)| == CHUNK_HEADER + 20
    ensures whole == ClosedFile(header, [c], [Entry(c, FILE_HEADER)], 0, 0)
    ensures file == header + ChunkBytes(c)[..CHUNK_HEADER + 16] && file < whole
    ensures Acceptable(whole) && !Broken(whole)
    ensures Acceptable(file) && Broken(file)
  {
    hide Acceptable, Broken, FileTail, Framing.Concat, Images, Storable, ChunkBytes, ChunkEnd, StartOf, WholeChunks, ClosedFile;
    header, c, whole, file := ZeroFile();
    var index := [Entry(c, FILE_HEADER)];
    NoTrailer(file);
    OneWhole(c, |file|);
    TruncatedBrokenIff(header, [c], index, 0, 0, file);
    OneLength(c);
    WholeLength(header, c, index);
    OneWhole(c, |whole|);
    ClosedFileEnd(header, [c], index, 0, 0);
    TruncatedBrokenIff(header, [c], index, 0, 0, whole);
  }

  lemma OneLength(c: Chunk)
    ensures Framing.Concat(Images([c])) == ChunkBytes(c)
  {
    hide ChunkBytes;
    assert Images([c]) == [ChunkBytes(c)];
    assert Framing.Concat([ChunkBytes(c)]) == ChunkBytes(c) + Framing.Concat([]);
  }

  lemma WholeLength(header: seq<byte>, c: Chunk, index: seq<IndexEntry>)
    ensures var whole := ClosedFile(header, [c], index, 0, 0); |whole| >= |header| + |ChunkBytes(c)| && header <= whole
  {
    hide ChunkBytes, FileTail, Framing.Concat, Images;
    OneLength(c);
  }
}
