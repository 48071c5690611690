/** The bytes of chunks as the container writer lays them out, and the decoder reading lists of them
    back. */
module ContainerWriter {
  import opened Words
  import opened Container
  import Crc32
  import Framing

  const STRIPE: nat := 2 * 1024 * 1024
  const CODEC_LZ4: nat := 1

  datatype IndexEntry = IndexEntry(offset: nat, packedSize: nat, chunkType: nat, codec: nat,
                                   startNs: nat, endNs: nat, recordCount: nat, droppedCount: nat)

  /** Every field fits its place in the chunk header. */
  predicate Fits(h: ChunkHeader) {
    && h.magic < 0x1_0000_0000 && h.chunkType < 0x1_0000 && h.codec < 0x1_0000
    && h.rawSize < 0x1_0000_0000 && h.packedSize < 0x1_0000_0000
    && h.startNs < 0x1_0000_0000_0000_0000 && h.endNs < 0x1_0000_0000_0000_0000
    && h.recordCount < 0x1_0000_0000 && h.droppedCount < 0x1_0000_0000 && h.crc < 0x1_0000_0000
  }

  // ---------- numbers laid out field by field ----------

  function Layout(widths: seq<nat>, values: seq<nat>): seq<byte>
    requires |widths| == |values|
  {
    if |widths| == 0 then [] else ToLE(values[0], widths[0]) + Layout(widths[1..], values[1..])
  }

  function Total(widths: seq<nat>): nat {
    if |widths| == 0 then 0 else widths[0] + Total(widths[1..])
  }

  /** Reading `s` from `at` on with these widths gives these values. */
  ghost predicate Fields(s: seq<byte>, at: nat, widths: seq<nat>, values: seq<nat>)
    requires |widths| == |values|
    decreases |widths|
  {
    |widths| > 0 ==>
      && at + widths[0] <= |s| && U(s, at, widths[0]) == values[0]
      && Fields(s, at + widths[0], widths[1..], values[1..])
  }

  predicate Representable(widths: seq<nat>, values: seq<nat>)
    requires |widths| == |values|
  {
    forall i :: 0 <= i < |widths| ==> values[i] < Pow2(8 * widths[i])
  }

  lemma {:induction false} LayoutLength(widths: seq<nat>, values: seq<nat>)
    requires |widths| == |values|
    ensures |Layout(widths, values)| == Total(widths)
  {
    if |widths| > 0 {
      LayoutLength(widths[1..], values[1..]);
    }
  }

  lemma {:induction false} LayoutFields(s: seq<byte>, pre: seq<byte>, widths: seq<nat>, values: seq<nat>, post: seq<byte>)
    requires |widths| == |values| && Representable(widths, values)
    requires s == pre + (Layout(widths, values) + post)
    ensures Fields(s, |pre|, widths, values)
    decreases |widths|
  {
    if |widths| > 0 {
      var w, v := widths[0], values[0];
      var b, rest := ToLE(v, w), Layout(widths[1..], values[1..]);
      assert Layout(widths, values) + post == b + (rest + post);
      assert s == (pre + b) + (rest + post);
      assert s[|pre|..|pre| + w] == b;
      FromToLE(v, w);
      LayoutFields(s, pre + b, widths[1..], values[1..], post);
    }
  }

  // ---------- chunks ----------

  const WIDTHS: seq<nat> := [4, 2, 2, 4, 4, 8, 8, 4, 4, 4, 20]

  function Values(h: ChunkHeader): (v: seq<nat>)
    ensures |v| == |WIDTHS|
  {
    [h.magic, h.chunkType, h.codec, h.rawSize, h.packedSize, h.startNs, h.endNs, h.recordCount, h.droppedCount,
     h.crc, 0]
  }

  /** The bytes of a chunk: its header and its packed data. */
  function ChunkBytes(c: Chunk): seq<byte> {
    Layout(WIDTHS, Values(c.header)) + c.packed
  }

  /** `b` are the bytes of the chunk `c`. */
  ghost predicate IsChunk(b: seq<byte>, c: Chunk) {
    && |b| == CHUNK_HEADER + |c.packed|
    && ReadChunkHeader(b, 0) == c.header
    && c.header.magic == CHUNK_MAGIC && c.header.packedSize == |c.packed|
    && b[CHUNK_HEADER..] == c.packed
  }

  ghost predicate AreChunks(bs: seq<seq<byte>>, cs: seq<Chunk>) {
    |bs| == |cs| && (|bs| > 0 ==> IsChunk(bs[0], cs[0]) && AreChunks(bs[1..], cs[1..]))
  }

  lemma FitsRepresentable(h: ChunkHeader)
    requires Fits(h)
    ensures Representable(WIDTHS, Values(h))
  {
    Pow2Values();
  }

  function Offset(widths: seq<nat>, k: nat): nat
    requires k <= |widths|
  {
    if k == 0 then 0 else Offset(widths, k - 1) + widths[k - 1]
  }

  lemma {:induction false} OffsetShift(widths: seq<nat>, k: nat)
    requires 0 < k <= |widths|
    ensures Offset(widths, k) == widths[0] + Offset(widths[1..], k - 1)
    decreases k
  {
    if k > 1 {
      OffsetShift(widths, k - 1);
    }
  }

  lemma {:induction false} TotalIsOffset(widths: seq<nat>)
    ensures Total(widths) == Offset(widths, |widths|)
    decreases |widths|
  {
    if |widths| > 0 {
      TotalIsOffset(widths[1..]);
      OffsetShift(widths, |widths|);
    }
  }

  lemma {:induction false} FieldAt(s: seq<byte>, at: nat, widths: seq<nat>, values: seq<nat>, k: nat)
    requires |widths| == |values| && Fields(s, at, widths, values) && k < |widths|
    ensures at + Offset(widths, k) + widths[k] <= |s|
    ensures U(s, at + Offset(widths, k), widths[k]) == values[k]
    decreases k
  {
    if k > 0 {
      FieldAt(s, at + widths[0], widths[1..], values[1..], k - 1);
      OffsetShift(widths, k);
    }
  }

  lemma Offsets()
    ensures Offset(WIDTHS, 1) == 4 && Offset(WIDTHS, 2) == 6 && Offset(WIDTHS, 3) == 8 && Offset(WIDTHS, 4) == 12
    ensures Offset(WIDTHS, 5) == 16 && Offset(WIDTHS, 6) == 24 && Offset(WIDTHS, 7) == 32
    ensures Offset(WIDTHS, 8) == 36 && Offset(WIDTHS, 9) == 40 && Offset(WIDTHS, 11) == CHUNK_HEADER
  {
  }

  /** The header of a laid-out chunk reads back field by field. */
  lemma HeaderReadsBack(s: seq<byte>, h: ChunkHeader)
    requires Fields(s, 0, WIDTHS, Values(h)) && |s| >= CHUNK_HEADER
    ensures ReadChunkHeader(s, 0) == h
  {
    Offsets();
    var v := Values(h);
    FieldAt(s, 0, WIDTHS, v, 0);
    FieldAt(s, 0, WIDTHS, v, 1);
    FieldAt(s, 0, WIDTHS, v, 2);
    FieldAt(s, 0, WIDTHS, v, 3);
    FieldAt(s, 0, WIDTHS, v, 4);
    FieldAt(s, 0, WIDTHS, v, 5);
    FieldAt(s, 0, WIDTHS, v, 6);
    FieldAt(s, 0, WIDTHS, v, 7);
    FieldAt(s, 0, WIDTHS, v, 8);
    FieldAt(s, 0, WIDTHS, v, 9);
  }

  lemma ChunkBytesRead(c: Chunk)
    requires Fits(c.header) && c.header.magic == CHUNK_MAGIC && c.header.packedSize == |c.packed|
    ensures IsChunk(ChunkBytes(c), c)
  {
    var s, v := ChunkBytes(c), Values(c.header);
    FitsRepresentable(c.header);
    LayoutLength(WIDTHS, v);
    TotalIsOffset(WIDTHS);
    Offsets();
    assert s == [] + (Layout(WIDTHS, v) + c.packed);
    LayoutFields(s, [], WIDTHS, v, c.packed);
    HeaderReadsBack(s, c.header);
  }

  // ---------- reading back a list of chunks ----------

  /** The reserved bytes at the end of a chunk header are zero. */
  lemma ReservedIsZero(c: Chunk)
    requires Fits(c.header)
    ensures |ChunkBytes(c)| >= CHUNK_HEADER && U(ChunkBytes(c), 44, 20) == 0
  {
    var s, v := ChunkBytes(c), Values(c.header);
    FitsRepresentable(c.header);
    LayoutLength(WIDTHS, v);
    TotalIsOffset(WIDTHS);
    Offsets();
    assert s == [] + (Layout(WIDTHS, v) + c.packed);
    LayoutFields(s, [], WIDTHS, v, c.packed);
    FieldAt(s, 0, WIDTHS, v, 10);
    assert Offset(WIDTHS, 10) == 44;
  }

  /** What the decoder should list for chunks stored one after the other from `at` on. */
  function Expected(r: Reader, cs: seq<Chunk>, at: nat): (l: seq<ListedChunk>)
    ensures |l| == |cs|
    decreases |cs|
  {
    if |cs| == 0 then []
    else [Listed(r, cs[0], at)] + Expected(r, cs[1..], at + CHUNK_HEADER + |cs[0].packed|)
  }

  ghost predicate FindsOne(head: nat -> ChunkHeader, at: nat, b: seq<byte>, c: Chunk) {
    && |b| == CHUNK_HEADER + |c.packed| && b[CHUNK_HEADER..] == c.packed
    && head(at) == c.header
    && c.header.magic == CHUNK_MAGIC && c.header.packedSize == |c.packed|
  }

  ghost predicate Finds(head: nat -> ChunkHeader, at: nat, bs: seq<seq<byte>>, cs: seq<Chunk>)
    decreases |bs|
  {
    |bs| == |cs| &&
    (|bs| > 0 ==> FindsOne(head, at, bs[0], cs[0]) && Finds(head, at + |bs[0]|, bs[1..], cs[1..]))
  }

  lemma ListChunk(r: Reader, b: seq<byte>, c: Chunk, file: seq<byte>, end: nat, at: nat)
    requires |b| == CHUNK_HEADER + |c.packed| && b[CHUNK_HEADER..] == c.packed
    requires r.head(at) == c.header && c.header.magic == CHUNK_MAGIC && c.header.packedSize == |c.packed|
    requires Framing.Holds(file, at, b) && at + |b| <= end
    ensures Resumes(ListWith(r, file, end, at), [Listed(r, c, at)], [c], ListWith(r, file, end, at + |b|))
  {
    assert file[at + CHUNK_HEADER..at + |b|] == file[at..at + |b|][CHUNK_HEADER..];
  }

  lemma ResumesOn(a: Listing, l: seq<ListedChunk>, cs: seq<Chunk>, b: Listing, l': seq<ListedChunk>, cs': seq<Chunk>, c: Listing)
    requires Resumes(a, l, cs, b) && Resumes(b, l', cs', c)
    ensures Resumes(a, l + l', cs + cs', c)
  {
  }

  lemma {:induction false} ListThrough(r: Reader, bs: seq<seq<byte>>, cs: seq<Chunk>, file: seq<byte>, end: nat, at: nat)
    requires Finds(r.head, at, bs, cs)
    requires Framing.Holds(file, at, Framing.Concat(bs)) && at + |Framing.Concat(bs)| <= end
    ensures Resumes(ListWith(r, file, end, at), Expected(r, cs, at), cs,
                    ListWith(r, file, end, at + |Framing.Concat(bs)|))
    decreases |bs|
  {
    var l := ListWith(r, file, end, at);
    if |bs| == 0 {
      assert Expected(r, cs, at) == [] && cs == [];
      assert Resumes(l, [], [], l);
    } else {
      Framing.HoldsConcat(file, at, bs[0], Framing.Concat(bs[1..]));
      ListChunk(r, bs[0], cs[0], file, end, at);
      ListThrough(r, bs[1..], cs[1..], file, end, at + |bs[0]|);
      assert Expected(r, cs, at) == [Listed(r, cs[0], at)] + Expected(r, cs[1..], at + |bs[0]|);
      ResumesOn(l, [Listed(r, cs[0], at)], [cs[0]],
                ListWith(r, file, end, at + |bs[0]|), Expected(r, cs[1..], at + |bs[0]|), cs[1..],
                ListWith(r, file, end, at + |Framing.Concat(bs)|));
      assert [cs[0]] + cs[1..] == cs;
    }
  }

  lemma FieldLocal(file: seq<byte>, at: nat, b: seq<byte>, i: nat, n: nat)
    requires |b| >= CHUNK_HEADER && at + CHUNK_HEADER <= |file| && i + n <= CHUNK_HEADER
    requires file[at..at + CHUNK_HEADER] == b[..CHUNK_HEADER]
    ensures U(file, at + i, n) == U(b, i, n)
  {
    Framing.Slice(file, at, at + CHUNK_HEADER, i, i + n);
    Framing.Slice(b, 0, CHUNK_HEADER, i, i + n);
  }

  lemma HeaderLocal(file: seq<byte>, at: nat, b: seq<byte>)
    requires |b| >= CHUNK_HEADER && at + CHUNK_HEADER <= |file|
    requires file[at..at + CHUNK_HEADER] == b[..CHUNK_HEADER]
    ensures ReadChunkHeader(file, at) == ReadChunkHeader(b, 0)
  {
    FieldLocal(file, at, b, 0, 4);
    FieldLocal(file, at, b, 4, 2);
    FieldLocal(file, at, b, 6, 2);
    FieldLocal(file, at, b, 8, 4);
    FieldLocal(file, at, b, 12, 4);
    FieldLocal(file, at, b, 16, 8);
    FieldLocal(file, at, b, 24, 8);
    FieldLocal(file, at, b, 32, 4);
    FieldLocal(file, at, b, 36, 4);
    FieldLocal(file, at, b, 40, 4);
  }

  lemma ChunkFound(b: seq<byte>, c: Chunk, file: seq<byte>, at: nat)
    requires IsChunk(b, c) && Framing.Holds(file, at, b)
    ensures FindsOne(FileReader(file).head, at, b, c)
  {
    hide ReadChunkHeader;
    assert file[at..at + CHUNK_HEADER] == file[at..at + |b|][..CHUNK_HEADER];
    HeaderLocal(file, at, b);
  }

  lemma {:induction false} ChunksFound(bs: seq<seq<byte>>, cs: seq<Chunk>, file: seq<byte>, at: nat)
    requires AreChunks(bs, cs) && Framing.Holds(file, at, Framing.Concat(bs))
    ensures Finds(FileReader(file).head, at, bs, cs)
    decreases |bs|
  {
    hide IsChunk, FindsOne, Framing.Holds, FileReader;
    if |bs| > 0 {
      Framing.HoldsConcat(file, at, bs[0], Framing.Concat(bs[1..]));
      ChunkFound(bs[0], cs[0], file, at);
      ChunksFound(bs[1..], cs[1..], file, at + |bs[0]|);
    }
  }

  /** A file made of a header, chunks, and anything behind the point where the chunk area is said to
      end, is listed as exactly those chunks, each marked by whether its checksum agrees. */
  lemma ListRoundTrip(file: seq<byte>, header: seq<byte>, bs: seq<seq<byte>>, cs: seq<Chunk>, tail: seq<byte>)
    requires |header| == FILE_HEADER && Acceptable(header)
    requires file == header + Framing.Concat(bs) + tail && AreChunks(bs, cs)
    requires ChunkEnd(file) == FILE_HEADER + |Framing.Concat(bs)|
    ensures Acceptable(file)
    ensures ListChunks(file) == Listing(Expected(FileReader(file), cs, FILE_HEADER), cs, false)
  {
    var at, end := FILE_HEADER, ChunkEnd(file);
    assert file[0..4] == header[0..4];
    assert file[at..at + |Framing.Concat(bs)|] == Framing.Concat(bs);
    ChunksFound(bs, cs, file, at);
    var r := FileReader(file);
    ListThrough(r, bs, cs, file, end, at);
    assert ListWith(r, file, end, end) == Listing([], [], false);
    assert Expected(r, cs, at) + [] == Expected(r, cs, at) && cs + [] == cs;
  }

  /** The bytes of the first `k` chunks. */
  function Area(cs: seq<Chunk>, k: nat): nat
    requires k <= |cs|
    decreases k
  {
    if k == 0 then 0 else CHUNK_HEADER + |cs[0].packed| + Area(cs[1..], k - 1)
  }

  lemma {:induction false} AreaNext(cs: seq<Chunk>, k: nat)
    requires k < |cs|
    ensures Area(cs, k + 1) == Area(cs, k) + CHUNK_HEADER + |cs[k].packed|
    decreases k
  {
    if k > 0 {
      AreaNext(cs[1..], k - 1);
    }
  }

  lemma {:induction false} ExpectedAt(r: Reader, cs: seq<Chunk>, at: nat, k: nat)
    requires k < |cs|
    ensures Expected(r, cs, at)[k].header == cs[k].header
    ensures Expected(r, cs, at)[k].crcValid == (r.crc(cs[k].packed) == cs[k].header.crc)
    ensures Expected(r, cs, at)[k].offset == at + Area(cs, k)
    decreases k
  {
    if k > 0 {
      ExpectedAt(r, cs[1..], at + CHUNK_HEADER + |cs[0].packed|, k - 1);
    }
  }

  /** If the stored data of one chunk is altered within a burst of 32 bits, the decoder still lists
      every chunk, and marks that one as corrupt. */
  lemma BurstIsReported(file: seq<byte>, header: seq<byte>, bs: seq<seq<byte>>, cs: seq<Chunk>, tail: seq<byte>,
                        k: nat, original: seq<byte>, start: nat)
    requires |header| == FILE_HEADER && Acceptable(header)
    requires file == header + Framing.Concat(bs) + tail && AreChunks(bs, cs)
    requires ChunkEnd(file) == FILE_HEADER + |Framing.Concat(bs)|
    requires k < |cs| && cs[k].header.crc == Crc32.Crc(original)
    requires cs[k].packed != original && Crc32.DifferInBurst(original, cs[k].packed, start)
    ensures Acceptable(file)
    ensures ListChunks(file).chunks == cs
    ensures |ListChunks(file).listed| == |cs| && !ListChunks(file).listed[k].crcValid
  {
    ListRoundTrip(file, header, bs, cs, tail);
    ExpectedAt(FileReader(file), cs, FILE_HEADER, k);
    Crc32.BurstDetected(original, cs[k].packed, start, cs[k].header.crc);
  }
}
