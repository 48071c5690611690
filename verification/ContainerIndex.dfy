/** The index table of a closed file, read back: it leads to every chunk. */
module ContainerIndex {
  import opened Words
  import opened Container
  import opened ContainerWriter
  import opened ContainerFile
  import Framing

  const ENTRY: nat := 40

  /** An entry of the table, field by field. */
  function ReadEntry(buf: seq<byte>, at: nat): IndexEntry
    requires at + ENTRY <= |buf|
  {
    IndexEntry(U(buf, at, 8), U(buf, at + 8, 4), U(buf, at + 12, 2), U(buf, at + 14, 2), U(buf, at + 16, 8),
               U(buf, at + 24, 8), U(buf, at + 32, 4), U(buf, at + 36, 4))
  }

  function Fieldwise(e: IndexEntry): seq<nat> {
    [e.offset, e.packedSize, e.chunkType, e.codec, e.startNs, e.endNs, e.recordCount, e.droppedCount]
  }

  predicate EntryFits(e: IndexEntry) {
    && e.offset < 0x1_0000_0000_0000_0000 && e.packedSize < 0x1_0000_0000 && e.chunkType < 0x1_0000
    && e.codec < 0x1_0000 && e.startNs < 0x1_0000_0000_0000_0000 && e.endNs < 0x1_0000_0000_0000_0000
    && e.recordCount < 0x1_0000_0000 && e.droppedCount < 0x1_0000_0000
  }

  lemma EntryOffsets()
    ensures Offset(INDEX_WIDTHS, 1) == 8 && Offset(INDEX_WIDTHS, 2) == 12 && Offset(INDEX_WIDTHS, 3) == 14
    ensures Offset(INDEX_WIDTHS, 4) == 16 && Offset(INDEX_WIDTHS, 5) == 24 && Offset(INDEX_WIDTHS, 6) == 32
    ensures Offset(INDEX_WIDTHS, 7) == 36 && Offset(INDEX_WIDTHS, 8) == ENTRY
  {
  }

  lemma EntryLength(e: IndexEntry)
    ensures |Layout(INDEX_WIDTHS, Fieldwise(e))| == ENTRY
  {
    hide Layout, Offset, Total;
    LayoutLength(INDEX_WIDTHS, Fieldwise(e));
    TotalIsOffset(INDEX_WIDTHS);
    EntryOffsets();
  }

  lemma EntryRepresentable(e: IndexEntry)
    requires EntryFits(e)
    ensures Representable(INDEX_WIDTHS, Fieldwise(e))
  {
    Pow2Values();
    hide Pow2;
  }

  lemma EntryReads(e: IndexEntry, pre: seq<byte>, post: seq<byte>)
    requires EntryFits(e)
    ensures var s := pre + (Layout(INDEX_WIDTHS, Fieldwise(e)) + post); |pre| + ENTRY <= |s| && ReadEntry(s, |pre|) == e
  {
    EntryLength(e);
    EntryRepresentable(e);
    EntryOffsets();
    hide Layout, Offset, Fields, Representable, U;
    var v := Fieldwise(e);
    var s := pre + (Layout(INDEX_WIDTHS, v) + post);
    LayoutFields(s, pre, INDEX_WIDTHS, v, post);
    FieldAt(s, |pre|, INDEX_WIDTHS, v, 0);
    FieldAt(s, |pre|, INDEX_WIDTHS, v, 1);
    FieldAt(s, |pre|, INDEX_WIDTHS, v, 2);
    FieldAt(s, |pre|, INDEX_WIDTHS, v, 3);
    FieldAt(s, |pre|, INDEX_WIDTHS, v, 4);
    FieldAt(s, |pre|, INDEX_WIDTHS, v, 5);
    FieldAt(s, |pre|, INDEX_WIDTHS, v, 6);
    FieldAt(s, |pre|, INDEX_WIDTHS, v, 7);
  }

  lemma IndexNext(index: seq<IndexEntry>)
    requires |index| > 0
    ensures IndexBytes(index) == Layout(INDEX_WIDTHS, Fieldwise(index[0])) + IndexBytes(index[1..])
  {
  }

  /** Entry `k` of a table that starts behind `pre` is read back from its place. */
  lemma {:induction false} IndexReads(index: seq<IndexEntry>, k: nat, pre: seq<byte>, post: seq<byte>)
    requires k < |index| && forall e <- index :: EntryFits(e)
    ensures var s := pre + (IndexBytes(index) + post);
            |pre| + ENTRY * k + ENTRY <= |s| && ReadEntry(s, |pre| + ENTRY * k) == index[k]
    decreases k
  {
    hide Layout, ReadEntry, EntryFits, IndexBytes;
    var e, rest := index[0], IndexBytes(index[1..]);
    var b := Layout(INDEX_WIDTHS, Fieldwise(e));
    IndexNext(index);
    EntryLength(e);
    if k == 0 {
      assert (b + rest) + post == b + (rest + post);
      EntryReads(e, pre, rest + post);
    } else {
      IndexReads(index[1..], k - 1, pre + b, post);
      assert pre + ((b + rest) + post) == (pre + b) + (rest + post);
    }
  }

  lemma Inside(header: seq<byte>, front: seq<byte>, b: seq<byte>, all: seq<byte>, tail: seq<byte>, n: nat)
    requires front + b <= all && n <= |b|
    ensures var file := header + all + tail;
            var at := |header| + |front|;
            at + |b| <= |file| && file[at..at + n] == b[..n]
  {
    assert all == front + b + all[|front + b|..];
    assert header + all + tail == header + front + b[..n] + (b[n..] + all[|front + b|..] + tail);
  }

  lemma ChunkThere(header: seq<byte>, cs: seq<Chunk>, tail: seq<byte>, k: nat)
    requires |header| == FILE_HEADER && k < |cs| && Storable(cs[k])
    ensures var file := header + Framing.Concat(Images(cs)) + tail;
            StartOf(cs, k) + CHUNK_HEADER <= |file| && ReadChunkHeader(file, StartOf(cs, k)) == cs[k].header
  {
    hide Framing.Concat, Images, ReadChunkHeader, Fits, ChunkBytes;
    var all, front, b := Framing.Concat(Images(cs)), Framing.Concat(Images(cs[..k])), ChunkBytes(cs[k]);
    StartsFollow(cs, k);
    ChunkBytesRead(cs[k]);
    Inside(header, front, b, all, tail, CHUNK_HEADER);
    HeaderLocal(header + all + tail, StartOf(cs, k), b);
  }

  /** In the file a writer closes, entry `k` of the index table, found through the trailer, is the one made for
      chunk `k`, and the place it names holds the header of that chunk. */
  lemma IndexLeads(header: seq<byte>, cs: seq<Chunk>, index: seq<IndexEntry>, records: nat, dropped: nat, k: nat)
    requires |header| == FILE_HEADER && (forall c <- cs :: Storable(c)) && PointsAt(index, cs) && k < |cs|
    requires |index| < 0x1_0000_0000 && records < 0x1_0000_0000_0000_0000 && dropped < 0x1_0000_0000_0000_0000
    requires |header + Framing.Concat(Images(cs))| < 0x1_0000_0000_0000_0000
    ensures var file := ClosedFile(header, cs, index, records, dropped);
            var at := ChunkEnd(file) + ENTRY * k;
            && at + ENTRY <= |file| && ReadEntry(file, at) == Entry(cs[k], StartOf(cs, k))
            && StartOf(cs, k) + CHUNK_HEADER <= |file| && ReadChunkHeader(file, StartOf(cs, k)) == cs[k].header
  {
    hide Framing.Concat, Images, TrailerBytes, IndexBytes, ReadEntry, ReadChunkHeader, ChunkEnd, EntryFits, Storable;
    ClosedFileEnd(header, cs, index, records, dropped);
    EntriesFit(header, cs, index);
    var body := header + Framing.Concat(Images(cs));
    var trailer := TrailerBytes(|index|, records, dropped, |body|);
    assert index[k] == Entry(cs[k], StartOf(cs, k));
    hide PointsAt, StartOf;
    IndexReads(index, k, body, trailer);
    ChunkThere(header, cs, IndexBytes(index) + trailer, k);
  }

  lemma EntriesFit(header: seq<byte>, cs: seq<Chunk>, index: seq<IndexEntry>)
    requires |header| == FILE_HEADER && (forall c <- cs :: Storable(c)) && PointsAt(index, cs)
    requires |header + Framing.Concat(Images(cs))| < 0x1_0000_0000_0000_0000
    ensures forall e <- index :: EntryFits(e)
  {
    forall k | 0 <= k < |index|
      ensures EntryFits(index[k])
    {
      StartsFollow(cs, k);
      hide StartOf, Framing.Concat, Images;
      assert Storable(cs[k]);
      assert index[k] == Entry(cs[k], StartOf(cs, k));
    }
  }
}
