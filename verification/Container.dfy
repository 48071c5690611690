/** The trace container file: the layout the writer produces and the decoder that reads it back.
    Decompression is a parameter, `unpack`: packed bytes and the stored raw size to raw bytes. */
module Container {
  import opened Options
  import opened Words
  import Crc32
  import Framing

  const FILE_HEADER: nat := 128
  const CHUNK_HEADER: nat := 64
  const TRAILER: nat := 40

  const FILE_MAGIC: nat := 0x55425046
  const CHUNK_MAGIC: nat := 0x43484E4B
  const TRAILER_MAGIC: nat := 0x5542504654524C52

  datatype ChunkHeader = ChunkHeader(
    magic: nat, chunkType: nat, codec: nat, rawSize: nat, packedSize: nat,
    startNs: nat, endNs: nat, recordCount: nat, droppedCount: nat, crc: nat)

  /** A chunk as it lies in the file. */
  datatype Chunk = Chunk(header: ChunkHeader, packed: seq<byte>)

  /** A chunk as the decoder lists it. */
  datatype ListedChunk = ListedChunk(header: ChunkHeader, crcValid: bool, offset: nat)

  /** The chunks found, their packed bytes, and whether a chunk ran past the end of the file. */
  datatype Listing = Listing(listed: seq<ListedChunk>, chunks: seq<Chunk>, broken: bool)

  /** What a position and a byte string mean: the header at the position, the checksum of the bytes. */
  datatype Reader = Reader(head: nat -> ChunkHeader, crc: seq<byte> -> int)

  /** Characters as a number, the first one highest. */
  function Spelled(t: string): nat {
    if |t| == 0 then 0 else 256 * Spelled(t[..|t| - 1]) + t[|t| - 1] as int
  }

  /** The magic numbers spell what they stand for. */
  lemma MagicsSpell()
    ensures FILE_MAGIC == Spelled("UBPF") && CHUNK_MAGIC == Spelled("CHNK") && TRAILER_MAGIC == Spelled("UBPFTRLR")
  {
    SpelledFour("UBPF");
    SpelledFour("CHNK");
    SpelledFour("TRLR");
    assert "UBPFTRLR"[..4] == "UBPF" && "UBPFTRLR"[4..] == "TRLR";
    SpelledBehind("UBPFTRLR");
  }

  lemma SpelledFour(t: string)
    requires |t| == 4
    ensures Spelled(t) == ((t[0] as int * 256 + t[1] as int) * 256 + t[2] as int) * 256 + t[3] as int
  {
    var u, v, w := t[..3], t[..3][..2], t[..3][..2][..1];
    assert Spelled(w) == 256 * Spelled(w[..0]) + w[0] as int;
    assert Spelled(v) == 256 * Spelled(w) + v[1] as int;
    assert Spelled(u) == 256 * Spelled(v) + u[2] as int;
  }

  lemma SpelledBehind(t: string)
    requires |t| == 8
    ensures Spelled(t) == Spelled(t[..4]) * 0x1_0000_0000 + Spelled(t[4..])
  {
    SpelledFour(t[4..]);
    var u, v, w := t[..7], t[..6], t[..5];
    assert u[..6] == v && v[..5] == w && w[..4] == t[..4];
    assert Spelled(w) == 256 * Spelled(t[..4]) + t[4] as int;
    assert Spelled(v) == 256 * Spelled(w) + t[5] as int;
    assert Spelled(u) == 256 * Spelled(v) + t[6] as int;
  }

  // ---------- reading the chunk list ----------

  function U(buf: seq<byte>, at: nat, n: nat): nat
    requires at + n <= |buf|
  {
    FromLE(buf[at..at + n])
  }

  function ReadChunkHeader(file: seq<byte>, at: nat): ChunkHeader
    requires at + CHUNK_HEADER <= |file|
  {
    ChunkHeader(U(file, at, 4), U(file, at + 4, 2), U(file, at + 6, 2), U(file, at + 8, 4), U(file, at + 12, 4),
                U(file, at + 16, 8), U(file, at + 24, 8), U(file, at + 32, 4), U(file, at + 36, 4),
                U(file, at + 40, 4))
  }

  function FileReader(file: seq<byte>): Reader {
    Reader((at: nat) => if at + CHUNK_HEADER <= |file| then ReadChunkHeader(file, at)
                        else ChunkHeader(0, 0, 0, 0, 0, 0, 0, 0, 0, 0),
           (data: seq<byte>) => Crc32.Crc(data))
  }

  function Listed(r: Reader, c: Chunk, at: nat): ListedChunk {
    ListedChunk(c.header, r.crc(c.packed) == c.header.crc, at)
  }

  /** The chunks from position `at` up to `end`. */
  function ListWith(r: Reader, file: seq<byte>, end: nat, at: nat): Listing
    requires at <= |file|
    decreases |file| - at
  {
    if at + CHUNK_HEADER > end then Listing([], [], false)
    else if at + CHUNK_HEADER > |file| then Listing([], [], true)
    else
      var h := r.head(at);
      if h.magic != CHUNK_MAGIC then Listing([], [], false)
      else if at + CHUNK_HEADER + h.packedSize > |file| then Listing([], [], true)
      else
        var c := Chunk(h, file[at + CHUNK_HEADER..at + CHUNK_HEADER + h.packedSize]);
        var rest := ListWith(r, file, end, at + CHUNK_HEADER + h.packedSize);
        Listing([Listed(r, c, at)] + rest.listed, [c] + rest.chunks, rest.broken)
  }

  /** Where the chunk area ends: at the index table if the file carries a trailer, else at its end. */
  function ChunkEnd(file: seq<byte>): nat {
    if |file| >= FILE_HEADER + TRAILER && U(file, |file| - 8, 8) == TRAILER_MAGIC
    then U(file, |file| - 16, 8)
    else |file|
  }

  predicate Acceptable(file: seq<byte>) {
    |file| >= FILE_HEADER && U(file, 0, 4) == FILE_MAGIC
  }

  function ListChunks(file: seq<byte>): Listing
    requires Acceptable(file)
  {
    ListWith(FileReader(file), file, ChunkEnd(file), FILE_HEADER)
  }

  // ---------- events of a chunk ----------

  type Unpacker = (seq<byte>, nat) -> Option<seq<byte>>

  /** The buffer of the stored size, of which decompression fills the front; the rest stays zero. */
  function Padded(raw: seq<byte>, size: nat): (buf: seq<byte>)
    ensures |raw| <= |buf| && buf[..|raw|] == raw && |buf| == (if |raw| < size then size else |raw|)
    ensures forall i :: |raw| <= i < |buf| ==> buf[i] == 0
  {
    if |raw| < size then raw + seq(size - |raw|, i => 0) else raw
  }

  /** The raw bytes of a chunk decode to these events; nothing if decompression fails. */
  function ChunkEvents(c: Chunk, unpack: Unpacker): Framing.Decoded {
    match unpack(c.packed, c.header.rawSize)
    case None => Framing.Decoded([], false)
    case Some(raw) => Framing.DecodeFrom(Padded(raw, c.header.rawSize), |raw|, 0)
  }

  function AllEvents(cs: seq<Chunk>, unpack: Unpacker): seq<Framing.Event> {
    if |cs| == 0 then [] else ChunkEvents(cs[0], unpack).events + AllEvents(cs[1..], unpack)
  }

  predicate AnyFault(cs: seq<Chunk>, unpack: Unpacker) {
    exists i :: 0 <= i < |cs| && ChunkEvents(cs[i], unpack).fault
  }

  datatype DecodedFile = DecodedFile(node: nat, listed: seq<ListedChunk>, events: seq<Framing.DecodedEvent>)

  /** A chunk of the file runs past its end: the stream fails while it is read. */
  predicate Broken(file: seq<byte>)
    requires Acceptable(file)
  {
    ListChunks(file).broken
  }

  /** No chunk runs past the end of the file, and no payload past the end of its chunk. */
  predicate Readable(file: seq<byte>, unpack: Unpacker)
    requires Acceptable(file)
  {
    !Broken(file) && !AnyFault(ListChunks(file).chunks, unpack)
  }

  /** What decoding a readable file amounts to: its chunk list, and the events of its chunks in order. */
  function FileContents(file: seq<byte>, unpack: Unpacker): DecodedFile
    requires Acceptable(file) && Readable(file, unpack)
  {
    var node := U(file, 12, 4);
    var l := ListChunks(file);
    DecodedFile(node, l.listed, Framing.ShowAll(AllEvents(l.chunks, unpack), node))
  }

  /** What `parse_ubpf_file` makes of a file. `Derailed` stands for whatever the program does once its
      stream has failed, when it lists the cut chunk and goes on with a header it never read, or once
      it has read behind a buffer: nothing is promised then. */
  datatype Parsed = Rejected | Derailed | Contents(file: DecodedFile)

  lemma ShowConcat(a: seq<Framing.Event>, b: seq<Framing.Event>, node: nat)
    ensures Framing.ShowAll(a + b, node) == Framing.ShowAll(a, node) + Framing.ShowAll(b, node)
  {
  }

  lemma {:induction false} AllEventsAppend(cs: seq<Chunk>, c: Chunk, unpack: Unpacker)
    ensures AllEvents(cs + [c], unpack) == AllEvents(cs, unpack) + ChunkEvents(c, unpack).events
    decreases |cs|
  {
    if |cs| == 0 {
      assert cs + [c] == [c];
      assert AllEvents([c][1..], unpack) == [];
    } else {
      assert (cs + [c])[1..] == cs[1..] + [c];
      AllEventsAppend(cs[1..], c, unpack);
    }
  }

  lemma AnyFaultAppend(cs: seq<Chunk>, c: Chunk, unpack: Unpacker)
    ensures AnyFault(cs + [c], unpack) == (AnyFault(cs, unpack) || ChunkEvents(c, unpack).fault)
  {
    var all := cs + [c];
    if AnyFault(cs, unpack) {
      var i :| 0 <= i < |cs| && ChunkEvents(cs[i], unpack).fault;
      assert all[i] == cs[i];
    } else if ChunkEvents(c, unpack).fault {
      assert all[|cs|] == c;
    } else {
      assert forall i :: 0 <= i < |cs| ==> all[i] == cs[i];
    }
  }

  /** Behind a header, too little for a trailer is too little for a chunk: such files are empty, whatever they
      end in. */
  lemma ShortIsEmpty(file: seq<byte>)
    requires Acceptable(file) && |file| < 168
    ensures ListChunks(file) == Listing([], [], false)
  {
  }

  lemma {:induction false} NoneUnpacked(cs: seq<Chunk>, unpack: Unpacker)
    requires forall c <- cs :: unpack(c.packed, c.header.rawSize).None?
    ensures AllEvents(cs, unpack) == [] && !AnyFault(cs, unpack)
  {
    if |cs| > 0 {
      NoneUnpacked(cs[1..], unpack);
    }
  }

  /** Chunks that cannot be decompressed are listed and otherwise passed over. */
  lemma UnpackedIsPassedOver(file: seq<byte>, unpack: Unpacker)
    requires Acceptable(file) && !Broken(file)
    requires forall c <- ListChunks(file).chunks :: unpack(c.packed, c.header.rawSize).None?
    ensures Readable(file, unpack) && FileContents(file, unpack).events == []
    ensures FileContents(file, unpack).listed == ListChunks(file).listed
  {
    hide ListChunks;
    NoneUnpacked(ListChunks(file).chunks, unpack);
  }

  /** Decompression and record decoding of one chunk. */
  method DecodeChunk(c: Chunk, unpack: Unpacker, node: nat)
    returns (events: seq<Framing.DecodedEvent>, fault: bool)
    ensures events == Framing.ShowAll(ChunkEvents(c, unpack).events, node)
    ensures fault == ChunkEvents(c, unpack).fault
  {
    match unpack(c.packed, c.header.rawSize)
    case None =>
      events, fault := [], false;
    case Some(raw) =>
      events, fault := Framing.DecodeEvents(Padded(raw, c.header.rawSize), |raw|, node);
  }

  /** `parse_ubpf_file`, from the bytes of the file on. */
  method ParseFile(file: seq<byte>, unpack: Unpacker) returns (r: Parsed)
    ensures r.Rejected? <==> !Acceptable(file)
    ensures r.Contents? <==> Acceptable(file) && Readable(file, unpack)
    ensures r.Contents? ==> r.file == FileContents(file, unpack)
  {
    if |file| < FILE_HEADER || U(file, 0, 4) != FILE_MAGIC {
      return Rejected;
    }
    r := ParseChunks(FileReader(file), file, ChunkEnd(file), unpack, U(file, 12, 4));
  }

  /** The chunk loop. */
  method ParseChunks(rd: Reader, file: seq<byte>, end: nat, unpack: Unpacker, node: nat) returns (r: Parsed)
    requires |file| >= FILE_HEADER
    ensures var l := ListWith(rd, file, end, FILE_HEADER);
            r == if l.broken || AnyFault(l.chunks, unpack) then Derailed
                 else Contents(DecodedFile(node, l.listed, Framing.ShowAll(AllEvents(l.chunks, unpack), node)))
  {
    hide ListWith, AllEvents, AnyFault, ChunkEvents, Framing.ShowAll;
    NoEvents(unpack, node);
    var at := FILE_HEADER;
    var listed: seq<ListedChunk>, events: seq<Framing.DecodedEvent>, fault := [], [], false;
    ghost var cs: seq<Chunk> := [];
    ghost var whole := ListWith(rd, file, end, FILE_HEADER);
    while at + CHUNK_HEADER <= end
      invariant at <= |file|
      invariant Resumes(whole, listed, cs, ListWith(rd, file, end, at))
      invariant events == Framing.ShowAll(AllEvents(cs, unpack), node)
      invariant fault == AnyFault(cs, unpack)
      decreases |file| - at
    {
      ListStops(rd, file, end, at);
      if at + CHUNK_HEADER > |file| {
        return Derailed;
      }
      var h := rd.head(at);
      if h.magic != CHUNK_MAGIC {
        break;
      }
      if at + CHUNK_HEADER + h.packedSize > |file| {
        return Derailed;
      }
      var c := Chunk(h, file[at + CHUNK_HEADER..at + CHUNK_HEADER + h.packedSize]);
      ListStep(rd, file, end, at, whole, listed, cs);
      listed := listed + [Listed(rd, c, at)];
      var more, bad := DecodeChunk(c, unpack, node);
      AllEventsAppend(cs, c, unpack);
      AnyFaultAppend(cs, c, unpack);
      ShowConcat(AllEvents(cs, unpack), ChunkEvents(c, unpack).events, node);
      events, fault := events + more, fault || bad;
      cs := cs + [c];
      at := at + CHUNK_HEADER + h.packedSize;
    }
    ListStops(rd, file, end, at);
    assert listed + [] == listed && cs + [] == cs;
    if fault {
      return Derailed;
    }
    return Contents(DecodedFile(node, listed, events));
  }

  lemma NoEvents(unpack: Unpacker, node: nat)
    ensures Framing.ShowAll(AllEvents([], unpack), node) == [] && !AnyFault([], unpack)
  {
  }

  /** Where no whole chunk lies, listing ends: quietly, or broken. */
  lemma ListStops(r: Reader, file: seq<byte>, end: nat, at: nat)
    requires at <= |file|
    ensures at + CHUNK_HEADER > end ==> ListWith(r, file, end, at) == Listing([], [], false)
    ensures at + CHUNK_HEADER <= end && at + CHUNK_HEADER > |file| ==> ListWith(r, file, end, at) == Listing([], [], true)
    ensures at + CHUNK_HEADER <= end && at + CHUNK_HEADER <= |file| && r.head(at).magic != CHUNK_MAGIC ==>
            ListWith(r, file, end, at) == Listing([], [], false)
    ensures at + CHUNK_HEADER <= end && at + CHUNK_HEADER <= |file| && r.head(at).magic == CHUNK_MAGIC
            && at + CHUNK_HEADER + r.head(at).packedSize > |file| ==>
            ListWith(r, file, end, at) == Listing([], [], true)
  {
  }

  /** `whole` is what has been listed so far followed by `rest`. */
  ghost predicate Resumes(whole: Listing, listed: seq<ListedChunk>, cs: seq<Chunk>, rest: Listing) {
    whole == Listing(listed + rest.listed, cs + rest.chunks, rest.broken)
  }

  lemma ListStep(r: Reader, file: seq<byte>, end: nat, at: nat, whole: Listing, listed: seq<ListedChunk>, cs: seq<Chunk>)
    requires at + CHUNK_HEADER <= end && at + CHUNK_HEADER <= |file|
    requires r.head(at).magic == CHUNK_MAGIC && at + CHUNK_HEADER + r.head(at).packedSize <= |file|
    requires Resumes(whole, listed, cs, ListWith(r, file, end, at))
    ensures var h := r.head(at);
            var c := Chunk(h, file[at + CHUNK_HEADER..at + CHUNK_HEADER + h.packedSize]);
            Resumes(whole, listed + [Listed(r, c, at)], cs + [c],
                    ListWith(r, file, end, at + CHUNK_HEADER + h.packedSize))
  {
  }

  // ---------- files that end inside a chunk ----------

  /** A whole chunk lies at `at`. */
  predicate WholeChunk(file: seq<byte>, at: nat) {
    && at + CHUNK_HEADER <= ChunkEnd(file) && at + CHUNK_HEADER <= |file|
    && ReadChunkHeader(file, at).magic == CHUNK_MAGIC
    && at + CHUNK_HEADER + ReadChunkHeader(file, at).packedSize <= |file|
  }

  /** At `at` the chunk area goes on, but the file ends before the header or the data of the chunk. */
  predicate Overruns(file: seq<byte>, at: nat) {
    && at + CHUNK_HEADER <= ChunkEnd(file)
    && (at + CHUNK_HEADER > |file| ||
        var h := ReadChunkHeader(file, at);
        h.magic == CHUNK_MAGIC && at + CHUNK_HEADER + h.packedSize > |file|)
  }

  /** Whole chunks follow each other at the positions `ps`, up to the last of them. */
  predicate Chained(file: seq<byte>, ps: seq<nat>) {
    && |ps| > 0
    && forall k :: 0 <= k < |ps| - 1 ==>
         WholeChunk(file, ps[k]) && ps[k + 1] == ps[k] + CHUNK_HEADER + ReadChunkHeader(file, ps[k]).packedSize
  }

  lemma {:induction false} BrokenChain(file: seq<byte>, at: nat) returns (ps: seq<nat>)
    requires at <= |file| && ListWith(FileReader(file), file, ChunkEnd(file), at).broken
    ensures Chained(file, ps) && ps[0] == at && Overruns(file, ps[|ps| - 1])
    decreases |file| - at
  {
    hide ReadChunkHeader, ChunkEnd;
    if WholeChunk(file, at) {
      var next := at + CHUNK_HEADER + ReadChunkHeader(file, at).packedSize;
      var more := BrokenChain(file, next);
      ps := [at] + more;
      forall k | 0 <= k < |ps| - 1
        ensures WholeChunk(file, ps[k]) && ps[k + 1] == ps[k] + CHUNK_HEADER + ReadChunkHeader(file, ps[k]).packedSize
      {
        assert k > 0 ==> ps[k] == more[k - 1] && ps[k + 1] == more[k];
      }
    } else {
      ps := [at];
    }
  }

  lemma {:induction false} ChainBroken(file: seq<byte>, at: nat, ps: seq<nat>)
    requires at <= |file| && Chained(file, ps) && ps[0] == at && Overruns(file, ps[|ps| - 1])
    ensures ListWith(FileReader(file), file, ChunkEnd(file), at).broken
    decreases |ps|
  {
    hide ReadChunkHeader, ChunkEnd;
    if |ps| > 1 {
      assert WholeChunk(file, ps[0]);
      var rest := ps[1..];
      forall k | 0 <= k < |rest| - 1
        ensures WholeChunk(file, rest[k]) && rest[k + 1] == rest[k] + CHUNK_HEADER + ReadChunkHeader(file, rest[k]).packedSize
      {
        assert rest[k] == ps[k + 1] && rest[k + 1] == ps[k + 2];
      }
      ChainBroken(file, ps[1], rest);
    }
  }

  /** From the first chunk on, `ps` leads over whole chunks to one that the file cuts short. */
  predicate LeadsToCut(file: seq<byte>, ps: seq<nat>) {
    Chained(file, ps) && ps[0] == FILE_HEADER && Overruns(file, ps[|ps| - 1])
  }

  /** A file is broken if and only if, going from chunk to chunk by the sizes in their headers, one
      reaches a place inside the chunk area where the file is too short. */
  lemma BrokenIff(file: seq<byte>)
    requires Acceptable(file)
    ensures Broken(file) <==> exists ps: seq<nat> :: LeadsToCut(file, ps)
  {
    if Broken(file) {
      var ps := BrokenChain(file, FILE_HEADER);
      assert LeadsToCut(file, ps);
    }
    if ps: seq<nat> :| LeadsToCut(file, ps) {
      ChainBroken(file, FILE_HEADER, ps);
    }
  }
}
