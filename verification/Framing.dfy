/** Event records inside a decompressed chunk: the producer's encoding and the decoder's loop over
    the buffer. */
module Framing {
  import opened Words
  import Payload

  const HEADER: nat := 24

  /** One event as `log_event` hands it to the buffer. */
  datatype Event = Event(rank: nat, eventType: nat, timestamp: nat, payload: seq<byte>)

  /** One event as the decoder reports it. */
  datatype DecodedEvent = DecodedEvent(timestamp: nat, rank: nat, eventType: nat, node: nat, payload: string)

  /** The fields of a record header that the decoder looks at. */
  datatype Header = Header(recordLen: nat, rank: nat, eventType: nat, timestamp: nat, payloadLen: nat)

  /** The events found, and whether decoding ran off the end of the buffer while reading a payload. */
  datatype Decoded = Decoded(events: seq<Event>, fault: bool)

  function ReadHeader(buf: seq<byte>, at: nat): Header
    requires at + HEADER <= |buf|
  {
    Header(FromLE(buf[at..at + 4]), FromLE(buf[at + 4..at + 6]), FromLE(buf[at + 6..at + 8]),
           FromLE(buf[at + 8..at + 16]), FromLE(buf[at + 16..at + 20]))
  }

  function EventAt(buf: seq<byte>, at: nat, h: Header): Event
    requires at + HEADER + h.payloadLen <= |buf|
  {
    Event(h.rank, h.eventType, h.timestamp, buf[at + HEADER..at + HEADER + h.payloadLen])
  }

  /** The headers of `buf`, by position. */
  function Heads(buf: seq<byte>): nat -> Header {
    (at: nat) => if at + HEADER <= |buf| then ReadHeader(buf, at) else Header(0, 0, 0, 0, 0)
  }

  /** Decoding of `buf[at..len]`, where `len` bytes of `buf` hold decompressed data and `head`
      gives the header at each position. */
  function DecodeWith(head: nat -> Header, buf: seq<byte>, len: nat, at: nat): Decoded
    requires at <= len <= |buf|
    decreases len - at
  {
    if at + HEADER > len then Decoded([], false)
    else
      var h := head(at);
      if h.recordLen == 0 || at + h.recordLen > len then Decoded([], false)
      else if at + HEADER + h.payloadLen > |buf| then Decoded([], true)
      else
        var rest := DecodeWith(head, buf, len, at + h.recordLen);
        Decoded([EventAt(buf, at, h)] + rest.events, rest.fault)
  }

  /** Where there is no good record, decoding stops. */
  lemma DecodeStops(head: nat -> Header, buf: seq<byte>, len: nat, at: nat)
    requires at <= len <= |buf|
    ensures at + HEADER > len || head(at).recordLen == 0 || at + head(at).recordLen > len ==>
            DecodeWith(head, buf, len, at) == Decoded([], false)
    ensures at + HEADER <= len && head(at).recordLen > 0 && at + head(at).recordLen <= len
            && at + HEADER + head(at).payloadLen > |buf| ==>
            DecodeWith(head, buf, len, at) == Decoded([], true)
  {
  }

  /** A good record is one event followed by what decoding finds behind it. */
  lemma DecodeStep(head: nat -> Header, buf: seq<byte>, len: nat, at: nat, es: seq<Event>)
    requires at + HEADER <= len <= |buf|
    requires var h := head(at);
             h.recordLen > 0 && at + h.recordLen <= len && at + HEADER + h.payloadLen <= |buf|
    ensures var h := head(at);
            var rest := DecodeWith(head, buf, len, at + h.recordLen);
            && es + DecodeWith(head, buf, len, at).events == es + [EventAt(buf, at, h)] + rest.events
            && DecodeWith(head, buf, len, at).fault == rest.fault
  {
  }

  function DecodeFrom(buf: seq<byte>, len: nat, at: nat): Decoded
    requires at <= len <= |buf|
  {
    DecodeWith(Heads(buf), buf, len, at)
  }

  function Show(e: Event, node: nat): (d: DecodedEvent)
    ensures d.timestamp == e.timestamp && d.rank == e.rank && d.eventType == e.eventType && d.node == node
    ensures d.payload == Payload.Render(e.payload)
  {
    DecodedEvent(e.timestamp, e.rank, e.eventType, node, Payload.Render(e.payload))
  }

  function ShowAll(es: seq<Event>, node: nat): (r: seq<DecodedEvent>)
    ensures |r| == |es|
  {
    seq(|es|, i requires 0 <= i < |es| => Show(es[i], node))
  }

  lemma ShowAllAppend(es: seq<Event>, e: Event, node: nat)
    ensures ShowAll(es + [e], node) == ShowAll(es, node) + [Show(e, node)]
  {
  }

  /** The record loop of `parse_ubpf_file` over one decompressed chunk. */
  method DecodeEvents(buf: seq<byte>, len: nat, node: nat) returns (events: seq<DecodedEvent>, fault: bool)
    requires len <= |buf|
    ensures events == ShowAll(DecodeFrom(buf, len, 0).events, node)
    ensures fault == DecodeFrom(buf, len, 0).fault
  {
    events, fault := DecodeLoop(Heads(buf), buf, len, node);
  }

  method DecodeLoop(head: nat -> Header, buf: seq<byte>, len: nat, node: nat)
    returns (events: seq<DecodedEvent>, fault: bool)
    requires len <= |buf|
    ensures events == ShowAll(DecodeWith(head, buf, len, 0).events, node)
    ensures fault == DecodeWith(head, buf, len, 0).fault
  {
    hide DecodeWith;
    var at := 0;
    events, fault := [], false;
    ghost var es: seq<Event> := [];
    while at + HEADER <= len
      invariant at <= len
      invariant DecodeWith(head, buf, len, 0).events == es + DecodeWith(head, buf, len, at).events
      invariant DecodeWith(head, buf, len, 0).fault == DecodeWith(head, buf, len, at).fault
      invariant events == ShowAll(es, node)
      decreases len - at
    {
      DecodeStops(head, buf, len, at);
      var h := head(at);
      if h.recordLen == 0 || at + h.recordLen > len {
        break;
      }
      if at + HEADER + h.payloadLen > |buf| {
        fault := true;
        break;
      }
      var e := EventAt(buf, at, h);
      var text := Payload.RenderPayload(e.payload);
      events := events + [DecodedEvent(e.timestamp, e.rank, e.eventType, node, text)];
      ShowAllAppend(es, e, node);
      DecodeStep(head, buf, len, at, es);
      es := es + [e];
      at := at + h.recordLen;
    }
    DecodeStops(head, buf, len, at);
    assert es + [] == es;
  }

  // ---------- what decoding returns ----------

  function Concat(rs: seq<seq<byte>>): seq<byte> {
    if |rs| == 0 then [] else rs[0] + Concat(rs[1..])
  }

  lemma {:induction false} ConcatAppend(rs: seq<seq<byte>>, r: seq<byte>)
    ensures Concat(rs + [r]) == Concat(rs) + r
    decreases |rs|
  {
    if |rs| == 0 {
      assert rs + [r] == [r];
      assert Concat([r][1..]) == [];
    } else {
      assert (rs + [r])[1..] == rs[1..] + [r];
      ConcatAppend(rs[1..], r);
    }
  }

  /** The bytes of `t` lie in `buf` from `at` on. */
  ghost predicate Holds(buf: seq<byte>, at: nat, t: seq<byte>) {
    at + |t| <= |buf| && buf[at..at + |t|] == t
  }

  /** `r` is a record that carries the event `e`. */
  ghost predicate IsRecord(r: seq<byte>, e: Event) {
    && |r| == HEADER + |e.payload|
    && ReadHeader(r, 0) == Header(|r|, e.rank, e.eventType, e.timestamp, |e.payload|)
    && r[HEADER..] == e.payload
  }

  ghost predicate AreRecords(rs: seq<seq<byte>>, es: seq<Event>) {
    |rs| == |es| && (|rs| > 0 ==> IsRecord(rs[0], es[0]) && AreRecords(rs[1..], es[1..]))
  }

  lemma HoldsConcat(buf: seq<byte>, at: nat, a: seq<byte>, b: seq<byte>)
    requires Holds(buf, at, a + b)
    ensures Holds(buf, at, a) && Holds(buf, at + |a|, b)
  {
    assert a == (a + b)[..|a|] == buf[at..at + |a|];
    assert b == (a + b)[|a|..] == buf[at + |a|..at + |a| + |b|];
  }

  lemma HeaderLocal(buf: seq<byte>, at: nat, r: seq<byte>)
    requires |r| >= HEADER && at + HEADER <= |buf|
    requires buf[at..at + HEADER] == r[..HEADER]
    ensures ReadHeader(buf, at) == ReadHeader(r, 0)
  {
    Slice(buf, at, at + HEADER, 0, 4);
    Slice(buf, at, at + HEADER, 4, 6);
    Slice(buf, at, at + HEADER, 6, 8);
    Slice(buf, at, at + HEADER, 8, 16);
    Slice(buf, at, at + HEADER, 16, 20);
    Slice(r, 0, HEADER, 0, 4);
    Slice(r, 0, HEADER, 4, 6);
    Slice(r, 0, HEADER, 6, 8);
    Slice(r, 0, HEADER, 8, 16);
    Slice(r, 0, HEADER, 16, 20);
  }

  lemma Slice<T>(s: seq<T>, i: nat, j: nat, k: nat, l: nat)
    requires i <= j <= |s| && k <= l <= j - i
    ensures s[i..j][k..l] == s[i + k..i + l]
  {
    forall n | 0 <= n < l - k
      ensures s[i..j][k..l][n] == s[i + k..i + l][n]
    {
      assert s[i..j][k + n] == s[i + k + n];
    }
  }

  /** `head` finds the records `rs`, carrying `es`, one after the other from `at` on. */
  ghost predicate FindsOne(head: nat -> Header, at: nat, r: seq<byte>, e: Event) {
    && |r| == HEADER + |e.payload| && r[HEADER..] == e.payload
    && head(at) == Header(|r|, e.rank, e.eventType, e.timestamp, |e.payload|)
  }

  ghost predicate Finds(head: nat -> Header, at: nat, rs: seq<seq<byte>>, es: seq<Event>)
    decreases |rs|
  {
    |rs| == |es| &&
    (|rs| > 0 ==> FindsOne(head, at, rs[0], es[0]) && Finds(head, at + |rs[0]|, rs[1..], es[1..]))
  }

  /** One record is read back and decoding goes on right behind it. */
  lemma DecodeRecord(head: nat -> Header, r: seq<byte>, e: Event, buf: seq<byte>, len: nat, at: nat)
    requires FindsOne(head, at, r, e)
    requires len <= |buf| && at + |r| <= len
    requires Holds(buf, at, r)
    ensures var rest := DecodeWith(head, buf, len, at + |r|);
            DecodeWith(head, buf, len, at) == Decoded([e] + rest.events, rest.fault)
  {
    assert buf[at + HEADER..at + |r|] == buf[at..at + |r|][HEADER..];
  }

  lemma Follow(a: Decoded, b: Decoded, c: Decoded, es: seq<Event>)
    requires |es| > 0
    requires a == Decoded([es[0]] + b.events, b.fault) && b == Decoded(es[1..] + c.events, c.fault)
    ensures a == Decoded(es + c.events, c.fault)
  {
    assert es + c.events == [es[0]] + (es[1..] + c.events);
  }

  lemma {:induction false} DecodeThroughWith(head: nat -> Header, rs: seq<seq<byte>>, es: seq<Event>,
                                             buf: seq<byte>, len: nat, at: nat)
    requires Finds(head, at, rs, es)
    requires len <= |buf| && at + |Concat(rs)| <= len
    requires Holds(buf, at, Concat(rs))
    ensures var rest := DecodeWith(head, buf, len, at + |Concat(rs)|);
            DecodeWith(head, buf, len, at) == Decoded(es + rest.events, rest.fault)
    decreases |rs|
  {
    hide DecodeWith, Holds, FindsOne;
    if |rs| > 0 {
      HoldsConcat(buf, at, rs[0], Concat(rs[1..]));
      DecodeRecord(head, rs[0], es[0], buf, len, at);
      DecodeThroughWith(head, rs[1..], es[1..], buf, len, at + |rs[0]|);
      Follow(DecodeWith(head, buf, len, at), DecodeWith(head, buf, len, at + |rs[0]|),
             DecodeWith(head, buf, len, at + |Concat(rs)|), es);
    } else {
      var rest := DecodeWith(head, buf, len, at);
      assert es + rest.events == rest.events;
    }
  }

  lemma RecordFound(r: seq<byte>, e: Event, buf: seq<byte>, at: nat)
    requires IsRecord(r, e) && Holds(buf, at, r)
    ensures FindsOne(Heads(buf), at, r, e)
  {
    assert buf[at..at + HEADER] == buf[at..at + |r|][..HEADER];
    HeaderLocal(buf, at, r);
  }

  lemma {:induction false} RecordsFound(rs: seq<seq<byte>>, es: seq<Event>, buf: seq<byte>, at: nat)
    requires AreRecords(rs, es) && Holds(buf, at, Concat(rs))
    ensures Finds(Heads(buf), at, rs, es)
    decreases |rs|
  {
    hide FindsOne, IsRecord, Holds, Heads;
    if |rs| > 0 {
      HoldsConcat(buf, at, rs[0], Concat(rs[1..]));
      RecordFound(rs[0], es[0], buf, at);
      RecordsFound(rs[1..], es[1..], buf, at + |rs[0]|);
    }
  }

  /** Whatever follows a list of records, decoding yields those records and then what the rest yields. */
  lemma DecodeThrough(rs: seq<seq<byte>>, es: seq<Event>, buf: seq<byte>, len: nat, at: nat)
    requires AreRecords(rs, es)
    requires len <= |buf| && at + |Concat(rs)| <= len
    requires Holds(buf, at, Concat(rs))
    ensures var rest := DecodeFrom(buf, len, at + |Concat(rs)|);
            DecodeFrom(buf, len, at) == Decoded(es + rest.events, rest.fault)
  {
    RecordsFound(rs, es, buf, at);
    DecodeThroughWith(Heads(buf), rs, es, buf, len, at);
  }

  /** Decoding the concatenation of any list of records returns exactly that list. */
  lemma DecodeRoundTrip(rs: seq<seq<byte>>, es: seq<Event>)
    requires AreRecords(rs, es)
    ensures DecodeFrom(Concat(rs), |Concat(rs)|, 0) == Decoded(es, false)
  {
    var buf := Concat(rs);
    assert buf[0..|buf|] == buf;
    DecodeThrough(rs, es, buf, |buf|, 0);
    assert es + [] == es;
  }

  /** How many leading records lie wholly inside `room` bytes. */
  function WholeRecords(rs: seq<seq<byte>>, room: nat): (k: nat)
    ensures k <= |rs|
  {
    if |rs| == 0 || |rs[0]| > room then 0 else 1 + WholeRecords(rs[1..], room - |rs[0]|)
  }

  lemma {:induction false} WholeRecordsExact(rs: seq<seq<byte>>, room: nat)
    ensures var k := WholeRecords(rs, room);
            |Concat(rs[..k])| <= room && (k < |rs| ==> room < |Concat(rs[..k + 1])|)
    decreases |rs|
  {
    if |rs| == 0 {
    } else if |rs[0]| > room {
      assert rs[..1][1..] == [];
    } else {
      WholeRecordsExact(rs[1..], room - |rs[0]|);
      var k := WholeRecords(rs, room);
      assert rs[..k][1..] == rs[1..][..k - 1];
      if k < |rs| {
        assert rs[..k + 1][1..] == rs[1..][..k];
      }
    }
  }

  lemma {:induction false} AreRecordsTake(rs: seq<seq<byte>>, es: seq<Event>, k: nat)
    requires AreRecords(rs, es) && k <= |rs|
    ensures AreRecords(rs[..k], es[..k])
    decreases k
  {
    if k > 0 {
      AreRecordsTake(rs[1..], es[1..], k - 1);
      assert rs[..k][1..] == rs[1..][..k - 1] && es[..k][1..] == es[1..][..k - 1];
    }
  }

  lemma {:induction false} AreRecordsAt(rs: seq<seq<byte>>, es: seq<Event>, k: nat)
    requires AreRecords(rs, es) && k < |rs|
    ensures IsRecord(rs[k], es[k])
    decreases k
  {
    if k > 0 {
      AreRecordsAt(rs[1..], es[1..], k - 1);
    }
  }

  lemma {:induction false} ConcatTake(rs: seq<seq<byte>>, k: nat)
    requires k < |rs|
    ensures Concat(rs[..k]) + rs[k] == Concat(rs[..k + 1])
    ensures Concat(rs[..k + 1]) <= Concat(rs)
    decreases k
  {
    if k == 0 {
      assert rs[..1][1..] == [];
    } else {
      ConcatTake(rs[1..], k - 1);
      assert rs[..k][1..] == rs[1..][..k - 1] && rs[..k + 1][1..] == rs[1..][..k];
    }
  }

  /** A record cut short yields nothing. */
  lemma CutRecord(r: seq<byte>, e: Event, buf: seq<byte>, at: nat)
    requires IsRecord(r, e)
    requires at <= |buf| < at + |r|
    requires buf[at..] == r[..|buf| - at]
    ensures DecodeFrom(buf, |buf|, at) == Decoded([], false)
  {
    if at + HEADER <= |buf| {
      assert buf[at..at + HEADER] == buf[at..][..HEADER] == r[..HEADER];
      HeaderLocal(buf, at, r);
    }
  }

  lemma CutAfter(rs: seq<seq<byte>>, es: seq<Event>, k: nat, t: nat)
    requires AreRecords(rs, es) && k <= |rs| && t <= |Concat(rs)|
    requires |Concat(rs[..k])| <= t && (k < |rs| ==> t < |Concat(rs[..k + 1])|)
    requires k == |rs| ==> t == |Concat(rs)|
    ensures DecodeFrom(Concat(rs)[..t], t, |Concat(rs[..k])|) == Decoded([], false)
  {
    var buf, at := Concat(rs)[..t], |Concat(rs[..k])|;
    if k == |rs| {
      assert rs[..k] == rs;
    } else {
      ConcatTake(rs, k);
      AreRecordsAt(rs, es, k);
      assert buf[at..] == rs[k][..t - at] by {
        assert buf[at..] == Concat(rs[..k + 1])[..t][at..];
      }
      CutRecord(rs[k], es[k], buf, at);
    }
  }

  lemma SameLength(rs: seq<seq<byte>>, es: seq<Event>)
    requires AreRecords(rs, es)
    ensures |rs| == |es|
  {
  }

  /** Decoding any truncation returns exactly the records that lie wholly inside it. */
  lemma DecodeTruncated(rs: seq<seq<byte>>, es: seq<Event>, t: nat)
    requires AreRecords(rs, es)
    requires t <= |Concat(rs)|
    ensures var k := WholeRecords(rs, t);
            && DecodeFrom(Concat(rs)[..t], t, 0) == Decoded(es[..k], false)
            && |Concat(rs[..k])| <= t && (k < |rs| ==> t < |Concat(rs[..k + 1])|)
  {
    hide DecodeFrom, AreRecords, WholeRecords;
    var buf, k := Concat(rs)[..t], WholeRecords(rs, t);
    WholeRecordsExact(rs, t);
    AreRecordsTake(rs, es, k);
    SameLength(rs, es);
    if k == |rs| {
      assert rs[..k] == rs;
    } else {
      ConcatTake(rs, k);
    }
    assert buf[0..0 + |Concat(rs[..k])|] == Concat(rs[..k]);
    DecodeThrough(rs[..k], es[..k], buf, t, 0);
    CutAfter(rs, es, k, t);
    assert es[..k] + [] == es[..k];
  }

  // ---------- the producer's encoding ----------

  /** Every field fits its place in the record header. */
  ghost predicate Encodable(e: Event) {
    && e.rank < 0x1_0000 && e.eventType < 0x1_0000
    && e.timestamp < 0x1_0000_0000_0000_0000
    && HEADER + |e.payload| < 0x1_0000_0000
  }

  function EncodeHeader(e: Event): (s: seq<byte>)
    ensures |s| == HEADER
  {
    ToLE(HEADER + |e.payload|, 4) + ToLE(e.rank, 2) + ToLE(e.eventType, 2) + ToLE(e.timestamp, 8)
    + ToLE(|e.payload|, 4) + ToLE(0, 4)
  }

  /** The bytes `log_event` writes for an event. */
  function Encode(e: Event): (s: seq<byte>)
    ensures |s| == HEADER + |e.payload|
  {
    EncodeHeader(e) + e.payload
  }

  lemma FieldFits(v: nat, n: nat)
    requires n == 2 || n == 4 || n == 8
    requires n == 2 ==> v < 0x1_0000
    requires n == 4 ==> v < 0x1_0000_0000
    requires n == 8 ==> v < 0x1_0000_0000_0000_0000
    ensures FromLE(ToLE(v, n)) == v
  {
    Pow2Values();
    FromToLE(v, n);
  }

  lemma FieldSlices(a: seq<byte>, b: seq<byte>, c: seq<byte>, d: seq<byte>, f: seq<byte>, g: seq<byte>, p: seq<byte>)
    requires |a| == 4 && |b| == 2 && |c| == 2 && |d| == 8 && |f| == 4 && |g| == 4
    ensures var r := a + b + c + d + f + g + p;
            && r[0..4] == a && r[4..6] == b && r[6..8] == c && r[8..16] == d && r[16..20] == f
            && r[HEADER..] == p
  {
  }

  lemma EncodeIsRecord(e: Event)
    requires Encodable(e)
    ensures IsRecord(Encode(e), e)
  {
    FieldFits(HEADER + |e.payload|, 4);
    FieldFits(e.rank, 2);
    FieldFits(e.eventType, 2);
    FieldFits(e.timestamp, 8);
    FieldFits(|e.payload|, 4);
    FieldSlices(ToLE(HEADER + |e.payload|, 4), ToLE(e.rank, 2), ToLE(e.eventType, 2), ToLE(e.timestamp, 8),
                ToLE(|e.payload|, 4), ToLE(0, 4), e.payload);
  }
}
