/** Sorting the entries of a map by key for output: one stable pass per key field, from the last field
    to the first, over the raw bytes of the keys. */
module SortKeys {
  import opened Words
  import opened StableSort
  import opened Lexicographic

  /** A key and a value, as raw bytes. */
  datatype Entry = Entry(key: seq<byte>, value: seq<byte>)

  datatype KeyField = IntField(offset: nat, size: nat) | TextField(offset: nat, size: nat) | OtherField

  datatype KeyType = TupleKey(fields: seq<KeyField>) | IntKey(size: nat) | TextKey | OtherKey

  // ---------- comparisons ----------

  function Slice(s: seq<byte>, offset: nat, size: nat): seq<byte> {
    if offset + size <= |s| then s[offset..offset + size] else []
  }

  /** The little-endian bytes as a signed number. */
  function Signed(s: seq<byte>): int {
    var v := FromLE(s);
    if 2 * v < Pow2(8 * |s|) then v else v - Pow2(8 * |s|)
  }

  /** `memcmp` order, the shorter first among equal beginnings. */
  predicate BytesLE(s: seq<byte>, t: seq<byte>) {
    |s| == 0 || (|t| > 0 && (s[0] < t[0] || (s[0] == t[0] && BytesLE(s[1..], t[1..]))))
  }

  function IntLE(offset: nat, size: nat): Order<Entry> {
    (a: Entry, b: Entry) => Signed(Slice(a.key, offset, size)) <= Signed(Slice(b.key, offset, size))
  }

  function TextLE(offset: nat, size: nat): Order<Entry> {
    (a: Entry, b: Entry) => BytesLE(Slice(a.key, offset, size), Slice(b.key, offset, size))
  }

  function WholeLE(): Order<Entry> {
    (a: Entry, b: Entry) => BytesLE(a.key, b.key)
  }

  function AnyLE(): Order<Entry> {
    (a: Entry, b: Entry) => true
  }

  predicate IntSize(n: nat) {
    n == 1 || n == 2 || n == 4 || n == 8
  }

  /** Fields that are neither integers of a supported size nor strings are not compared. */
  function FieldLE(f: KeyField): Order<Entry> {
    match f
    case IntField(offset, size) => if IntSize(size) then IntLE(offset, size) else AnyLE()
    case TextField(offset, size) => TextLE(offset, size)
    case OtherField => AnyLE()
  }

  /** Field by field, in declared order. */
  function FieldsLE(fs: seq<KeyField>): Order<Entry> {
    if |fs| == 0 then AnyLE() else Lex(FieldLE(fs[0]), FieldsLE(fs[1..]))
  }

  function KeyLE(key: KeyType): Order<Entry> {
    match key
    case TupleKey(fields) => FieldsLE(fields)
    case IntKey(size) => FieldLE(IntField(0, size))
    case TextKey => WholeLE()
    case OtherKey => AnyLE()
  }

  // ---------- they are orders ----------

  lemma {:induction false} BytesTotal(s: seq<byte>, t: seq<byte>)
    ensures BytesLE(s, t) || BytesLE(t, s)
    ensures BytesLE(s, t) && BytesLE(t, s) ==> s == t
  {
    if |s| > 0 && |t| > 0 {
      BytesTotal(s[1..], t[1..]);
      HeadTail(s);
      HeadTail(t);
    }
  }

  lemma {:induction false} BytesTransitive(s: seq<byte>, t: seq<byte>, u: seq<byte>)
    requires BytesLE(s, t) && BytesLE(t, u)
    ensures BytesLE(s, u)
  {
    if |s| > 0 && s[0] == t[0] == u[0] {
      BytesTransitive(s[1..], t[1..], u[1..]);
    }
  }

  lemma TextIsOrder(offset: nat, size: nat)
    ensures IsOrder(TextLE(offset, size))
  {
    forall a: Entry, b: Entry
      ensures TextLE(offset, size)(a, b) || TextLE(offset, size)(b, a)
    {
      BytesTotal(Slice(a.key, offset, size), Slice(b.key, offset, size));
    }
    forall a: Entry, b: Entry, c: Entry | TextLE(offset, size)(a, b) && TextLE(offset, size)(b, c)
      ensures TextLE(offset, size)(a, c)
    {
      BytesTransitive(Slice(a.key, offset, size), Slice(b.key, offset, size), Slice(c.key, offset, size));
    }
  }

  lemma WholeIsOrder()
    ensures IsOrder(WholeLE())
  {
    forall a: Entry, b: Entry
      ensures WholeLE()(a, b) || WholeLE()(b, a)
    {
      BytesTotal(a.key, b.key);
    }
    forall a: Entry, b: Entry, c: Entry | WholeLE()(a, b) && WholeLE()(b, c)
      ensures WholeLE()(a, c)
    {
      BytesTransitive(a.key, b.key, c.key);
    }
  }

  lemma FieldIsOrder(f: KeyField)
    ensures IsOrder(FieldLE(f))
  {
    match f
    case IntField(_, _) =>
    case TextField(offset, size) => TextIsOrder(offset, size);
    case OtherField =>
  }

  lemma {:induction false} FieldsAreOrder(fs: seq<KeyField>)
    ensures IsOrder(FieldsLE(fs))
  {
    if |fs| > 0 {
      FieldIsOrder(fs[0]);
      FieldsAreOrder(fs[1..]);
      LexIsOrder(FieldLE(fs[0]), FieldsLE(fs[1..]));
    }
  }

  // ---------- the order from outside ----------

  /** One text comes before another: it is a beginning of it, or has the smaller byte at the first place where
      they differ. */
  ghost predicate TextBefore(s: seq<byte>, t: seq<byte>) {
    s < t || Below(s, t)
  }

  lemma BytesHead(s: seq<byte>, t: seq<byte>)
    requires |s| > 0 && |t| > 0 && s[0] == t[0]
    ensures TextBefore(s, t) <==> TextBefore(s[1..], t[1..])
  {
    HeadTail(s);
    HeadTail(t);
    if k: nat :| BelowAt(s, t, k) {
      assert s[..k][1..] == s[1..][..k - 1] && t[..k][1..] == t[1..][..k - 1];
      assert BelowAt(s[1..], t[1..], k - 1);
    }
    if Below(s[1..], t[1..]) {
      BelowBehind([s[0]], s[1..], t[1..]);
    }
  }

  /** The comparison of byte strings, by the first place where they differ. */
  lemma {:induction false} BytesIff(s: seq<byte>, t: seq<byte>)
    ensures BytesLE(s, t) <==> s == t || TextBefore(s, t)
    decreases |s|
  {
    if |s| > 0 && |t| > 0 {
      if s[0] == t[0] {
        BytesIff(s[1..], t[1..]);
        BytesHead(s, t);
        HeadTail(s);
        HeadTail(t);
      } else {
        HeadsDiffer(s, t);
      }
    }
  }

  lemma HeadsDiffer(s: seq<byte>, t: seq<byte>)
    requires |s| > 0 && |t| > 0 && s[0] != t[0]
    ensures TextBefore(s, t) <==> s[0] < t[0]
  {
    if s[0] < t[0] {
      assert BelowAt(s, t, 0);
    } else {
      assert BelowAt(t, s, 0);
      BelowOneWay(t, s);
    }
  }

  lemma BytesBack(s: seq<byte>, t: seq<byte>)
    ensures BytesLE(s, t) <==> !TextBefore(t, s)
  {
    hide TextBefore, BytesLE;
    BytesTotal(s, t);
    BytesIff(t, s);
    if s == t {
      NotBeforeSelf(s);
    }
  }

  lemma NotBeforeSelf(s: seq<byte>)
    ensures !TextBefore(s, s)
  {
    BelowOneWay(s, s);
  }

  /** The number in an integer field is the one with these bytes in two's complement. */
  lemma SignedIs(s: seq<byte>)
    requires |s| > 0
    ensures -(Pow2(8 * |s|) as int) <= 2 * Signed(s) < Pow2(8 * |s|)
    ensures Signed(s) == FromLE(s) || Signed(s) == FromLE(s) - Pow2(8 * |s|)
  {
    FromLEBound(s);
  }

  /** What a field says about the order: integers of 1, 2, 4 or 8 bytes by their numbers, texts by their bytes,
      other fields nothing. */
  ghost predicate FieldBefore(f: KeyField, a: Entry, b: Entry) {
    match f
    case IntField(offset, size) =>
      size in {1, 2, 4, 8} && Signed(Slice(a.key, offset, size)) < Signed(Slice(b.key, offset, size))
    case TextField(offset, size) => TextBefore(Slice(a.key, offset, size), Slice(b.key, offset, size))
    case OtherField => false
  }

  predicate FieldSame(f: KeyField, a: Entry, b: Entry) {
    match f
    case IntField(offset, size) =>
      size in {1, 2, 4, 8} ==> Signed(Slice(a.key, offset, size)) == Signed(Slice(b.key, offset, size))
    case TextField(offset, size) => Slice(a.key, offset, size) == Slice(b.key, offset, size)
    case OtherField => true
  }

  /** The first field that is not the same decides. */
  ghost predicate Before(fs: seq<KeyField>, a: Entry, b: Entry) {
    exists k :: 0 <= k < |fs| && FieldBefore(fs[k], a, b) && forall m :: 0 <= m < k ==> FieldSame(fs[m], a, b)
  }

  ghost predicate KeyBefore(key: KeyType, a: Entry, b: Entry) {
    match key
    case TupleKey(fields) => Before(fields, a, b)
    case IntKey(size) => FieldBefore(IntField(0, size), a, b)
    case TextKey => TextBefore(a.key, b.key)
    case OtherKey => false
  }

  lemma FieldIff(f: KeyField, a: Entry, b: Entry)
    ensures FieldLE(f)(a, b) <==> !FieldBefore(f, b, a)
    ensures FieldSame(f, a, b) <==> FieldLE(f)(a, b) && FieldLE(f)(b, a)
  {
    match f
    case IntField(_, _) =>
    case TextField(offset, size) =>
      var s, t := Slice(a.key, offset, size), Slice(b.key, offset, size);
      BytesBack(s, t);
      BytesTotal(s, t);
      hide BytesLE, TextBefore;
    case OtherField =>
  }

  lemma BeforeNext(fs: seq<KeyField>, a: Entry, b: Entry)
    requires |fs| > 0
    ensures Before(fs, a, b) <==> FieldBefore(fs[0], a, b) || (FieldSame(fs[0], a, b) && Before(fs[1..], a, b))
  {
    hide FieldBefore, FieldSame;
    if k :| 0 <= k < |fs| && FieldBefore(fs[k], a, b) && forall m :: 0 <= m < k ==> FieldSame(fs[m], a, b) {
      if k > 0 {
        assert FieldBefore(fs[1..][k - 1], a, b);
        assert forall m :: 0 <= m < k - 1 ==> fs[1..][m] == fs[m + 1];
      }
    }
    if FieldSame(fs[0], a, b) && Before(fs[1..], a, b) {
      var k :| 0 <= k < |fs[1..]| && FieldBefore(fs[1..][k], a, b) &&
        forall m :: 0 <= m < k ==> FieldSame(fs[1..][m], a, b);
      forall m | 0 <= m < k + 1
        ensures FieldSame(fs[m], a, b)
      {
        assert m > 0 ==> fs[m] == fs[1..][m - 1];
      }
      assert FieldBefore(fs[k + 1], a, b);
    }
  }

  lemma {:induction false} FieldsIff(fs: seq<KeyField>, a: Entry, b: Entry)
    ensures FieldsLE(fs)(a, b) <==> !Before(fs, b, a)
    decreases |fs|
  {
    hide FieldLE, FieldBefore, FieldSame;
    if |fs| > 0 {
      FieldsIff(fs[1..], a, b);
      FieldIff(fs[0], a, b);
      FieldIff(fs[0], b, a);
      BeforeNext(fs, b, a);
      hide Before;
    }
  }

  /** The order of entries in a report, field by field. */
  lemma KeyIff(key: KeyType, a: Entry, b: Entry)
    ensures KeyLE(key)(a, b) <==> !KeyBefore(key, b, a)
  {
    match key
    case TupleKey(fields) => FieldsIff(fields, a, b);
    case IntKey(size) => FieldIff(IntField(0, size), a, b);
    case TextKey => BytesBack(a.key, b.key);
    case OtherKey =>
  }

  /** No entry stands behind one that comes after it. */
  ghost predicate InOrder(key: KeyType, ys: seq<Entry>) {
    forall i, j :: 0 <= i < j < |ys| ==> !KeyBefore(key, ys[j], ys[i])
  }

  lemma InOrderIff(key: KeyType, ys: seq<Entry>)
    ensures Sorted(KeyLE(key), ys) <==> InOrder(key, ys)
  {
    hide KeyLE, KeyBefore;
    forall i, j | 0 <= i < j < |ys|
      ensures KeyLE(key)(ys[i], ys[j]) <==> !KeyBefore(key, ys[j], ys[i])
    {
      KeyIff(key, ys[i], ys[j]);
    }
  }

  lemma StableInOrder(key: KeyType, xs: seq<Entry>, ys: seq<Entry>)
    requires StablySorted(KeyLE(key), xs, ys)
    ensures InOrder(key, ys)
  {
    hide KeyLE, InOrder;
    InOrderIff(key, ys);
  }

  // ---------- the passes ----------

  function Passes(fs: seq<KeyField>, xs: seq<Entry>): seq<Entry> {
    if |fs| == 0 then xs else Sort(FieldLE(fs[0]), Passes(fs[1..], xs))
  }

  /** Repeated stable passes from the last field to the first are one stable sort by all fields in
      declared order. */
  lemma {:induction false} PassesSort(fs: seq<KeyField>, xs: seq<Entry>)
    ensures StablySorted(FieldsLE(fs), xs, Passes(fs, xs))
  {
    hide FieldLE;
    if |fs| > 0 {
      PassesSort(fs[1..], xs);
      FieldIsOrder(fs[0]);
      FieldsAreOrder(fs[1..]);
      PassComposes(FieldLE(fs[0]), FieldsLE(fs[1..]), xs, Passes(fs[1..], xs));
    }
  }

  lemma {:induction false} TiesAll(xs: seq<Entry>, c: Entry)
    ensures Ties(AnyLE(), xs, c) == xs
  {
    if |xs| > 0 {
      TiesAll(xs[1..], c);
      HeadTail(xs);
    }
  }

  /** A field that is not compared leaves the entries as they are. */
  lemma AnySort(xs: seq<Entry>)
    ensures Sort(AnyLE(), xs) == xs
  {
    forall c
      ensures Ties(AnyLE(), xs, c) == Ties(AnyLE(), xs, c)
    {
      TiesAll(xs, c);
    }
    StableSortUnique(AnyLE(), xs, xs);
  }

  // ---------- the report ----------

  lemma SortEnd(le: Order<Entry>, xs: seq<Entry>)
    ensures Sort(le, xs[|xs|..]) == []
  {
  }

  lemma SortStep(le: Order<Entry>, xs: seq<Entry>, i: nat)
    requires i < |xs|
    ensures Sort(le, xs[i..]) == Insert(le, xs[i], Sort(le, xs[i + 1..]))
  {
    assert xs[i..][1..] == xs[i + 1..];
  }

  class Report {
    var entries: seq<Entry>

    constructor (xs: seq<Entry>)
      ensures entries == xs
    {
      entries := xs;
    }

    /** `stable_sort`, by whatever algorithm: its result is determined. */
    method Stable(le: Order<Entry>)
      requires IsOrder(le)
      modifies this
      ensures StablySorted(le, old(entries), entries)
    {
      hide StablySorted, IsOrder, Sort, Insert;
      var done: seq<Entry> := [];
      var i: nat := |entries|;
      SortEnd(le, entries);
      while i > 0
        invariant i <= |entries| && entries == old(entries) && done == Sort(le, entries[i..])
      {
        i := i - 1;
        SortStep(le, entries, i);
        done := Insert(le, entries[i], done);
      }
      SortIsStable(le, entries);
      assert entries[0..] == entries;
      entries := done;
    }

    method SortByFields(fs: seq<KeyField>)
      modifies this
      ensures entries == Passes(fs, old(entries))
    {
      hide FieldLE, IsOrder, StablySorted;
      var i: nat := |fs|;
      assert fs[|fs|..] == [];
      while i > 0
        invariant i <= |fs| && entries == Passes(fs[i..], old(entries))
      {
        i := i - 1;
        assert fs[i..][0] == fs[i] && fs[i..][1..] == fs[i + 1..];
        FieldIsOrder(fs[i]);
        ghost var before := entries;
        if fs[i].OtherField? || (fs[i].IntField? && !IntSize(fs[i].size)) {
          NotCompared(fs[i], entries);
        } else {
          Stable(FieldLE(fs[i]));
          StableSortUnique(FieldLE(fs[i]), before, entries);
        }
      }
      assert fs[0..] == fs;
    }

    method SortByKey(key: KeyType)
      modifies this
      ensures StablySorted(KeyLE(key), old(entries), entries) && InOrder(key, entries)
    {
      hide FieldLE, IsOrder, StablySorted, FieldsLE, InOrder;
      match key {
        case TupleKey(fields) =>
          SortByFields(fields);
          PassesSort(fields, old(entries));
        case IntKey(size) =>
          FieldIsOrder(IntField(0, size));
          if IntSize(size) {
            Stable(FieldLE(IntField(0, size)));
          } else {
            NotCompared(IntField(0, size), entries);
            SortIsStable(FieldLE(IntField(0, size)), entries);
          }
        case TextKey =>
          WholeIsOrder();
          Stable(WholeLE());
        case OtherKey =>
          NotCompared(OtherField, entries);
          FieldIsOrder(OtherField);
          SortIsStable(FieldLE(OtherField), entries);
          OtherIsAny();
      }
      StableInOrder(key, old(entries), entries);
    }
  }

  lemma OtherIsAny()
    ensures FieldLE(OtherField) == AnyLE()
  {
  }

  lemma NotCompared(f: KeyField, xs: seq<Entry>)
    requires f.OtherField? || (f.IntField? && !IntSize(f.size))
    ensures Sort(FieldLE(f), xs) == xs
  {
    AnySort(xs);
  }

  // ---------- unsigned keys ----------

  /** Integers are compared as signed numbers; for an unsigned field of `n` bytes that is the order of the
      numbers exactly when the two have the same top bit. */
  lemma UnsignedOrderIff(s: seq<byte>, t: seq<byte>)
    requires |s| == |t|
    ensures (Signed(s) <= Signed(t) <==> FromLE(s) <= FromLE(t)) && (Signed(t) <= Signed(s) <==> FromLE(t) <= FromLE(s))
      <==> (2 * FromLE(s) < Pow2(8 * |s|) <==> 2 * FromLE(t) < Pow2(8 * |t|))
  {
    FromLEBound(s);
    FromLEBound(t);
  }

  lemma {:induction false} FromLEBound(s: seq<byte>)
    ensures FromLE(s) < Pow2(8 * |s|)
  {
    if |s| > 0 {
      FromLEBound(s[1..]);
      Pow2Values();
      Pow2Add(8, 8 * |s[1..]|);
    }
  }

  /** The key as an unsigned number. */
  function Unsigned(e: Entry, size: nat): nat {
    FromLE(Slice(e.key, 0, size))
  }

  /** The top bit of the key is set. */
  predicate High(e: Entry, size: nat) {
    2 * Unsigned(e, size) >= Pow2(8 * size)
  }

  lemma PairUnsigned(a: Entry, b: Entry, size: nat)
    requires size <= |a.key| && size <= |b.key| && IntLE(0, size)(a, b)
    ensures Unsigned(a, size) <= Unsigned(b, size) <==> High(a, size) == High(b, size) || !High(a, size)
    ensures High(b, size) ==> High(a, size)
  {
    FromLEBound(Slice(a.key, 0, size));
    FromLEBound(Slice(b.key, 0, size));
  }

  ghost predicate UnsignedSorted(ys: seq<Entry>, size: nat) {
    forall i, j :: 0 <= i < j < |ys| ==> Unsigned(ys[i], size) <= Unsigned(ys[j], size)
  }

  lemma SameEntries(xs: seq<Entry>, ys: seq<Entry>)
    requires multiset(xs) == multiset(ys)
    ensures forall e: Entry :: e in xs <==> e in ys
  {
    forall e: Entry
      ensures e in xs <==> e in ys
    {
      assert e in xs <==> e in multiset(xs);
      assert e in ys <==> e in multiset(ys);
    }
  }

  /** A report sorted by an unsigned integer key comes out in the order of the numbers if and only if
      the top bits of all its keys are the same. */
  lemma ReportUnsignedIff(size: nat, xs: seq<Entry>, ys: seq<Entry>)
    requires StablySorted(IntLE(0, size), xs, ys) && forall e <- xs :: size <= |e.key|
    ensures UnsignedSorted(ys, size) <==> forall a, b :: a in xs && b in xs ==> High(a, size) == High(b, size)
  {
    hide High, Unsigned, IntLE;
    SameEntries(xs, ys);
    forall i, j | 0 <= i < j < |ys|
      ensures Unsigned(ys[i], size) <= Unsigned(ys[j], size) <==> High(ys[i], size) == High(ys[j], size) || !High(ys[i], size)
      ensures High(ys[j], size) ==> High(ys[i], size)
    {
      PairUnsigned(ys[i], ys[j], size);
    }
    if UnsignedSorted(ys, size) {
      forall a, b | a in xs && b in xs
        ensures High(a, size) == High(b, size)
      {
        var i :| 0 <= i < |ys| && ys[i] == a;
        var j :| 0 <= j < |ys| && ys[j] == b;
      }
    }
  }

  // ---------- tuples with unsigned fields ----------

  function UnsignedLE(offset: nat, size: nat): Order<Entry> {
    (a: Entry, b: Entry) => FromLE(Slice(a.key, offset, size)) <= FromLE(Slice(b.key, offset, size))
  }

  /** The field is an integer the report compares. */
  predicate Compared(f: KeyField) {
    f.IntField? && IntSize(f.size)
  }

  /** The order of the values of a field that is declared unsigned, or not. */
  function MeantField(f: KeyField, unsigned: bool): Order<Entry> {
    if unsigned && Compared(f) then UnsignedLE(f.offset, f.size) else FieldLE(f)
  }

  function Meant(fs: seq<KeyField>, us: seq<bool>): Order<Entry>
    requires |us| == |fs|
  {
    if |fs| == 0 then AnyLE() else Lex(MeantField(fs[0], us[0]), Meant(fs[1..], us[1..]))
  }

  /** The top bit of an integer field is set. */
  predicate HighField(f: KeyField, e: Entry)
    requires f.IntField?
  {
    2 * FromLE(Slice(e.key, f.offset, f.size)) >= Pow2(8 * f.size)
  }

  /** The first field in which the keys differ is an unsigned integer, with its top bit set in only one of
      them. */
  ghost predicate Splits(fs: seq<KeyField>, us: seq<bool>, a: Entry, b: Entry)
    requires |us| == |fs|
  {
    |fs| > 0 &&
    if Tied(FieldLE(fs[0]), a, b) then Splits(fs[1..], us[1..], a, b)
    else us[0] && Compared(fs[0]) && HighField(fs[0], a) != HighField(fs[0], b)
  }

  predicate Holds(f: KeyField, e: Entry) {
    f.IntField? ==> f.offset + f.size <= |e.key|
  }

  lemma FieldMeant(f: KeyField, unsigned: bool, a: Entry, b: Entry)
    requires Holds(f, a) && Holds(f, b) && FieldLE(f)(a, b)
    ensures Tied(FieldLE(f), a, b) ==> MeantField(f, unsigned)(a, b) && MeantField(f, unsigned)(b, a)
    ensures !Tied(FieldLE(f), a, b) ==>
              var same := !(unsigned && Compared(f) && HighField(f, a) != HighField(f, b));
              MeantField(f, unsigned)(a, b) == same && MeantField(f, unsigned)(b, a) == !same
  {
    if unsigned && Compared(f) {
      FromLEBound(Slice(a.key, f.offset, f.size));
      FromLEBound(Slice(b.key, f.offset, f.size));
    }
  }

  lemma {:induction false} SplitsBoth(fs: seq<KeyField>, us: seq<bool>, a: Entry, b: Entry)
    requires |us| == |fs|
    ensures Splits(fs, us, a, b) == Splits(fs, us, b, a)
    decreases |fs|
  {
    hide FieldLE, HighField;
    if |fs| > 0 {
      SplitsBoth(fs[1..], us[1..], a, b);
    }
  }

  lemma {:induction false} PairMeant(fs: seq<KeyField>, us: seq<bool>, a: Entry, b: Entry)
    requires |us| == |fs| && (forall f <- fs :: Holds(f, a) && Holds(f, b)) && FieldsLE(fs)(a, b)
    ensures Meant(fs, us)(a, b) <==> !Splits(fs, us, a, b)
    decreases |fs|
  {
    hide FieldLE, MeantField, HighField, Holds, Compared;
    if |fs| > 0 {
      FieldMeant(fs[0], us[0], a, b);
      if Tied(FieldLE(fs[0]), a, b) {
        PairMeant(fs[1..], us[1..], a, b);
      }
    }
  }

  lemma SplitsNotSelf(fs: seq<KeyField>, us: seq<bool>, a: Entry)
    requires |us| == |fs|
    ensures !Splits(fs, us, a, a)
    decreases |fs|
  {
    if |fs| > 0 {
      FieldIsOrder(fs[0]);
      SplitsNotSelf(fs[1..], us[1..], a);
    }
  }

  /** No two of the entries are split, in whatever order they come. */
  lemma SplitsAnywhere(fs: seq<KeyField>, us: seq<bool>, xs: seq<Entry>, ys: seq<Entry>)
    requires |us| == |fs| && multiset(xs) == multiset(ys)
    ensures (forall i, j :: 0 <= i < j < |ys| ==> !Splits(fs, us, ys[i], ys[j])) <==>
            (forall a, b :: a in xs && b in xs ==> !Splits(fs, us, a, b))
  {
    hide Splits;
    SameEntries(xs, ys);
    if forall i, j :: 0 <= i < j < |ys| ==> !Splits(fs, us, ys[i], ys[j]) {
      forall a, b | a in xs && b in xs
        ensures !Splits(fs, us, a, b)
      {
        var i :| 0 <= i < |ys| && ys[i] == a;
        var j :| 0 <= j < |ys| && ys[j] == b;
        SplitsBoth(fs, us, a, b);
        SplitsNotSelf(fs, us, a);
      }
    }
  }

  /** A report sorted by several fields, some of them unsigned, comes out in the order of their values if and
      only if no two of its keys first differ in an unsigned field whose top bit is set in one of them only. */
  lemma ReportFieldsIff(fs: seq<KeyField>, us: seq<bool>, xs: seq<Entry>, ys: seq<Entry>)
    requires |us| == |fs| && StablySorted(FieldsLE(fs), xs, ys)
    requires forall e <- xs, f <- fs :: Holds(f, e)
    ensures Sorted(Meant(fs, us), ys) <==> forall a, b :: a in xs && b in xs ==> !Splits(fs, us, a, b)
  {
    hide Holds, FieldsLE, Meant, Splits;
    SameEntries(xs, ys);
    SplitsAnywhere(fs, us, xs, ys);
    forall i, j | 0 <= i < j < |ys|
      ensures Meant(fs, us)(ys[i], ys[j]) <==> !Splits(fs, us, ys[i], ys[j])
    {
      PairMeant(fs, us, ys[i], ys[j]);
    }
  }

  /** Two one-byte keys, 255 and 1: the report puts 255 first. */
  lemma LargeKeyFirst()
    ensures var (large, small) := (Entry([255], []), Entry([1], []));
            && Sort(IntLE(0, 1), [small, large]) == [large, small]
            && Unsigned(large, 1) == 255 && Unsigned(small, 1) == 1
  {
    var large, small := Entry([255], []), Entry([1], []);
    Pow2Values();
    assert Signed([255]) == -1 && Signed([1]) == 1;
    assert Slice([255], 0, 1) == [255] && Slice([1], 0, 1) == [1];
    assert !IntLE(0, 1)(small, large);
    SortTwo(IntLE(0, 1), small, large);
  }

  lemma SortTwo(le: Order<Entry>, a: Entry, b: Entry)
    ensures Sort(le, [a, b]) == if le(a, b) then [a, b] else [b, a]
  {
    assert [a, b][1..] == [b] && [b][1..] == [];
    assert Sort(le, [b]) == Insert(le, b, Sort(le, [b][1..])) == [b];
    assert Insert(le, a, [b][1..]) == [a];
  }
}
