/** Fitting from outside: one type fits into another if and only if every value of the one is a value of the
    other, and the promoted type is the least into which both fit. */
module TypeValues {
  import opened Words
  import opened Types
  import opened TypeOrder
  import opened TypeKeys
  import opened TypeFit
  import opened Promotion

  /** Numbers, texts, tuples and records of values; what is never converted is known by its type alone. */
  datatype Value =
    | Num(n: int)
    | Str(text: string)
    | Tup(parts: seq<Value>)
    | Rec(fields: map<string, Value>)
    | Other(key: seq<int>)

  /** The numbers of an integer of `size` bytes. A literal whose sign is open is not negative and below half of
      the range. */
  predicate InRange(n: int, size: nat, signed: bool, open: bool) {
    var limit: int := Pow2(8 * size);
    if open then 0 <= 2 * n < limit
    else if signed then -limit <= 2 * n < limit
    else 0 <= n < limit
  }

  /** `v` is a value of type `t`: one that may be there if it is `given`, and else one that may be stored. */
  ghost predicate Has(t: SizedType, v: Value, given: bool)
    decreases t
  {
    if IsString(t) then v.Str? && |v.text| <= t.size
    else match t
      case Integer(size, signed, flexible, _) => v.Num? && InRange(v.n, size, signed, flexible && given)
      case Tuple(xs) => v.Tup? && |v.parts| == |xs| && forall i :: 0 <= i < |xs| ==> Has(xs[i], v.parts[i], given)
      case Record(fs) =>
        && v.Rec? && v.fields.Keys == Names(fs)
        && forall i :: 0 <= i < |fs| ==> fs[i].name in v.fields && Has(fs[i].ty, v.fields[fs[i].name], given)
      case _ => v == Other(Key(t))
  }

  // ---------- values that carry over ----------

  lemma SizesGrow(m: nat, n: nat)
    requires IntSize(m) && IntSize(n)
    ensures m < n ==> 2 * Pow2(8 * m) <= Pow2(8 * n)
  {
    Pow2Values();
    hide Pow2;
  }

  lemma RangeFits(a: SizedType, b: SizedType, n: int)
    requires a.Integer? && b.Integer? && IntSize(a.size) && IntSize(b.size) && IntegerFits(a, b)
    requires InRange(n, a.size, a.signed, a.flexible)
    ensures InRange(n, b.size, b.signed, false)
  {
    hide Pow2;
    SizesGrow(a.size, b.size);
  }

  lemma {:induction false} FitsCarries(a: SizedType, b: SizedType, v: Value)
    requires Wf(a) && Wf(b) && Usual(a) && Usual(b) && FitsInto(a, b) && Has(a, v, true)
    ensures Has(b, v, false)
    decreases a
  {
    hide Compare, Key, InRange;
    match a
    case Integer(_, _, _, _) => RangeFits(a, b, v.n);
    case Tuple(xs) =>
      forall i | 0 <= i < |xs|
        ensures Has(b.elems[i], v.parts[i], false)
      {
        FitsCarries(xs[i], b.elems[i], v.parts[i]);
      }
    case Record(fs) => RecordCarries(a, b, v);
    case _ => ComparesByKey(a, b);
  }

  lemma {:induction false} RecordCarries(a: SizedType, b: SizedType, v: Value)
    requires a.Record? && b.Record? && Wf(a) && Wf(b) && Usual(a) && Usual(b) && FitsInto(a, b) && Has(a, v, true)
    ensures Has(b, v, false)
    decreases a, 0
  {
    var fs, gs := a.fields, b.fields;
    RecordFitsIff(fs, gs);
    SameNames(fs, gs);
    forall j | 0 <= j < |gs|
      ensures gs[j].name in v.fields && Has(gs[j].ty, v.fields[gs[j].name], false)
    {
      NamesakeBack(fs, gs, j);
      var i := Lookup(fs, gs[j].name);
      FitsCarries(fs[i].ty, gs[j].ty, v.fields[fs[i].name]);
    }
  }

  lemma SameNames(fs: seq<Field>, gs: seq<Field>)
    requires DistinctNames(fs) && DistinctNames(gs) && |fs| == |gs|
    requires forall i :: 0 <= i < |fs| ==> Lookup(gs, fs[i].name) < |gs|
    ensures Names(fs) == Names(gs)
  {
    forall i | 0 <= i < |fs|
      ensures fs[i].name in Names(gs)
    {
      assert gs[Lookup(gs, fs[i].name)].name == fs[i].name;
    }
    NamesCount(fs);
    NamesCount(gs);
    SubsetSame(Names(fs), Names(gs));
  }

  // ---------- values that do not ----------

  /** Some value of a type. */
  function Sample(t: SizedType): Value
    decreases t, 1, 0
  {
    if IsString(t) then Str("")
    else match t
      case Integer(_, _, _, _) => Num(0)
      case Tuple(xs) => Tup(seq(|xs|, i requires 0 <= i < |xs| => Sample(xs[i])))
      case Record(fs) => Rec(FieldSamples(t, |fs|))
      case _ => Other(Key(t))
  }

  function FieldSamples(t: SizedType, n: nat): map<string, Value>
    requires t.Record? && n <= |t.fields|
    decreases t, 0, n
  {
    if n == 0 then map[] else FieldSamples(t, n - 1)[t.fields[n - 1].name := Sample(t.fields[n - 1].ty)]
  }

  /** The fields and their values, by name. */
  ghost predicate HasFields(fs: seq<Field>, m: map<string, Value>) {
    m.Keys == Names(fs) && forall i :: 0 <= i < |fs| ==> fs[i].name in m && Has(fs[i].ty, m[fs[i].name], true)
  }

  lemma HasNext(fs: seq<Field>, f: Field, m: map<string, Value>, v: Value)
    requires HasFields(fs, m) && f.name !in Names(fs) && Has(f.ty, v, true)
    ensures HasFields(fs + [f], m[f.name := v])
  {
    hide Has;
    NamesNext(fs, f);
    forall i | 0 <= i < |fs|
      ensures fs[i].name != f.name
    {
      assert fs[i].name in Names(fs);
    }
  }

  lemma HasReplaced(fs: seq<Field>, i: nat, m: map<string, Value>, v: Value)
    requires DistinctNames(fs) && i < |fs| && HasFields(fs, m) && Has(fs[i].ty, v, true)
    ensures HasFields(fs, m[fs[i].name := v])
  {
    hide Has;
  }

  lemma {:induction false} FieldSamplesHas(t: SizedType, n: nat)
    requires t.Record? && Wf(t) && n <= |t.fields|
    ensures HasFields(t.fields[..n], FieldSamples(t, n))
    decreases t, 0, n
  {
    hide Sample, Has, HasFields;
    if n > 0 {
      FieldSamplesHas(t, n - 1);
      SampleHas(t.fields[n - 1].ty);
      assert t.fields[..n] == t.fields[..n - 1] + [t.fields[n - 1]];
      FreshName(t.fields, n - 1);
      hide Names, DistinctNames;
      HasNext(t.fields[..n - 1], t.fields[n - 1], FieldSamples(t, n - 1), Sample(t.fields[n - 1].ty));
    } else {
      NoFields(t.fields[..0]);
    }
  }

  lemma NoFields(fs: seq<Field>)
    requires |fs| == 0
    ensures HasFields(fs, map[])
  {
  }

  lemma {:induction false} SampleHas(t: SizedType)
    requires Wf(t)
    ensures Has(t, Sample(t), true)
    decreases t, 1, 0
  {
    hide Key;
    match t
    case Integer(size, _, _, _) => Pow2Positive(8 * size);
    case Tuple(xs) =>
      forall i | 0 <= i < |xs|
        ensures Has(xs[i], Sample(t).parts[i], true)
      {
        SampleHas(xs[i]);
      }
    case Record(fs) =>
      FieldSamplesHas(t, |fs|);
      assert fs[..|fs|] == fs;
    case _ =>
  }

  lemma {:induction false} Pow2Positive(n: nat)
    ensures Pow2(n) > 0
  {
    if n > 0 {
      Pow2Positive(n - 1);
    }
  }

  /** A number of one integer type that is not one of the other. */
  lemma OutOfRange(a: SizedType, b: SizedType) returns (n: int)
    requires a.Integer? && b.Integer? && IntSize(a.size) && IntSize(b.size) && !IntegerFits(a, b)
    ensures InRange(n, a.size, a.signed, a.flexible) && !InRange(n, b.size, b.signed, false)
  {
    var p, q := Pow2(8 * a.size), Pow2(8 * b.size);
    Pow2Values();
    hide Pow2;
    if a.signed && !b.signed && !a.flexible {
      n := -1;
    } else if a.flexible || a.signed {
      n := p / 2 - 1;
    } else {
      n := p - 1;
    }
  }

  lemma {:induction false} Unfit(a: SizedType, b: SizedType) returns (v: Value)
    requires Wf(a) && Wf(b) && Usual(a) && Usual(b) && !FitsInto(a, b)
    ensures Has(a, v, true) && !Has(b, v, false)
    decreases a
  {
    hide Compare, Key, InRange;
    if IsString(a) {
      v := if IsString(b) then Str(seq(a.size, i => 'x')) else Str("");
    } else {
      match a
      case Integer(_, _, _, _) =>
        if b.Integer? {
          var n := OutOfRange(a, b);
          v := Num(n);
        } else {
          SampleHas(a);
          v := Sample(a);
        }
      case Tuple(xs) => v := UnfitTuple(a, b);
      case Record(fs) => v := UnfitRecord(a, b);
      case _ =>
        v := Other(Key(a));
        ComparesByKey(a, b);
        if Compare(a, b) == Equal {
          EqualCompatible(a, b);
        }
    }
  }

  lemma {:induction false} UnfitTuple(a: SizedType, b: SizedType) returns (v: Value)
    requires a.Tuple? && Wf(a) && Wf(b) && Usual(a) && Usual(b) && !FitsInto(a, b)
    ensures Has(a, v, true) && !Has(b, v, false)
    decreases a, 0
  {
    SampleHas(a);
    v := Sample(a);
    if b.Tuple? && |a.elems| == |b.elems| {
      var i :| 0 <= i < |a.elems| && !FitsInto(a.elems[i], b.elems[i]);
      var w := Unfit(a.elems[i], b.elems[i]);
      v := Tup(v.parts[i := w]);
      assert v.parts[i] == w;
    }
  }

  lemma {:induction false} UnfitRecord(a: SizedType, b: SizedType) returns (v: Value)
    requires a.Record? && Wf(a) && Wf(b) && Usual(a) && Usual(b) && !FitsInto(a, b)
    ensures Has(a, v, true) && !Has(b, v, false)
    decreases a, 1
  {
    SampleHas(a);
    v := Sample(a);
    if b.Record? && Names(a.fields) == Names(b.fields) {
      v := UnfitField(a, b);
    }
  }

  lemma RecordHas(a: SizedType, m: map<string, Value>)
    requires a.Record?
    ensures Has(a, Rec(m), true) <==> HasFields(a.fields, m)
  {
  }

  lemma RecordLacks(b: SizedType, m: map<string, Value>, j: nat)
    requires b.Record? && j < |b.fields| && b.fields[j].name in m && !Has(b.fields[j].ty, m[b.fields[j].name], false)
    ensures !Has(b, Rec(m), false)
  {
  }

  lemma UnfitAt(fs: seq<Field>, gs: seq<Field>) returns (i: nat, j: nat)
    requires DistinctNames(fs) && DistinctNames(gs) && Names(fs) == Names(gs) && !FitsInto(Record(fs), Record(gs))
    ensures i < |fs| && j < |gs| && fs[i].name == gs[j].name && !FitsInto(fs[i].ty, gs[j].ty)
  {
    hide FitsInto;
    NamesCount(fs);
    NamesCount(gs);
    RecordFitsIff(fs, gs);
    forall i | 0 <= i < |fs|
      ensures Lookup(gs, fs[i].name) < |gs|
    {
      assert fs[i].name in Names(gs);
    }
    i :| 0 <= i < |fs| && !FitsInto(fs[i].ty, gs[Lookup(gs, fs[i].name)].ty);
    j := Lookup(gs, fs[i].name);
  }

  lemma {:induction false} UnfitField(a: SizedType, b: SizedType) returns (v: Value)
    requires a.Record? && b.Record? && Wf(a) && Wf(b) && Usual(a) && Usual(b) && !FitsInto(a, b)
    requires Names(a.fields) == Names(b.fields)
    ensures Has(a, v, true) && !Has(b, v, false)
    decreases a, 0
  {
    hide FitsInto, Has, HasFields;
    var i, j := UnfitAt(a.fields, b.fields);
    var w := Unfit(a.fields[i].ty, b.fields[j].ty);
    SampleHas(a);
    var m := Sample(a).fields;
    RecordHas(a, m);
    HasReplaced(a.fields, i, m, w);
    v := Rec(m[a.fields[i].name := w]);
    RecordHas(a, v.fields);
    RecordLacks(b, v.fields, j);
  }

  /** A type fits into another if and only if every value that may be given in the one may be stored in the
      other. */
  lemma FitsIff(a: SizedType, b: SizedType)
    requires Wf(a) && Wf(b) && Usual(a) && Usual(b)
    ensures FitsInto(a, b) <==> forall v :: Has(a, v, true) ==> Has(b, v, false)
  {
    hide Has, FitsInto;
    if FitsInto(a, b) {
      forall v | Has(a, v, true)
        ensures Has(b, v, false)
      {
        FitsCarries(a, b, v);
      }
    } else {
      var v := Unfit(a, b);
    }
  }

  // ---------- the least type ----------

  lemma IntegerLeast(a: SizedType, b: SizedType, c: SizedType)
    requires a.Integer? && b.Integer? && c.Integer? && IntSize(a.size) && IntSize(b.size) && IntSize(c.size)
    requires !a.flexible && !b.flexible && IntegerFits(a, c) && IntegerFits(b, c)
    ensures PromoteInt(a, b).Integer? && IntegerFits(PromoteInt(a, b), c)
  {
  }

  /** Among types without open signs: whatever both types fit into, the promoted one fits into as well. */
  lemma {:induction false} PromotedIsLeast(a: SizedType, b: SizedType, c: SizedType)
    requires Wf(a) && Wf(b) && Wf(c) && Usual(a) && Usual(b) && Usual(c) && Steady(a) && Steady(b)
    requires Compatible(a, b) && Clean(a, b) && FitsInto(a, c) && FitsInto(b, c)
    ensures FitsInto(PromoteElement(a, b), c)
    decreases a
  {
    hide Compare, PromoteInt;
    match a
    case Integer(_, _, _, _) => IntegerLeast(a, b, c);
    case Pointer(x) =>
      PointersCompare(x, c.pointee);
      PointerLeast(x, b.pointee, c.pointee);
    case Tuple(xs) =>
      var ps := PromoteElement(a, b).elems;
      forall i | 0 <= i < |xs|
        ensures FitsInto(ps[i], c.elems[i])
      {
        PromotedIsLeast(xs[i], b.elems[i], c.elems[i]);
      }
    case Record(fs) => RecordLeast(a, b, c);
    case _ =>
  }

  lemma {:induction false} RecordLeast(a: SizedType, b: SizedType, c: SizedType)
    requires a.Record? && Wf(a) && Wf(b) && Wf(c) && Usual(a) && Usual(b) && Usual(c) && Steady(a) && Steady(b)
    requires Compatible(a, b) && Clean(a, b) && FitsInto(a, c) && FitsInto(b, c)
    ensures FitsInto(PromoteElement(a, b), c)
    decreases a, 0
  {
    hide Compare;
    var fs, gs, hs, ps := a.fields, b.fields, c.fields, PromoteElement(a, b).fields;
    RecordFitsIff(fs, hs);
    RecordFitsIff(gs, hs);
    forall i | 0 <= i < |fs|
      ensures Lookup(hs, ps[i].name) < |hs| && FitsInto(ps[i].ty, hs[Lookup(hs, ps[i].name)].ty)
    {
      var g := gs[Lookup(gs, fs[i].name)];
      PromotedIsLeast(fs[i].ty, g.ty, hs[Lookup(hs, g.name)].ty);
    }
    hide FitsInto, PromoteElement;
    RecordFitsIff(ps, hs);
  }

  lemma {:induction false} PromotedWf(a: SizedType, b: SizedType)
    requires Wf(a) && Wf(b) && Compatible(a, b)
    ensures Wf(PromoteElement(a, b))
    decreases a
  {
    hide Compare;
    match a
    case Pointer(x) => PromotedWf(x, b.pointee);
    case Tuple(xs) =>
      forall i | 0 <= i < |xs|
        ensures Wf(PromoteElement(xs[i], b.elems[i]))
      {
        PromotedWf(xs[i], b.elems[i]);
      }
    case Record(fs) =>
      forall i | 0 <= i < |fs|
        ensures Wf(PromoteElement(fs[i].ty, b.fields[Lookup(b.fields, fs[i].name)].ty))
      {
        PromotedWf(fs[i].ty, b.fields[Lookup(b.fields, fs[i].name)].ty);
      }
    case _ =>
  }

  lemma PointerLeast(x: SizedType, y: SizedType, z: SizedType)
    requires Wf(x) && Wf(y) && Usual(x) && Usual(y) && Compatible(x, y) && Compare(x, y) == Equal && Nameless(x)
    requires Compare(x, z) == Equal
    ensures FitsInto(Pointer(PromoteElement(x, y)), Pointer(z))
  {
    hide PromoteElement, Nameless, Usual, Wf, Compare, CompareSame;
    var p := PromoteElement(x, y);
    EqualPromotes(x, y);
    CompareFlips(x, p);
    CompareChains(p, x, z);
    PromotedWf(x, y);
    EqualCompatible(p, z);
    PointersCompare(p, z);
  }

  lemma PointersCompare(x: SizedType, y: SizedType)
    ensures Compare(Pointer(x), Pointer(y)) == Compare(x, y)
  {
  }
}
