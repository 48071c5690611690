/** Compatibility from outside: types are compatible if and only if they have the same shape, which forgets
    the sizes and signs of integers and the sizes of strings and structures. */
module TypeShapes {
  import opened Options
  import opened Types
  import opened TypeKeys
  import opened TypeLayout
  import opened TypeFit
  import opened Promotion

  datatype Shape =
    | Number
    | Bare(tag: nat)
    | Named(name: string)
    | Traced(user: bool, limit: nat, mode: nat, kernel: bool)
    | PointerTo(pointee: Shape)
    | ArrayOf(count: nat, element: seq<int>)
    | Listed(elems: seq<Shape>)
    | Keyed(fields: map<string, Shape>)

  function ShapeOf(t: SizedType): Shape
    decreases t, 1, 0
  {
    match t
    case Plain(tag, _, _) => Bare(tag)
    case Integer(_, _, _, _) => Number
    case Pointer(x) => PointerTo(ShapeOf(x))
    case CType(name, _) => Named(name)
    case Stack(user, limit, mode, kernel, _, _) => Traced(user, limit, mode, kernel)
    case Array(count, x) => ArrayOf(count, Key(x))
    case Tuple(xs) => Listed(seq(|xs|, i requires 0 <= i < |xs| => ShapeOf(xs[i])))
    case Record(fs) => Keyed(FieldShapes(t, |fs|))
  }

  /** The shapes of the first `n` fields by name. */
  function FieldShapes(t: SizedType, n: nat): map<string, Shape>
    requires t.Record? && n <= |t.fields|
    decreases t, 0, n
  {
    if n == 0 then map[] else FieldShapes(t, n - 1)[t.fields[n - 1].name := ShapeOf(t.fields[n - 1].ty)]
  }

  /** Every array has bytes, also behind pointers. */
  predicate Known(t: SizedType)
    decreases t
  {
    match t
    case Pointer(x) => Known(x)
    case Array(_, _) => ByteSize(t) > 0
    case Tuple(xs) => forall i :: 0 <= i < |xs| ==> Known(xs[i])
    case Record(fs) => forall i :: 0 <= i < |fs| ==> Known(fs[i].ty)
    case _ => true
  }

  // ---------- fields ----------

  /** The fields with their shapes, by name. */
  ghost predicate IsFieldMap(fs: seq<Field>, m: map<string, Shape>) {
    m.Keys == Names(fs) && forall i :: 0 <= i < |fs| ==> fs[i].name in m && m[fs[i].name] == ShapeOf(fs[i].ty)
  }

  lemma MapNext(fs: seq<Field>, f: Field, m: map<string, Shape>)
    requires IsFieldMap(fs, m) && f.name !in Names(fs)
    ensures IsFieldMap(fs + [f], m[f.name := ShapeOf(f.ty)])
  {
    hide ShapeOf;
    NamesNext(fs, f);
    forall i | 0 <= i < |fs|
      ensures fs[i].name != f.name
    {
      assert fs[i].name in Names(fs);
    }
  }

  lemma {:induction false} FieldShapesMap(t: SizedType, n: nat)
    requires t.Record? && DistinctNames(t.fields) && n <= |t.fields|
    ensures IsFieldMap(t.fields[..n], FieldShapes(t, n))
    decreases n
  {
    hide ShapeOf, DistinctNames;
    if n > 0 {
      FieldShapesMap(t, n - 1);
      assert t.fields[..n] == t.fields[..n - 1] + [t.fields[n - 1]];
      FreshName(t.fields, n - 1);
      hide IsFieldMap, Names;
      MapNext(t.fields[..n - 1], t.fields[n - 1], FieldShapes(t, n - 1));
    }
  }

  /** A field of one record has a namesake of the same shape in the other. */
  ghost predicate Matched(fs: seq<Field>, gs: seq<Field>, i: nat)
    requires i < |fs|
  {
    var j := Lookup(gs, fs[i].name);
    j < |gs| && ShapeOf(fs[i].ty) == ShapeOf(gs[j].ty)
  }

  lemma MapsMatched(fs: seq<Field>, gs: seq<Field>, m: map<string, Shape>, n: map<string, Shape>)
    requires DistinctNames(fs) && DistinctNames(gs) && IsFieldMap(fs, m) && IsFieldMap(gs, n) && m == n
    ensures |fs| == |gs| && forall i :: 0 <= i < |fs| ==> Matched(fs, gs, i)
  {
    hide ShapeOf;
    NamesCount(fs);
    NamesCount(gs);
    forall i | 0 <= i < |fs|
      ensures Matched(fs, gs, i)
    {
      assert fs[i].name in Names(gs);
      var k :| 0 <= k < |gs| && gs[k].name == fs[i].name;
      LookupIs(gs, k);
    }
  }

  lemma MatchedMaps(fs: seq<Field>, gs: seq<Field>, m: map<string, Shape>, n: map<string, Shape>)
    requires DistinctNames(fs) && DistinctNames(gs) && IsFieldMap(fs, m) && IsFieldMap(gs, n)
    requires |fs| == |gs| && forall i :: 0 <= i < |fs| ==> Matched(fs, gs, i)
    ensures m == n
  {
    hide ShapeOf, Lookup, DistinctNames;
    forall i | 0 <= i < |fs|
      ensures Lookup(gs, fs[i].name) < |gs|
    {
      assert Matched(fs, gs, i);
    }
    forall j | 0 <= j < |gs|
      ensures gs[j].name in m && m[gs[j].name] == n[gs[j].name]
    {
      NamesakeBack(fs, gs, j);
      assert Matched(fs, gs, Lookup(fs, gs[j].name));
    }
    forall name | name in m
      ensures name in n
    {
      var i :| 0 <= i < |fs| && fs[i].name == name;
      assert Matched(fs, gs, i);
    }
    forall name | name in n
      ensures name in m && m[name] == n[name]
    {
      var j :| 0 <= j < |gs| && gs[j].name == name;
    }
  }

  lemma RecordShapesIff(a: SizedType, b: SizedType)
    requires a.Record? && b.Record? && DistinctNames(a.fields) && DistinctNames(b.fields)
    ensures ShapeOf(a) == ShapeOf(b) <==>
            |a.fields| == |b.fields| && forall i :: 0 <= i < |a.fields| ==> Matched(a.fields, b.fields, i)
  {
    hide FieldShapes, IsFieldMap, DistinctNames, Matched;
    var fs, gs := a.fields, b.fields;
    var m, n := FieldShapes(a, |fs|), FieldShapes(b, |gs|);
    assert ShapeOf(a) == Keyed(m) && ShapeOf(b) == Keyed(n);
    hide ShapeOf;
    FieldShapesMap(a, |fs|);
    FieldShapesMap(b, |gs|);
    assert fs[..|fs|] == fs && gs[..|gs|] == gs;
    if m == n {
      MapsMatched(fs, gs, m, n);
    } else if |fs| == |gs| && forall i :: 0 <= i < |fs| ==> Matched(fs, gs, i) {
      MatchedMaps(fs, gs, m, n);
    }
  }

  // ---------- compatibility ----------

  lemma SameCount(n: nat, m: nat, s: nat)
    requires s > 0
    ensures n * s == m * s <==> n == m
  {
    if n < m {
      assert n * s < m * s;
    } else if m < n {
      assert m * s < n * s;
    }
  }

  lemma ArraysCompatible(a: SizedType, b: SizedType)
    requires a.Array? && b.Array?
    ensures Compatible(a, b) <==>
            Key(a.element) == Key(b.element) && (ByteSize(a) == 0 || ByteSize(b) == 0 || a.count == b.count)
  {
    hide Key, Compare;
    ComparesByKey(a.element, b.element);
    if Compare(a.element, b.element) == Equal {
      EqualSize(a.element, b.element);
      var s := ByteSize(a.element);
      assert ByteSize(a) == a.count * s && ByteSize(b) == b.count * s;
      if s > 0 {
        SameCount(a.count, b.count, s);
      }
    }
  }

  /** Two types without arrays of unknown size are compatible if and only if they have the same shape. */
  lemma {:induction false} CompatibleIff(a: SizedType, b: SizedType)
    requires Wf(a) && Wf(b) && Known(a) && Known(b)
    ensures Compatible(a, b) <==> ShapeOf(a) == ShapeOf(b)
    decreases a
  {
    hide ByteSize, Key, Compare;
    if Rank(a) == Rank(b) {
      match a
      case Pointer(x) => CompatibleIff(x, b.pointee);
      case Array(_, _) => ArraysCompatible(a, b);
      case Tuple(xs) => TuplesIff(a, b);
      case Record(fs) => RecordsIff(a, b);
      case _ =>
    }
  }

  lemma {:induction false} TuplesIff(a: SizedType, b: SizedType)
    requires a.Tuple? && b.Tuple? && Wf(a) && Wf(b) && Known(a) && Known(b)
    ensures Compatible(a, b) <==> ShapeOf(a) == ShapeOf(b)
    decreases a, 0
  {
    var xs, ys := a.elems, b.elems;
    var u, v := ShapeOf(a).elems, ShapeOf(b).elems;
    assert |u| == |xs| && |v| == |ys|;
    if |xs| == |ys| {
      forall i | 0 <= i < |xs|
        ensures Compatible(xs[i], ys[i]) <==> u[i] == v[i]
      {
        CompatibleIff(xs[i], ys[i]);
      }
      assert u == v <==> forall i :: 0 <= i < |xs| ==> u[i] == v[i];
    }
  }

  lemma {:induction false} RecordsIff(a: SizedType, b: SizedType)
    requires a.Record? && b.Record? && Wf(a) && Wf(b) && Known(a) && Known(b)
    ensures Compatible(a, b) <==> ShapeOf(a) == ShapeOf(b)
    decreases a, 0
  {
    var fs, gs := a.fields, b.fields;
    RecordShapesIff(a, b);
    hide ShapeOf;
    forall i | 0 <= i < |fs|
      ensures var j := Lookup(gs, fs[i].name); Matched(fs, gs, i) <==> j < |gs| && Compatible(fs[i].ty, gs[j].ty)
    {
      var j := Lookup(gs, fs[i].name);
      if j < |gs| {
        CompatibleIff(fs[i].ty, gs[j].ty);
      }
    }
    hide Matched, Lookup;
  }

  /** An array of unknown size is compatible with exactly the arrays of the same elements. */
  lemma UnknownArrayIff(a: SizedType, b: SizedType)
    requires a.Array? && ByteSize(a) == 0
    ensures Compatible(a, b) <==> b.Array? && Key(a.element) == Key(b.element)
    ensures Compatible(b, a) <==> b.Array? && Key(a.element) == Key(b.element)
  {
    hide ByteSize, Key;
    if b.Array? {
      ArraysCompatible(a, b);
      ArraysCompatible(b, a);
    }
  }

  /** Compatibility goes both ways, for all types. */
  lemma {:induction false} CompatibleBack(a: SizedType, b: SizedType)
    requires Wf(a) && Wf(b) && Compatible(a, b)
    ensures Compatible(b, a)
    decreases a
  {
    hide ByteSize, Key, Compare;
    match a
    case Pointer(x) => CompatibleBack(x, b.pointee);
    case Array(_, _) =>
      ArraysCompatible(a, b);
      ArraysCompatible(b, a);
    case Tuple(xs) =>
      forall i | 0 <= i < |xs|
        ensures Compatible(b.elems[i], xs[i])
      {
        CompatibleBack(xs[i], b.elems[i]);
      }
    case Record(fs) => RecordsBack(a, b);
    case _ =>
  }

  lemma {:induction false} RecordsBack(a: SizedType, b: SizedType)
    requires a.Record? && Wf(a) && Wf(b) && Compatible(a, b)
    ensures Compatible(b, a)
    decreases a, 0
  {
    var fs, gs := a.fields, b.fields;
    forall j | 0 <= j < |gs|
      ensures var i := Lookup(fs, gs[j].name); i < |fs| && Compatible(gs[j].ty, fs[i].ty)
    {
      NamesakeBack(fs, gs, j);
      CompatibleBack(fs[Lookup(fs, gs[j].name)].ty, gs[j].ty);
    }
  }

  // ---------- promotion ----------

  /** There is a promoted type if and only if there is no first type yet, the shapes are the same, or one is an
      integer and the other a map value that reads as one. */
  lemma PromotesIff(a: SizedType, b: SizedType)
    requires Wf(a) && Wf(b) && Known(a) && Known(b)
    ensures PromoteType(a, b).Some? <==>
            || ShapeOf(a) == Bare(NONE) || ShapeOf(a) == ShapeOf(b)
            || (a.Integer? && IsCastable(b)) || (b.Integer? && IsCastable(a))
  {
    hide ShapeOf, Compatible, PromoteElement, PromoteInt, Compare;
    CompatibleIff(a, b);
    if Compare(a, b) == Equal {
      EqualCompatible(a, b);
    }
    NoneShape(a);
  }

  lemma NoneShape(t: SizedType)
    ensures ShapeOf(t) == Bare(NONE) <==> t.Plain? && t.tag == NONE
  {
  }

  /** A map value as the integer it reads as. */
  function AsInteger(t: SizedType): SizedType
    requires IsNumber(t)
  {
    if t.Integer? then t else Integer(t.size, t.signed, false, "")
  }

  /** A map value promotes with an integer as the integer it reads as, and to at most 64 bits. */
  lemma NumbersPromote(a: SizedType, b: SizedType)
    requires (a.Integer? && IsCastable(b)) || (b.Integer? && IsCastable(a))
    ensures PromoteType(a, b) == Some(PromoteInt(AsInteger(a), AsInteger(b)))
    ensures PromoteInt(a, b).Integer? && PromoteInt(a, b).size <= 8
  {
  }

  /** Two map values of one kind promote to one of them, signed if either is. */
  lemma MapValuesPromote(a: SizedType, b: SizedType)
    requires IsCastable(a) && Compatible(a, b)
    ensures var p := PromoteElement(a, b);
            p in [a, b] && (p.signed <==> a.signed || b.signed) && (a.signed == b.signed ==> p == a)
  {
  }

  /** What comes first keeps its type, but a map value is stored as a 64-bit integer of its sign. */
  lemma FirstPromotes(a: SizedType, b: SizedType)
    requires ShapeOf(a) == Bare(NONE)
    ensures PromoteType(a, b) == Some(if IsCastable(b) then Integer(8, b.signed, false, "") else b)
  {
    NoneShape(a);
  }

  // ---------- kinds by name ----------

  /** Byte arrays, by name. */
  lemma ByteArrayKinds(n: nat)
    requires n < |KINDS|
    ensures IsByteArray(n) <==>
            KINDS[n] in ["string", "usym_t", "inet", "buffer", "timestamp", "mac_address", "cgroup_path_t"]
  {
    assert |KINDS| == 30;
  }

  /** Map values that read as numbers, by name. */
  lemma CastableKinds(t: SizedType)
    ensures IsCastable(t) <==> KindOf(t) in ["count_t", "sum_t", "min_t", "max_t", "avg_t"]
  {
    assert |KINDS| == 30;
  }
}
