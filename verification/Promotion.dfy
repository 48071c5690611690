/** Finding one type for values of two types, and exactly when both kinds of value fit into it. */
module Promotion {
  import opened Options
  import opened Types
  import opened TypeOrder
  import opened TypeFit
  import TypeLayout

  function Max(a: nat, b: nat): nat {
    if a < b then b else a
  }

  predicate IsCastable(t: SizedType) {
    t.Plain? && 9 <= t.tag <= 13
  }

  predicate IsNumber(t: SizedType) {
    t.Integer? || IsCastable(t)
  }

  predicate Flexible(t: SizedType)
    requires IsNumber(t)
  {
    t.Integer? && t.flexible
  }

  /** `CreateInteger`, which cuts off at 64 bits. */
  function MakeInteger(size: nat, signed: bool, flexible: bool): SizedType {
    Integer(if size > 8 then 8 else size, signed, flexible, "")
  }

  function PromoteInt(a: SizedType, b: SizedType): SizedType
    requires IsNumber(a) && IsNumber(b)
  {
    var flexible, size := Flexible(a) && Flexible(b), Max(a.size, b.size);
    if a.signed == b.signed then MakeInteger(size, a.signed, flexible)
    else if Flexible(a) || Flexible(b) then
      MakeInteger(size, (!Flexible(a) && a.signed) || (!Flexible(b) && b.signed), flexible)
    else if a.signed && a.size > b.size then MakeInteger(a.size, true, false)
    else if b.signed && b.size > a.size then MakeInteger(b.size, true, false)
    else if size * 2 > 8 then MakeInteger(8, true, false)
    else MakeInteger(size * 2, true, false)
  }

  function PromoteElement(a: SizedType, b: SizedType): SizedType
    requires Compatible(a, b)
    decreases a
  {
    if IsCastable(a) then (if a.signed != b.signed && b.signed then b else a)
    else if IsString(a) then Plain(a.tag, Max(a.size, b.size), a.signed)
    else match a
      case Integer(_, _, _, _) => PromoteInt(a, b)
      case Tuple(xs) => Tuple(seq(|xs|, i requires 0 <= i < |xs| => PromoteElement(xs[i], b.elems[i])))
      case Record(fs) =>
        Record(seq(|fs|, i requires 0 <= i < |fs| =>
          Field(fs[i].name, PromoteElement(fs[i].ty, b.fields[Lookup(b.fields, fs[i].name)].ty))))
      case Pointer(x) => Pointer(PromoteElement(x, b.pointee))
      case _ => a
  }

  function PromoteType(a: SizedType, b: SizedType): Option<SizedType> {
    if a.Plain? && a.tag == NONE then
      Some(if IsCastable(b) then MakeInteger(8, b.signed, false) else b)
    else if Compare(a, b) == Equal then Some(b)
    else if Compatible(a, b) then Some(PromoteElement(a, b))
    else if (a.Integer? && IsCastable(b)) || (b.Integer? && IsCastable(a)) then Some(PromoteInt(a, b))
    else None
  }

  // ---------- the types considered ----------

  predicate IntSize(n: nat) {
    n == 1 || n == 2 || n == 4 || n == 8
  }

  /** Integers have one of the four sizes. */
  predicate Usual(t: SizedType)
    decreases t
  {
    match t
    case Integer(size, _, _, _) => IntSize(size)
    case Pointer(x) => Usual(x)
    case Tuple(xs) => forall i :: 0 <= i < |xs| ==> Usual(xs[i])
    case Record(fs) => forall i :: 0 <= i < |fs| ==> Usual(fs[i].ty)
    case _ => true
  }

  /** One is an unsigned 64-bit integer, the other a signed one, and neither is flexible. */
  predicate Mixes(a: SizedType, b: SizedType)
    requires a.Integer? && b.Integer?
  {
    && a.signed != b.signed && !a.flexible && !b.flexible
    && (if a.signed then b.size == 8 else a.size == 8)
  }

  /** No enumeration among the integers that promotion looks at: it would lose its name. */
  predicate Nameless(t: SizedType)
    decreases t
  {
    match t
    case Integer(_, _, _, name) => |name| == 0
    case Pointer(x) => Nameless(x)
    case Tuple(xs) => forall i :: 0 <= i < |xs| ==> Nameless(xs[i])
    case Record(fs) => forall i :: 0 <= i < |fs| ==> Nameless(fs[i].ty)
    case _ => true
  }

  /** No corresponding integers mix, what corresponding pointers point to is equal and nameless, and
      corresponding leaves that are neither integers nor strings are equal. */
  predicate Clean(a: SizedType, b: SizedType)
    requires Compatible(a, b)
    decreases a
  {
    if IsString(a) then true
    else match a
      case Integer(_, _, _, _) => !Mixes(a, b)
      case Pointer(x) => Compare(x, b.pointee) == Equal && Nameless(x)
      case Tuple(xs) => forall i :: 0 <= i < |xs| ==> Clean(xs[i], b.elems[i])
      case Record(fs) =>
        forall i :: 0 <= i < |fs| ==> Clean(fs[i].ty, b.fields[Lookup(b.fields, fs[i].name)].ty)
      case _ => Compare(a, b) == Equal
  }

  // ---------- the same names on both sides ----------

  function Names(fs: seq<Field>): set<string> {
    set i | 0 <= i < |fs| :: fs[i].name
  }

  lemma NamesNext(fs: seq<Field>, f: Field)
    ensures Names(fs + [f]) == Names(fs) + {f.name}
  {
    assert (fs + [f])[|fs|] == f;
    assert forall i :: 0 <= i < |fs| ==> (fs + [f])[i] == fs[i];
  }

  lemma FreshName(fs: seq<Field>, n: nat)
    requires DistinctNames(fs) && n < |fs|
    ensures fs[n].name !in Names(fs[..n])
  {
  }

  lemma {:induction false} NamesCount(fs: seq<Field>)
    requires DistinctNames(fs)
    ensures |Names(fs)| == |fs|
  {
    if |fs| > 0 {
      var rest := fs[..|fs| - 1];
      NamesCount(rest);
      assert Names(fs) == Names(rest) + {fs[|fs| - 1].name};
    }
  }

  lemma SubsetSame<T>(a: set<T>, b: set<T>)
    requires a <= b && |a| == |b|
    ensures a == b
  {
    assert |b - a| == |b| - |a|;
  }

  /** If every field of one record has a namesake in another with as many fields, then conversely. */
  lemma NamesakeBack(fs: seq<Field>, gs: seq<Field>, j: nat)
    requires DistinctNames(fs) && DistinctNames(gs) && |fs| == |gs| && j < |gs|
    requires forall i :: 0 <= i < |fs| ==> Lookup(gs, fs[i].name) < |gs|
    ensures var i := Lookup(fs, gs[j].name); i < |fs| && Lookup(gs, fs[i].name) == j
  {
    NamesCount(fs);
    NamesCount(gs);
    assert Names(fs) <= Names(gs) by {
      forall i | 0 <= i < |fs|
        ensures fs[i].name in Names(gs)
      {
        assert gs[Lookup(gs, fs[i].name)].name == fs[i].name;
      }
    }
    SubsetSame(Names(fs), Names(gs));
    assert gs[j].name in Names(fs);
    LookupIs(gs, j);
  }

  // ---------- promoting equal types ----------

  lemma {:induction false} ElemsEqualBack(a: SizedType, b: SizedType, i: nat)
    requires a.Tuple? && b.Tuple? && |a.elems| == |b.elems| && i <= |a.elems|
    requires forall j :: i <= j < |a.elems| ==> Compare(a.elems[j], b.elems[j]) == Equal
    ensures CompareElems(a, b, i) == Equal
    decreases |a.elems| - i
  {
    hide Compare;
    if i < |a.elems| {
      ElemsEqualBack(a, b, i + 1);
    }
  }

  lemma {:induction false} FieldsEqualBack(a: SizedType, b: SizedType, i: nat)
    requires a.Record? && b.Record? && |a.fields| == |b.fields| && i <= |a.fields|
    requires forall j :: i <= j < |a.fields| ==>
      a.fields[j].name == b.fields[j].name && Compare(a.fields[j].ty, b.fields[j].ty) == Equal
    ensures CompareFields(a, b, i) == Equal
    decreases |a.fields| - i
  {
    hide Compare, CompareText;
    if i < |a.fields| {
      TextFlips(a.fields[i].name, b.fields[i].name);
      FieldsEqualBack(a, b, i + 1);
    }
  }

  lemma EqualSelf(a: SizedType)
    ensures Compare(a, a) == Equal
  {
    CompareFlips(a, a);
  }

  /** Promoting equal types gives an equal type exactly when no enumeration loses its name. */
  lemma {:induction false} EqualPromotes(a: SizedType, b: SizedType)
    requires Wf(a) && Wf(b) && Usual(a) && Usual(b) && Compatible(a, b) && Compare(a, b) == Equal
    ensures Compare(a, PromoteElement(a, b)) == Equal <==> Nameless(a)
    decreases a
  {
    match a
    case Integer(_, _, _, name) => EqualIntegers(a, b);
    case Pointer(x) => EqualPromotes(x, b.pointee);
    case Tuple(xs) => EqualTuples(a, b);
    case Record(fs) => EqualRecords(a, b);
    case _ => EqualSelf(a);
  }

  lemma EqualIntegers(a: SizedType, b: SizedType)
    requires a.Integer? && b.Integer? && IntSize(a.size) && Compare(a, b) == Equal
    ensures Compare(a, PromoteInt(a, b)) == Equal <==> |a.name| == 0
  {
    TextFlips(a.name, b.name);
    TextFlips(a.name, "");
  }

  lemma EqualTuples(a: SizedType, b: SizedType)
    requires a.Tuple? && Wf(a) && Wf(b) && Usual(a) && Usual(b) && Compatible(a, b) && Compare(a, b) == Equal
    ensures Compare(a, PromoteElement(a, b)) == Equal <==> Nameless(a)
    decreases a, 0
  {
    var xs, p := a.elems, PromoteElement(a, b);
    TypeLayout.ElemsEqual(a, b, 0);
    forall i | 0 <= i < |xs|
      ensures Compare(xs[i], p.elems[i]) == Equal <==> Nameless(xs[i])
    {
      EqualPromotes(xs[i], b.elems[i]);
    }
    if CompareElems(a, p, 0) == Equal {
      TypeLayout.ElemsEqual(a, p, 0);
    }
    if Nameless(a) {
      ElemsEqualBack(a, p, 0);
    }
  }

  lemma EqualRecords(a: SizedType, b: SizedType)
    requires a.Record? && Wf(a) && Wf(b) && Usual(a) && Usual(b) && Compatible(a, b) && Compare(a, b) == Equal
    ensures Compare(a, PromoteElement(a, b)) == Equal <==> Nameless(a)
    decreases a, 0
  {
    var fs, p := a.fields, PromoteElement(a, b);
    TypeLayout.FieldsEqual(a, b, 0);
    forall i | 0 <= i < |fs|
      ensures p.fields[i].name == fs[i].name
      ensures Compare(fs[i].ty, p.fields[i].ty) == Equal <==> Nameless(fs[i].ty)
    {
      LookupIs(b.fields, i);
      EqualPromotes(fs[i].ty, b.fields[i].ty);
    }
    if CompareFields(a, p, 0) == Equal {
      TypeLayout.FieldsEqual(a, p, 0);
    }
    if Nameless(a) {
      FieldsEqualBack(a, p, 0);
    }
  }

  // ---------- the bound ----------

  ghost predicate Bounds(a: SizedType, b: SizedType, p: SizedType) {
    FitsInto(a, p) && FitsInto(b, p)
  }

  /** Both types fit into the promoted one exactly when they are clean. */
  lemma {:induction false} PromotedBoundsIff(a: SizedType, b: SizedType)
    requires Wf(a) && Wf(b) && Usual(a) && Usual(b) && Compatible(a, b)
    ensures Bounds(a, b, PromoteElement(a, b)) <==> Clean(a, b)
    decreases a
  {
    match a
    case Integer(_, _, _, _) =>
    case Pointer(x) => PointerBounds(x, b.pointee);
    case Tuple(xs) =>
      hide Bounds;
      var p := PromoteElement(a, b);
      forall i | 0 <= i < |xs|
        ensures Bounds(xs[i], b.elems[i], p.elems[i]) <==> Clean(xs[i], b.elems[i])
      {
        PromotedBoundsIff(xs[i], b.elems[i]);
      }
      TupleBounds(xs, b.elems, p.elems);
    case Record(fs) => RecordBoundsIff(a, b);
    case _ => LeafBounds(a, b);
  }

  lemma RecordBoundsIff(a: SizedType, b: SizedType)
    requires a.Record? && Wf(a) && Wf(b) && Usual(a) && Usual(b) && Compatible(a, b)
    ensures Bounds(a, b, PromoteElement(a, b)) <==> Clean(a, b)
    decreases a, 0
  {
    hide Bounds;
    var fs, gs, ps := a.fields, b.fields, PromoteElement(a, b).fields;
    forall i | 0 <= i < |fs|
      ensures var g := gs[Lookup(gs, fs[i].name)].ty; Bounds(fs[i].ty, g, ps[i].ty) <==> Clean(fs[i].ty, g)
    {
      PromotedBoundsIff(fs[i].ty, gs[Lookup(gs, fs[i].name)].ty);
    }
    RecordBounds(fs, gs, ps);
  }

  lemma LeafBounds(a: SizedType, b: SizedType)
    requires Wf(a) && Wf(b) && Compatible(a, b) && !a.Integer? && !a.Tuple? && !a.Record? && !a.Pointer?
    ensures Bounds(a, b, PromoteElement(a, b)) <==> Clean(a, b)
  {
    SelfFits(a);
    SelfFits(b);
    CompareFlips(a, b);
    if Compare(a, b) == Equal {
      EqualFits(a, b);
      EqualFits(b, a);
    }
  }

  /** Pointers do not convert: both must point to what the promoted one points to. */
  lemma PointerBounds(x: SizedType, y: SizedType)
    requires Wf(x) && Wf(y) && Usual(x) && Usual(y) && Compatible(x, y)
    ensures Bounds(Pointer(x), Pointer(y), Pointer(PromoteElement(x, y))) <==> Compare(x, y) == Equal && Nameless(x)
  {
    hide PromoteElement, Nameless, Usual, Wf;
    var q := PromoteElement(x, y);
    assert Compare(Pointer(x), Pointer(q)) == Compare(x, q);
    assert Compare(Pointer(y), Pointer(q)) == Compare(y, q);
    CompareFlips(x, y);
    CompareFlips(y, q);
    CompareChains(x, q, y);
    CompareChains(y, x, q);
    if Compare(x, y) == Equal {
      EqualPromotes(x, y);
    }
    if Compare(x, q) == Equal {
      EqualCompatible(x, q);
    }
    if Compare(y, q) == Equal {
      EqualCompatible(y, q);
    }
  }

  lemma TupleBounds(xs: seq<SizedType>, ys: seq<SizedType>, ps: seq<SizedType>)
    requires |xs| == |ys| == |ps|
    ensures Bounds(Tuple(xs), Tuple(ys), Tuple(ps)) <==> forall i :: 0 <= i < |xs| ==> Bounds(xs[i], ys[i], ps[i])
  {
  }

  /** The fields of the promoted record are found under the same names from either side. */
  lemma SharedNames(fs: seq<Field>, gs: seq<Field>, ps: seq<Field>)
    requires |fs| == |gs| == |ps| && DistinctNames(fs) && DistinctNames(gs)
    requires forall i :: 0 <= i < |fs| ==> ps[i].name == fs[i].name && Lookup(gs, fs[i].name) < |gs|
    ensures forall i :: 0 <= i < |fs| ==> Lookup(ps, fs[i].name) == i
    ensures forall i :: 0 <= i < |fs| ==> Lookup(ps, gs[Lookup(gs, fs[i].name)].name) == i
    ensures forall j :: 0 <= j < |gs| ==>
      var i := Lookup(fs, gs[j].name); i < |fs| && Lookup(gs, fs[i].name) == j && Lookup(ps, gs[j].name) == i
  {
    forall i | 0 <= i < |fs|
      ensures Lookup(ps, fs[i].name) == i
    {
      LookupIs(ps, i);
    }
    forall j | 0 <= j < |gs|
      ensures var i := Lookup(fs, gs[j].name);
        i < |fs| && Lookup(gs, fs[i].name) == j && Lookup(ps, gs[j].name) == i
    {
      NamesakeBack(fs, gs, j);
    }
  }

  lemma RecordFitsIff(fs: seq<Field>, ps: seq<Field>)
    ensures FitsInto(Record(fs), Record(ps)) <==>
      |fs| == |ps| && forall i :: 0 <= i < |fs| ==>
        Lookup(ps, fs[i].name) < |ps| && FitsInto(fs[i].ty, ps[Lookup(ps, fs[i].name)].ty)
  {
    hide Lookup;
  }

  lemma RecordBounds(fs: seq<Field>, gs: seq<Field>, ps: seq<Field>)
    requires |fs| == |gs| == |ps| && DistinctNames(fs) && DistinctNames(gs)
    requires forall i :: 0 <= i < |fs| ==> ps[i].name == fs[i].name && Lookup(gs, fs[i].name) < |gs|
    ensures Bounds(Record(fs), Record(gs), Record(ps)) <==>
      forall i :: 0 <= i < |fs| ==> Bounds(fs[i].ty, gs[Lookup(gs, fs[i].name)].ty, ps[i].ty)
  {
    SharedNames(fs, gs, ps);
    RecordFitsIff(fs, ps);
    RecordFitsIff(gs, ps);
    hide DistinctNames, Lookup, FitsInto;
  }

  /** Compatible types have a promoted type, and both fit into it exactly when they are equal or clean. */
  lemma PromotionIsBoundIff(a: SizedType, b: SizedType)
    requires Wf(a) && Wf(b) && Usual(a) && Usual(b) && Compatible(a, b)
    ensures PromoteType(a, b).Some?
    ensures Bounds(a, b, PromoteType(a, b).value) <==> Compare(a, b) == Equal || Clean(a, b)
  {
    hide PromoteElement;
    PromotedBoundsIff(a, b);
    SelfFits(b);
    if Compare(a, b) == Equal {
      EqualFits(a, b);
    }
  }
}
