/** Compatibility of types, and when values of one type fit into another. */
module TypeFit {
  import opened Types
  import opened TypeOrder
  import opened TypeLayout

  // ---------- fields by name ----------

  /** The first field called `name`, or the number of fields if there is none. */
  function Lookup(fs: seq<Field>, name: string): (i: nat)
    ensures i <= |fs|
    ensures i < |fs| ==> fs[i].name == name
    ensures forall j :: 0 <= j < i ==> fs[j].name != name
  {
    if |fs| == 0 || fs[0].name == name then 0 else 1 + Lookup(fs[1..], name)
  }

  predicate DistinctNames(fs: seq<Field>) {
    forall i, j :: 0 <= i < j < |fs| ==> fs[i].name != fs[j].name
  }

  lemma LookupIs(fs: seq<Field>, i: nat)
    requires DistinctNames(fs) && i < |fs|
    ensures Lookup(fs, fs[i].name) == i
  {
  }

  // ---------- compatibility and fit ----------

  predicate Compatible(a: SizedType, b: SizedType)
    decreases a
  {
    Rank(a) == Rank(b) &&
    match a
    case CType(name, _) => name == b.name
    case Pointer(x) => Compatible(x, b.pointee)
    case Tuple(xs) => |xs| == |b.elems| && forall i :: 0 <= i < |xs| ==> Compatible(xs[i], b.elems[i])
    case Stack(_, limit, mode, kernel, _, _) => limit == b.limit && mode == b.mode && kernel == b.kernel
    case Record(fs) =>
      |fs| == |b.fields| && forall i :: 0 <= i < |fs| ==>
        var j := Lookup(b.fields, fs[i].name);
        j < |b.fields| && Compatible(fs[i].ty, b.fields[j].ty)
    case Array(_, x) =>
      Compare(x, b.element) == Equal && (ByteSize(a) == 0 || ByteSize(b) == 0 || ByteSize(a) == ByteSize(b))
    case _ => true
  }

  predicate IsString(t: SizedType) {
    t.Plain? && t.tag == STRING
  }

  predicate IntegerFits(a: SizedType, b: SizedType)
    requires a.Integer? && b.Integer?
  {
    if a.signed == b.signed || a.flexible then a.size <= b.size
    else !a.signed && a.size < b.size
  }

  predicate FitsInto(a: SizedType, b: SizedType)
    decreases a
  {
    Compatible(a, b) &&
    if IsString(a) then a.size <= b.size
    else match a
      case Integer(_, _, _, _) => IntegerFits(a, b)
      case Tuple(xs) => forall i :: 0 <= i < |xs| ==> FitsInto(xs[i], b.elems[i])
      case Record(fs) => forall i :: 0 <= i < |fs| ==> FitsInto(fs[i].ty, b.fields[Lookup(b.fields, fs[i].name)].ty)
      case _ => Compare(a, b) == Equal
  }

  /** Field names are distinct and enumerations unsigned, everywhere inside. */
  predicate Wf(t: SizedType)
    decreases t
  {
    match t
    case Integer(_, signed, _, name) => |name| > 0 ==> !signed
    case Pointer(x) => Wf(x)
    case Array(_, x) => Wf(x)
    case Tuple(xs) => forall i :: 0 <= i < |xs| ==> Wf(xs[i])
    case Record(fs) => DistinctNames(fs) && forall i :: 0 <= i < |fs| ==> Wf(fs[i].ty)
    case _ => true
  }

  // ---------- equal types fit ----------

  lemma {:induction false} EqualCompatible(a: SizedType, b: SizedType)
    requires Wf(a) && Compare(a, b) == Equal
    ensures Compatible(a, b)
    decreases a
  {
    match a
    case CType(name, _) => TextFlips(name, b.name);
    case Pointer(x) => EqualCompatible(x, b.pointee);
    case Tuple(xs) =>
      ElemsEqual(a, b, 0);
      forall i | 0 <= i < |xs|
        ensures Compatible(xs[i], b.elems[i])
      {
        EqualCompatible(xs[i], b.elems[i]);
      }
    case Record(fs) =>
      FieldsEqual(a, b, 0);
      forall i | 0 <= i < |fs|
        ensures Lookup(b.fields, fs[i].name) == i && Compatible(fs[i].ty, b.fields[i].ty)
      {
        LookupIs(b.fields, i);
        EqualCompatible(fs[i].ty, b.fields[i].ty);
      }
    case Array(_, _) => EqualSize(a, b);
    case _ =>
  }

  lemma {:induction false} EqualFits(a: SizedType, b: SizedType)
    requires Wf(a) && Wf(b) && Compare(a, b) == Equal
    ensures FitsInto(a, b)
    decreases a
  {
    EqualCompatible(a, b);
    match a
    case Integer(_, _, _, name) => TextFlips(name, b.name);
    case Tuple(xs) =>
      ElemsEqual(a, b, 0);
      forall i | 0 <= i < |xs|
        ensures FitsInto(xs[i], b.elems[i])
      {
        EqualFits(xs[i], b.elems[i]);
      }
    case Record(fs) =>
      FieldsEqual(a, b, 0);
      forall i | 0 <= i < |fs|
        ensures FitsInto(fs[i].ty, b.fields[Lookup(b.fields, fs[i].name)].ty)
      {
        LookupIs(b.fields, i);
        EqualFits(fs[i].ty, b.fields[i].ty);
      }
    case _ =>
  }

  // ---------- transitivity ----------

  /** No sign-flexible integer is reached through tuples and records. */
  predicate Steady(t: SizedType)
    decreases t
  {
    match t
    case Integer(_, _, flexible, _) => !flexible
    case Tuple(xs) => forall i :: 0 <= i < |xs| ==> Steady(xs[i])
    case Record(fs) => forall i :: 0 <= i < |fs| ==> Steady(fs[i].ty)
    case _ => true
  }

  lemma {:induction false} FitsTransitive(a: SizedType, b: SizedType, c: SizedType)
    requires Wf(a) && Steady(b) && FitsInto(a, b) && FitsInto(b, c)
    ensures FitsInto(a, c)
    decreases a
  {
    match a
    case Integer(_, _, _, _) =>
    case Tuple(xs) =>
      forall i | 0 <= i < |xs|
        ensures FitsInto(xs[i], c.elems[i])
      {
        FitsTransitive(xs[i], b.elems[i], c.elems[i]);
      }
    case Record(fs) =>
      forall i | 0 <= i < |fs|
        ensures var k := Lookup(c.fields, fs[i].name); k < |c.fields| && FitsInto(fs[i].ty, c.fields[k].ty)
      {
        var j := Lookup(b.fields, fs[i].name);
        FitsTransitive(fs[i].ty, b.fields[j].ty, c.fields[Lookup(c.fields, b.fields[j].name)].ty);
      }
    case _ =>
      if !IsString(a) {
        CompareChains(a, b, c);
        EqualCompatible(a, c);
      }
  }

  /** `t` with every sign-flexible integer given its own sign for good, or the other one. */
  function Settle(t: SizedType, other: bool): SizedType
    decreases t
  {
    match t
    case Integer(size, signed, flexible, name) =>
      if flexible then Integer(size, signed != other, false, "") else t
    case Tuple(xs) => Tuple(seq(|xs|, i requires 0 <= i < |xs| => Settle(xs[i], other)))
    case Record(fs) => Record(seq(|fs|, i requires 0 <= i < |fs| => Field(fs[i].name, Settle(fs[i].ty, other))))
    case _ => t
  }

  lemma {:induction false} SettledWf(t: SizedType, other: bool)
    requires Wf(t)
    ensures Wf(Settle(t, other))
    decreases t
  {
    match t
    case Tuple(xs) =>
      forall i | 0 <= i < |xs|
        ensures Wf(Settle(xs[i], other))
      {
        SettledWf(xs[i], other);
      }
    case Record(fs) =>
      forall i | 0 <= i < |fs|
        ensures Wf(Settle(fs[i].ty, other))
      {
        SettledWf(fs[i].ty, other);
      }
    case _ =>
  }

  lemma SelfFits(t: SizedType)
    requires Wf(t)
    ensures FitsInto(t, t)
  {
    CompareFlips(t, t);
    EqualFits(t, t);
  }

  lemma {:induction false} SettledFits(t: SizedType)
    requires Wf(t)
    ensures FitsInto(Settle(t, false), t)
    decreases t
  {
    match t
    case Integer(_, _, flexible, _) => if !flexible { SelfFits(t); }
    case Tuple(xs) =>
      forall i | 0 <= i < |xs|
        ensures FitsInto(Settle(xs[i], false), xs[i])
      {
        SettledFits(xs[i]);
      }
    case Record(fs) =>
      forall i | 0 <= i < |fs|
        ensures Lookup(fs, fs[i].name) == i && FitsInto(Settle(fs[i].ty, false), fs[i].ty)
      {
        LookupIs(fs, i);
        SettledFits(fs[i].ty);
      }
    case _ => SelfFits(t);
  }

  lemma {:induction false} FitsOther(t: SizedType)
    requires Wf(t)
    ensures FitsInto(t, Settle(t, true))
    decreases t
  {
    match t
    case Integer(_, _, flexible, _) => if !flexible { SelfFits(t); }
    case Tuple(xs) =>
      forall i | 0 <= i < |xs|
        ensures FitsInto(xs[i], Settle(xs[i], true))
      {
        FitsOther(xs[i]);
      }
    case Record(fs) =>
      var gs := Settle(t, true).fields;
      forall i | 0 <= i < |fs|
        ensures Lookup(gs, fs[i].name) == i && FitsInto(fs[i].ty, gs[i].ty)
      {
        LookupIs(gs, i);
        FitsOther(fs[i].ty);
      }
    case _ => SelfFits(t);
  }

  lemma {:induction false} SettledClash(t: SizedType)
    requires Wf(t) && !Steady(t)
    ensures !FitsInto(Settle(t, false), Settle(t, true))
    decreases t
  {
    match t
    case Integer(_, _, _, _) =>
    case Tuple(xs) =>
      var i :| 0 <= i < |xs| && !Steady(xs[i]);
      SettledClash(xs[i]);
      assert Settle(t, false).elems[i] == Settle(xs[i], false);
    case Record(fs) =>
      var i :| 0 <= i < |fs| && !Steady(fs[i].ty);
      SettledClash(fs[i].ty);
      LookupIs(Settle(t, true).fields, i);
      assert Settle(t, false).fields[i] == Field(fs[i].name, Settle(fs[i].ty, false));
  }

  /** Fitting chains through `b` exactly when `b` holds no sign-flexible integer. */
  lemma TransitiveThroughIff(b: SizedType)
    requires Wf(b)
    ensures Steady(b) <==>
      forall a, c :: Wf(a) && Wf(c) && FitsInto(a, b) && FitsInto(b, c) ==> FitsInto(a, c)
  {
    if Steady(b) {
      forall a, c | Wf(a) && Wf(c) && FitsInto(a, b) && FitsInto(b, c)
        ensures FitsInto(a, c)
      {
        FitsTransitive(a, b, c);
      }
    } else {
      SettledWf(b, false);
      SettledWf(b, true);
      SettledFits(b);
      FitsOther(b);
      SettledClash(b);
    }
  }
}
