/** The loops over the fields of tuples and records that compare, test and promote types. */
module TypeLoops {
  import opened Types
  import opened TypeLayout
  import opened TypeFit
  import opened Promotion

  method FindField(fs: seq<Field>, name: string) returns (i: nat)
    ensures i == Lookup(fs, name)
  {
    i := 0;
    while i < |fs| && fs[i].name != name
      invariant i <= |fs| && forall j :: 0 <= j < i ==> fs[j].name != name
    {
      i := i + 1;
    }
  }

  method CompareTypes(a: SizedType, b: SizedType) returns (o: Ordering)
    ensures o == Compare(a, b)
    decreases a
  {
    o := CompareNat(Rank(a), Rank(b));
    if o != Equal {
      return;
    }
    match a {
      case Pointer(x) => o := CompareTypes(x, b.pointee);
      case Array(n, x) =>
        o := CompareNat(n, b.count);
        if o == Equal {
          o := CompareTypes(x, b.element);
        }
      case Tuple(xs) => o := CompareTuples(a, b);
      case Record(fs) => o := CompareRecords(a, b);
      case CType(name, size) =>
        o := CompareText(name, b.name);
        if o == Equal {
          o := CompareNat(size, b.size);
        }
      case Integer(_, _, _, _) => o := CompareIntegers(a, b);
      case Stack(_, limit, mode, kernel, size, signed) =>
        o := CompareNat(limit, b.limit);
        if o == Equal {
          o := CompareNat(mode, b.mode);
        }
        if o == Equal {
          o := CompareBool(kernel, b.kernel);
        }
        if o == Equal {
          o := CompareNat(size, b.size);
        }
        if o == Equal {
          o := CompareBool(signed, b.signed);
        }
      case Plain(_, size, signed) =>
        o := CompareNat(size, b.size);
        if o == Equal {
          o := CompareBool(signed, b.signed);
        }
    }
  }

  /** Enumerations by name and size, plain integers by size and sign. */
  method CompareIntegers(a: SizedType, b: SizedType) returns (o: Ordering)
    requires a.Integer? && b.Integer?
    ensures o == CompareSame(a, b)
  {
    if |a.name| > 0 || |b.name| > 0 {
      o := CompareText(a.name, b.name);
      if o == Equal {
        o := CompareNat(a.size, b.size);
      }
    } else {
      o := CompareNat(a.size, b.size);
      if o == Equal {
        o := CompareBool(a.signed, b.signed);
      }
    }
  }

  method CompareTuples(a: SizedType, b: SizedType) returns (o: Ordering)
    requires a.Tuple? && b.Tuple?
    ensures o == CompareSame(a, b)
    decreases a, 0
  {
    hide Compare;
    o := CompareNat(|a.elems|, |b.elems|);
    if o != Equal {
      return;
    }
    for i := 0 to |a.elems|
      invariant CompareElems(a, b, i) == CompareElems(a, b, 0)
    {
      o := CompareTypes(a.elems[i], b.elems[i]);
      if o != Equal {
        return;
      }
    }
    o := Equal;
  }

  method CompareRecords(a: SizedType, b: SizedType) returns (o: Ordering)
    requires a.Record? && b.Record?
    ensures o == CompareSame(a, b)
    decreases a, 0
  {
    hide Compare, CompareText;
    o := CompareNat(|a.fields|, |b.fields|);
    if o != Equal {
      return;
    }
    for i := 0 to |a.fields|
      invariant CompareFields(a, b, i) == CompareFields(a, b, 0)
    {
      o := CompareText(a.fields[i].name, b.fields[i].name);
      if o != Equal {
        return;
      }
      o := CompareTypes(a.fields[i].ty, b.fields[i].ty);
      if o != Equal {
        return;
      }
    }
    o := Equal;
  }

  method IsCompatible(a: SizedType, b: SizedType) returns (ok: bool)
    ensures ok == Compatible(a, b)
    decreases a
  {
    if Rank(a) != Rank(b) {
      return false;
    }
    match a {
      case Pointer(x) => ok := IsCompatible(x, b.pointee);
      case Tuple(xs) =>
        if |xs| != |b.elems| {
          return false;
        }
        for i := 0 to |xs|
          invariant forall j :: 0 <= j < i ==> Compatible(xs[j], b.elems[j])
        {
          ok := IsCompatible(xs[i], b.elems[i]);
          if !ok {
            return;
          }
        }
        ok := true;
      case Record(fs) => ok := CompatibleRecords(a, b);
      case CType(name, _) => ok := name == b.name;
      case Stack(_, limit, mode, kernel, _, _) => ok := limit == b.limit && mode == b.mode && kernel == b.kernel;
      case Array(_, x) =>
        var o := CompareTypes(x, b.element);
        var m, n := ByteSize(a), ByteSize(b);
        ok := o == Equal && (m == 0 || n == 0 || m == n);
      case _ => ok := true;
    }
  }

  method CompatibleRecords(a: SizedType, b: SizedType) returns (ok: bool)
    requires a.Record? && b.Record?
    ensures ok == Compatible(a, b)
    decreases a, 0
  {
    var fs, gs := a.fields, b.fields;
    if |fs| != |gs| {
      return false;
    }
    for i := 0 to |fs|
      invariant forall k :: 0 <= k < i ==>
        var j := Lookup(gs, fs[k].name); j < |gs| && Compatible(fs[k].ty, gs[j].ty)
    {
      var j := FindField(gs, fs[i].name);
      if j == |gs| {
        return false;
      }
      ok := IsCompatible(fs[i].ty, gs[j].ty);
      if !ok {
        return;
      }
    }
    ok := true;
  }

  method Fits(a: SizedType, b: SizedType) returns (ok: bool)
    ensures ok == FitsInto(a, b)
    decreases a
  {
    ok := IsCompatible(a, b);
    if !ok {
      return;
    }
    match a {
      case Tuple(xs) =>
        for i := 0 to |xs|
          invariant forall j :: 0 <= j < i ==> FitsInto(xs[j], b.elems[j])
        {
          ok := Fits(xs[i], b.elems[i]);
          if !ok {
            return;
          }
        }
        ok := true;
      case Record(fs) => ok := FittingRecords(a, b);
      case Integer(size, signed, flexible, _) =>
        if signed == b.signed || flexible {
          ok := size <= b.size;
        } else {
          ok := !signed && size < b.size;
        }
      case Plain(tag, size, _) =>
        if tag == STRING {
          ok := size <= b.size;
        } else {
          var o := CompareTypes(a, b);
          ok := o == Equal;
        }
      case _ =>
        var o := CompareTypes(a, b);
        ok := o == Equal;
    }
  }

  method FittingRecords(a: SizedType, b: SizedType) returns (ok: bool)
    requires a.Record? && Compatible(a, b)
    ensures ok == FitsInto(a, b)
    decreases a, 0
  {
    hide Compare;
    var fs, gs := a.fields, b.fields;
    for i := 0 to |fs|
      invariant forall k :: 0 <= k < i ==> FitsInto(fs[k].ty, gs[Lookup(gs, fs[k].name)].ty)
    {
      var j := FindField(gs, fs[i].name);
      ok := Fits(fs[i].ty, gs[j].ty);
      if !ok {
        return;
      }
    }
    ok := true;
  }

  method Promoted(a: SizedType, b: SizedType) returns (p: SizedType)
    requires Compatible(a, b)
    ensures p == PromoteElement(a, b)
    decreases a
  {
    match a {
      case Tuple(xs) =>
        var ps := [];
        for i := 0 to |xs|
          invariant |ps| == i && forall j :: 0 <= j < i ==> ps[j] == PromoteElement(xs[j], b.elems[j])
        {
          var q := Promoted(xs[i], b.elems[i]);
          ps := ps + [q];
        }
        p := Tuple(ps);
      case Record(fs) => p := PromotedRecord(a, b);
      case Pointer(x) =>
        var q := Promoted(x, b.pointee);
        p := Pointer(q);
      case Integer(_, _, _, _) => p := PromoteInt(a, b);
      case Plain(tag, size, signed) =>
        if IsCastable(a) {
          p := if signed != b.signed && b.signed then b else a;
        } else if tag == STRING {
          p := Plain(tag, if size < b.size then b.size else size, signed);
        } else {
          p := a;
        }
      case _ => p := a;
    }
  }

  method PromotedRecord(a: SizedType, b: SizedType) returns (p: SizedType)
    requires a.Record? && Compatible(a, b)
    ensures p == PromoteElement(a, b)
    decreases a, 0
  {
    var fs, gs, ps := a.fields, b.fields, [];
    for i := 0 to |fs|
      invariant |ps| == i
      invariant forall k :: 0 <= k < i ==>
        ps[k] == Field(fs[k].name, PromoteElement(fs[k].ty, gs[Lookup(gs, fs[k].name)].ty))
    {
      var j := FindField(gs, fs[i].name);
      var q := Promoted(fs[i].ty, gs[j].ty);
      ps := ps + [Field(fs[i].name, q)];
    }
    p := Record(ps);
  }
}
