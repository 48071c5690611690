/** The types of script values and the three-way comparison of them. */
module Types {

  /** The enumerators of `Type` that carry nothing but a size and a sign, by their position. */
  type PlainTag = n: nat | IsPlain(n)

  predicate IsPlain(n: nat) {
    n < 30 && n != 2 && n != 4 && n != 5 && n != 15 && n != 16 && n != 22 && n != 24 && n != 25
  }

  const NONE: nat := 0
  const STRING: nat := 17

  datatype SizedType =
    | Plain(tag: PlainTag, size: nat, signed: bool)
    | Integer(size: nat, signed: bool, flexible: bool, name: string)
    | Pointer(pointee: SizedType)
    | CType(name: string, size: nat)
    | Stack(user: bool, limit: nat, mode: nat, kernel: bool, size: nat, signed: bool)
    | Array(count: nat, element: SizedType)
    | Tuple(elems: seq<SizedType>)
    | Record(fields: seq<Field>)

  datatype Field = Field(name: string, ty: SizedType)

  /** The position in `Type`. */
  function Rank(t: SizedType): nat {
    match t
    case Plain(tag, _, _) => tag
    case Integer(_, _, _, _) => 2
    case Pointer(_) => 4
    case CType(_, _) => 5
    case Stack(user, _, _, _, _, _) => if user then 16 else 15
    case Array(_, _) => 22
    case Tuple(_) => 24
    case Record(_) => 25
  }

  // ---------- orderings ----------

  datatype Ordering = Less | Equal | Greater

  function Then(first: Ordering, second: Ordering): Ordering {
    if first != Equal then first else second
  }

  function CompareNat(a: nat, b: nat): Ordering {
    if a < b then Less else if a == b then Equal else Greater
  }

  function CompareBool(a: bool, b: bool): Ordering {
    if a == b then Equal else if b then Less else Greater
  }

  function CompareText(s: string, t: string): Ordering {
    if |s| == 0 then (if |t| == 0 then Equal else Less)
    else if |t| == 0 then Greater
    else Then(CompareNat(s[0] as nat, t[0] as nat), CompareText(s[1..], t[1..]))
  }

  function Compare(a: SizedType, b: SizedType): Ordering
    decreases a, 2, 0
  {
    Then(CompareNat(Rank(a), Rank(b)), CompareSame(a, b))
  }

  /** Comparison of types of one kind. */
  function CompareSame(a: SizedType, b: SizedType): Ordering
    decreases a, 1, 0
  {
    match (a, b)
    case (CType(n, s), CType(m, u)) => Then(CompareText(n, m), CompareNat(s, u))
    case (Integer(s, x, _, n), Integer(u, y, _, m)) =>
      if |n| > 0 || |m| > 0 then Then(CompareText(n, m), CompareNat(s, u))
      else Then(CompareNat(s, u), CompareBool(x, y))
    case (Pointer(x), Pointer(y)) => Compare(x, y)
    case (Array(n, x), Array(m, y)) => Then(CompareNat(n, m), Compare(x, y))
    case (Tuple(xs), Tuple(ys)) =>
      if |xs| == |ys| then CompareElems(a, b, 0) else CompareNat(|xs|, |ys|)
    case (Record(xs), Record(ys)) =>
      if |xs| == |ys| then CompareFields(a, b, 0) else CompareNat(|xs|, |ys|)
    case (Stack(_, l, o, k, s, x), Stack(_, m, p, h, u, y)) =>
      Then(CompareStack(l, o, k, m, p, h), Then(CompareNat(s, u), CompareBool(x, y)))
    case (Plain(_, s, x), Plain(_, u, y)) => Then(CompareNat(s, u), CompareBool(x, y))
    case _ => Equal
  }

  function CompareStack(l: nat, o: nat, k: bool, m: nat, p: nat, h: bool): Ordering {
    Then(CompareNat(l, m), Then(CompareNat(o, p), CompareBool(k, h)))
  }

  function CompareElems(a: SizedType, b: SizedType, i: nat): Ordering
    requires a.Tuple? && b.Tuple? && |a.elems| == |b.elems| && i <= |a.elems|
    decreases a, 0, |a.elems| - i
  {
    if i == |a.elems| then Equal else Then(Compare(a.elems[i], b.elems[i]), CompareElems(a, b, i + 1))
  }

  function CompareFields(a: SizedType, b: SizedType, i: nat): Ordering
    requires a.Record? && b.Record? && |a.fields| == |b.fields| && i <= |a.fields|
    decreases a, 0, |a.fields| - i
  {
    if i == |a.fields| then Equal
    else
      var f, g := a.fields[i], b.fields[i];
      Then(Then(CompareText(f.name, g.name), Compare(f.ty, g.ty)), CompareFields(a, b, i + 1))
  }
}
