/** The comparison of types is a total order, up to the equality it defines. */
module TypeOrder {
  import opened Types

  function Flip(o: Ordering): Ordering {
    match o
    case Less => Greater
    case Equal => Equal
    case Greater => Less
  }

  /** How the comparison of `a` with `c` follows from those of `a` with `b` and `b` with `c`. */
  predicate Chains(ab: Ordering, bc: Ordering, ac: Ordering) {
    (ab == Equal ==> ac == bc) && (bc == Equal ==> ac == ab) && (ab == bc ==> ac == ab)
  }

  // ---------- names ----------

  lemma {:induction false} TextFlips(s: string, t: string)
    ensures CompareText(t, s) == Flip(CompareText(s, t))
    ensures CompareText(s, t) == Equal <==> s == t
  {
    if |s| > 0 && |t| > 0 {
      TextFlips(s[1..], t[1..]);
      assert s == [s[0]] + s[1..] && t == [t[0]] + t[1..];
    }
  }

  lemma {:induction false} TextChains(s: string, t: string, u: string)
    ensures Chains(CompareText(s, t), CompareText(t, u), CompareText(s, u))
  {
    if |s| > 0 && |t| > 0 && |u| > 0 {
      TextChains(s[1..], t[1..], u[1..]);
    }
  }

  // ---------- antisymmetry ----------

  lemma {:induction false} CompareFlips(a: SizedType, b: SizedType)
    ensures Compare(b, a) == Flip(Compare(a, b))
    decreases a, 2, 0
  {
    hide CompareSame;
    if Rank(a) == Rank(b) {
      SameFlips(a, b);
    }
  }

  lemma {:induction false} SameFlips(a: SizedType, b: SizedType)
    requires Rank(a) == Rank(b)
    ensures CompareSame(b, a) == Flip(CompareSame(a, b))
    decreases a, 1, 0
  {
    hide Compare, CompareElems, CompareFields, CompareText;
    match a
    case CType(n, _) => TextFlips(n, b.name);
    case Integer(_, _, _, n) => TextFlips(n, b.name);
    case Pointer(x) => CompareFlips(x, b.pointee);
    case Array(_, x) => CompareFlips(x, b.element);
    case Tuple(xs) => if |xs| == |b.elems| { ElemsFlip(a, b, 0); }
    case Record(xs) => if |xs| == |b.fields| { FieldsFlip(a, b, 0); }
    case Stack(_, _, _, _, _, _) =>
    case Plain(_, _, _) =>
  }

  lemma {:induction false} ElemsFlip(a: SizedType, b: SizedType, i: nat)
    requires a.Tuple? && b.Tuple? && |a.elems| == |b.elems| && i <= |a.elems|
    ensures CompareElems(b, a, i) == Flip(CompareElems(a, b, i))
    decreases a, 0, |a.elems| - i
  {
    hide Compare;
    if i < |a.elems| {
      CompareFlips(a.elems[i], b.elems[i]);
      ElemsFlip(a, b, i + 1);
    }
  }

  lemma {:induction false} FieldsFlip(a: SizedType, b: SizedType, i: nat)
    requires a.Record? && b.Record? && |a.fields| == |b.fields| && i <= |a.fields|
    ensures CompareFields(b, a, i) == Flip(CompareFields(a, b, i))
    decreases a, 0, |a.fields| - i
  {
    hide Compare, CompareText;
    if i < |a.fields| {
      TextFlips(a.fields[i].name, b.fields[i].name);
      CompareFlips(a.fields[i].ty, b.fields[i].ty);
      FieldsFlip(a, b, i + 1);
    }
  }

  // ---------- transitivity ----------

  lemma {:induction false} CompareChains(a: SizedType, b: SizedType, c: SizedType)
    ensures Chains(Compare(a, b), Compare(b, c), Compare(a, c))
    decreases a, 2, 0
  {
    hide CompareSame;
    if Rank(a) == Rank(b) == Rank(c) {
      SameChains(a, b, c);
    }
  }

  lemma {:induction false} SameChains(a: SizedType, b: SizedType, c: SizedType)
    requires Rank(a) == Rank(b) == Rank(c)
    ensures Chains(CompareSame(a, b), CompareSame(b, c), CompareSame(a, c))
    decreases a, 1, 0
  {
    hide Compare, CompareElems, CompareFields, CompareText, CompareStack;
    match a
    case CType(n, _) => TextChains(n, b.name, c.name);
    case Integer(_, _, _, _) => IntegersChain(a, b, c);
    case Pointer(x) => CompareChains(x, b.pointee, c.pointee);
    case Array(_, x) => CompareChains(x, b.element, c.element);
    case Tuple(xs) => if |xs| == |b.elems| == |c.elems| { ElemsChain(a, b, c, 0); }
    case Record(xs) => if |xs| == |b.fields| == |c.fields| { FieldsChain(a, b, c, 0); }
    case Stack(_, l, o, k, _, _) => StackChains(l, o, k, b.limit, b.mode, b.kernel, c.limit, c.mode, c.kernel);
    case Plain(_, _, _) =>
  }

  lemma StackChains(l: nat, o: nat, k: bool, m: nat, p: nat, h: bool, n: nat, q: nat, g: bool)
    ensures Chains(CompareStack(l, o, k, m, p, h), CompareStack(m, p, h, n, q, g), CompareStack(l, o, k, n, q, g))
  {
  }

  /** Named integers compare by name first, the unnamed ones by sign last: all of them by one key. */
  lemma IntegersChain(a: SizedType, b: SizedType, c: SizedType)
    requires a.Integer? && b.Integer? && c.Integer?
    ensures Chains(CompareSame(a, b), CompareSame(b, c), CompareSame(a, c))
  {
    hide CompareText;
    TextChains(a.name, b.name, c.name);
    TextFlips(a.name, b.name);
    TextFlips(b.name, c.name);
    TextFlips(a.name, c.name);
    TextFlips("", a.name);
    TextFlips("", b.name);
    TextFlips("", c.name);
  }

  lemma {:induction false} ElemsChain(a: SizedType, b: SizedType, c: SizedType, i: nat)
    requires a.Tuple? && b.Tuple? && c.Tuple? && |a.elems| == |b.elems| == |c.elems| && i <= |a.elems|
    ensures Chains(CompareElems(a, b, i), CompareElems(b, c, i), CompareElems(a, c, i))
    decreases a, 0, |a.elems| - i
  {
    hide Compare;
    if i < |a.elems| {
      CompareChains(a.elems[i], b.elems[i], c.elems[i]);
      ElemsChain(a, b, c, i + 1);
    }
  }

  lemma {:induction false} FieldsChain(a: SizedType, b: SizedType, c: SizedType, i: nat)
    requires a.Record? && b.Record? && c.Record? && |a.fields| == |b.fields| == |c.fields| && i <= |a.fields|
    ensures Chains(CompareFields(a, b, i), CompareFields(b, c, i), CompareFields(a, c, i))
    decreases a, 0, |a.fields| - i
  {
    hide Compare, CompareText;
    if i < |a.fields| {
      TextChains(a.fields[i].name, b.fields[i].name, c.fields[i].name);
      CompareChains(a.fields[i].ty, b.fields[i].ty, c.fields[i].ty);
      FieldsChain(a, b, c, i + 1);
    }
  }

  // ---------- the order ----------

  ghost predicate AtMost(a: SizedType, b: SizedType) {
    Compare(a, b) != Greater
  }

  /** Reflexive, antisymmetric up to equality, transitive and total. */
  lemma TotalOrder(a: SizedType, b: SizedType, c: SizedType)
    ensures AtMost(a, a)
    ensures AtMost(a, b) && AtMost(b, a) <==> Compare(a, b) == Equal
    ensures AtMost(a, b) && AtMost(b, c) ==> AtMost(a, c)
    ensures AtMost(a, b) || AtMost(b, a)
  {
    hide Compare;
    CompareFlips(a, a);
    CompareFlips(a, b);
    CompareChains(a, b, c);
  }

  /** Equal types are interchangeable in comparisons. */
  lemma EqualCongruent(a: SizedType, b: SizedType, c: SizedType)
    requires Compare(a, b) == Equal
    ensures Compare(a, c) == Compare(b, c) && Compare(c, a) == Compare(c, b)
  {
    hide Compare;
    CompareChains(a, b, c);
    CompareChains(c, a, b);
  }
}
