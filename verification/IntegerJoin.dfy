/** Promotion is a join among the integers that are sign-flexible, and among those that are not, so
    the order of promotions within either kind does not matter; between the two kinds it may. */
module IntegerJoin {
  import opened Options
  import opened Types
  import opened TypeFit
  import opened Promotion

  predicate Unnamed(t: SizedType) {
    t.Integer? && IntSize(t.size) && |t.name| == 0
  }

  /** Integers of one kind: all of them flexible, or none. */
  predicate Proper(t: SizedType, flexible: bool) {
    Unnamed(t) && t.flexible == flexible
  }

  /** The order behind the join. Without flexible signs: fitting, and unsigned 64 bits below signed 64
      bits, to which mixed signs are promoted at the largest size. With flexible signs: by size, and
      signed below unsigned. */
  predicate Below(a: SizedType, b: SizedType)
    requires Unnamed(a) && Unnamed(b)
  {
    if a.flexible then a.size <= b.size && (b.signed ==> a.signed)
    else IntegerFits(a, b) || (!a.signed && b.signed && a.size == b.size == 8)
  }

  function Join(a: SizedType, b: SizedType): (j: SizedType)
    requires Unnamed(a) && Unnamed(b) && a.flexible == b.flexible
    ensures Proper(j, a.flexible)
  {
    PromoteInt(a, b)
  }

  /** `Join` is what promotion computes. */
  lemma JoinIsPromotion(f: bool, a: SizedType, b: SizedType)
    requires Proper(a, f) && Proper(b, f)
    ensures PromoteType(a, b) == Some(Join(a, b))
  {
    assert a.name == b.name == "";
    assert CompareSame(a, b) == Then(CompareNat(a.size, b.size), CompareBool(a.signed, b.signed));
  }

  lemma BelowIsOrder(f: bool, a: SizedType, b: SizedType, c: SizedType)
    requires Proper(a, f) && Proper(b, f) && Proper(c, f)
    ensures Below(a, a)
    ensures Below(a, b) && Below(b, a) ==> a == b
    ensures Below(a, b) && Below(b, c) ==> Below(a, c)
  {
    assert a.name == b.name == "";
  }

  /** The promoted type is the least one above both. */
  lemma JoinIsLeast(f: bool, a: SizedType, b: SizedType, u: SizedType)
    requires Proper(a, f) && Proper(b, f) && Proper(u, f)
    ensures Below(a, Join(a, b)) && Below(b, Join(a, b))
    ensures Below(a, u) && Below(b, u) <==> Below(Join(a, b), u)
  {
  }

  lemma JoinCommutes(f: bool, a: SizedType, b: SizedType)
    requires Proper(a, f) && Proper(b, f)
    ensures Join(a, b) == Join(b, a)
    ensures Join(a, a) == a
  {
    assert a.name == "";
  }

  lemma JoinAssociates(f: bool, a: SizedType, b: SizedType, c: SizedType)
    requires Proper(a, f) && Proper(b, f) && Proper(c, f)
    ensures Join(Join(a, b), c) == Join(a, Join(b, c))
  {
    hide Join, Below;
    var l, r := Join(Join(a, b), c), Join(a, Join(b, c));
    JoinIsLeast(f, Join(a, b), c, r);
    JoinIsLeast(f, a, b, r);
    JoinIsLeast(f, a, Join(b, c), r);
    JoinIsLeast(f, b, c, r);
    JoinIsLeast(f, a, Join(b, c), l);
    JoinIsLeast(f, b, c, l);
    JoinIsLeast(f, Join(a, b), c, l);
    JoinIsLeast(f, a, b, l);
    BelowIsOrder(f, l, r, l);
    BelowIsOrder(f, r, l, r);
  }

  // ---------- many promotions ----------

  ghost predicate AllProper(xs: seq<SizedType>, f: bool) {
    forall i :: 0 <= i < |xs| ==> Proper(xs[i], f)
  }

  /** Promoting the types of a list one after the other. */
  function Fold(f: bool, first: SizedType, xs: seq<SizedType>): (j: SizedType)
    requires Proper(first, f) && AllProper(xs, f)
    ensures Proper(j, f)
    decreases |xs|
  {
    if |xs| == 0 then first else Fold(f, Join(first, xs[0]), xs[1..])
  }

  ghost predicate AllBelow(f: bool, first: SizedType, xs: seq<SizedType>, u: SizedType)
    requires Proper(first, f) && AllProper(xs, f) && Proper(u, f)
  {
    Below(first, u) && forall i :: 0 <= i < |xs| ==> Below(xs[i], u)
  }

  lemma {:induction false} FoldIsLeast(f: bool, first: SizedType, xs: seq<SizedType>, u: SizedType)
    requires Proper(first, f) && AllProper(xs, f) && Proper(u, f)
    ensures AllBelow(f, first, xs, u) <==> Below(Fold(f, first, xs), u)
    decreases |xs|
  {
    if |xs| > 0 {
      FoldIsLeast(f, Join(first, xs[0]), xs[1..], u);
      JoinIsLeast(f, first, xs[0], u);
      HeadTail(f, first, xs, u);
    }
  }

  lemma HeadTail(f: bool, first: SizedType, xs: seq<SizedType>, u: SizedType)
    requires |xs| > 0 && Proper(first, f) && AllProper(xs, f) && Proper(u, f)
    ensures AllBelow(f, first, xs, u) <==> Below(first, u) && AllBelow(f, xs[0], xs[1..], u)
  {
    if Below(first, u) && AllBelow(f, xs[0], xs[1..], u) {
      forall i | 0 <= i < |xs|
        ensures Below(xs[i], u)
      {
        assert i > 0 ==> xs[i] == xs[1..][i - 1];
      }
    }
  }

  ghost function Elements(first: SizedType, xs: seq<SizedType>): set<SizedType> {
    {first} + set x | x in xs
  }

  lemma BelowByElements(f: bool, first: SizedType, xs: seq<SizedType>, u: SizedType)
    requires Proper(first, f) && AllProper(xs, f) && Proper(u, f)
    ensures AllBelow(f, first, xs, u) <==> forall x :: x in Elements(first, xs) ==> Proper(x, f) && Below(x, u)
  {
    forall i | 0 <= i < |xs|
      ensures xs[i] in Elements(first, xs)
    {
    }
  }

  /** Any two lists of the same types, in whatever order and with whatever repetition, are promoted to
      the same type. */
  lemma FoldIgnoresOrder(f: bool, first: SizedType, xs: seq<SizedType>, other: SizedType, ys: seq<SizedType>)
    requires Proper(first, f) && AllProper(xs, f) && Proper(other, f) && AllProper(ys, f)
    requires Elements(first, xs) == Elements(other, ys)
    ensures Fold(f, first, xs) == Fold(f, other, ys)
  {
    var l, r := Fold(f, first, xs), Fold(f, other, ys);
    BelowIsOrder(f, l, r, l);
    BelowIsOrder(f, r, l, r);
    FoldIsLeast(f, first, xs, l);
    FoldIsLeast(f, other, ys, l);
    FoldIsLeast(f, first, xs, r);
    FoldIsLeast(f, other, ys, r);
    BelowByElements(f, first, xs, l);
    BelowByElements(f, other, ys, l);
    BelowByElements(f, first, xs, r);
    BelowByElements(f, other, ys, r);
  }

  /** For two integers the order matters in exactly one case: same size, same sign, and only one of
      them flexible. The later one then decides. */
  lemma PairCommutesIff(a: SizedType, b: SizedType)
    requires Unnamed(a) && Unnamed(b)
    ensures PromoteType(a, b) == PromoteType(b, a) <==>
            !(a.size == b.size && a.signed == b.signed && a.flexible != b.flexible)
  {
    PromoteUnnamed(a, b);
    PromoteUnnamed(b, a);
    assert a.name == b.name == "";
    hide PromoteType;
  }

  /** Of two integers that compare equal the later one is taken. */
  lemma PromoteUnnamed(a: SizedType, b: SizedType)
    requires Unnamed(a) && Unnamed(b)
    ensures PromoteType(a, b) == Some(if a.size == b.size && a.signed == b.signed then b else PromoteInt(a, b))
  {
    hide PromoteInt;
    assert CompareSame(a, b) == Then(CompareNat(a.size, b.size), CompareBool(a.signed, b.signed));
  }

  /** Over three integers of both kinds the size and sign can depend on the order too: a flexible
      16-bit integer promoted first or last. */
  lemma MixedOrderMatters()
    ensures var (f, u, i) := (Integer(2, false, true, ""), Integer(1, false, false, ""), Integer(1, true, false, ""));
      && PromoteType(f, u) == Some(Integer(2, false, false, ""))
      && PromoteType(Integer(2, false, false, ""), i) == Some(Integer(4, true, false, ""))
      && PromoteType(u, i) == Some(Integer(2, true, false, ""))
      && PromoteType(f, Integer(2, true, false, "")) == Some(Integer(2, true, false, ""))
  {
  }
}
