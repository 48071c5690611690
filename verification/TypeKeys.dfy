/** The order of types from outside: every type has a key, a sequence of numbers, and types compare as their
    keys do in dictionary order. */
module TypeKeys {
  import opened Types
  import opened Lexicographic

  // ---------- kinds by name ----------

  /** The enumerators of `Type`, in the order in which they are declared. */
  const KINDS: seq<string> := [
    "none", "voidtype", "integer", "boolean", "pointer", "c_type", "hist_t", "lhist_t", "tseries_t", "count_t",
    "sum_t", "min_t", "max_t", "avg_t", "stats_t", "kstack_t", "ustack_t", "string", "ksym_t", "usym_t",
    "username_t", "inet", "array", "buffer", "tuple", "record", "timestamp", "mac_address", "cgroup_path_t",
    "timestamp_mode"
  ]

  /** Kinds whose types carry more than a size and a sign. */
  const SPECIAL: seq<string> := ["integer", "pointer", "c_type", "kstack_t", "ustack_t", "array", "tuple", "record"]

  function KindOf(t: SizedType): string {
    match t
    case Plain(tag, _, _) => KINDS[tag]
    case Integer(_, _, _, _) => "integer"
    case Pointer(_) => "pointer"
    case CType(_, _) => "c_type"
    case Stack(user, _, _, _, _, _) => if user then "ustack_t" else "kstack_t"
    case Array(_, _) => "array"
    case Tuple(_) => "tuple"
    case Record(_) => "record"
  }

  /** Types are ranked by the places of their kinds. */
  lemma RankIsPlace(t: SizedType)
    ensures Rank(t) < |KINDS| && KINDS[Rank(t)] == KindOf(t)
  {
    assert |KINDS| == 30;
  }

  lemma PlainIsNotSpecial(n: nat)
    requires n < |KINDS|
    ensures IsPlain(n) <==> KINDS[n] !in SPECIAL
    ensures n == STRING ==> KINDS[n] == "string"
    ensures n == NONE ==> KINDS[n] == "none"
  {
    assert |KINDS| == 30;
    if IsPlain(n) {
      assert forall k :: 0 <= k < |SPECIAL| ==>
        |SPECIAL[k]| != |KINDS[n]| || SPECIAL[k][0] != KINDS[n][0] || SPECIAL[k][1] != KINDS[n][1];
    }
  }

  // ---------- keys ----------

  function TextKey(s: string): seq<int> {
    seq(|s|, i requires 0 <= i < |s| => s[i] as int + 1) + [0]
  }

  function Flag(b: bool): int {
    if b then 1 else 0
  }

  /** The kind first, then what types of that kind are told apart by. Integers are told apart by the name of
      their enumeration and their size, plain ones also by their sign; whether a sign is flexible does not
      count. */
  function Key(t: SizedType): seq<int>
    decreases t, 2, 0
  {
    [Rank(t)] + Traits(t)
  }

  function Traits(t: SizedType): seq<int>
    decreases t, 1, 0
  {
    match t
    case Plain(_, size, signed) => [size] + [Flag(signed)]
    case Integer(size, signed, _, name) => TextKey(name) + ([size] + if name == "" then [Flag(signed)] else [])
    case Pointer(x) => Key(x)
    case CType(name, size) => TextKey(name) + [size]
    case Stack(_, limit, mode, kernel, size, signed) =>
      ([limit] + ([mode] + [Flag(kernel)])) + ([size] + [Flag(signed)])
    case Array(count, x) => [count] + Key(x)
    case Tuple(xs) => [|xs|] + ElemKeys(t, 0)
    case Record(fs) => [|fs|] + FieldKeys(t, 0)
  }

  function ElemKeys(t: SizedType, i: nat): seq<int>
    requires t.Tuple? && i <= |t.elems|
    decreases t, 0, |t.elems| - i
  {
    if i == |t.elems| then [] else Key(t.elems[i]) + ElemKeys(t, i + 1)
  }

  function FieldKeys(t: SizedType, i: nat): seq<int>
    requires t.Record? && i <= |t.fields|
    decreases t, 0, |t.fields| - i
  {
    if i == |t.fields| then []
    else (TextKey(t.fields[i].name) + Key(t.fields[i].ty)) + FieldKeys(t, i + 1)
  }

  // ---------- comparing keys ----------

  /** The keys are in this order. */
  ghost predicate Ordered(s: seq<int>, t: seq<int>, o: Ordering) {
    match o
    case Less => Below(s, t)
    case Equal => s == t
    case Greater => Below(t, s)
  }

  lemma OrderedThen(s: seq<int>, t: seq<int>, o: Ordering, u: seq<int>, v: seq<int>, rest: Ordering)
    requires Ordered(s, t, o) && (o == Equal ==> Ordered(u, v, rest))
    ensures Ordered(s + u, t + v, Then(o, rest))
  {
    match (o, rest)
    case (Less, _) => BelowLonger(s, t, u, v);
    case (Greater, _) => BelowLonger(t, s, v, u);
    case (Equal, Less) => BelowBehind(s, u, v);
    case (Equal, Greater) => BelowBehind(s, v, u);
    case (Equal, Equal) =>
  }

  lemma OrderedNat(a: nat, b: nat)
    ensures Ordered([a], [b], CompareNat(a, b))
  {
    assert a < b ==> BelowAt([a], [b], 0);
    assert b < a ==> BelowAt([b], [a], 0);
  }

  lemma OrderedFlag(a: bool, b: bool)
    ensures Ordered([Flag(a)], [Flag(b)], CompareBool(a, b))
  {
    OrderedNat(Flag(a), Flag(b));
  }

  lemma TextKeyNext(s: string)
    requires |s| > 0
    ensures TextKey(s) == [s[0] as int + 1] + TextKey(s[1..])
  {
  }

  lemma {:induction false} OrderedText(s: string, t: string)
    ensures Ordered(TextKey(s), TextKey(t), CompareText(s, t))
    decreases |s|
  {
    hide TextKey;
    if |s| > 0 && |t| > 0 {
      OrderedText(s[1..], t[1..]);
      TextKeyNext(s);
      TextKeyNext(t);
      OrderedNat(s[0] as nat + 1, t[0] as nat + 1);
      OrderedThen([s[0] as int + 1], [t[0] as int + 1], CompareNat(s[0] as nat, t[0] as nat),
                  TextKey(s[1..]), TextKey(t[1..]), CompareText(s[1..], t[1..]));
    } else {
      TextEnds(s, t);
    }
  }

  lemma TextEnds(s: string, t: string)
    requires |s| == 0 || |t| == 0
    ensures Ordered(TextKey(s), TextKey(t), CompareText(s, t))
  {
    if |s| > 0 {
      assert BelowAt(TextKey(t), TextKey(s), 0);
    } else if |t| > 0 {
      assert BelowAt(TextKey(s), TextKey(t), 0);
    }
  }

  lemma TextKeyEmpty(s: string, t: string)
    requires TextKey(s) == TextKey(t)
    ensures s == t
  {
    assert |s| == |t|;
    forall i | 0 <= i < |s|
      ensures s[i] == t[i]
    {
      assert TextKey(s)[i] == s[i] as int + 1 && TextKey(t)[i] == t[i] as int + 1;
    }
  }

  lemma {:induction false} KeysOrdered(a: SizedType, b: SizedType)
    ensures Ordered(Key(a), Key(b), Compare(a, b))
    decreases a, 2, 0
  {
    hide Traits, CompareSame, Ordered;
    OrderedNat(Rank(a), Rank(b));
    if Rank(a) == Rank(b) {
      TraitsOrdered(a, b);
    }
    OrderedThen([Rank(a)], [Rank(b)], CompareNat(Rank(a), Rank(b)), Traits(a), Traits(b), CompareSame(a, b));
  }

  lemma {:induction false} TraitsOrdered(a: SizedType, b: SizedType)
    requires Rank(a) == Rank(b)
    ensures Ordered(Traits(a), Traits(b), CompareSame(a, b))
    decreases a, 1, 0
  {
    hide Key, Compare, TextKey, CompareText, Ordered, CompareNat, CompareBool;
    match a
    case Plain(_, size, signed) => SizeAndSign(size, signed, b.size, b.signed);
    case Integer(_, _, _, _) => IntegersOrdered(a, b);
    case Pointer(x) => KeysOrdered(x, b.pointee);
    case CType(name, size) =>
      OrderedText(name, b.name);
      OrderedNat(size, b.size);
      OrderedThen(TextKey(name), TextKey(b.name), CompareText(name, b.name), [size], [b.size], CompareNat(size, b.size));
    case Stack(_, l, m, k, size, signed) =>
      StacksOrdered(l, m, k, b.limit, b.mode, b.kernel);
      SizeAndSign(size, signed, b.size, b.signed);
      OrderedThen([l] + ([m] + [Flag(k)]), [b.limit] + ([b.mode] + [Flag(b.kernel)]),
                  CompareStack(l, m, k, b.limit, b.mode, b.kernel),
                  [size] + [Flag(signed)], [b.size] + [Flag(b.signed)],
                  Then(CompareNat(size, b.size), CompareBool(signed, b.signed)));
    case Array(n, x) =>
      OrderedNat(n, b.count);
      KeysOrdered(x, b.element);
      OrderedThen([n], [b.count], CompareNat(n, b.count), Key(x), Key(b.element), Compare(x, b.element));
    case Tuple(xs) => TuplesOrdered(a, b);
    case Record(fs) => RecordsOrdered(a, b);
  }

  lemma SizeAndSign(n: nat, x: bool, m: nat, y: bool)
    ensures Ordered([n] + [Flag(x)], [m] + [Flag(y)], Then(CompareNat(n, m), CompareBool(x, y)))
  {
    hide Ordered, CompareNat, CompareBool, Flag;
    OrderedNat(n, m);
    OrderedFlag(x, y);
    OrderedThen([n], [m], CompareNat(n, m), [Flag(x)], [Flag(y)], CompareBool(x, y));
  }

  lemma StacksOrdered(l: nat, m: nat, k: bool, l': nat, m': nat, k': bool)
    ensures Ordered([l] + ([m] + [Flag(k)]), [l'] + ([m'] + [Flag(k')]), CompareStack(l, m, k, l', m', k'))
  {
    hide Ordered, CompareNat, CompareBool, Flag;
    SizeAndSign(m, k, m', k');
    OrderedNat(l, l');
    OrderedThen([l], [l'], CompareNat(l, l'), [m] + [Flag(k)], [m'] + [Flag(k')],
                Then(CompareNat(m, m'), CompareBool(k, k')));
  }

  lemma IntegersOrdered(a: SizedType, b: SizedType)
    requires a.Integer? && b.Integer?
    ensures Ordered(Traits(a), Traits(b), CompareSame(a, b))
  {
    hide Ordered, CompareNat, CompareBool, TextKey, CompareText;
    OrderedText(a.name, b.name);
    SizeAndSign(a.size, a.signed, b.size, b.signed);
    OrderedNat(a.size, b.size);
    var o := CompareText(a.name, b.name);
    SameText(a.name, b.name);
    if a.name == "" && b.name == "" {
      OrderedThen(TextKey(a.name), TextKey(b.name), o, [a.size] + [Flag(a.signed)], [b.size] + [Flag(b.signed)],
                  Then(CompareNat(a.size, b.size), CompareBool(a.signed, b.signed)));
    } else {
      var u, v := [a.size] + (if a.name == "" then [Flag(a.signed)] else []),
                  [b.size] + (if b.name == "" then [Flag(b.signed)] else []);
      assert a.name == b.name ==> u == [a.size] && v == [b.size];
      OrderedThen(TextKey(a.name), TextKey(b.name), o, u, v, CompareNat(a.size, b.size));
    }
  }

  /** Comparison finds only the same text equal. */
  lemma SameText(s: string, t: string)
    ensures CompareText(s, t) == Equal <==> s == t
  {
    hide TextKey, CompareText;
    OrderedText(s, t);
    BelowOneWay(TextKey(s), TextKey(t));
    BelowOneWay(TextKey(t), TextKey(s));
    if TextKey(s) == TextKey(t) {
      TextKeyEmpty(s, t);
    }
  }

  lemma {:induction false} TuplesOrdered(a: SizedType, b: SizedType)
    requires a.Tuple? && b.Tuple?
    ensures Ordered(Traits(a), Traits(b), CompareSame(a, b))
    decreases a, 0, |a.elems| + 1
  {
    hide Ordered, Key, Compare, ElemKeys, CompareElems;
    var n, m := |a.elems|, |b.elems|;
    OrderedNat(n, m);
    if n == m {
      ElemsOrdered(a, b, 0);
      OrderedThen([n], [m], CompareNat(n, m), ElemKeys(a, 0), ElemKeys(b, 0), CompareElems(a, b, 0));
    } else {
      OrderedThen([n], [m], CompareNat(n, m), ElemKeys(a, 0), ElemKeys(b, 0), Equal);
    }
  }

  lemma {:induction false} ElemsOrdered(a: SizedType, b: SizedType, i: nat)
    requires a.Tuple? && b.Tuple? && |a.elems| == |b.elems| && i <= |a.elems|
    ensures Ordered(ElemKeys(a, i), ElemKeys(b, i), CompareElems(a, b, i))
    decreases a, 0, |a.elems| - i
  {
    hide Key, Compare;
    if i < |a.elems| {
      KeysOrdered(a.elems[i], b.elems[i]);
      ElemsOrdered(a, b, i + 1);
      hide Ordered;
      OrderedThen(Key(a.elems[i]), Key(b.elems[i]), Compare(a.elems[i], b.elems[i]),
                  ElemKeys(a, i + 1), ElemKeys(b, i + 1), CompareElems(a, b, i + 1));
    }
  }

  lemma {:induction false} RecordsOrdered(a: SizedType, b: SizedType)
    requires a.Record? && b.Record?
    ensures Ordered(Traits(a), Traits(b), CompareSame(a, b))
    decreases a, 0, |a.fields| + 1
  {
    hide Ordered, Key, Compare, FieldKeys, CompareFields;
    var n, m := |a.fields|, |b.fields|;
    OrderedNat(n, m);
    if n == m {
      FieldsOrdered(a, b, 0);
      OrderedThen([n], [m], CompareNat(n, m), FieldKeys(a, 0), FieldKeys(b, 0), CompareFields(a, b, 0));
    } else {
      OrderedThen([n], [m], CompareNat(n, m), FieldKeys(a, 0), FieldKeys(b, 0), Equal);
    }
  }

  lemma {:induction false} FieldsOrdered(a: SizedType, b: SizedType, i: nat)
    requires a.Record? && b.Record? && |a.fields| == |b.fields| && i <= |a.fields|
    ensures Ordered(FieldKeys(a, i), FieldKeys(b, i), CompareFields(a, b, i))
    decreases a, 0, |a.fields| - i
  {
    hide Key, Compare, TextKey, CompareText;
    if i < |a.fields| {
      var f, g := a.fields[i], b.fields[i];
      OrderedText(f.name, g.name);
      KeysOrdered(f.ty, g.ty);
      FieldsOrdered(a, b, i + 1);
      hide Ordered;
      OrderedThen(TextKey(f.name), TextKey(g.name), CompareText(f.name, g.name), Key(f.ty), Key(g.ty), Compare(f.ty, g.ty));
      OrderedThen(TextKey(f.name) + Key(f.ty), TextKey(g.name) + Key(g.ty),
                  Then(CompareText(f.name, g.name), Compare(f.ty, g.ty)),
                  FieldKeys(a, i + 1), FieldKeys(b, i + 1), CompareFields(a, b, i + 1));
    }
  }

  /** Types compare as their keys do: equal if and only if these are the same, and below or above by the first
      number in which they differ. */
  lemma ComparesByKey(a: SizedType, b: SizedType)
    ensures Compare(a, b) == Equal <==> Key(a) == Key(b)
    ensures Compare(a, b) == Less <==> Below(Key(a), Key(b))
    ensures Compare(a, b) == Greater <==> Below(Key(b), Key(a))
  {
    hide Compare, Key;
    KeysOrdered(a, b);
    BelowOneWay(Key(a), Key(b));
    BelowOneWay(Key(b), Key(a));
  }
}
