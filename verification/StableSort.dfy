/** Stable sorting: what it means, that it determines the result, and how passes compose. */
module StableSort {

  type Order<!T> = (T, T) -> bool

  ghost predicate IsOrder<T(!new)>(le: Order<T>) {
    && (forall a, b :: le(a, b) || le(b, a))
    && (forall a, b, c :: le(a, b) && le(b, c) ==> le(a, c))
  }

  predicate Tied<T>(le: Order<T>, a: T, b: T) {
    le(a, b) && le(b, a)
  }

  /** The elements tied with `c`, in their order. */
  function Ties<T>(le: Order<T>, xs: seq<T>, c: T): seq<T> {
    if |xs| == 0 then []
    else if Tied(le, xs[0], c) then [xs[0]] + Ties(le, xs[1..], c)
    else Ties(le, xs[1..], c)
  }

  ghost predicate Sorted<T>(le: Order<T>, xs: seq<T>) {
    forall i, j :: 0 <= i < j < |xs| ==> le(xs[i], xs[j])
  }

  /** `ys` is `xs` sorted, with tied elements in the order they had. */
  ghost predicate StablySorted<T(!new)>(le: Order<T>, xs: seq<T>, ys: seq<T>) {
    && multiset(xs) == multiset(ys)
    && Sorted(le, ys)
    && forall c :: Ties(le, ys, c) == Ties(le, xs, c)
  }

  // ---------- the sort ----------

  function Insert<T>(le: Order<T>, e: T, ys: seq<T>): seq<T> {
    if |ys| == 0 || le(e, ys[0]) then [e] + ys else [ys[0]] + Insert(le, e, ys[1..])
  }

  function Sort<T>(le: Order<T>, xs: seq<T>): seq<T> {
    if |xs| == 0 then [] else Insert(le, xs[0], Sort(le, xs[1..]))
  }

  lemma HeadTail<T>(xs: seq<T>)
    requires |xs| > 0
    ensures xs == [xs[0]] + xs[1..] && multiset(xs) == multiset{xs[0]} + multiset(xs[1..])
  {
    assert xs == [xs[0]] + xs[1..];
  }

  lemma {:induction false} InsertAdds<T>(le: Order<T>, e: T, ys: seq<T>)
    ensures multiset(Insert(le, e, ys)) == multiset{e} + multiset(ys)
  {
    if |ys| == 0 || le(e, ys[0]) {
    } else {
      InsertAdds(le, e, ys[1..]);
      HeadTail(ys);
    }
  }

  lemma {:induction false} InsertSorts<T(!new)>(le: Order<T>, e: T, ys: seq<T>)
    requires IsOrder(le) && Sorted(le, ys)
    ensures Sorted(le, Insert(le, e, ys))
  {
    if |ys| == 0 || le(e, ys[0]) {
      forall j | 0 <= j < |ys|
        ensures le(e, ys[j])
      {
        assert j > 0 ==> le(ys[0], ys[j]);
      }
    } else {
      var r := Insert(le, e, ys[1..]);
      InsertSorts(le, e, ys[1..]);
      InsertAdds(le, e, ys[1..]);
      forall j | 0 <= j < |r|
        ensures le(ys[0], r[j])
      {
        assert r[j] in multiset(r);
        if r[j] != e {
          var k :| 0 <= k < |ys[1..]| && ys[1..][k] == r[j];
          assert le(ys[0], ys[k + 1]);
        }
      }
    }
  }

  lemma {:induction false} InsertTies<T(!new)>(le: Order<T>, e: T, ys: seq<T>, c: T)
    requires IsOrder(le) && Sorted(le, ys)
    ensures Ties(le, Insert(le, e, ys), c) == Ties(le, [e] + ys, c)
  {
    if |ys| == 0 || le(e, ys[0]) {
    } else {
      var y, rest := ys[0], ys[1..];
      InsertTies(le, e, rest, c);
      assert ([y] + Insert(le, e, rest))[1..] == Insert(le, e, rest);
      assert ([e] + ys)[1..] == ys && ([e] + rest)[1..] == rest;
      assert !(Tied(le, e, c) && Tied(le, y, c));
    }
  }

  /** The sort is stable. */
  lemma {:induction false} SortIsStable<T(!new)>(le: Order<T>, xs: seq<T>)
    requires IsOrder(le)
    ensures StablySorted(le, xs, Sort(le, xs))
  {
    if |xs| > 0 {
      var rest := Sort(le, xs[1..]);
      SortIsStable(le, xs[1..]);
      InsertAdds(le, xs[0], rest);
      InsertSorts(le, xs[0], rest);
      HeadTail(xs);
      forall c
        ensures Ties(le, Sort(le, xs), c) == Ties(le, xs, c)
      {
        InsertTies(le, xs[0], rest, c);
        assert ([xs[0]] + rest)[1..] == rest;
      }
    }
  }

  // ---------- only one result ----------

  lemma {:induction false} TieMember<T(!new)>(le: Order<T>, xs: seq<T>, c: T)
    requires IsOrder(le) && |Ties(le, xs, c)| > 0
    ensures exists i :: 0 <= i < |xs| && Tied(le, xs[i], c)
  {
    if Tied(le, xs[0], c) {
    } else {
      TieMember(le, xs[1..], c);
      var i :| 0 <= i < |xs[1..]| && Tied(le, xs[1..][i], c);
      assert xs[1..][i] == xs[i + 1];
    }
  }

  lemma FirstBelow<T(!new)>(le: Order<T>, ys: seq<T>, zs: seq<T>)
    requires IsOrder(le) && Sorted(le, ys) && |zs| > 0 && Ties(le, ys, zs[0]) == Ties(le, zs, zs[0])
    ensures |ys| > 0 && le(ys[0], zs[0])
  {
    TieMember(le, ys, zs[0]);
    var i :| 0 <= i < |ys| && Tied(le, ys[i], zs[0]);
    assert i > 0 ==> le(ys[0], ys[i]);
  }

  /** Two sorted sequences with the same ties in the same order are the same. */
  lemma {:induction false} SortedUnique<T(!new)>(le: Order<T>, ys: seq<T>, zs: seq<T>)
    requires IsOrder(le) && Sorted(le, ys) && Sorted(le, zs)
    requires forall c :: Ties(le, ys, c) == Ties(le, zs, c)
    ensures ys == zs
  {
    if |ys| > 0 || |zs| > 0 {
      if |zs| > 0 {
        FirstBelow(le, ys, zs);
      }
      if |ys| > 0 {
        FirstBelow(le, zs, ys);
      }
      assert Ties(le, ys, ys[0])[0] == ys[0] && Ties(le, zs, ys[0])[0] == zs[0];
      forall c
        ensures Ties(le, ys[1..], c) == Ties(le, zs[1..], c)
      {
        assert Ties(le, ys, c) == Ties(le, zs, c);
        assert Tied(le, ys[0], c) ==>
          Ties(le, ys[1..], c) == Ties(le, ys, c)[1..] && Ties(le, zs[1..], c) == Ties(le, zs, c)[1..];
      }
      SortedUnique(le, ys[1..], zs[1..]);
      HeadTail(ys);
      HeadTail(zs);
    }
  }

  /** A stable sort has exactly one result, whatever the algorithm. */
  lemma StableSortUnique<T(!new)>(le: Order<T>, xs: seq<T>, ys: seq<T>)
    requires IsOrder(le) && StablySorted(le, xs, ys)
    ensures ys == Sort(le, xs)
  {
    SortIsStable(le, xs);
    SortedUnique(le, ys, Sort(le, xs));
  }

  // ---------- one pass after another ----------

  /** By `first`, and where that ties, by `rest`. */
  function Lex<T>(first: Order<T>, rest: Order<T>): Order<T> {
    (a: T, b: T) => first(a, b) && (!first(b, a) || rest(a, b))
  }

  lemma LexIsOrder<T(!new)>(first: Order<T>, rest: Order<T>)
    requires IsOrder(first) && IsOrder(rest)
    ensures IsOrder(Lex(first, rest))
  {
  }

  lemma LexTied<T>(first: Order<T>, rest: Order<T>, a: T, b: T)
    ensures Tied(Lex(first, rest), a, b) <==> Tied(first, a, b) && Tied(rest, a, b)
  {
  }

  lemma {:induction false} LexTies<T>(first: Order<T>, rest: Order<T>, xs: seq<T>, c: T)
    ensures Ties(Lex(first, rest), xs, c) == Ties(first, Ties(rest, xs, c), c)
    ensures Ties(Lex(first, rest), xs, c) == Ties(rest, Ties(first, xs, c), c)
  {
    hide Lex;
    if |xs| > 0 {
      LexTies(first, rest, xs[1..], c);
      LexTied(first, rest, xs[0], c);
      TiesHead(first, xs[0], Ties(rest, xs[1..], c), c);
      TiesHead(rest, xs[0], Ties(first, xs[1..], c), c);
    }
  }

  lemma TiesHead<T>(le: Order<T>, x: T, xs: seq<T>, c: T)
    ensures Ties(le, [x] + xs, c) == (if Tied(le, x, c) then [x] + Ties(le, xs, c) else Ties(le, xs, c))
  {
    assert ([x] + xs)[1..] == xs;
  }

  lemma {:induction false} TiesSubset<T>(le: Order<T>, xs: seq<T>, c: T, t: T)
    requires t in Ties(le, xs, c)
    ensures t in xs && Tied(le, t, c)
  {
    if Tied(le, xs[0], c) && t == xs[0] {
    } else {
      TiesSubset(le, xs[1..], c, t);
    }
  }

  lemma {:induction false} TiesKeep<T>(le: Order<T>, xs: seq<T>, c: T, t: T)
    requires t in xs && Tied(le, t, c)
    ensures t in Ties(le, xs, c)
  {
    if t != xs[0] {
      HeadTail(xs);
      TiesKeep(le, xs[1..], c, t);
    }
  }

  lemma {:induction false} TiesSorted<T(!new)>(le: Order<T>, other: Order<T>, xs: seq<T>, c: T)
    requires Sorted(le, xs)
    ensures Sorted(le, Ties(other, xs, c))
  {
    if |xs| > 0 {
      var rest := Ties(other, xs[1..], c);
      TiesSorted(le, other, xs[1..], c);
      forall j | 0 <= j < |rest|
        ensures le(xs[0], rest[j])
      {
        TiesSubset(other, xs[1..], c, rest[j]);
        var k :| 0 <= k < |xs[1..]| && xs[1..][k] == rest[j];
        assert le(xs[0], xs[k + 1]);
      }
    }
  }

  /** Elements tied with `c` stand among its ties in the order they stand in the whole. */
  lemma {:induction false} TiesOrdered<T(!new)>(le: Order<T>, other: Order<T>, xs: seq<T>, c: T, i: nat, j: nat)
    requires i < j < |xs| && Tied(other, xs[i], c) && Tied(other, xs[j], c) && Sorted(le, Ties(other, xs, c))
    ensures le(xs[i], xs[j])
    decreases |xs|
  {
    var rest := Ties(other, xs[1..], c);
    if i == 0 {
      assert Ties(other, xs, c) == [xs[0]] + rest;
      assert xs[j] == xs[1..][j - 1];
      TiesKeep(other, xs[1..], c, xs[j]);
      var k :| 0 <= k < |rest| && rest[k] == xs[j];
      assert Ties(other, xs, c)[0] == xs[0] && Ties(other, xs, c)[k + 1] == xs[j];
    } else {
      assert Sorted(le, rest) by {
        assert forall k :: 0 <= k < |rest| ==>
          rest[k] == Ties(other, xs, c)[if Tied(other, xs[0], c) then k + 1 else k];
      }
      assert xs[i] == xs[1..][i - 1] && xs[j] == xs[1..][j - 1];
      TiesOrdered(le, other, xs[1..], c, i - 1, j - 1);
    }
  }

  /** Sorting by `first` what is stably sorted by `rest` sorts stably by both. */
  lemma PassComposes<T(!new)>(first: Order<T>, rest: Order<T>, xs: seq<T>, ys: seq<T>)
    requires IsOrder(first) && IsOrder(rest) && StablySorted(rest, xs, ys)
    ensures StablySorted(Lex(first, rest), xs, Sort(first, ys))
  {
    var zs := Sort(first, ys);
    SortIsStable(first, ys);
    forall i, j | 0 <= i < j < |zs|
      ensures Lex(first, rest)(zs[i], zs[j])
    {
      if first(zs[j], zs[i]) {
        TiesSorted(rest, first, ys, zs[i]);
        TiesOrdered(rest, first, zs, zs[i], i, j);
      }
    }
    forall c
      ensures Ties(Lex(first, rest), zs, c) == Ties(Lex(first, rest), xs, c)
    {
      LexTies(first, rest, zs, c);
      LexTies(first, rest, ys, c);
      LexTies(first, rest, xs, c);
    }
  }
}
