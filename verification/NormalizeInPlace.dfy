/** The rewrite as it runs: nodes that refer to each other are changed in place, and some are shared. */
module NormalizeInPlace {
  import opened Options
  import opened Normalize

  /** Nodes refer to others by number; a node is made after the nodes it refers to. */
  datatype Node =
    | OpNode(tag: nat, kids: seq<nat>)
    | BlockNode(stmts: seq<Link>, value: Option<nat>)
    | IfNode(cond: nat, left: nat, right: nat)

  datatype Link = RunLink(expr: nat) | OtherLink(tag: nat, expr: nat, leaves: bool)

  type Nodes = seq<Node>

  // ---------- references ----------

  /** The expression statements of a block, in order. */
  function Runs(stmts: seq<Link>): (r: seq<nat>)
    ensures forall k :: k in r ==> exists i :: 0 <= i < |stmts| && stmts[i] == RunLink(k)
  {
    if |stmts| == 0 then []
    else Runs(stmts[..|stmts| - 1]) + if stmts[|stmts| - 1].RunLink? then [stmts[|stmts| - 1].expr] else []
  }

  /** The nodes the rewrite goes on to. */
  function Spine(n: Node): seq<nat> {
    match n
    case OpNode(_, _) => []
    case BlockNode(stmts, value) => Runs(stmts) + (if value.Some? then [value.value] else [])
    case IfNode(_, left, right) => [left, right]
  }

  predicate Before(n: Node, i: nat) {
    match n
    case OpNode(_, kids) => forall j :: 0 <= j < |kids| ==> kids[j] < i
    case BlockNode(stmts, value) =>
      (forall j :: 0 <= j < |stmts| ==> stmts[j].expr < i) && (value.Some? ==> value.value < i)
    case IfNode(cond, left, right) => cond < i && left < i && right < i
  }

  predicate Acyclic(h: Nodes) {
    forall i :: 0 <= i < |h| ==> Before(h[i], i)
  }

  predicate AllBelow(ks: seq<nat>, i: nat) {
    forall j :: 0 <= j < |ks| ==> ks[j] < i
  }

  lemma SpineBelow(n: Node, i: nat)
    requires Before(n, i)
    ensures AllBelow(Spine(n), i)
  {
    forall j | 0 <= j < |Spine(n)|
      ensures Spine(n)[j] < i
    {
      assert Spine(n)[j] in Spine(n);
    }
  }

  // ---------- the rewrite ----------

  /** A block's value becomes its last statement. */
  function Flat(n: Node): Node {
    if n.BlockNode? && n.value.Some? then BlockNode(n.stmts + [RunLink(n.value.value)], None) else n
  }

  lemma FlatSpine(n: Node, i: nat)
    ensures Spine(Flat(n)) == Spine(n)
    ensures Before(n, i) ==> Before(Flat(n), i)
    ensures Flat(Flat(n)) == Flat(n)
  {
    if n.BlockNode? && n.value.Some? {
      var s := Flat(n).stmts;
      assert s[..|s| - 1] == n.stmts;
    }
  }

  /** Visit the nodes on the spine in order, then change the node itself. */
  function NormAt(h: Nodes, i: nat): (r: Nodes)
    requires Acyclic(h) && i < |h|
    ensures |r| == |h| && Acyclic(r) && r[i] == Flat(h[i])
    ensures forall j :: 0 <= j < |h| ==> r[j] == h[j] || r[j] == Flat(h[j])
    ensures forall j :: i < j < |h| ==> r[j] == h[j]
    decreases i, 1, 0
  {
    SpineBelow(h[i], i);
    var r := NormList(h, i, Spine(h[i]));
    FlatSpine(h[i], i);
    r[i := Flat(h[i])]
  }

  /** Visit the nodes in `ks`, all of them older than `i`. */
  function NormList(h: Nodes, i: nat, ks: seq<nat>): (r: Nodes)
    requires Acyclic(h) && i < |h| && AllBelow(ks, i)
    ensures |r| == |h| && Acyclic(r)
    ensures forall j :: 0 <= j < |h| ==> r[j] == h[j] || r[j] == Flat(h[j])
    ensures forall j :: i <= j < |h| ==> r[j] == h[j]
    decreases i, 0, |ks|
  {
    if |ks| == 0 then h
    else
      var last := |ks| - 1;
      var before := NormList(h, i, ks[..last]);
      FlatTwice(h, before, NormAt(before, ks[last]));
      NormAt(before, ks[last])
  }

  lemma FlatTwice(h: Nodes, m: Nodes, r: Nodes)
    requires |h| == |m| == |r|
    requires forall j :: 0 <= j < |h| ==> m[j] == h[j] || m[j] == Flat(h[j])
    requires forall j :: 0 <= j < |h| ==> r[j] == m[j] || r[j] == Flat(m[j])
    ensures forall j :: 0 <= j < |h| ==> r[j] == h[j] || r[j] == Flat(h[j])
  {
    forall j | 0 <= j < |h|
      ensures r[j] == h[j] || r[j] == Flat(h[j])
    {
      FlatSpine(h[j], 0);
    }
  }

  class Ast {
    var nodes: Nodes

    constructor (h: Nodes)
      ensures nodes == h
    {
      nodes := h;
    }

    method NormalizeBlock(i: nat)
      requires Acyclic(nodes) && i < |nodes|
      modifies this
      ensures nodes == NormAt(old(nodes), i)
      decreases i, 1
    {
      hide NormAt, NormList, Runs;
      ghost var h := nodes;
      SpineBelow(nodes[i], i);
      NormAtSteps(nodes, i);
      match nodes[i] {
        case OpNode(_, _) =>
        case BlockNode(stmts, value) =>
          NormalizeStmts(stmts, i);
          if value.Some? {
            NormalizeBlock(value.value);
            nodes := nodes[i := BlockNode(stmts + [RunLink(value.value)], None)];
          }
        case IfNode(_, left, right) =>
          NormalizeBlock(left);
          NormalizeBlock(right);
      }
    }

    /** The expression statements of block `i`. */
    method NormalizeStmts(stmts: seq<Link>, i: nat)
      requires Acyclic(nodes) && i < |nodes| && forall j :: 0 <= j < |stmts| ==> stmts[j].expr < i
      modifies this
      ensures AllBelow(Runs(stmts), i) && nodes == NormList(old(nodes), i, Runs(stmts))
      decreases i, 0
    {
      hide NormAt, Runs;
      RunsNone(stmts);
      for n := 0 to |stmts|
        invariant AllBelow(Runs(stmts[..n]), i) && nodes == NormList(old(nodes), i, Runs(stmts[..n]))
      {
        RunsStep(stmts, n, i);
        if stmts[n].RunLink? {
          ListStep(old(nodes), i, Runs(stmts[..n]), stmts[n].expr);
          NormalizeBlock(stmts[n].expr);
        }
      }
      assert stmts[..|stmts|] == stmts;
    }
  }

  lemma RunsNone(stmts: seq<Link>)
    ensures Runs(stmts[..0]) == []
  {
  }

  lemma ListStep(h: Nodes, i: nat, ks: seq<nat>, k: nat)
    requires Acyclic(h) && i < |h| && AllBelow(ks, i) && k < i
    ensures AllBelow(ks + [k], i) && NormList(h, i, ks + [k]) == NormAt(NormList(h, i, ks), k)
  {
    assert (ks + [k])[..|ks|] == ks;
  }

  /** The rewrite of a node, kind by kind. */
  lemma NormAtSteps(h: Nodes, i: nat)
    requires Acyclic(h) && i < |h|
    ensures h[i].OpNode? ==> NormAt(h, i) == h
    ensures h[i].IfNode? ==> NormAt(h, i) == NormAt(NormAt(h, h[i].left), h[i].right)
    ensures h[i].BlockNode? ==>
      AllBelow(Runs(h[i].stmts), i) &&
      var m := NormList(h, i, Runs(h[i].stmts));
      if h[i].value.None? then NormAt(h, i) == m
      else NormAt(h, i) == NormAt(m, h[i].value.value)[i := BlockNode(h[i].stmts + [RunLink(h[i].value.value)], None)]
  {
    hide NormAt, NormList, Runs;
    match h[i]
    case OpNode(_, _) => OpSteps(h, i);
    case BlockNode(_, _) => BlockSteps(h, i);
    case IfNode(_, _, _) => IfSteps(h, i);
  }

  lemma OpSteps(h: Nodes, i: nat)
    requires Acyclic(h) && i < |h| && h[i].OpNode?
    ensures NormAt(h, i) == h
  {
    assert h[i := h[i]] == h;
  }

  lemma IfSteps(h: Nodes, i: nat)
    requires Acyclic(h) && i < |h| && h[i].IfNode?
    ensures NormAt(h, i) == NormAt(NormAt(h, h[i].left), h[i].right)
  {
    hide NormList;
    PairList(h, i, h[i].left, h[i].right);
    var m := NormAt(NormAt(h, h[i].left), h[i].right);
    assert m[i := h[i]] == m;
  }

  lemma BlockSteps(h: Nodes, i: nat)
    requires Acyclic(h) && i < |h| && h[i].BlockNode?
    ensures AllBelow(Runs(h[i].stmts), i) &&
      var m := NormList(h, i, Runs(h[i].stmts));
      if h[i].value.None? then NormAt(h, i) == m
      else NormAt(h, i) == NormAt(m, h[i].value.value)[i := Flat(h[i])]
  {
    hide Runs;
    SpineBelow(h[i], i);
    var ks := Runs(h[i].stmts);
    assert forall j :: 0 <= j < |ks| ==> ks[j] == Spine(h[i])[j];
    var m := NormList(h, i, ks);
    if h[i].value.Some? {
      ListStep(h, i, ks, h[i].value.value);
    } else {
      assert Spine(h[i]) == ks && m[i := h[i]] == m;
    }
  }

  lemma RunsStep(stmts: seq<Link>, n: nat, i: nat)
    requires n < |stmts| && AllBelow(Runs(stmts[..n]), i) && stmts[n].expr < i
    ensures stmts[n].RunLink? ==> Runs(stmts[..n + 1]) == Runs(stmts[..n]) + [stmts[n].expr]
    ensures !stmts[n].RunLink? ==> Runs(stmts[..n + 1]) == Runs(stmts[..n])
    ensures AllBelow(Runs(stmts[..n + 1]), i)
  {
    assert stmts[..n + 1][..n] == stmts[..n];
  }

  lemma PairList(h: Nodes, i: nat, a: nat, b: nat)
    requires Acyclic(h) && i < |h| && a < i && b < i
    ensures NormList(h, i, [a, b]) == NormAt(NormAt(h, a), b)
  {
    assert [a, b][..1] == [a] && [a][..0] == [];
    assert NormList(h, i, [a]) == NormAt(h, a);
  }

  // ---------- which nodes change ----------

  predicate OnSpine(h: Nodes, i: nat, j: nat)
    requires Acyclic(h) && i < |h|
    decreases i
  {
    SpineBelow(h[i], i);
    j == i || exists n :: 0 <= n < |Spine(h[i])| && OnSpine(h, Spine(h[i])[n], j)
  }

  ghost predicate OnSpines(h: Nodes, i: nat, ks: seq<nat>, j: nat)
    requires Acyclic(h) && i < |h| && AllBelow(ks, i)
  {
    exists n :: 0 <= n < |ks| && OnSpine(h, ks[n], j)
  }

  ghost predicate Similar(h: Nodes, m: Nodes) {
    |h| == |m| && forall j :: 0 <= j < |h| ==> m[j] == h[j] || m[j] == Flat(h[j])
  }

  lemma {:induction false} SimilarSpine(h: Nodes, m: Nodes, i: nat, j: nat)
    requires Acyclic(h) && Acyclic(m) && Similar(h, m) && i < |h|
    ensures OnSpine(m, i, j) == OnSpine(h, i, j)
    decreases i
  {
    SpineBelow(h[i], i);
    FlatSpine(h[i], i);
    forall n | 0 <= n < |Spine(h[i])|
      ensures OnSpine(m, Spine(h[i])[n], j) == OnSpine(h, Spine(h[i])[n], j)
    {
      SimilarSpine(h, m, Spine(h[i])[n], j);
    }
  }

  /** Exactly the nodes on the spine change. */
  lemma {:induction false} NormAtIs(h: Nodes, i: nat, j: nat)
    requires Acyclic(h) && i < |h| && j < |h|
    ensures NormAt(h, i)[j] == if OnSpine(h, i, j) then Flat(h[j]) else h[j]
    decreases i, 1, 0
  {
    SpineBelow(h[i], i);
    NormListIs(h, i, Spine(h[i]), j);
  }

  lemma {:induction false} NormListIs(h: Nodes, i: nat, ks: seq<nat>, j: nat)
    requires Acyclic(h) && i < |h| && AllBelow(ks, i) && j < |h|
    ensures NormList(h, i, ks)[j] == if OnSpines(h, i, ks, j) then Flat(h[j]) else h[j]
    decreases i, 0, |ks|
  {
    if |ks| > 0 {
      var last := |ks| - 1;
      var m := NormList(h, i, ks[..last]);
      NormListIs(h, i, ks[..last], j);
      NormAtIs(m, ks[last], j);
      SimilarSpine(h, m, ks[last], j);
      FlatSpine(h[j], 0);
      SpinesStep(h, i, ks, j);
    }
  }

  lemma SpinesStep(h: Nodes, i: nat, ks: seq<nat>, j: nat)
    requires Acyclic(h) && i < |h| && AllBelow(ks, i) && |ks| > 0
    ensures OnSpines(h, i, ks, j) <==> OnSpines(h, i, ks[..|ks| - 1], j) || OnSpine(h, ks[|ks| - 1], j)
  {
    hide OnSpine, Acyclic;
    var last := |ks| - 1;
    if OnSpines(h, i, ks, j) {
      var n :| 0 <= n < |ks| && OnSpine(h, ks[n], j);
      assert n < last ==> ks[..last][n] == ks[n];
    }
    if OnSpines(h, i, ks[..last], j) {
      var n :| 0 <= n < |ks[..last]| && OnSpine(h, ks[..last][n], j);
      assert ks[n] == ks[..last][n];
    }
  }

  // ---------- the tree that a node stands for ----------

  ghost function Denote(h: Nodes, i: nat): Tree
    requires Acyclic(h) && i < |h|
    decreases i
  {
    match h[i]
    case OpNode(tag, kids) =>
      Op(tag, seq(|kids|, j requires 0 <= j < |kids| && Acyclic(h) && i < |h| && h[i] == OpNode(tag, kids) =>
        Denote(h, kids[j])))
    case BlockNode(stmts, value) =>
      Block(seq(|stmts|, j requires 0 <= j < |stmts| && Acyclic(h) && i < |h| && h[i] == BlockNode(stmts, value) =>
              if stmts[j].RunLink? then Run(Denote(h, stmts[j].expr))
              else Other(stmts[j].tag, Denote(h, stmts[j].expr), stmts[j].leaves)),
            if value.None? then None else Some(Denote(h, value.value)))
    case IfNode(cond, left, right) => If(Denote(h, cond), Denote(h, left), Denote(h, right))
  }

  predicate Valued(n: Node) {
    n.BlockNode? && n.value.Some?
  }

  /** The blocks that the rewrite of node `i` changes. */
  function Changing(h: Nodes, i: nat): set<nat>
    requires Acyclic(h) && i < |h|
  {
    set j | 0 <= j < |h| && OnSpine(h, i, j) && Valued(h[j])
  }

  /** No node in `c` is reached from `i`. */
  predicate Avoids(h: Nodes, c: set<nat>, i: nat)
    requires Acyclic(h) && i < |h|
    decreases i
  {
    i !in c &&
    match h[i]
    case OpNode(_, kids) => forall j :: 0 <= j < |kids| ==> Avoids(h, c, kids[j])
    case BlockNode(stmts, value) =>
      (forall j :: 0 <= j < |stmts| ==> Avoids(h, c, stmts[j].expr)) && (value.Some? ==> Avoids(h, c, value.value))
    case IfNode(cond, left, right) => Avoids(h, c, cond) && Avoids(h, c, left) && Avoids(h, c, right)
  }

  /** Operands, conditions and other statements below the spine of `i` reach no node in `c`: no block that
      changes is also used for its value. */
  predicate Unshared(h: Nodes, c: set<nat>, i: nat)
    requires Acyclic(h) && i < |h|
    decreases i
  {
    match h[i]
    case OpNode(_, kids) => forall j :: 0 <= j < |kids| ==> Avoids(h, c, kids[j])
    case BlockNode(stmts, value) =>
      && (forall j :: 0 <= j < |stmts| ==>
            if stmts[j].RunLink? then Unshared(h, c, stmts[j].expr) else Avoids(h, c, stmts[j].expr))
      && (value.Some? ==> Unshared(h, c, value.value))
    case IfNode(cond, left, right) => Avoids(h, c, cond) && Unshared(h, c, left) && Unshared(h, c, right)
  }

  /** `m` is `h` with the nodes in `c`, blocks with a value all of them, rewritten. */
  ghost predicate Rewritten(h: Nodes, c: set<nat>, m: Nodes) {
    && Acyclic(h) && Acyclic(m) && |h| == |m|
    && forall j :: 0 <= j < |h| ==> m[j] == (if j in c then Flat(h[j]) else h[j]) && (j in c ==> Valued(h[j]))
  }

  /** A node stands for the same tree as before exactly when it reaches no changed node. */
  lemma {:induction false} SameTreeIff(h: Nodes, c: set<nat>, m: Nodes, i: nat)
    requires Rewritten(h, c, m) && i < |h|
    ensures Denote(m, i) == Denote(h, i) <==> Avoids(h, c, i)
    decreases i
  {
    if i !in c {
      match h[i]
      case OpNode(_, kids) =>
        forall j | 0 <= j < |kids|
          ensures Denote(m, kids[j]) == Denote(h, kids[j]) <==> Avoids(h, c, kids[j])
        {
          SameTreeIff(h, c, m, kids[j]);
        }
        SameOpIff(h, m, i);
      case BlockNode(stmts, value) =>
        forall j | 0 <= j < |stmts|
          ensures Denote(m, stmts[j].expr) == Denote(h, stmts[j].expr) <==> Avoids(h, c, stmts[j].expr)
        {
          SameTreeIff(h, c, m, stmts[j].expr);
        }
        if value.Some? {
          SameTreeIff(h, c, m, value.value);
        }
        SameBlockIff(h, m, i);
      case IfNode(cond, left, right) =>
        SameTreeIff(h, c, m, cond);
        SameTreeIff(h, c, m, left);
        SameTreeIff(h, c, m, right);
    }
  }

  lemma SameOpIff(h: Nodes, m: Nodes, i: nat)
    requires Acyclic(h) && Acyclic(m) && |h| == |m| && i < |h| && h[i] == m[i] && h[i].OpNode?
    ensures Denote(m, i) == Denote(h, i) <==>
      forall j :: 0 <= j < |h[i].kids| ==> Denote(m, h[i].kids[j]) == Denote(h, h[i].kids[j])
  {
    var ks, x, y := h[i].kids, Denote(h, i).kids, Denote(m, i).kids;
    assert |x| == |y| == |ks|;
    forall j | 0 <= j < |ks|
      ensures x[j] == Denote(h, ks[j]) && y[j] == Denote(m, ks[j])
    {
    }
    assert x == y <==> forall j :: 0 <= j < |x| ==> x[j] == y[j];
  }

  lemma SameBlockIff(h: Nodes, m: Nodes, i: nat)
    requires Acyclic(h) && Acyclic(m) && |h| == |m| && i < |h| && h[i] == m[i] && h[i].BlockNode?
    ensures Denote(m, i) == Denote(h, i) <==>
      && (forall j :: 0 <= j < |h[i].stmts| ==> Denote(m, h[i].stmts[j].expr) == Denote(h, h[i].stmts[j].expr))
      && (h[i].value.Some? ==> Denote(m, h[i].value.value) == Denote(h, h[i].value.value))
  {
    var ss, x, y := h[i].stmts, Denote(h, i).stmts, Denote(m, i).stmts;
    assert |x| == |y| == |ss|;
    forall j | 0 <= j < |ss|
      ensures x[j] == y[j] <==> Denote(m, ss[j].expr) == Denote(h, ss[j].expr)
    {
      assert m[i].stmts[j] == ss[j];
    }
    assert x == y <==> forall j :: 0 <= j < |x| ==> x[j] == y[j];
  }

  // ---------- when the rewrite in place is the pure one ----------

  /** The blocks with a value on the spine of `i` are in `c`. */
  ghost predicate Covers(h: Nodes, c: set<nat>, i: nat)
    requires Acyclic(h) && i < |h|
  {
    forall j :: 0 <= j < |h| && OnSpine(h, i, j) && Valued(h[j]) ==> j in c
  }

  lemma CoversKid(h: Nodes, c: set<nat>, i: nat, k: nat)
    requires Acyclic(h) && i < |h| && Covers(h, c, i) && k in Spine(h[i])
    ensures k < i && Covers(h, c, k)
  {
    SpineBelow(h[i], i);
    var n :| 0 <= n < |Spine(h[i])| && Spine(h[i])[n] == k;
    forall j | 0 <= j < |h| && OnSpine(h, k, j) && Valued(h[j])
      ensures j in c
    {
      assert OnSpine(h, i, j);
    }
  }

  lemma {:induction false} RunOnSpine(stmts: seq<Link>, j: nat)
    requires j < |stmts| && stmts[j].RunLink?
    ensures stmts[j].expr in Runs(stmts)
  {
    if j < |stmts| - 1 {
      RunOnSpine(stmts[..|stmts| - 1], j);
    }
  }

  lemma {:induction false} NormTreeIff(h: Nodes, c: set<nat>, m: Nodes, i: nat)
    requires Rewritten(h, c, m) && i < |h| && Covers(h, c, i)
    ensures Denote(m, i) == Norm(Denote(h, i)) <==> Unshared(h, c, i)
    decreases i
  {
    match h[i]
    case OpNode(_, kids) =>
      forall j | 0 <= j < |kids|
        ensures Denote(m, kids[j]) == Denote(h, kids[j]) <==> Avoids(h, c, kids[j])
      {
        SameTreeIff(h, c, m, kids[j]);
      }
      SameOpIff(h, m, i);
    case IfNode(cond, left, right) =>
      SameTreeIff(h, c, m, cond);
      CoversKid(h, c, i, left);
      CoversKid(h, c, i, right);
      NormTreeIff(h, c, m, left);
      NormTreeIff(h, c, m, right);
    case BlockNode(stmts, value) =>
      forall j | 0 <= j < |stmts|
        ensures if stmts[j].RunLink?
          then Denote(m, stmts[j].expr) == Norm(Denote(h, stmts[j].expr)) <==> Unshared(h, c, stmts[j].expr)
          else Denote(m, stmts[j].expr) == Denote(h, stmts[j].expr) <==> Avoids(h, c, stmts[j].expr)
      {
        if stmts[j].RunLink? {
          RunOnSpine(stmts, j);
          CoversKid(h, c, i, stmts[j].expr);
          NormTreeIff(h, c, m, stmts[j].expr);
        } else {
          SameTreeIff(h, c, m, stmts[j].expr);
        }
      }
      if value.Some? {
        CoversKid(h, c, i, value.value);
        NormTreeIff(h, c, m, value.value);
      }
      assert OnSpine(h, i, i);
      NormBlockIff(h, m, i);
  }

  lemma NormBlockIff(h: Nodes, m: Nodes, i: nat)
    requires Acyclic(h) && Acyclic(m) && |h| == |m| && i < |h| && m[i] == Flat(h[i]) && h[i].BlockNode?
    ensures Denote(m, i) == Norm(Denote(h, i)) <==>
      && (forall j :: 0 <= j < |h[i].stmts| ==>
            if h[i].stmts[j].RunLink? then Denote(m, h[i].stmts[j].expr) == Norm(Denote(h, h[i].stmts[j].expr))
            else Denote(m, h[i].stmts[j].expr) == Denote(h, h[i].stmts[j].expr))
      && (h[i].value.Some? ==> Denote(m, h[i].value.value) == Norm(Denote(h, h[i].value.value)))
  {
    var n, x, y := |h[i].stmts|, Norm(Denote(h, i)).stmts, Denote(m, i).stmts;
    assert |x| == |y| == n + if h[i].value.Some? then 1 else 0;
    assert x == y <==> forall j :: 0 <= j < |x| ==> x[j] == y[j];
    assert h[i].value.Some? ==>
      x[n] == Run(Norm(Denote(h, h[i].value.value))) && y[n] == Run(Denote(m, h[i].value.value));
    forall j | 0 <= j < n
      ensures x[j] == y[j] <==>
        if h[i].stmts[j].RunLink? then Denote(m, h[i].stmts[j].expr) == Norm(Denote(h, h[i].stmts[j].expr))
        else Denote(m, h[i].stmts[j].expr) == Denote(h, h[i].stmts[j].expr)
    {
      assert m[i].stmts[j] == h[i].stmts[j];
    }
  }

  /** Rewriting in place is the pure rewrite exactly when no block that changes is also reached through an
      operand, a condition or another statement. */
  lemma InPlaceIff(h: Nodes, i: nat)
    requires Acyclic(h) && i < |h|
    ensures Denote(NormAt(h, i), i) == Norm(Denote(h, i)) <==> Unshared(h, Changing(h, i), i)
  {
    var c, m := Changing(h, i), NormAt(h, i);
    forall j | 0 <= j < |h|
      ensures m[j] == if j in c then Flat(h[j]) else h[j]
    {
      NormAtIs(h, i, j);
    }
    NormTreeIff(h, c, m, i);
  }

  /** Then the effects are the same, in any world. */
  lemma UnsharedKeepsEffects(h: Nodes, i: nat, w: World, trace: seq<Effect>)
    requires Acyclic(h) && i < |h| && Unshared(h, Changing(h, i), i)
    ensures Eval(w, Denote(NormAt(h, i), i), trace).trace == Eval(w, Denote(h, i), trace).trace
    ensures Eval(w, Denote(NormAt(h, i), i), trace).jumped == Eval(w, Denote(h, i), trace).jumped
  {
    InPlaceIff(h, i);
    NormKeepsEffects(w, Denote(h, i), trace);
  }

  // ---------- a shared condition ----------

  /** `{ f() } ?: g()`: the short form of a conditional refers to its condition twice. */
  function ShortConditional(): Nodes {
    [OpNode(0, []), BlockNode([], Some(0)), OpNode(1, []), IfNode(1, 1, 2)]
  }

  function Rewrite(): Nodes {
    [OpNode(0, []), BlockNode([RunLink(0)], None), OpNode(1, []), IfNode(1, 1, 2)]
  }

  lemma RewriteIs()
    ensures Acyclic(ShortConditional()) && Acyclic(Rewrite()) && NormAt(ShortConditional(), 3) == Rewrite()
  {
    hide NormAt, NormList, Runs;
    RewriteBlock();
    NormAtSteps(ShortConditional(), 3);
    NormAtSteps(Rewrite(), 2);
  }

  lemma RewriteBlock()
    ensures Acyclic(ShortConditional()) && Acyclic(Rewrite()) && NormAt(ShortConditional(), 1) == Rewrite()
  {
    hide NormAt;
    var h, none: seq<Link> := ShortConditional(), [];
    assert Runs(none) == [];
    NormAtSteps(h, 0);
    NormAtSteps(h, 1);
    assert none + [RunLink(0)] == [RunLink(0)];
    assert NormList(h, 1, []) == h;
    assert h[1 := BlockNode([RunLink(0)], None)] == Rewrite();
  }

  lemma DenoteOp(h: Nodes, i: nat)
    requires Acyclic(h) && i < |h| && h[i].OpNode? && h[i].kids == []
    ensures Denote(h, i) == Op(h[i].tag, [])
  {
  }

  /** In a world where `f()` gives 1, it is called twice before the rewrite, and once with `g()` after it:
      the condition has lost its value. */
  lemma ShortConditionalChanges()
    ensures var h, w: World := ShortConditional(), (t: seq<Effect>) => 1;
      && Acyclic(h)
      && Eval(w, Denote(h, 3), []).trace == [Effect(0, []), Effect(0, [])]
      && Eval(w, Denote(NormAt(h, 3), 3), []).trace == [Effect(0, []), Effect(1, [])]
  {
    var w: World := (t: seq<Effect>) => 1;
    var f, g := Op(0, []), Op(1, []);
    RewriteIs();
    hide Eval, Denote, NormAt, Acyclic, ShortConditional, Rewrite;
    DenoteBefore();
    DenoteAfter();
    EvalExample(w, f, g, Block([], Some(f)), Block([Run(f)], None));
  }

  lemma DenoteBefore()
    ensures Acyclic(ShortConditional())
    ensures var b := Block([], Some(Op(0, []))); Denote(ShortConditional(), 3) == If(b, b, Op(1, []))
  {
    var h := ShortConditional();
    DenoteOp(h, 0);
    DenoteOp(h, 2);
    assert Denote(h, 1) == Block([], Some(Op(0, [])));
  }

  lemma DenoteAfter()
    ensures Acyclic(Rewrite())
    ensures var c := Block([Run(Op(0, []))], None); Denote(Rewrite(), 3) == If(c, c, Op(1, []))
  {
    var m := Rewrite();
    DenoteOp(m, 0);
    DenoteOp(m, 2);
    assert Denote(m, 1) == Block([Run(Op(0, []))], None);
  }

  lemma EvalExample(w: World, f: Tree, g: Tree, b: Tree, c: Tree)
    requires f == Op(0, []) && g == Op(1, []) && b == Block([], Some(f)) && c == Block([Run(f)], None)
    requires forall t :: w(t) == 1
    ensures Eval(w, If(b, b, g), []).trace == [Effect(0, []), Effect(0, [])]
    ensures Eval(w, If(c, c, g), []).trace == [Effect(0, []), Effect(1, [])]
  {
    var one := [Effect(0, [])];
    OpEffect(w, f, []);
    OpEffect(w, f, one);
    OpEffect(w, g, one);
    assert Eval(w, b, []) == Outcome(one, 1, false);
    assert EvalStmts(w, c, 1, []) == EvalStmt(w, c.stmts[0], EvalStmts(w, c, 0, []).trace);
    assert Eval(w, c, []) == Outcome(one, NOTHING, false);
  }

  lemma OpEffect(w: World, t: Tree, trace: seq<Effect>)
    requires t.Op? && t.kids == [] && forall u :: w(u) == 1
    ensures Eval(w, t, trace) == Outcome(trace + [Effect(t.tag, [])], 1, false)
  {
  }
}
