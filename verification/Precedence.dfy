/** What precedence climbing computes: of all trees over the operands and operators it consumes, the
    only one in which left operands bind at least as tightly as their operator and right operands bind
    more tightly. */
module Precedence {
  import opened Options
  import opened Grammar

  datatype Tree = Leaf(expr: Expr) | Node(left: Tree, info: BinopInfo, right: Tree)

  /** An operator and the operand behind it. */
  datatype Link = Link(info: BinopInfo, operand: Expr)

  /** The operators and operands that follow a first operand. */
  datatype Run = Run(links: seq<Link>, end: nat) | Broken

  // ---------- trees ----------

  /** The root binds at least as tightly as `m`; operands always do. */
  predicate Binds(t: Tree, m: nat) {
    t.Leaf? || t.info.prec >= m
  }

  predicate WellNested(t: Tree) {
    t.Leaf? ||
    (WellNested(t.left) && WellNested(t.right) && Binds(t.left, t.info.prec) && Binds(t.right, t.info.prec + 1))
  }

  function First(t: Tree): Expr {
    if t.Leaf? then t.expr else First(t.left)
  }

  /** The operators and operands behind the first one, from left to right. */
  function Rest(t: Tree): seq<Link> {
    if t.Leaf? then [] else Rest(t.left) + [Link(t.info, First(t.right))] + Rest(t.right)
  }

  function ToExpr(t: Tree): Expr {
    if t.Leaf? then t.expr else Binop(ToExpr(t.left), t.info.op, ToExpr(t.right))
  }

  predicate AllBind(links: seq<Link>, m: nat) {
    forall i :: 0 <= i < |links| ==> links[i].info.prec >= m
  }

  lemma {:induction false} RestBinds(t: Tree, m: nat)
    requires WellNested(t) && Binds(t, m)
    ensures AllBind(Rest(t), m)
  {
    if t.Node? {
      RestBinds(t.left, m);
      RestBinds(t.right, m);
    }
  }

  /** The root of a well-nested tree is the last of the loosest operators. */
  lemma RootPlace(t: Tree)
    requires t.Node? && WellNested(t)
    ensures var k := |Rest(t.left)|;
      && k < |Rest(t)| && Rest(t)[k] == Link(t.info, First(t.right))
      && Rest(t)[..k] == Rest(t.left) && Rest(t)[k + 1..] == Rest(t.right)
      && AllBind(Rest(t)[..k], t.info.prec) && AllBind(Rest(t)[k + 1..], t.info.prec + 1)
  {
    RestBinds(t.left, t.info.prec);
    RestBinds(t.right, t.info.prec + 1);
    var k := |Rest(t.left)|;
    assert Rest(t)[..k] == Rest(t.left) && Rest(t)[k + 1..] == Rest(t.right);
  }

  lemma NotBefore(links: seq<Link>, i: nat, j: nat)
    requires i < |links| && j < |links|
    requires AllBind(links[i + 1..|links|], links[i].info.prec + 1) && AllBind(links[0..j], links[j].info.prec)
    ensures i >= j
  {
    if i < j {
      BindAt(links, i + 1, |links|, links[i].info.prec + 1, j);
      BindAt(links, 0, j, links[j].info.prec, i);
    }
  }

  lemma BindAt(links: seq<Link>, lo: nat, hi: nat, m: nat, k: nat)
    requires lo <= k < hi <= |links| && AllBind(links[lo..hi], m)
    ensures links[k].info.prec >= m
  {
    assert links[lo..hi][k - lo] == links[k];
  }

  lemma Bounds(links: seq<Link>, k: nat)
    requires k < |links|
    ensures links[..k] == links[0..k] && links[k + 1..] == links[k + 1..|links|]
  {
  }

  /** No two well-nested trees have the same operands and operators. */
  lemma {:induction false} TreeUnique(t: Tree, u: Tree)
    requires WellNested(t) && WellNested(u) && First(t) == First(u) && Rest(t) == Rest(u)
    ensures t == u
  {
    if t.Node? {
      RootPlace(t);
    }
    if u.Node? {
      RootPlace(u);
    }
    if t.Node? && u.Node? {
      Bounds(Rest(t), |Rest(t.left)|);
      Bounds(Rest(t), |Rest(u.left)|);
      NotBefore(Rest(t), |Rest(t.left)|, |Rest(u.left)|);
      NotBefore(Rest(t), |Rest(u.left)|, |Rest(t.left)|);
      TreeUnique(t.left, u.left);
      TreeUnique(t.right, u.right);
    }
  }

  // ---------- what is consumed ----------

  /** An operator follows that binds at least as tightly as `m`. */
  predicate Continues(v: View, p: nat, m: nat) {
    var info := v.binop(v.skip(p));
    info.Some? && info.value.prec >= m
  }

  function AfterOperator(v: View, p: nat): nat
    requires Continues(v, p, 0)
  {
    v.skip(p) + v.binop(v.skip(p)).value.length
  }

  /** Operators and operands up to the first place where none follows, or one looser than `m`. */
  function RunFrom(v: View, p: nat, m: nat): (r: Run)
    requires Sound(v) && p <= v.size
    ensures r.Run? ==> p <= r.end <= v.size && !Continues(v, r.end, m) && AllBind(r.links, m)
    decreases v.size - p
  {
    if !Continues(v, p, m) then Run([], p)
    else
      var operand := ParseUnary(v, AfterOperator(v, p));
      if operand.Failed? then Broken
      else Prepend(Link(v.binop(v.skip(p)).value, operand.expr), RunFrom(v, operand.pos, m))
  }

  function Prepend(link: Link, r: Run): Run {
    if r.Broken? then Broken else Run([link] + r.links, r.end)
  }

  /** A run up to a tighter bound, continued at its end, is the whole run. */
  lemma {:induction false} RunSplits(v: View, p: nat, m: nat, n: nat)
    requires Sound(v) && p <= v.size && m <= n
    ensures var r := RunFrom(v, p, n);
      RunFrom(v, p, m) == if r.Broken? then Broken else Extend(r.links, RunFrom(v, r.end, m))
    decreases v.size - p
  {
    if Continues(v, p, n) {
      var operand := ParseUnary(v, AfterOperator(v, p));
      if operand.Parsed? {
        RunSplits(v, operand.pos, m, n);
        var link := Link(v.binop(v.skip(p)).value, operand.expr);
        var r := RunFrom(v, operand.pos, n);
        if r.Run? && RunFrom(v, r.end, m).Run? {
          assert [link] + (r.links + RunFrom(v, r.end, m).links) == ([link] + r.links) + RunFrom(v, r.end, m).links;
        }
      }
    } else {
      ExtendNone(RunFrom(v, p, m));
    }
  }

  function Extend(links: seq<Link>, r: Run): Run {
    if r.Broken? then Broken else Run(links + r.links, r.end)
  }

  lemma ExtendNone(r: Run)
    ensures Extend([], r) == r
  {
    if r.Run? {
      assert [] + r.links == r.links;
    }
  }

  // ---------- climbing ----------

  /** The result of climbing from the tree `left`: a well-nested tree over the operands of `left` and
      of the run that follows, or failure where the run is broken. */
  ghost predicate Climbed(r: Parse, left: Tree, run: Run) {
    if run.Broken? then r.Failed?
    else exists t: Tree :: Tops(t, left, run.links) && r == Parsed(ToExpr(t), run.end)
  }

  predicate Tops(t: Tree, left: Tree, links: seq<Link>) {
    WellNested(t) && First(t) == First(left) && Rest(t) == Rest(left) + links && (t == left || |links| > 0)
  }

  /** Climbing reads exactly the run that follows and nests it well. */
  lemma {:induction false} ClimbNests(v: View, left: Tree, p: nat, m: nat)
    requires Sound(v) && p <= v.size && WellNested(left)
    requires Continues(v, p, 0) ==> Binds(left, v.binop(v.skip(p)).value.prec)
    ensures Climbed(Climb(v, ToExpr(left), p, m), left, RunFrom(v, p, m))
    decreases v.size - p, 7
  {
    hide Climb, ParseBinary, ParseUnary, RunFrom;
    RunUnfolds(v, p, m);
    ClimbUnfolds(v, left, p, m);
    if Continues(v, p, m) {
      var info, operand := v.binop(v.skip(p)).value, ParseUnary(v, AfterOperator(v, p));
      if operand.Parsed? {
        ClimbNests(v, Leaf(operand.expr), operand.pos, info.prec + 1);
        RunSplits(v, operand.pos, m, info.prec + 1);
        var inner := RunFrom(v, operand.pos, info.prec + 1);
        if inner.Run? {
          var right := ClimbedTree(Climb(v, operand.expr, operand.pos, info.prec + 1), Leaf(operand.expr), inner);
          RootBinds(right, inner.links, info.prec + 1);
          ClimbNests(v, Node(left, info, right), inner.end, m);
          ClimbFolds(v, left, p, m, info, right, inner);
        }
      }
    }
  }

  lemma RunUnfolds(v: View, p: nat, m: nat)
    requires Sound(v) && p <= v.size
    ensures !Continues(v, p, m) ==> RunFrom(v, p, m) == Run([], p)
    ensures Continues(v, p, m) ==>
      var operand := ParseUnary(v, AfterOperator(v, p));
      RunFrom(v, p, m) == if operand.Failed? then Broken
        else Prepend(Link(v.binop(v.skip(p)).value, operand.expr), RunFrom(v, operand.pos, m))
  {
  }

  lemma ClimbUnfolds(v: View, left: Tree, p: nat, m: nat)
    requires Sound(v) && p <= v.size && WellNested(left)
    ensures !Continues(v, p, m) ==> Climbed(Climb(v, ToExpr(left), p, m), left, Run([], p))
    ensures Continues(v, p, m) ==>
      var info, operand := v.binop(v.skip(p)).value, ParseUnary(v, AfterOperator(v, p));
      && (operand.Failed? ==> Climb(v, ToExpr(left), p, m).Failed?)
      && (operand.Parsed? ==>
        var right := Climb(v, operand.expr, operand.pos, info.prec + 1);
        && ParseBinary(v, AfterOperator(v, p), info.prec + 1) == right
        && (right.Failed? ==> Climb(v, ToExpr(left), p, m).Failed?))
  {
    assert Tops(left, left, []);
  }

  lemma ClimbedTree(r: Parse, left: Tree, run: Run) returns (t: Tree)
    requires Climbed(r, left, run) && run.Run?
    ensures Tops(t, left, run.links) && r == Parsed(ToExpr(t), run.end)
  {
    t :| Tops(t, left, run.links) && r == Parsed(ToExpr(t), run.end);
  }

  lemma RootBinds(t: Tree, links: seq<Link>, m: nat)
    requires WellNested(t) && Rest(t) == [] + links && AllBind(links, m)
    ensures Binds(t, m)
  {
    if t.Node? {
      RootPlace(t);
    }
  }

  lemma ClimbFolds(v: View, left: Tree, p: nat, m: nat, info: BinopInfo, right: Tree, inner: Run)
    requires Sound(v) && p <= v.size && Continues(v, p, m) && v.binop(v.skip(p)) == Some(info)
    requires inner.Run? && p < inner.end <= v.size
    requires ParseBinary(v, AfterOperator(v, p), info.prec + 1) == Parsed(ToExpr(right), inner.end)
    requires Rest(right) == [] + inner.links
    requires RunFrom(v, p, m) == Prepend(Link(info, First(right)), Extend(inner.links, RunFrom(v, inner.end, m)))
    requires var node := Node(left, info, right);
      Climbed(Climb(v, ToExpr(node), inner.end, m), node, RunFrom(v, inner.end, m))
    ensures Climbed(Climb(v, ToExpr(left), p, m), left, RunFrom(v, p, m))
  {
    hide ParseBinary, RunFrom, Climb;
    var node, rest := Node(left, info, right), RunFrom(v, inner.end, m);
    ClimbOnce(v, ToExpr(left), p, m, info, Parsed(ToExpr(right), inner.end));
    if rest.Run? {
      var t: Tree :| Tops(t, node, rest.links) && Climb(v, ToExpr(node), inner.end, m) == Parsed(ToExpr(t), rest.end);
      NodeTops(t, left, info, right, inner.links, rest.links);
    }
  }

  lemma ClimbOnce(v: View, left: Expr, p: nat, m: nat, info: BinopInfo, right: Parse)
    requires Sound(v) && p <= v.size && Continues(v, p, m) && v.binop(v.skip(p)) == Some(info)
    requires ParseBinary(v, AfterOperator(v, p), info.prec + 1) == right && right.Parsed?
    ensures Climb(v, left, p, m) == Climb(v, Binop(left, info.op, right.expr), right.pos, m)
  {
  }

  lemma NodeTops(t: Tree, left: Tree, info: BinopInfo, right: Tree, inner: seq<Link>, rest: seq<Link>)
    requires Tops(t, Node(left, info, right), rest) && Rest(right) == [] + inner
    ensures Tops(t, left, [Link(info, First(right))] + (inner + rest))
  {
    NodeRest(left, info, right, inner);
    Regroup(Rest(left), [Link(info, First(right))], inner, rest);
  }

  lemma NodeRest(left: Tree, info: BinopInfo, right: Tree, inner: seq<Link>)
    requires Rest(right) == [] + inner
    ensures Rest(Node(left, info, right)) == Rest(left) + [Link(info, First(right))] + inner
  {
    assert [] + inner == inner;
  }

  lemma Regroup(a: seq<Link>, b: seq<Link>, c: seq<Link>, d: seq<Link>)
    ensures a + b + c + d == a + (b + (c + d))
  {
  }

  /** `parse_binary` fails exactly where an operand is missing. Otherwise it consumes the first operand
      and the run of operators no looser than `minPrec` behind it, stops where the run does, and returns
      the only well-nested tree over what it consumed. */
  lemma ClimbingIsUnique(v: View, p: nat, minPrec: nat)
    requires Sound(v) && p <= v.size
    ensures var first, r := ParseUnary(v, p), ParseBinary(v, p, minPrec);
      if first.Failed? || RunFrom(v, first.pos, minPrec).Broken? then r.Failed?
      else
        var run := RunFrom(v, first.pos, minPrec);
        exists t: Tree ::
          && Tops(t, Leaf(first.expr), run.links) && r == Parsed(ToExpr(t), run.end)
          && forall u: Tree :: WellNested(u) && First(u) == first.expr && Rest(u) == run.links ==> u == t
  {
    var first := ParseUnary(v, p);
    if first.Parsed? {
      ClimbNests(v, Leaf(first.expr), first.pos, minPrec);
      var run := RunFrom(v, first.pos, minPrec);
      if run.Run? {
        var t: Tree :| Tops(t, Leaf(first.expr), run.links)
          && Climb(v, first.expr, first.pos, minPrec) == Parsed(ToExpr(t), run.end);
        assert Rest(t) == run.links;
        forall u: Tree | WellNested(u) && First(u) == first.expr && Rest(u) == run.links
          ensures u == t
        {
          TreeUnique(u, t);
        }
      }
    }
  }
}
