/** Rewriting a block expression whose value is not used: the pure rewrite, and what it preserves. */
module Normalize {
  import opened Options

  /** Expressions as far as the rewrite looks: blocks, conditionals, and everything else by the operands
      that are evaluated and a tag. */
  datatype Tree =
    | Op(tag: nat, kids: seq<Tree>)
    | Block(stmts: seq<Stmt>, value: Option<Tree>)
    | If(cond: Tree, left: Tree, right: Tree)

  /** An expression statement, or any other statement with the expression it evaluates. A jump `leaves`:
      nothing behind it is evaluated. */
  datatype Stmt = Run(expr: Tree) | Other(tag: nat, expr: Tree, leaves: bool)

  /** `normalize_block_expression` on trees: the value of a block becomes its last statement. */
  function Norm(t: Tree): Tree
    decreases t
  {
    match t
    case Block(stmts, value) =>
      Block(seq(|stmts|, i requires 0 <= i < |stmts| =>
              if stmts[i].Run? then Run(Norm(stmts[i].expr)) else stmts[i])
            + (if value.Some? then [Run(Norm(value.value))] else []),
            None)
    case If(c, l, r) => If(c, Norm(l), Norm(r))
    case Op(_, _) => t
  }

  /** Every block among the statements, values and branches has no value. */
  predicate Flattened(t: Tree)
    decreases t
  {
    match t
    case Block(stmts, value) =>
      value.None? && forall i :: 0 <= i < |stmts| ==> stmts[i].Run? ==> Flattened(stmts[i].expr)
    case If(_, l, r) => Flattened(l) && Flattened(r)
    case Op(_, _) => true
  }

  lemma {:induction false} NormFlattens(t: Tree)
    ensures Flattened(Norm(t))
    decreases t
  {
    match t
    case Block(stmts, value) =>
      forall i | 0 <= i < |stmts| && stmts[i].Run?
        ensures Flattened(Norm(stmts[i].expr))
      {
        NormFlattens(stmts[i].expr);
      }
      if value.Some? {
        NormFlattens(value.value);
      }
    case If(_, l, r) =>
      NormFlattens(l);
      NormFlattens(r);
    case Op(_, _) =>
  }

  lemma {:induction false} FlattenedStays(t: Tree)
    requires Flattened(t)
    ensures Norm(t) == t
    decreases t
  {
    match t
    case Block(stmts, value) =>
      forall i | 0 <= i < |stmts| && stmts[i].Run?
        ensures Norm(stmts[i].expr) == stmts[i].expr
      {
        FlattenedStays(stmts[i].expr);
      }
      assert Norm(t).stmts == stmts;
    case If(_, l, r) =>
      FlattenedStays(l);
      FlattenedStays(r);
    case Op(_, _) =>
  }

  /** A second application changes nothing. */
  lemma NormTwice(t: Tree)
    ensures Norm(Norm(t)) == Norm(t)
  {
    NormFlattens(t);
    FlattenedStays(Norm(t));
  }

  // ---------- evaluation ----------

  /** An effect: which operation, on which values. */
  datatype Effect = Effect(tag: nat, args: seq<int>)

  /** What an operation returns may depend on everything that happened before. */
  type World = seq<Effect> -> int

  /** The effects so far, the value, and whether a jump has left the whole expression. */
  datatype Outcome = Outcome(trace: seq<Effect>, value: int, jumped: bool)

  const NOTHING: int := 0

  function Perform(w: World, tag: nat, args: seq<int>, trace: seq<Effect>): Outcome {
    var after := trace + [Effect(tag, args)];
    Outcome(after, w(after), false)
  }

  function Eval(w: World, t: Tree, trace: seq<Effect>): Outcome
    decreases t, 1, 0
  {
    match t
    case Op(tag, kids) =>
      var (before, args, jumped) := EvalKids(w, t, |kids|, trace);
      if jumped then Outcome(before, NOTHING, true) else Perform(w, tag, args, before)
    case Block(stmts, value) =>
      var after := EvalStmts(w, t, |stmts|, trace);
      if after.jumped || value.None? then after else Eval(w, value.value, after.trace)
    case If(c, l, r) =>
      var test := Eval(w, c, trace);
      if test.jumped then test
      else if test.value != 0 then Eval(w, l, test.trace) else Eval(w, r, test.trace)
  }

  /** The first `n` operands, from left to right. */
  function EvalKids(w: World, t: Tree, n: nat, trace: seq<Effect>): (r: (seq<Effect>, seq<int>, bool))
    requires t.Op? && n <= |t.kids|
    decreases t, 0, n
  {
    if n == 0 then (trace, [], false)
    else
      var before := EvalKids(w, t, n - 1, trace);
      if before.2 then before
      else
        var last := Eval(w, t.kids[n - 1], before.0);
        (last.trace, before.1 + [last.value], last.jumped)
  }

  /** The first `n` statements, values discarded. */
  function EvalStmts(w: World, t: Tree, n: nat, trace: seq<Effect>): Outcome
    requires t.Block? && n <= |t.stmts|
    decreases t, 0, n
  {
    if n == 0 then Outcome(trace, NOTHING, false)
    else
      var before := EvalStmts(w, t, n - 1, trace);
      if before.jumped then before else EvalStmt(w, t.stmts[n - 1], before.trace)
  }

  function EvalStmt(w: World, s: Stmt, trace: seq<Effect>): Outcome
    decreases s
  {
    var r := Eval(w, s.expr, trace);
    match s
    case Run(e) => Outcome(r.trace, NOTHING, r.jumped)
    case Other(tag, e, leaves) =>
      if r.jumped then Outcome(r.trace, NOTHING, true)
      else Outcome(Perform(w, tag, [r.value], r.trace).trace, NOTHING, leaves)
  }

  /** The rewrite changes no effect and no jump, in any world and from any point on. */
  lemma {:induction false} NormKeepsEffects(w: World, t: Tree, trace: seq<Effect>)
    ensures Eval(w, Norm(t), trace).trace == Eval(w, t, trace).trace
    ensures Eval(w, Norm(t), trace).jumped == Eval(w, t, trace).jumped
    decreases t, 1, 0
  {
    match t
    case Op(_, _) =>
    case If(c, l, r) =>
      var test := Eval(w, c, trace);
      NormKeepsEffects(w, l, test.trace);
      NormKeepsEffects(w, r, test.trace);
    case Block(stmts, value) =>
      var n := Norm(t);
      StmtsKeepEffects(w, t, |stmts|, trace);
      if value.Some? {
        NormKeepsEffects(w, value.value, EvalStmts(w, t, |stmts|, trace).trace);
        assert n.stmts[|stmts|] == Run(Norm(value.value)) && |n.stmts| == |stmts| + 1;
        var before := EvalStmts(w, n, |stmts|, trace);
        assert EvalStmts(w, n, |stmts| + 1, trace)
          == if before.jumped then before else EvalStmt(w, n.stmts[|stmts|], before.trace);
      } else {
        assert |n.stmts| == |stmts|;
      }
  }

  lemma {:induction false} StmtsKeepEffects(w: World, t: Tree, n: nat, trace: seq<Effect>)
    requires t.Block? && n <= |t.stmts|
    ensures n <= |Norm(t).stmts| && EvalStmts(w, Norm(t), n, trace) == EvalStmts(w, t, n, trace)
    decreases t, 0, n
  {
    if n > 0 {
      StmtsKeepEffects(w, t, n - 1, trace);
      var s, before := t.stmts[n - 1], EvalStmts(w, t, n - 1, trace);
      if s.Run? {
        NormKeepsEffects(w, s.expr, before.trace);
        assert Norm(t).stmts[n - 1] == Run(Norm(s.expr));
      } else {
        assert Norm(t).stmts[n - 1] == s;
      }
    }
  }
}
