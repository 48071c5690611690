/** The grammar read directly off a script: each rule as one equation over the script's characters and
    layout, which the parser's methods follow step by step. */
module GrammarAt {
  import opened LayoutScan
  import opened Tokens
  import opened Grammar

  function Ternary(s: string, p: nat): (r: Parse)
    requires p <= |s|
    ensures r.Parsed? ==> p < r.pos <= |s|
  {
    ViewIsSound(s);
    ParseTernary(ViewOf(s), p)
  }

  function Branches(s: string, cond: Expr, p: nat): (r: Parse)
    requires p <= |s|
    ensures r.Parsed? ==> p < r.pos <= |s|
  {
    ViewIsSound(s);
    ParseBranches(ViewOf(s), cond, p)
  }

  function Binary(s: string, p: nat, m: nat): (r: Parse)
    requires p <= |s|
    ensures r.Parsed? ==> p < r.pos <= |s|
  {
    ViewIsSound(s);
    ParseBinary(ViewOf(s), p, m)
  }

  function Climbing(s: string, left: Expr, p: nat, m: nat): (r: Parse)
    requires p <= |s|
    ensures r.Parsed? ==> p <= r.pos <= |s|
  {
    ViewIsSound(s);
    Climb(ViewOf(s), left, p, m)
  }

  function Unary(s: string, p: nat): (r: Parse)
    requires p <= |s|
    ensures r.Parsed? ==> p < r.pos <= |s|
  {
    ViewIsSound(s);
    ParseUnary(ViewOf(s), p)
  }

  function Primary(s: string, p: nat): (r: Parse)
    requires p <= |s|
    ensures r.Parsed? ==> p < r.pos <= |s|
  {
    ViewIsSound(s);
    ParsePrimary(ViewOf(s), p)
  }

  function Postfix(s: string, e: Expr, p: nat): (r: Parse)
    requires p <= |s|
    ensures r.Parsed? ==> p <= r.pos <= |s|
  {
    ViewIsSound(s);
    ParsePostfix(ViewOf(s), e, p)
  }

  // ---------- the rules ----------

  lemma TernaryRule(s: string, p: nat)
    requires p <= |s|
    ensures var c := Binary(s, p, 0);
      if c.Failed? then Ternary(s, p).Failed?
      else
        var q := LayoutEnd(s, c.pos);
        if CharAt(s, q) != '?' then Ternary(s, p) == c
        else Ternary(s, p) == Branches(s, c.expr, LayoutEnd(s, q + 1))
  {
    hide LayoutEnd, ParseBinary, ParseBranches;
    ViewIsSound(s);
  }

  lemma BranchesRule(s: string, cond: Expr, p: nat)
    requires p <= |s|
    ensures CharAt(s, p) == ':' ==>
      var no := Ternary(s, p + 1);
      Branches(s, cond, p) == if no.Failed? then Failed else Parsed(IfExpr(cond, cond, no.expr), no.pos)
    ensures CharAt(s, p) != ':' ==>
      var yes := Ternary(s, p);
      if yes.Failed? then Branches(s, cond, p).Failed?
      else
        var q := LayoutEnd(s, yes.pos);
        if CharAt(s, q) != ':' then Branches(s, cond, p).Failed?
        else
          var no := Ternary(s, q + 1);
          Branches(s, cond, p) == if no.Failed? then Failed else Parsed(IfExpr(cond, yes.expr, no.expr), no.pos)
  {
    hide LayoutEnd, ParseTernary;
    ViewIsSound(s);
  }

  lemma BinaryRule(s: string, p: nat, m: nat)
    requires p <= |s|
    ensures var left := Unary(s, p);
      Binary(s, p, m) == if left.Failed? then Failed else Climbing(s, left.expr, left.pos, m)
  {
    hide ParseUnary, Climb;
    ViewIsSound(s);
  }

  lemma ClimbingRule(s: string, left: Expr, p: nat, m: nat)
    requires p <= |s|
    ensures var q := LayoutEnd(s, p);
      var op := PeekBinop(s, q);
      if op.None? || Prec(op.value) < m then Climbing(s, left, p, m) == Parsed(left, p)
      else
        var right := Binary(s, q + OpLength(op.value), Prec(op.value) + 1);
        Climbing(s, left, p, m) ==
          if right.Failed? then Failed else Climbing(s, Binop(left, op.value, right.expr), right.pos, m)
  {
    hide LayoutEnd, PeekBinop, ParseBinary, Prec, OpLength;
    ViewIsSound(s);
  }

  lemma UnaryRule(s: string, p: nat)
    requires p <= |s|
    ensures var q := LayoutEnd(s, p);
      var c, next := CharAt(s, q), CharAt(s, q + 1);
      if IsStep(c, next) then
        var e := Unary(s, q + 2);
        Unary(s, p) == if e.Parsed? && e.expr.Variable? then Parsed(Step(true, c == '+', e.expr), e.pos) else Failed
      else if c == '&' then Unary(s, p).Failed?
      else if PrefixOf(c, next).Some? then
        var e := Unary(s, q + 1);
        Unary(s, p) == if e.Failed? then Failed else Parsed(Unop(PrefixOf(c, next).value, e.expr), e.pos)
      else
        var e := Primary(s, q);
        Unary(s, p) == if e.Failed? then Failed else Postfix(s, e.expr, e.pos)
  {
    hide LayoutEnd, ParsePrimary, ParsePostfix;
    ViewIsSound(s);
    var v, q := ViewOf(s), LayoutEnd(s, p);
    var e := ParsePrimary(v, q);
    assert ParseChain(v, q) == if e.Failed? then Failed else ParsePostfix(v, e.expr, e.pos);
  }

  lemma FieldRule(s: string, e: Expr, p: nat)
    requires p <= |s| && Sound(ViewOf(s))
    ensures ParseField(ViewOf(s), e, p) ==
      if IsIdentStart(CharAt(s, p)) then Postfix(s, Field(e, s[p..IdentEnd(s, p)]), IdentEnd(s, p)) else Failed
  {
    hide ParsePostfix, IdentEnd;
  }

  lemma IndexRule(s: string, e: Expr, p: nat)
    requires p <= |s| && Sound(ViewOf(s))
    ensures var i := Ternary(s, p);
      ParseIndex(ViewOf(s), e, p) ==
        if i.Failed? || CharAt(s, LayoutEnd(s, i.pos)) != ']' then Failed
        else Postfix(s, Index(e, i.expr), LayoutEnd(s, i.pos) + 1)
  {
    hide ParsePostfix, ParseTernary, LayoutEnd;
  }

  lemma GroupRule(s: string, p: nat)
    requires p <= |s| && Sound(ViewOf(s))
    ensures var k := LayoutEnd(s, p);
      ParseGroup(ViewOf(s), p) ==
        if CharAt(s, k) == ')' || IsIdentStart(CharAt(s, k)) then Failed
        else
          var e := Ternary(s, k);
          if e.Failed? || CharAt(s, LayoutEnd(s, e.pos)) != ')' then Failed
          else Parsed(e.expr, LayoutEnd(s, e.pos) + 1)
  {
    hide ParseTernary, LayoutEnd;
  }

  lemma PostfixCases(s: string, e: Expr, p: nat)
    requires p <= |s| && Sound(ViewOf(s))
    ensures var v, q := ViewOf(s), LayoutEnd(s, p);
      var c, next := CharAt(s, q), CharAt(s, q + 1);
      if c == '.' && next == '.' then Postfix(s, e, p) == Parsed(e, q)
      else if c == '.' then Postfix(s, e, p) == ParseField(v, e, LayoutEnd(s, q + 1))
      else if c == '-' && next == '>' then Postfix(s, e, p) == ParseField(v, e, LayoutEnd(s, q + 2))
      else if c == '[' then Postfix(s, e, p) == ParseIndex(v, e, q + 1)
      else if IsStep(c, next) then
        if e.Variable? then Postfix(s, e, p) == Postfix(s, Step(false, c == '+', e), q + 2)
        else Postfix(s, e, p).Failed?
      else Postfix(s, e, p) == Parsed(e, p)
  {
    hide LayoutEnd, ParseField, ParseIndex;
  }

  lemma PostfixRule(s: string, e: Expr, p: nat)
    requires p <= |s|
    ensures var q := LayoutEnd(s, p);
      var c, next := CharAt(s, q), CharAt(s, q + 1);
      if c == '.' && next == '.' then Postfix(s, e, p) == Parsed(e, q)
      else if c == '.' || (c == '-' && next == '>') then
        var k := LayoutEnd(s, if c == '.' then q + 1 else q + 2);
        if !IsIdentStart(CharAt(s, k)) then Postfix(s, e, p).Failed?
        else Postfix(s, e, p) == Postfix(s, Field(e, s[k..IdentEnd(s, k)]), IdentEnd(s, k))
      else if c == '[' then
        var i := Ternary(s, q + 1);
        if i.Failed? || CharAt(s, LayoutEnd(s, i.pos)) != ']' then Postfix(s, e, p).Failed?
        else Postfix(s, e, p) == Postfix(s, Index(e, i.expr), LayoutEnd(s, i.pos) + 1)
      else if IsStep(c, next) then
        if e.Variable? then Postfix(s, e, p) == Postfix(s, Step(false, c == '+', e), q + 2)
        else Postfix(s, e, p).Failed?
      else Postfix(s, e, p) == Parsed(e, p)
  {
    hide LayoutEnd, ParseTernary, IdentEnd, ParsePostfix, ViewOf, Sound, ParseField, ParseIndex;
    ViewIsSound(s);
    PostfixCases(s, e, p);
    var q := LayoutEnd(s, p);
    var c, next := CharAt(s, q), CharAt(s, q + 1);
    if c == '.' || (c == '-' && next == '>') {
      FieldRule(s, e, LayoutEnd(s, if c == '.' then q + 1 else q + 2));
    } else if c == '[' {
      IndexRule(s, e, q + 1);
    }
  }

  // ---------- the postfix rule, operator by operator ----------

  predicate IsAccess(c: char, next: char) {
    (c == '.' && next != '.') || (c == '-' && next == '>')
  }

  predicate IsPostfix(c: char, next: char) {
    c == '.' || (c == '-' && next == '>') || c == '[' || IsStep(c, next)
  }

  lemma RangeStops(s: string, e: Expr, p: nat, q: nat)
    requires p <= |s| && q == LayoutEnd(s, p) && CharAt(s, q) == '.' && CharAt(s, q + 1) == '.'
    ensures Postfix(s, e, p) == Parsed(e, q)
  {
    hide LayoutEnd, Postfix, Ternary, IdentEnd, IsIdentStart, CharAt;
    PostfixRule(s, e, p);
  }

  lemma AccessRule(s: string, e: Expr, p: nat, q: nat, k: nat)
    requires p <= |s| && q == LayoutEnd(s, p) && IsAccess(CharAt(s, q), CharAt(s, q + 1))
    requires (if CharAt(s, q) == '.' then q + 1 else q + 2) <= |s|
    requires k == LayoutEnd(s, if CharAt(s, q) == '.' then q + 1 else q + 2)
    ensures if !IsIdentStart(CharAt(s, k)) then Postfix(s, e, p).Failed?
      else Postfix(s, e, p) == Postfix(s, Field(e, s[k..IdentEnd(s, k)]), IdentEnd(s, k))
  {
    hide LayoutEnd, Postfix, Ternary, IdentEnd, IsIdentStart, CharAt;
    PostfixRule(s, e, p);
  }

  lemma BracketRule(s: string, e: Expr, p: nat, q: nat)
    requires p <= |s| && q == LayoutEnd(s, p) && CharAt(s, q) == '[' && q + 1 <= |s|
    ensures var i := Ternary(s, q + 1);
      if i.Failed? || CharAt(s, LayoutEnd(s, i.pos)) != ']' then Postfix(s, e, p).Failed?
      else LayoutEnd(s, i.pos) + 1 <= |s| && Postfix(s, e, p) == Postfix(s, Index(e, i.expr), LayoutEnd(s, i.pos) + 1)
  {
    CharsInside(s);
    hide LayoutEnd, Postfix, Ternary, IdentEnd, IsIdentStart, CharAt;
    PostfixRule(s, e, p);
  }

  lemma StepRule(s: string, e: Expr, p: nat, q: nat)
    requires p <= |s| && q == LayoutEnd(s, p) && IsStep(CharAt(s, q), CharAt(s, q + 1)) && q + 2 <= |s|
    ensures if e.Variable? then Postfix(s, e, p) == Postfix(s, Step(false, CharAt(s, q) == '+', e), q + 2)
      else Postfix(s, e, p).Failed?
  {
    hide LayoutEnd, Postfix, Ternary, IdentEnd, IsIdentStart, CharAt;
    PostfixRule(s, e, p);
  }

  lemma PostfixEnds(s: string, e: Expr, p: nat, q: nat)
    requires p <= |s| && q == LayoutEnd(s, p) && !IsPostfix(CharAt(s, q), CharAt(s, q + 1))
    ensures Postfix(s, e, p) == Parsed(e, p)
  {
    hide LayoutEnd, Postfix, Ternary, IdentEnd, IsIdentStart, CharAt;
    PostfixRule(s, e, p);
  }

  lemma CharsInside(s: string)
    ensures forall p: nat :: CharAt(s, p) != '\0' ==> p < |s|
  {
  }

  lemma PrimaryRule(s: string, p: nat)
    requires p <= |s|
    ensures var q := LayoutEnd(s, p);
      if CharAt(s, q) == '(' then
        var k := LayoutEnd(s, q + 1);
        if CharAt(s, k) == ')' || IsIdentStart(CharAt(s, k)) then Primary(s, p).Failed?
        else
          var e := Ternary(s, k);
          if e.Failed? || CharAt(s, LayoutEnd(s, e.pos)) != ')' then Primary(s, p).Failed?
          else Primary(s, p) == Parsed(e.expr, LayoutEnd(s, e.pos) + 1)
      else Primary(s, p) == AtomAt(s, q)
  {
    hide LayoutEnd, ParseTernary, AtomAt;
    ViewIsSound(s);
    if CharAt(s, LayoutEnd(s, p)) == '(' {
      GroupRule(s, LayoutEnd(s, p) + 1);
    }
  }
}
