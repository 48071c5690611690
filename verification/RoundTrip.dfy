/** The parser reads every way to write an expression back as that expression. */
module RoundTrip {
  import opened Options
  import opened Tokens
  import opened Grammar
  import opened Printer

  // ---------- from characters to tokens ----------

  lemma {:induction false} PrintMatches(c: Syntax, l: nat, t: string, s: string, p: nat)
    requires Print(c, l) == Some(t) && At(s, p, t) && TokenEnds(s, p + |t|)
    ensures Match(ViewOf(s), p, c, l) == Some(p + |t|)
    decreases c, 1
  {
    hide ViewOf, IsAtom;
    match c
    case Atom(text, e) => AtomText(s, p, text, e);
    case Prefixed(op, x) =>
      var xt := Print(x, UNARY).value;
      PrintStart(x, UNARY);
      PrefixText(s, p, op, xt);
      PrintMatches(x, UNARY, xt, s, p + 2);
    case Stepped(before, up, name) => SteppedMatches(before, up, name, t, s, p);
    case Infix(_, _, _) => InfixMatches(c, l, t, s, p);
    case Element(_, _) => ElementMatches(c, l, t, s, p);
    case Member(b, name) =>
      var bt := Print(b, POSTFIX).value;
      MemberText(s, p, bt, name);
      PrintMatches(b, POSTFIX, bt, s, p);
    case Choice(_, _, _) => ChoiceMatches(c, l, t, s, p);
    case Group(_) => GroupMatches(c, l, t, s, p);
  }

  lemma {:induction false} InfixMatches(c: Syntax, l: nat, t: string, s: string, p: nat)
    requires c.Infix? && Print(c, l) == Some(t) && At(s, p, t) && TokenEnds(s, p + |t|)
    ensures Match(ViewOf(s), p, c, l) == Some(p + |t|)
    decreases c, 0
  {
    hide ViewOf, IsAtom, At, TokenEnds, Starts, Joins, OpText, Prec, OpLength;
    var info := c.info;
    var xt, yt := Print(c.left, info.prec).value, Print(c.right, info.prec + 1).value;
    PrintStart(c.right, info.prec + 1);
    InfixText(s, p, xt, info.op, yt);
    PrintMatches(c.left, info.prec, xt, s, p);
    PrintMatches(c.right, info.prec + 1, yt, s, p + |xt| + info.length + 2);
  }

  lemma {:induction false} ElementMatches(c: Syntax, l: nat, t: string, s: string, p: nat)
    requires c.Element? && Print(c, l) == Some(t) && At(s, p, t)
    ensures Match(ViewOf(s), p, c, l) == Some(p + |t|)
    decreases c, 0
  {
    hide ViewOf, At, TokenEnds, Starts, Print, Match, Shuts, Opens;
    var bt, it := ElementPrint(c, l, t);
    ElementText(s, p, bt, it);
    PrintMatches(c.base, POSTFIX, bt, s, p);
    PrintMatches(c.index, 0, it, s, p + |bt| + 1);
    ElementMatch(c, l, ViewOf(s), p, p + |bt|, p + |bt| + 1 + |it|);
  }

  lemma ElementPrint(c: Syntax, l: nat, t: string) returns (bt: string, it: string)
    requires c.Element? && Print(c, l) == Some(t)
    ensures l <= POSTFIX && t == bt + ("[" + (it + ("]" + "")))
    ensures Print(c.base, POSTFIX) == Some(bt) && Print(c.index, 0) == Some(it)
  {
    bt, it := Print(c.base, POSTFIX).value, Print(c.index, 0).value;
  }

  lemma ElementMatch(c: Syntax, l: nat, v: View, p: nat, q: nat, r: nat)
    requires c.Element? && l <= POSTFIX && Match(v, p, c.base, POSTFIX) == Some(q) && Opens(v, q, '[')
    requires Match(v, q + 1, c.index, 0) == Some(r) && Shuts(v, r, ']')
    ensures Match(v, p, c, l) == Some(r + 1)
  {
    hide Marks, ShowsAtom, ShowsPrefix, MatchStep, Joins, Opens, ShowsMember, Begins, Shuts;
  }

  lemma {:induction false} ChoiceMatches(c: Syntax, l: nat, t: string, s: string, p: nat)
    requires c.Choice? && Print(c, l) == Some(t) && At(s, p, t) && TokenEnds(s, p + |t|)
    ensures Match(ViewOf(s), p, c, l) == Some(p + |t|)
    decreases c, 0
  {
    hide ViewOf, At, TokenEnds, Starts, Marks, Print, Match;
    var xt, yt, nt := ChoicePrint(c, l, t);
    PrintStart(c.yes, 0);
    PrintStart(c.no, 0);
    ChoiceText(s, p, xt, yt, nt);
    PrintMatches(c.cond, 1, xt, s, p);
    PrintMatches(c.yes, 0, yt, s, p + |xt| + 3);
    PrintMatches(c.no, 0, nt, s, p + |xt| + 3 + |yt| + 3);
    ChoiceMatch(c, l, ViewOf(s), p, p + |xt|, p + |xt| + 3 + |yt|);
  }

  lemma ChoicePrint(c: Syntax, l: nat, t: string) returns (xt: string, yt: string, nt: string)
    requires c.Choice? && Print(c, l) == Some(t)
    ensures l == 0 && t == xt + (" ? " + (yt + (" : " + nt)))
    ensures Print(c.cond, 1) == Some(xt) && Print(c.yes, 0) == Some(yt) && Print(c.no, 0) == Some(nt)
  {
    xt, yt, nt := Print(c.cond, 1).value, Print(c.yes, 0).value, Print(c.no, 0).value;
  }

  lemma ChoiceMatch(c: Syntax, l: nat, v: View, p: nat, q: nat, r: nat)
    requires c.Choice? && l == 0 && Match(v, p, c.cond, 1) == Some(q) && Marks(v, q, '?')
    requires Match(v, q + 3, c.yes, 0) == Some(r) && Marks(v, r, ':')
    ensures Match(v, p, c, l) == Match(v, r + 3, c.no, 0)
  {
    hide Marks, ShowsAtom, ShowsPrefix, MatchStep, Joins, Opens, ShowsMember, Begins, Shuts;
  }

  lemma {:induction false} GroupMatches(c: Syntax, l: nat, t: string, s: string, p: nat)
    requires c.Group? && Print(c, l) == Some(t) && At(s, p, t)
    ensures Match(ViewOf(s), p, c, l) == Some(p + |t|)
    decreases c, 0
  {
    hide ViewOf, IsAtom;
    var xt := Print(c.inner, 0).value;
    PrintStart(c.inner, 0);
    GroupText(s, p, xt);
    PrintMatches(c.inner, 0, xt, s, p + 1);
  }

  lemma VariableIsAtom(name: string)
    requires IsVariable(name)
    ensures IsAtom(name, Variable(name))
  {
  }

  lemma SteppedMatches(before: bool, up: bool, name: string, t: string, s: string, p: nat)
    requires IsVariable(name)
    requires var step := [StepChar(up), StepChar(up)]; t == if before then step + name else name + step
    requires At(s, p, t) && TokenEnds(s, p + |t|)
    ensures MatchStep(ViewOf(s), p, before, up, name) == Some(p + |t|)
  {
    hide ViewOf, IsVariable;
    VariableIsAtom(name);
    var step := [StepChar(up), StepChar(up)];
    if before {
      AtConcat(s, p, step, name);
      StepText(s, p, up);
      AtomText(s, p + 2, name, Variable(name));
    } else {
      AtConcat(s, p, name, step);
      StepText(s, p + |name|, up);
      AtomText(s, p, name, Variable(name));
    }
  }

  // ---------- grammar rules ----------

  /** The precedence of the binary operator that follows, 0 if there is none. */
  function NextPrec(v: View, p: nat): nat {
    var info := v.binop(v.skip(p));
    if info.None? then 0 else info.value.prec
  }

  /** Nothing that would continue an expression follows. */
  predicate Follows(v: View, p: nat) {
    NoPostfix(v, p) && v.binop(v.skip(p)).None? && v.ch(v.skip(p)) != '?'
  }

  lemma SameUnary(v: View, p: nat, q: nat)
    requires Sound(v) && p <= v.size && q <= v.size && v.skip(p) == v.skip(q)
    ensures ParseUnary(v, p) == ParseUnary(v, q)
  {
  }

  /** Layout in front of an expression does not matter. */
  lemma SameBinary(v: View, p: nat, q: nat, m: nat)
    requires Sound(v) && p <= v.size && q <= v.size && v.skip(p) == v.skip(q)
    ensures ParseBinary(v, p, m) == ParseBinary(v, q, m)
  {
    SameUnary(v, p, q);
  }

  lemma SameTernary(v: View, p: nat, q: nat)
    requires Sound(v) && p <= v.size && q <= v.size && v.skip(p) == v.skip(q)
    ensures ParseTernary(v, p) == ParseTernary(v, q)
  {
    hide ParseBinary, ParseBranches;
    SameBinary(v, p, q, 0);
  }

  lemma ClimbStops(v: View, e: Expr, p: nat, m: nat)
    requires Sound(v) && p <= v.size && (v.binop(v.skip(p)).None? || NextPrec(v, p) < m)
    ensures Climb(v, e, p, m) == Parsed(e, p)
  {
  }

  lemma ClimbStep(v: View, l: Expr, p: nat, m: nat, info: BinopInfo, right: Parse)
    requires Sound(v) && p <= v.size && v.binop(v.skip(p)) == Some(info) && m <= info.prec
    requires ParseBinary(v, v.skip(p) + info.length, info.prec + 1) == right && right.Parsed?
    ensures Climb(v, l, p, m) == Climb(v, Binop(l, info.op, right.expr), right.pos, m)
  {
  }

  lemma InfixRule(v: View, l: Expr, q: nat, m: nat, info: BinopInfo, r: Expr, end: nat)
    requires Sound(v) && q + info.length + 2 <= end <= v.size && Joins(v, q, info) && m <= info.prec
    requires ParseBinary(v, q + info.length + 2, info.prec + 1) == Climb(v, r, end, info.prec + 1)
    requires NextPrec(v, end) <= info.prec
    ensures Climb(v, l, q, m) == Climb(v, Binop(l, info.op, r), end, m)
  {
    SameBinary(v, q + info.length + 1, q + info.length + 2, info.prec + 1);
    ClimbStops(v, r, end, info.prec + 1);
    ClimbStep(v, l, q, m, info, Parsed(r, end));
  }

  lemma ChoiceRule(v: View, p: nat, x: Expr, q: nat, y: Expr, r: nat, n: Expr, end: nat)
    requires Sound(v) && p <= q && q + 3 <= r && r + 3 <= end <= v.size && Marks(v, q, '?') && Marks(v, r, ':')
    requires ParseBinary(v, p, 0) == Climb(v, x, q, 0)
    requires ParseTernary(v, q + 3) == Parsed(y, r) && ParseTernary(v, r + 3) == Parsed(n, end)
    ensures ParseTernary(v, p) == Parsed(IfExpr(x, y, n), end)
  {
    hide ParseBinary, ParseBranches, Climb;
    ClimbStops(v, x, q, 0);
    SameTernary(v, r + 2, r + 3);
    BothBranches(v, x, y, r, n, end, q + 3);
  }

  lemma BothBranches(v: View, x: Expr, y: Expr, r: nat, n: Expr, end: nat, p: nat)
    requires Sound(v) && p <= r && r + 2 <= v.size && v.ch(p) != ':' && v.skip(r) == r + 1 && v.ch(r + 1) == ':'
    requires ParseTernary(v, p) == Parsed(y, r) && ParseTernary(v, r + 2) == Parsed(n, end)
    ensures ParseBranches(v, x, p) == Parsed(IfExpr(x, y, n), end)
  {
    hide ParseTernary;
  }

  lemma PlainRule(v: View, p: nat, x: Expr, end: nat)
    requires Sound(v) && p <= end <= v.size && Follows(v, end)
    requires ParseBinary(v, p, 0) == Climb(v, x, end, 0)
    ensures ParseTernary(v, p) == Parsed(x, end)
  {
    ClimbStops(v, x, end, 0);
  }

  lemma OperandRule(v: View, p: nat, x: Expr, end: nat, m: nat)
    requires Sound(v) && p <= v.size && ParseUnary(v, p) == Parsed(x, end)
    ensures ParseBinary(v, p, m) == Climb(v, x, end, m)
  {
  }

  lemma PrefixRule(v: View, p: nat, op: Prefix, x: Expr, end: nat)
    requires Sound(v) && p + 2 <= v.size && ShowsPrefix(v, p, op)
    requires ParseUnary(v, p + 2) == Parsed(x, end)
    ensures ParseUnary(v, p) == Parsed(Unop(op, x), end)
  {
    SameUnary(v, p + 1, p + 2);
  }

  lemma ChainRule(v: View, p: nat, x: Expr, end: nat)
    requires Sound(v) && p <= end <= v.size && v.skip(p) == p && StartsChain(v.ch(p)) && NoPostfix(v, end)
    requires ParseChain(v, p) == ParsePostfix(v, x, end)
    ensures ParseUnary(v, p) == Parsed(x, end)
  {
    assert ParsePostfix(v, x, end) == Parsed(x, end);
  }

  lemma AtomRule(v: View, p: nat, text: string, e: Expr)
    requires Sound(v) && p + |text| <= v.size && ShowsAtom(v, p, text, e)
    ensures ParseChain(v, p) == ParsePostfix(v, e, p + |text|)
  {
  }

  lemma BeforeRule(v: View, p: nat, up: bool, name: string)
    requires Sound(v) && p + 2 + |name| <= v.size && ShowsStep(v, p, up)
    requires ShowsAtom(v, p + 2, name, Variable(name)) && NoPostfix(v, p + 2 + |name|)
    ensures ParseUnary(v, p) == Parsed(Step(true, up, Variable(name)), p + 2 + |name|)
  {
    AtomRule(v, p + 2, name, Variable(name));
    ChainRule(v, p + 2, Variable(name), p + 2 + |name|);
  }

  lemma AfterRule(v: View, p: nat, up: bool, name: string)
    requires Sound(v) && p + |name| + 2 <= v.size && ShowsStep(v, p + |name|, up)
    requires ShowsAtom(v, p, name, Variable(name))
    ensures ParseChain(v, p) == ParsePostfix(v, Step(false, up, Variable(name)), p + |name| + 2)
  {
    AtomRule(v, p, name, Variable(name));
  }

  lemma ElementRule(v: View, p: nat, b: Expr, q: nat, i: Expr, r: nat)
    requires Sound(v) && p <= q < r < v.size && Opens(v, q, '[') && Shuts(v, r, ']')
    requires ParseChain(v, p) == ParsePostfix(v, b, q) && ParseTernary(v, q + 1) == Parsed(i, r)
    ensures ParseChain(v, p) == ParsePostfix(v, Index(b, i), r + 1)
  {
    assert ParsePostfix(v, b, q) == ParseIndex(v, b, q + 1);
  }

  lemma MemberRule(v: View, p: nat, b: Expr, q: nat, name: string)
    requires Sound(v) && p <= q && q + 1 + |name| <= v.size && ShowsMember(v, q, name)
    requires ParseChain(v, p) == ParsePostfix(v, b, q)
    ensures ParseChain(v, p) == ParsePostfix(v, Field(b, name), q + 1 + |name|)
  {
    assert ParsePostfix(v, b, q) == ParseField(v, b, q + 1);
  }

  lemma GroupRule(v: View, p: nat, x: Expr, r: nat)
    requires Sound(v) && p < r < v.size && Opens(v, p, '(') && Begins(v, p + 1) && Shuts(v, r, ')')
    requires ParseTernary(v, p + 1) == Parsed(x, r)
    ensures ParseChain(v, p) == ParsePostfix(v, x, r + 1)
  {
    assert ParseGroup(v, p + 1) == Parsed(x, r + 1);
  }

  // ---------- the parts of a construct ----------

  lemma InfixParts(v: View, p: nat, x: Syntax, info: BinopInfo, y: Syntax, l: nat, q: nat) returns (k: nat)
    requires Match(v, p, Infix(x, info, y), l) == Some(q)
    ensures l <= info.prec && p <= k && k + info.length + 2 <= q
    ensures Match(v, p, x, info.prec) == Some(k) && Joins(v, k, info)
    ensures Match(v, k + info.length + 2, y, info.prec + 1) == Some(q)
  {
    hide ShowsAtom, ShowsPrefix, MatchStep, Joins, Opens, ShowsMember, Begins, Shuts, Marks;
    k := Match(v, p, x, info.prec).value;
  }

  lemma PrefixParts(v: View, p: nat, op: Prefix, x: Syntax, l: nat, q: nat)
    requires Match(v, p, Prefixed(op, x), l) == Some(q)
    ensures p + 2 <= q && ShowsPrefix(v, p, op) && Match(v, p + 2, x, UNARY) == Some(q)
  {
    hide ShowsAtom, ShowsPrefix, MatchStep, Joins, Opens, ShowsMember, Begins, Shuts, Marks;
  }

  lemma SteppedParts(v: View, p: nat, before: bool, up: bool, name: string, l: nat, q: nat)
    requires Match(v, p, Stepped(before, up, name), l) == Some(q)
    ensures q == p + |name| + 2 && ShowsStep(v, if before then p else p + |name|, up)
    ensures ShowsAtom(v, if before then p + 2 else p, name, Variable(name))
  {
  }

  lemma AtomParts(v: View, p: nat, text: string, e: Expr, l: nat, q: nat)
    requires Match(v, p, Atom(text, e), l) == Some(q)
    ensures ShowsAtom(v, p, text, e) && q == p + |text|
  {
    hide ShowsAtom, ShowsPrefix, MatchStep, Joins, Opens, ShowsMember, Begins, Shuts, Marks;
  }

  lemma ElementParts(v: View, p: nat, b: Syntax, i: Syntax, l: nat, q: nat) returns (k: nat)
    requires Match(v, p, Element(b, i), l) == Some(q)
    ensures p <= k < q - 1 && Match(v, p, b, POSTFIX) == Some(k) && Opens(v, k, '[')
    ensures Match(v, k + 1, i, 0) == Some((q - 1) as nat) && Shuts(v, q - 1, ']')
  {
    hide ShowsAtom, ShowsPrefix, MatchStep, Joins, Opens, ShowsMember, Begins, Shuts, Marks;
    k := Match(v, p, b, POSTFIX).value;
  }

  lemma MemberParts(v: View, p: nat, b: Syntax, name: string, l: nat, q: nat) returns (k: nat)
    requires Match(v, p, Member(b, name), l) == Some(q)
    ensures p <= k && Match(v, p, b, POSTFIX) == Some(k) && ShowsMember(v, k, name) && q == k + 1 + |name|
  {
    hide ShowsAtom, ShowsPrefix, MatchStep, Joins, Opens, ShowsMember, Begins, Shuts, Marks;
    k := Match(v, p, b, POSTFIX).value;
  }

  lemma ChoiceParts(v: View, p: nat, x: Syntax, y: Syntax, n: Syntax, l: nat, q: nat) returns (k: nat, r: nat)
    requires Match(v, p, Choice(x, y, n), l) == Some(q)
    ensures p <= k && k + 3 <= r && r + 3 <= q
    ensures Match(v, p, x, 1) == Some(k) && Marks(v, k, '?')
    ensures Match(v, k + 3, y, 0) == Some(r) && Marks(v, r, ':') && Match(v, r + 3, n, 0) == Some(q)
  {
    hide ShowsAtom, ShowsPrefix, MatchStep, Joins, Opens, ShowsMember, Begins, Shuts, Marks;
    k := Match(v, p, x, 1).value;
    r := Match(v, k + 3, y, 0).value;
  }

  lemma GroupParts(v: View, p: nat, x: Syntax, l: nat, q: nat)
    requires Match(v, p, Group(x), l) == Some(q)
    ensures p < q - 1 && Opens(v, p, '(') && Begins(v, p + 1)
    ensures Match(v, p + 1, x, 0) == Some((q - 1) as nat) && Shuts(v, q - 1, ')')
  {
    hide ShowsAtom, ShowsPrefix, MatchStep, Joins, Opens, ShowsMember, Begins, Shuts, Marks;
  }

  // ---------- from tokens to the expression ----------

  lemma {:induction false} TernaryReads(c: Syntax, v: View, p: nat, q: nat)
    requires Sound(v) && Match(v, p, c, 0) == Some(q) && q <= v.size && Follows(v, q)
    ensures ParseTernary(v, p) == Parsed(Erase(c), q)
    decreases c, 4
  {
    hide Match, ParseTernary, ParseBinary, ParseUnary, ParseChain, ParsePostfix, Climb;
    if c.Choice? {
      var k, r := ChoiceParts(v, p, c.cond, c.yes, c.no, 0, q);
      BinaryReads(c.cond, 1, 0, v, p, k);
      TernaryReads(c.yes, v, k + 3, r);
      TernaryReads(c.no, v, r + 3, q);
      ChoiceRule(v, p, Erase(c.cond), k, Erase(c.yes), r, Erase(c.no), q);
    } else {
      BinaryReads(c, 0, 0, v, p, q);
      PlainRule(v, p, Erase(c), q);
    }
  }

  lemma {:induction false} BinaryReads(c: Syntax, l: nat, m: nat, v: View, p: nat, q: nat)
    requires Sound(v) && Match(v, p, c, l) == Some(q) && q <= v.size && !c.Choice?
    requires m <= l && NoPostfix(v, q) && NextPrec(v, q) <= l
    ensures ParseBinary(v, p, m) == Climb(v, Erase(c), q, m)
    decreases c, 3
  {
    hide Match, ParseTernary, ParseBinary, ParseUnary, ParseChain, ParsePostfix, Climb;
    if c.Infix? {
      var info := c.info;
      var k := InfixParts(v, p, c.left, info, c.right, l, q);
      BinaryReads(c.left, info.prec, m, v, p, k);
      BinaryReads(c.right, info.prec + 1, info.prec + 1, v, k + info.length + 2, q);
      InfixRule(v, Erase(c.left), k, m, info, Erase(c.right), q);
    } else {
      UnaryReads(c, l, v, p, q);
      OperandRule(v, p, Erase(c), q, m);
    }
  }

  lemma {:induction false} UnaryReads(c: Syntax, l: nat, v: View, p: nat, q: nat)
    requires Sound(v) && Match(v, p, c, l) == Some(q) && q <= v.size
    requires !c.Choice? && !c.Infix? && NoPostfix(v, q)
    ensures ParseUnary(v, p) == Parsed(Erase(c), q)
    decreases c, 2
  {
    hide Match, ParseTernary, ParseBinary, ParseUnary, ParseChain, ParsePostfix, Climb;
    if c.Prefixed? {
      PrefixParts(v, p, c.prefix, c.arg, l, q);
      UnaryReads(c.arg, UNARY, v, p + 2, q);
      PrefixRule(v, p, c.prefix, Erase(c.arg), q);
    } else if c.Stepped? && c.before {
      SteppedParts(v, p, true, c.up, c.name, l, q);
      BeforeRule(v, p, c.up, c.name);
    } else {
      ChainReads(c, l, v, p, q);
      ChainRule(v, p, Erase(c), q);
    }
  }

  lemma {:induction false} ChainReads(c: Syntax, l: nat, v: View, p: nat, q: nat)
    requires Sound(v) && Match(v, p, c, l) == Some(q) && q <= v.size
    requires Level(c) >= POSTFIX && !c.Infix?
    ensures ParseChain(v, p) == ParsePostfix(v, Erase(c), q)
    ensures v.skip(p) == p && StartsChain(v.ch(p))
    decreases c, 1
  {
    hide Match, ParseTernary, ParseBinary, ParseUnary, ParseChain, ParsePostfix, Climb;
    match c
    case Atom(text, e) =>
      AtomParts(v, p, text, e, l, q);
      AtomRule(v, p, text, e);
    case Stepped(_, up, name) =>
      SteppedParts(v, p, false, up, name, l, q);
      AfterRule(v, p, up, name);
    case Element(b, i) => ElementReads(b, i, l, v, p, q);
    case Member(b, name) =>
      var k := MemberParts(v, p, b, name, l, q);
      ChainReads(b, POSTFIX, v, p, k);
      MemberRule(v, p, Erase(b), k, name);
    case Group(x) =>
      GroupParts(v, p, x, l, q);
      TernaryReads(x, v, p + 1, q - 1);
      GroupRule(v, p, Erase(x), q - 1);
  }

  lemma {:induction false} ElementReads(b: Syntax, i: Syntax, l: nat, v: View, p: nat, q: nat)
    requires Sound(v) && Match(v, p, Element(b, i), l) == Some(q) && q <= v.size
    ensures ParseChain(v, p) == ParsePostfix(v, Index(Erase(b), Erase(i)), q)
    ensures v.skip(p) == p && StartsChain(v.ch(p))
    decreases Element(b, i), 0
  {
    hide Match, ParseTernary, ParseBinary, ParseUnary, ParseChain, ParsePostfix, Climb;
    var k := ElementParts(v, p, b, i, l, q);
    ChainReads(b, POSTFIX, v, p, k);
    TernaryReads(i, v, k + 1, q - 1);
    ElementRule(v, p, Erase(b), k, Erase(i), q - 1);
  }

  lemma EndFollows(s: string)
    ensures Follows(ViewOf(s), |s|)
  {
  }

  /** Writing an expression in any way the grammar allows and parsing the text gives the expression
      back, all of the text being consumed. */
  lemma PrintParse(c: Syntax, s: string)
    requires Print(c, 0) == Some(s)
    ensures ParseExpression(s, 0) == Parsed(Erase(c), |s|)
  {
    hide ViewOf, Print, Match, ParseTernary;
    assert s[0..|s|] == s;
    PrintMatches(c, 0, s, s, 0);
    ViewIsSound(s);
    EndFollows(s);
    TernaryReads(c, ViewOf(s), 0, |s|);
  }
}
