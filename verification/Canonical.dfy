/** Which expressions the parser can produce: exactly those with well-formed tokens, each of which has
    a text with no more parentheses than precedence needs. */
module Canonical {
  import opened Options
  import opened LayoutScan
  import opened Tokens
  import opened Grammar
  import opened Printer
  import opened RoundTrip

  /** Names and numbers are well-formed and only variables are stepped. */
  predicate Wf(e: Expr) {
    match e
    case Variable(name) => IsVariable(name)
    case Integer(digits) => IsDecimal(digits)
    case Text(_) => true
    case Unop(_, x) => Wf(x)
    case Step(_, _, x) => x.Variable? && Wf(x)
    case Binop(l, _, r) => Wf(l) && Wf(r)
    case Index(b, i) => Wf(b) && Wf(i)
    case Field(b, name) => Wf(b) && IsName(name)
    case IfExpr(c, y, n) => Wf(c) && Wf(y) && Wf(n)
  }

  // ---------- every well-formed expression can be written ----------

  function HowAll(v: string): (how: seq<Spelling>)
    ensures CanSpellAll(v, how)
  {
    seq(|v|, i requires 0 <= i < |v| => if v[i] == '"' || v[i] == '\\' || v[i] == '\n' then Named else Plain)
  }

  function Put(c: Syntax, l: nat): Syntax {
    if Level(c) >= l then c else Group(c)
  }

  /** Parentheses only around operands that would otherwise bind too loosely. */
  function Minimal(e: Expr): Syntax
    requires Wf(e)
  {
    match e
    case Variable(name) => Atom(name, e)
    case Integer(digits) => Atom(digits, e)
    case Text(v) => Atom("\"" + (SpellAll(v, HowAll(v)) + "\""), e)
    case Unop(op, x) => Prefixed(op, Put(Minimal(x), UNARY))
    case Step(before, up, x) => Stepped(before, up, x.name)
    case Binop(l, op, r) => Infix(Put(Minimal(l), Prec(op)), InfoOf(op), Put(Minimal(r), Prec(op) + 1))
    case Index(b, i) => Element(Put(Minimal(b), POSTFIX), Minimal(i))
    case Field(b, name) => Member(Put(Minimal(b), POSTFIX), name)
    case IfExpr(c, y, n) => Choice(Put(Minimal(c), 1), Minimal(y), Minimal(n))
  }

  lemma PutPrints(c: Syntax, l: nat)
    requires Print(c, 0).Some? && l <= POSTFIX
    ensures Print(Put(c, l), l).Some? && Erase(Put(c, l)) == Erase(c)
  {
    assert Level(c) >= l ==> Print(c, l) == Print(c, 0);
  }

  lemma {:induction false} MinimalPrints(e: Expr)
    requires Wf(e)
    ensures Print(Minimal(e), 0).Some? && Erase(Minimal(e)) == e
    decreases e, 0
  {
    hide OpText, OpLength, Prec, PrefixChar, StepChar, Put, IsVariable, IsName, IsDecimal;
    match e
    case Variable(_) =>
    case Integer(_) =>
    case Text(_) =>
    case Unop(_, x) => MinimalPuts(x, UNARY);
    case Step(_, _, _) =>
    case Binop(l, op, r) => MinimalPuts(l, Prec(op)); MinimalPuts(r, Prec(op) + 1);
    case Index(b, i) => MinimalPuts(b, POSTFIX); MinimalPrints(i);
    case Field(b, _) => MinimalPuts(b, POSTFIX);
    case IfExpr(c, y, n) => MinimalPuts(c, 1); MinimalPrints(y); MinimalPrints(n);
  }

  lemma {:induction false} MinimalPuts(e: Expr, l: nat)
    requires Wf(e) && l <= POSTFIX
    ensures Print(Put(Minimal(e), l), l).Some? && Erase(Put(Minimal(e), l)) == e
    decreases e, 1
  {
    MinimalPrints(e);
    PutPrints(Minimal(e), l);
  }

  // ---------- every parsed expression is well-formed ----------

  lemma VariableWf(s: string, p: nat)
    requires CharAt(s, p) == '$' && ParseVariable(s, p).Parsed?
    ensures Wf(ParseVariable(s, p).expr)
  {
    var q := IdentEnd(s, p + 1);
    assert s[p..q][1..] == s[p + 1..q];
  }

  lemma AtomWf(s: string, p: nat)
    requires AtomAt(s, p).Parsed?
    ensures Wf(AtomAt(s, p).expr)
  {
    if CharAt(s, p) == '$' {
      VariableWf(s, p);
    }
  }

  /** What the view offers is well-formed. */
  ghost predicate Genuine(v: View) {
    && (forall p: nat :: v.atom(p).Parsed? ==> Wf(v.atom(p).expr))
    && (forall p: nat :: v.name(p).Some? ==> IsName(v.name(p).value.text))
  }

  lemma ViewIsGenuine(s: string)
    ensures Genuine(ViewOf(s))
  {
    var v := ViewOf(s);
    forall p: nat | v.atom(p).Parsed?
      ensures Wf(v.atom(p).expr)
    {
      AtomWf(s, p);
    }
  }

  lemma {:induction false} TernaryWf(v: View, p: nat)
    requires Sound(v) && Genuine(v) && p <= v.size && ParseTernary(v, p).Parsed?
    ensures Wf(ParseTernary(v, p).expr)
    decreases v.size - p, 5
  {
    var c := ParseBinary(v, p, 0);
    BinaryWf(v, p, 0);
    var q := v.skip(c.pos);
    if v.ch(q) == '?' {
      BranchesWf(v, c.expr, v.skip(q + 1));
    }
  }

  lemma {:induction false} BranchesWf(v: View, cond: Expr, p: nat)
    requires Sound(v) && Genuine(v) && p <= v.size && Wf(cond) && ParseBranches(v, cond, p).Parsed?
    ensures Wf(ParseBranches(v, cond, p).expr)
    decreases v.size - p, 6
  {
    if v.ch(p) == ':' {
      TernaryWf(v, p + 1);
    } else {
      TernaryWf(v, p);
      TernaryWf(v, v.skip(ParseTernary(v, p).pos) + 1);
    }
  }

  lemma {:induction false} BinaryWf(v: View, p: nat, m: nat)
    requires Sound(v) && Genuine(v) && p <= v.size && ParseBinary(v, p, m).Parsed?
    ensures Wf(ParseBinary(v, p, m).expr)
    decreases v.size - p, 4
  {
    UnaryWf(v, p);
    ClimbWf(v, ParseUnary(v, p).expr, ParseUnary(v, p).pos, m);
  }

  lemma {:induction false} ClimbWf(v: View, left: Expr, p: nat, m: nat)
    requires Sound(v) && Genuine(v) && p <= v.size && Wf(left) && Climb(v, left, p, m).Parsed?
    ensures Wf(Climb(v, left, p, m).expr)
    decreases v.size - p, 7
  {
    var q := v.skip(p);
    var info := v.binop(q);
    if info.Some? && info.value.prec >= m {
      var right := ParseBinary(v, q + info.value.length, info.value.prec + 1);
      BinaryWf(v, q + info.value.length, info.value.prec + 1);
      ClimbWf(v, Binop(left, info.value.op, right.expr), right.pos, m);
    }
  }

  lemma {:induction false} UnaryWf(v: View, p: nat)
    requires Sound(v) && Genuine(v) && p <= v.size && ParseUnary(v, p).Parsed?
    ensures Wf(ParseUnary(v, p).expr)
    decreases v.size - p, 3
  {
    var q := v.skip(p);
    var c, next := v.ch(q), v.ch(q + 1);
    if IsStep(c, next) {
      UnaryWf(v, q + 2);
    } else if PrefixOf(c, next).Some? {
      UnaryWf(v, q + 1);
    } else {
      ChainWf(v, q);
    }
  }

  lemma {:induction false} ChainWf(v: View, p: nat)
    requires Sound(v) && Genuine(v) && p <= v.size && ParseChain(v, p).Parsed?
    ensures Wf(ParseChain(v, p).expr)
    decreases v.size - p, 2
  {
    PrimaryWf(v, p);
    PostfixWf(v, ParsePrimary(v, p).expr, ParsePrimary(v, p).pos);
  }

  lemma {:induction false} PostfixWf(v: View, e: Expr, p: nat)
    requires Sound(v) && Genuine(v) && p <= v.size && Wf(e) && ParsePostfix(v, e, p).Parsed?
    ensures Wf(ParsePostfix(v, e, p).expr)
    decreases v.size - p, 7
  {
    var q := v.skip(p);
    var c, next := v.ch(q), v.ch(q + 1);
    if c == '.' && next == '.' {
    } else if c == '.' {
      FieldWf(v, e, v.skip(q + 1));
    } else if c == '-' && next == '>' {
      FieldWf(v, e, v.skip(q + 2));
    } else if c == '[' {
      IndexWf(v, e, q + 1);
    } else if IsStep(c, next) {
      PostfixWf(v, Step(false, c == '+', e), q + 2);
    }
  }

  lemma {:induction false} FieldWf(v: View, e: Expr, p: nat)
    requires Sound(v) && Genuine(v) && p <= v.size && Wf(e) && ParseField(v, e, p).Parsed?
    ensures Wf(ParseField(v, e, p).expr)
    decreases v.size - p, 8
  {
    var n := v.name(p).value;
    PostfixWf(v, Field(e, n.text), n.pos);
  }

  lemma {:induction false} IndexWf(v: View, e: Expr, p: nat)
    requires Sound(v) && Genuine(v) && p <= v.size && Wf(e) && ParseIndex(v, e, p).Parsed?
    ensures Wf(ParseIndex(v, e, p).expr)
    decreases v.size - p, 8
  {
    var i := ParseTernary(v, p);
    TernaryWf(v, p);
    PostfixWf(v, Index(e, i.expr), v.skip(i.pos) + 1);
  }

  lemma {:induction false} PrimaryWf(v: View, p: nat)
    requires Sound(v) && Genuine(v) && p <= v.size && ParsePrimary(v, p).Parsed?
    ensures Wf(ParsePrimary(v, p).expr)
    decreases v.size - p, 1
  {
    var q := v.skip(p);
    if v.ch(q) == '(' {
      TernaryWf(v, v.skip(q + 1));
    }
  }

  // ---------- the expressions of the language ----------

  lemma MinimalParses(e: Expr) returns (s: string)
    requires Wf(e)
    ensures Print(Minimal(e), 0) == Some(s)
    ensures ParseExpression(s, 0) == Parsed(e, |s|)
  {
    hide ParseExpression, Print, Minimal;
    MinimalPrints(e);
    s := Print(Minimal(e), 0).value;
    PrintParse(Minimal(e), s);
  }

  lemma ParsedWf(s: string, p: nat)
    requires p <= |s| && ParseExpression(s, p).Parsed?
    ensures Wf(ParseExpression(s, p).expr)
  {
    hide ViewOf, ParseTernary, Sound, Genuine;
    ViewIsSound(s);
    ViewIsGenuine(s);
    TernaryWf(ViewOf(s), p);
  }

  /** The parser produces exactly the well-formed expressions. */
  lemma ParsableIffWf(e: Expr)
    ensures Wf(e) <==> exists s: string :: ParseExpression(s, 0) == Parsed(e, |s|)
  {
    hide ParseExpression;
    if Wf(e) {
      var s := MinimalParses(e);
    }
    forall s: string | ParseExpression(s, 0) == Parsed(e, |s|)
      ensures Wf(e)
    {
      ParsedWf(s, 0);
    }
  }

  /** Whatever text an expression was read from, writing it out again and reading that text gives the
      same expression. */
  lemma Reformat(s: string, p: nat) returns (t: string)
    requires p <= |s| && ParseExpression(s, p).Parsed?
    ensures Wf(ParseExpression(s, p).expr) && Print(Minimal(ParseExpression(s, p).expr), 0) == Some(t)
    ensures ParseExpression(t, 0) == Parsed(ParseExpression(s, p).expr, |t|)
  {
    ParsedWf(s, p);
    t := MinimalParses(ParseExpression(s, p).expr);
  }
}
