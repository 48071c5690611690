/** Ways to write an expression: syntax trees with their parentheses, the text of each, and what the
    parser sees of that text token by token. That it is read back is the subject of `RoundTrip`. */
module Printer {
  import opened Options
  import opened LayoutScan
  import opened Tokens
  import opened Grammar

  // ---------- printing ----------

  const UNARY: nat := 11
  const POSTFIX: nat := 12

  function OpText(op: Operator): (t: string)
    ensures |t| == OpLength(op)
  {
    match op
    case LOR => "||"
    case LAND => "&&"
    case BOR => "|"
    case BXOR => "^"
    case BAND => "&"
    case EQ => "=="
    case NE => "!="
    case LE => "<="
    case GE => ">="
    case LT => "<"
    case GT => ">"
    case LEFT => "<<"
    case RIGHT => ">>"
    case PLUS => "+"
    case MINUS => "-"
    case MUL => "*"
    case DIV => "/"
    case MOD => "%"
  }

  function PrefixChar(p: Prefix): char {
    match p
    case Deref => '*'
    case Not => '!'
    case Complement => '~'
    case Negate => '-'
  }

  function StepChar(up: bool): char {
    if up then '+' else '-'
  }

  /** Concrete syntax: an expression together with the parentheses and the spelling of literals of one
      way to write it. */
  datatype Syntax =
    | Atom(text: string, expr: Expr)
    | Prefixed(prefix: Prefix, arg: Syntax)
    | Stepped(before: bool, up: bool, name: string)
    | Infix(left: Syntax, info: BinopInfo, right: Syntax)
    | Element(base: Syntax, index: Syntax)
    | Member(base: Syntax, field: string)
    | Choice(cond: Syntax, yes: Syntax, no: Syntax)
    | Group(inner: Syntax)

  /** How tightly the outermost construct binds. */
  function Level(c: Syntax): nat {
    match c
    case Prefixed(_, _) => UNARY
    case Stepped(before, _, _) => if before then UNARY else POSTFIX
    case Infix(_, info, _) => info.prec
    case Choice(_, _, _) => 0
    case _ => POSTFIX
  }

  ghost predicate IsAtom(text: string, e: Expr) {
    match e
    case Variable(name) => text == name && IsVariable(name)
    case Integer(digits) => text == digits && IsDecimal(digits)
    case Text(v) => exists how :: CanSpellAll(v, how) && text == "\"" + (SpellAll(v, how) + "\"")
    case _ => false
  }

  predicate IsVariable(name: string) {
    |name| > 0 && name[0] == '$' && IsName(name[1..])
  }

  /** The expression that is meant. */
  function Erase(c: Syntax): Expr {
    match c
    case Atom(_, e) => e
    case Prefixed(p, x) => Unop(p, Erase(x))
    case Stepped(before, up, name) => Step(before, up, Variable(name))
    case Infix(l, info, r) => Binop(Erase(l), info.op, Erase(r))
    case Element(b, i) => Index(Erase(b), Erase(i))
    case Member(b, name) => Field(Erase(b), name)
    case Choice(x, y, n) => IfExpr(Erase(x), Erase(y), Erase(n))
    case Group(x) => Erase(x)
  }

  function Join(t: Option<string>, mark: string, u: Option<string>): Option<string> {
    if t.None? || u.None? then None else Some(t.value + (mark + u.value))
  }

  /** The text of `c` in a place where only constructs of level `l` or above may stand: operators
      associate to the left and a choice stands only where a whole expression may. There is none if an
      operand binds too loosely for its place or a token is not one of the language's. */
  ghost function Print(c: Syntax, l: nat): Option<string>
    decreases c
  {
    if Level(c) < l then None
    else
      match c
      case Atom(text, e) => if IsAtom(text, e) then Some(text) else None
      case Prefixed(op, x) => Join(Some([PrefixChar(op)]), " ", Print(x, UNARY))
      case Stepped(before, up, name) =>
        var step := [StepChar(up), StepChar(up)];
        if IsVariable(name) then Some(if before then step + name else name + step) else None
      case Infix(x, info, y) =>
        if info != InfoOf(info.op) then None
        else Join(Print(x, info.prec), " " + (OpText(info.op) + " "), Print(y, info.prec + 1))
      case Element(b, i) => Join(Print(b, POSTFIX), "[", Join(Print(i, 0), "]", Some("")))
      case Member(b, name) => if IsName(name) then Join(Print(b, POSTFIX), ".", Some(name)) else None
      case Choice(x, y, n) => Join(Print(x, 1), " ? ", Join(Print(y, 0), " : ", Print(n, 0)))
      case Group(x) => Join(Some("("), "", Join(Print(x, 0), ")", Some("")))
  }

  // ---------- first characters ----------

  predicate StartChar(c: char) {
    || c == '$' || IsDigit(c) || c == '"' || c == '(' || c == '*' || c == '!' || c == '~' || c == '-' || c == '+'
  }

  predicate Starts(t: string) {
    |t| > 0 && StartChar(t[0])
  }

  lemma {:induction false} PrintStart(c: Syntax, l: nat)
    requires Print(c, l).Some?
    ensures Starts(Print(c, l).value)
    decreases c
  {
    match c
    case Atom(_, e) => if e.Integer? { assert IsDigit(e.digits[0]); }
    case Infix(x, info, _) => PrintStart(x, info.prec);
    case Element(b, _) => PrintStart(b, POSTFIX);
    case Member(b, _) => PrintStart(b, POSTFIX);
    case Choice(x, _, _) => PrintStart(x, 1);
    case _ =>
  }

  /** Printed text starts with something that is not layout. */
  lemma NoLayout(s: string, p: nat)
    requires p < |s| && StartChar(s[p])
    ensures LayoutEnd(s, p) == p && ScanLayout(s, p) == p
  {
  }

  lemma OneSpace(s: string, p: nat)
    requires p + 1 < |s| && s[p] == ' ' && StartChar(s[p + 1])
    ensures LayoutEnd(s, p) == p + 1 && ScanLayout(s, p) == p + 1
  {
    NoLayout(s, p + 1);
  }

  // ---------- tokens read back ----------

  /** A name or number ends here. */
  predicate TokenEnds(s: string, p: nat) {
    !IsIdentBody(CharAt(s, p))
  }

  lemma {:induction false} IdentEndIs(s: string, p: nat, q: nat)
    requires p <= q <= |s| && TokenEnds(s, q)
    requires forall i :: p <= i < q ==> IsIdentBody(s[i])
    ensures IdentEnd(s, p) == q
    decreases q - p
  {
    if p < q {
      IdentEndIs(s, p + 1, q);
    }
  }

  lemma {:induction false} DigitsEndIs(s: string, p: nat, q: nat)
    requires p <= q <= |s| && TokenEnds(s, q)
    requires forall i :: p <= i < q ==> IsDigit(s[i])
    ensures DigitsEnd(s, p) == q
    decreases q - p
  {
    if p < q {
      DigitsEndIs(s, p + 1, q);
    }
  }

  lemma ReadsVariable(s: string, p: nat, name: string)
    requires IsVariable(name) && At(s, p, name) && TokenEnds(s, p + |name|)
    ensures AtomAt(s, p) == Parsed(Variable(name), p + |name|)
  {
    AtAll(s, p, name);
    assert s[p] == '$';
    forall i | p + 1 <= i < p + |name|
      ensures IsIdentBody(s[i])
    {
      assert s[i] == name[1..][i - p - 1];
    }
    assert s[p + 1] == name[1..][0];
    IdentEndIs(s, p + 1, p + |name|);
  }

  lemma ReadsInteger(s: string, p: nat, d: string)
    requires IsDecimal(d) && At(s, p, d) && TokenEnds(s, p + |d|)
    ensures AtomAt(s, p) == Parsed(Integer(d), p + |d|)
  {
    AtAll(s, p, d);
    assert s[p] == d[0];
    DigitsEndIs(s, p, p + |d|);
  }

  lemma ReadsText(s: string, p: nat, v: string, how: seq<Spelling>)
    requires CanSpellAll(v, how) && At(s, p, "\"" + (SpellAll(v, how) + "\""))
    ensures AtomAt(s, p) == Parsed(Text(v), p + |SpellAll(v, how)| + 2)
  {
    StringRoundTrip(s, p, v, how);
  }

  lemma OpStart(op: Operator, c: char)
    requires c == OpText(op)[0]
    ensures !IsHspace(c) && c != '\n' && !IsOddSpace(c) && !IsIdentBody(c) && c != '.' && c != '[' && c != '?'
  {
  }

  // ---------- what the parser sees of printed text ----------

  /** No postfix operator follows. */
  predicate NoPostfix(v: View, p: nat) {
    var q := v.skip(p);
    var c, next := v.ch(q), v.ch(q + 1);
    && c != '.' && c != '['
    && !(c == '-' && (next == '>' || next == '-')) && !(c == '+' && next == '+')
  }

  predicate Opens(v: View, p: nat, c: char) {
    v.skip(p) == p && v.ch(p) == c
  }

  predicate Shuts(v: View, p: nat, c: char) {
    v.skip(p) == p && v.ch(p) == c && v.binop(p).None?
  }

  /** An expression begins here. */
  predicate Begins(v: View, p: nat) {
    v.skip(p) == p && v.ch(p) != ')' && v.ch(p) != ':' && !IsIdentStart(v.ch(p))
  }

  /** A question mark or colon between two spaces. */
  predicate Marks(v: View, p: nat, c: char) {
    v.skip(p) == p + 1 && v.ch(p + 1) == c && v.binop(p + 1).None? && v.skip(p + 2) == p + 3 && Begins(v, p + 3)
  }

  /** A binary operator between two spaces. */
  predicate Joins(v: View, p: nat, info: BinopInfo) {
    1 <= info.prec < UNARY && v.skip(p) == p + 1 && v.binop(p + 1) == Some(info) && NoPostfix(v, p)
    && v.skip(p + 1 + info.length) == v.skip(p + 2 + info.length)
  }

  predicate ShowsAtom(v: View, p: nat, text: string, e: Expr) {
    v.skip(p) == p && StartsChain(v.ch(p)) && v.ch(p) != '(' && v.atom(p) == Parsed(e, p + |text|)
  }

  predicate ShowsPrefix(v: View, p: nat, op: Prefix) {
    v.skip(p) == p && v.ch(p) == PrefixChar(op) && v.ch(p + 1) == ' ' && v.skip(p + 1) == v.skip(p + 2)
  }

  predicate ShowsStep(v: View, p: nat, up: bool) {
    v.skip(p) == p && v.ch(p) == StepChar(up) && v.ch(p + 1) == StepChar(up)
  }

  predicate ShowsMember(v: View, p: nat, name: string) {
    v.skip(p) == p && v.ch(p) == '.' && v.ch(p + 1) != '.' && v.skip(p + 1) == p + 1
    && v.name(p + 1) == Some(Name(name, p + 1 + |name|))
  }

  predicate StartsChain(c: char) {
    c == '$' || IsDigit(c) || c == '"' || c == '('
  }

  /** Where the tokens of `c` that stand at `p` end, if they do stand there and may in a place for
      level `l`. */
  function Match(v: View, p: nat, c: Syntax, l: nat): (r: Option<nat>)
    ensures r.Some? ==> p <= r.value && l <= Level(c) && (c.Infix? ==> 1 <= Level(c) < UNARY)
    decreases c
  {
    if Level(c) < l then None
    else
      match c
      case Atom(text, e) => if ShowsAtom(v, p, text, e) then Some(p + |text|) else None
      case Prefixed(op, x) => if ShowsPrefix(v, p, op) then Match(v, p + 2, x, UNARY) else None
      case Stepped(before, up, name) => MatchStep(v, p, before, up, name)
      case Infix(x, info, y) =>
        var q := Match(v, p, x, info.prec);
        if q.None? || !Joins(v, q.value, info) then None
        else Match(v, q.value + info.length + 2, y, info.prec + 1)
      case Element(b, i) =>
        var q := Match(v, p, b, POSTFIX);
        if q.None? || !Opens(v, q.value, '[') then None
        else
          var r := Match(v, q.value + 1, i, 0);
          if r.None? || !Shuts(v, r.value, ']') then None else Some(r.value + 1)
      case Member(b, name) =>
        var q := Match(v, p, b, POSTFIX);
        if q.None? || !ShowsMember(v, q.value, name) then None else Some(q.value + 1 + |name|)
      case Choice(x, y, n) =>
        var q := Match(v, p, x, 1);
        if q.None? || !Marks(v, q.value, '?') then None
        else
          var r := Match(v, q.value + 3, y, 0);
          if r.None? || !Marks(v, r.value, ':') then None else Match(v, r.value + 3, n, 0)
      case Group(x) =>
        if !Opens(v, p, '(') || !Begins(v, p + 1) then None
        else
          var r := Match(v, p + 1, x, 0);
          if r.None? || !Shuts(v, r.value, ')') then None else Some(r.value + 1)
  }

  function MatchStep(v: View, p: nat, before: bool, up: bool, name: string): (r: Option<nat>)
    ensures r.Some? ==> p <= r.value
  {
    if ShowsStep(v, if before then p else p + |name|, up)
       && ShowsAtom(v, if before then p + 2 else p, name, Variable(name))
    then Some(p + |name| + 2) else None
  }

  lemma SeesStart(s: string, p: nat)
    requires p < |s| && StartChar(s[p])
    ensures Begins(ViewOf(s), p) && ViewOf(s).ch(p) == s[p]
  {
    NoLayout(s, p);
  }

  lemma SeesSpace(s: string, p: nat)
    requires p + 1 < |s| && s[p] == ' ' && StartChar(s[p + 1])
    ensures var v := ViewOf(s); v.ch(p) == ' ' && v.skip(p) == p + 1 == v.skip(p + 1)
  {
    OneSpace(s, p);
    NoLayout(s, p + 1);
  }

  /** A bracket, dot or sign stands for itself. */
  lemma SeesChar(s: string, p: nat, c: char)
    requires At(s, p, [c]) && (c == '(' || c == ')' || c == '[' || c == ']' || c == '.' || c == '+' || c == '-')
    ensures Opens(ViewOf(s), p, c)
    ensures c == ')' || c == ']' ==> Shuts(ViewOf(s), p, c)
    ensures TokenEnds(s, p)
  {
    AtChar(s, p, [c], 0);
    assert LayoutEnd(s, p) == p;
  }

  // ---------- what the parser sees of each construct ----------

  lemma AtomIs(s: string, p: nat)
    ensures ViewOf(s).atom(p) == AtomAt(s, p)
  {
    hide AtomAt;
  }

  lemma AtomText(s: string, p: nat, text: string, e: Expr)
    requires IsAtom(text, e) && At(s, p, text) && TokenEnds(s, p + |text|)
    ensures ShowsAtom(ViewOf(s), p, text, e)
  {
    hide AtomAt, ViewOf, SpellAll;
    AtomIs(s, p);
    match e
    case Variable(name) => AtChar(s, p, name, 0); ReadsVariable(s, p, name); SeesStart(s, p);
    case Integer(d) => AtChar(s, p, d, 0); ReadsInteger(s, p, d); SeesStart(s, p);
    case Text(v) =>
      var how :| CanSpellAll(v, how) && text == "\"" + (SpellAll(v, how) + "\"");
      ReadsText(s, p, v, how);
      AtChar(s, p, text, 0);
      SeesStart(s, p);
  }

  lemma PrefixText(s: string, p: nat, op: Prefix, t: string)
    requires At(s, p, [PrefixChar(op)] + (" " + t)) && Starts(t)
    ensures ShowsPrefix(ViewOf(s), p, op) && At(s, p + 2, t)
  {
    var c := PrefixChar(op);
    AtConcat(s, p, [c], " " + t);
    AtConcat(s, p + 1, " ", t);
    AtChar(s, p, [c], 0);
    AtChar(s, p + 1, " ", 0);
    AtChar(s, p + 2, t, 0);
    SeesStart(s, p);
    SeesSpace(s, p + 1);
  }

  lemma StepText(s: string, p: nat, up: bool)
    requires At(s, p, [StepChar(up), StepChar(up)])
    ensures ShowsStep(ViewOf(s), p, up) && TokenEnds(s, p)
  {
    var c := StepChar(up);
    assert [c, c] == [c] + [c];
    AtConcat(s, p, [c], [c]);
    SeesChar(s, p, c);
    SeesChar(s, p + 1, c);
  }

  lemma PrecRange(op: Operator)
    ensures 1 <= Prec(op) < UNARY
  {
  }

  lemma InfixText(s: string, p: nat, lt: string, op: Operator, rt: string)
    requires At(s, p, lt + ((" " + (OpText(op) + " ")) + rt)) && Starts(rt)
    ensures var q := p + |lt|;
      At(s, p, lt) && TokenEnds(s, q) && Joins(ViewOf(s), q, InfoOf(op)) && At(s, q + OpLength(op) + 2, rt)
  {
    hide ViewOf, At, NoPostfix, Prec, StartChar;
    PrecRange(op);
    var q, t := p + |lt|, " " + (OpText(op) + " ");
    var n := q + OpLength(op) + 2;
    AtConcat(s, p, lt, t + rt);
    AtConcat(s, q, t, rt);
    AtChar(s, q, t, OpLength(op) + 1);
    AtChar(s, n, rt, 0);
    SeesOperator(s, q, op);
    SeesSpace(s, n - 1);
  }

  lemma SeesOperator(s: string, p: nat, op: Operator)
    requires At(s, p, " " + (OpText(op) + " "))
    requires p + OpLength(op) + 2 < |s| && StartChar(s[p + OpLength(op) + 2])
    ensures var v := ViewOf(s);
      v.skip(p) == p + 1 && v.binop(p + 1) == Some(InfoOf(op)) && NoPostfix(v, p) && TokenEnds(s, p)
  {
    SpacedOperator(s, p, op);
    OpStart(op, s[p + 1]);
    ReadsOperator(s, p + 1, op);
    hide At, OpText, PeekBinop;
    assert LayoutEnd(s, p + 1) == p + 1;
  }

  lemma ReadsOperator(s: string, p: nat, op: Operator)
    requires p + OpLength(op) + 1 < |s| && s[p] == OpText(op)[0] && s[p + OpLength(op)] == ' '
    requires OpLength(op) == 2 ==> s[p + 1] == OpText(op)[1]
    requires StartChar(s[p + OpLength(op) + 1])
    ensures ViewOf(s).binop(p) == Some(InfoOf(op))
  {
    OneSpace(s, p + OpLength(op));
  }

  lemma SpacedOperator(s: string, p: nat, op: Operator)
    requires At(s, p, " " + (OpText(op) + " "))
    ensures var n := OpLength(op);
      && p + n + 2 <= |s| && s[p] == ' ' && s[p + 1] == OpText(op)[0] && s[p + 1 + n] == ' '
      && (n == 2 ==> s[p + 2] == OpText(op)[1])
  {
    AtAll(s, p, " " + (OpText(op) + " "));
  }

  lemma ElementText(s: string, p: nat, b: string, i: string)
    requires At(s, p, b + ("[" + (i + ("]" + ""))))
    ensures var v, q := ViewOf(s), p + |b|;
      && At(s, p, b) && TokenEnds(s, q) && Opens(v, q, '[')
      && At(s, q + 1, i) && TokenEnds(s, q + 1 + |i|) && Shuts(v, q + 1 + |i|, ']')
  {
    var q := p + |b|;
    assert "]" + "" == "]";
    AtConcat(s, p, b, "[" + (i + "]"));
    AtConcat(s, q, "[", i + "]");
    AtConcat(s, q + 1, i, "]");
    SeesChar(s, q, '[');
    SeesChar(s, q + 1 + |i|, ']');
  }

  lemma MemberText(s: string, p: nat, b: string, name: string)
    requires At(s, p, b + ("." + name)) && IsName(name) && TokenEnds(s, p + |b| + 1 + |name|)
    ensures At(s, p, b) && TokenEnds(s, p + |b|) && ShowsMember(ViewOf(s), p + |b|, name)
  {
    hide ViewOf, IsName, At;
    var q := p + |b|;
    AtConcat(s, p, b, "." + name);
    AtConcat(s, q, ".", name);
    SeesChar(s, q, '.');
    SeesName(s, q + 1, name);
  }

  lemma SeesName(s: string, p: nat, name: string)
    requires IsName(name) && At(s, p, name) && TokenEnds(s, p + |name|)
    ensures var v := ViewOf(s);
      v.skip(p) == p && v.ch(p) != '.' && v.name(p) == Some(Name(name, p + |name|))
  {
    AtAll(s, p, name);
    assert s[p] == name[0] && IsIdentStart(name[0]);
    assert LayoutEnd(s, p) == p;
    IdentEndIs(s, p, p + |name|);
  }

  lemma ChoiceText(s: string, p: nat, x: string, y: string, n: string)
    requires At(s, p, x + (" ? " + (y + (" : " + n)))) && Starts(y) && Starts(n)
    ensures var v, q, r := ViewOf(s), p + |x|, p + |x| + 3 + |y|;
      && At(s, p, x) && TokenEnds(s, q) && Marks(v, q, '?')
      && At(s, q + 3, y) && TokenEnds(s, r) && Marks(v, r, ':') && At(s, r + 3, n)
  {
    hide ViewOf, At, Marks, Starts, TokenEnds;
    var q, r := p + |x|, p + |x| + 3 + |y|;
    AtConcat(s, p, x, " ? " + (y + (" : " + n)));
    AtConcat(s, q, " ? ", y + (" : " + n));
    AtConcat(s, q + 3, y, " : " + n);
    AtConcat(s, r, " : ", n);
    SeesMark(s, q, '?', y);
    SeesMark(s, r, ':', n);
  }

  lemma SeesMark(s: string, p: nat, c: char, t: string)
    requires c == '?' || c == ':'
    requires At(s, p, [' ', c, ' ']) && At(s, p + 3, t) && Starts(t)
    ensures Marks(ViewOf(s), p, c) && TokenEnds(s, p)
  {
    AtAll(s, p, [' ', c, ' ']);
    assert s[p] == ' ' && s[p + 1] == c && s[p + 2] == ' ';
    assert LayoutEnd(s, p + 1) == p + 1;
    AtChar(s, p + 3, t, 0);
    SeesSpace(s, p + 2);
    SeesStart(s, p + 3);
  }

  lemma GroupText(s: string, p: nat, t: string)
    requires At(s, p, "(" + ("" + (t + (")" + "")))) && Starts(t)
    ensures var v, r := ViewOf(s), p + 1 + |t|;
      Opens(v, p, '(') && Begins(v, p + 1) && At(s, p + 1, t) && TokenEnds(s, r) && Shuts(v, r, ')')
  {
    assert ")" + "" == ")" && "" + (t + ")") == t + ")";
    AtConcat(s, p, "(", t + ")");
    AtConcat(s, p + 1, t, ")");
    SeesChar(s, p, '(');
    SeesChar(s, p + 1 + |t|, ')');
    AtChar(s, p + 1, t, 0);
    SeesStart(s, p + 1);
  }
}
