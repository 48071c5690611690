/** The expression grammar: precedence climbing over unary, postfix and primary expressions, as a
    function of the text and a position. A syntax error, or a construct outside this model, fails. */
module Grammar {
  import opened Options
  import opened LayoutScan
  import opened Tokens

  datatype Operator =
    | LOR | LAND | BOR | BXOR | BAND | EQ | NE | LE | GE | LT | GT | LEFT | RIGHT | PLUS | MINUS | MUL | DIV | MOD

  datatype Prefix = Deref | Not | Complement | Negate

  datatype Expr =
    | Variable(name: string)
    | Integer(digits: string)
    | Text(value: string)
    | Unop(prefix: Prefix, operand: Expr)
    | Step(before: bool, up: bool, operand: Expr)
    | Binop(left: Expr, op: Operator, right: Expr)
    | Index(base: Expr, index: Expr)
    | Field(base: Expr, field: string)
    | IfExpr(cond: Expr, yes: Expr, no: Expr)

  datatype Parse = Parsed(expr: Expr, pos: nat) | Failed

  /** A name and the position behind it. */
  datatype Name = Name(text: string, pos: nat)

  /** All the expression parser sees of a text: its length, and by position the character, the end of
      layout, the binary operator, the variable or literal, and the identifier that stand there. */
  datatype View = View(size: nat, ch: nat -> char, skip: nat -> nat, binop: nat -> Option<BinopInfo>,
                       atom: nat -> Parse, name: nat -> Option<Name>)

  datatype BinopInfo = BinopInfo(op: Operator, prec: nat, length: nat)

  // ---------- operators ----------

  function Prec(op: Operator): (p: nat)
    ensures 1 <= p <= 10
  {
    match op
    case LOR => 1
    case LAND => 2
    case BOR => 3
    case BXOR => 4
    case BAND => 5
    case EQ => 6
    case NE => 6
    case LE => 7
    case GE => 7
    case LT => 7
    case GT => 7
    case LEFT => 8
    case RIGHT => 8
    case PLUS => 9
    case MINUS => 9
    case MUL => 10
    case DIV => 10
    case MOD => 10
  }

  function OpLength(op: Operator): (n: nat)
    ensures 1 <= n <= 2
  {
    match op
    case LOR => 2
    case LAND => 2
    case EQ => 2
    case NE => 2
    case LE => 2
    case GE => 2
    case LEFT => 2
    case RIGHT => 2
    case _ => 1
  }

  /** `peek_binop`: the binary operator that stands at `p`. */
  function PeekBinop(s: string, p: nat): (r: Option<Operator>)
    requires p <= |s|
    ensures r.Some? ==> p + OpLength(r.value) <= |s|
  {
    var c, next := CharAt(s, p), CharAt(s, p + 1);
    if next == '=' && (c == '+' || c == '-' || c == '*' || c == '/' || c == '%' || c == '&' || c == '|' || c == '^')
    then None
    else if ((c == '<' && next == '<') || (c == '>' && next == '>')) && CharAt(s, p + 2) == '=' then None
    else if c == '|' && next == '|' then Some(LOR)
    else if c == '&' && next == '&' then Some(LAND)
    else if c == '=' && next == '=' then Some(EQ)
    else if c == '!' && next == '=' then Some(NE)
    else if c == '<' && next == '=' then Some(LE)
    else if c == '>' && next == '=' then Some(GE)
    else if c == '<' && next == '<' then Some(LEFT)
    else if c == '>' && next == '>' then Some(RIGHT)
    else if c == '|' then Some(BOR)
    else if c == '^' then Some(BXOR)
    else if c == '&' then Some(BAND)
    else if c == '<' then Some(LT)
    else if c == '>' then Some(GT)
    else if c == '+' && next != '+' then Some(PLUS)
    else if c == '-' && next != '-' then Some(MINUS)
    else if c == '*' then Some(MUL)
    else if c == '/' then (if CharAt(s, ScanLayout(s, p + 1)) == '{' then None else Some(DIV))
    else if c == '%' then Some(MOD)
    else None
  }

  // ---------- literals ----------

  function DigitsEnd(s: string, p: nat): (q: nat)
    requires p <= |s|
    ensures p <= q <= |s|
    ensures q < |s| ==> !IsDigit(s[q])
    ensures forall i :: p <= i < q ==> IsDigit(s[i])
    decreases |s| - p
  {
    if p < |s| && IsDigit(s[p]) then DigitsEnd(s, p + 1) else p
  }

  function DecimalValue(t: string): nat
    requires forall i :: 0 <= i < |t| ==> IsDigit(t[i])
  {
    if |t| == 0 then 0
    else
      assert IsDigit(t[|t| - 1]);
      10 * DecimalValue(t[..|t| - 1]) + (t[|t| - 1] as int - '0' as int)
  }

  /** A decimal literal without leading zero that fits 64 bits. */
  predicate IsDecimal(t: string) {
    && |t| > 0 && (forall i :: 0 <= i < |t| ==> IsDigit(t[i]))
    && (|t| == 1 || t[0] != '0')
    && DecimalValue(t) < 0x1_0000_0000_0000_0000
  }

  predicate IsName(t: string) {
    |t| > 0 && IsIdentStart(t[0]) && forall i :: 0 <= i < |t| ==> IsIdentBody(t[i])
  }

  /** An integer literal; other bases, exponents, separators and suffixes are outside this model. */
  function ParseInteger(s: string, p: nat): (r: Parse)
    requires p < |s| && IsDigit(s[p])
    ensures r.Parsed? ==> p < r.pos <= |s|
  {
    var q := DigitsEnd(s, p);
    if IsDecimal(s[p..q]) && !IsIdentStart(CharAt(s, q)) then Parsed(Integer(s[p..q]), q) else Failed
  }

  function ParseVariable(s: string, p: nat): (r: Parse)
    requires p < |s| && s[p] == '$'
    ensures r.Parsed? ==> p < r.pos <= |s|
  {
    if IsIdentStart(CharAt(s, p + 1)) then
      var q := IdentEnd(s, p + 1);
      Parsed(Variable(s[p..q]), q)
    else Failed
  }

  function ParseText(s: string, p: nat): (r: Parse)
    requires p < |s| && s[p] == '"'
    ensures r.Parsed? ==> p < r.pos <= |s|
  {
    var t := ReadChars(s, p + 1);
    if t.errors == 0 then Parsed(Text(t.value), t.pos) else Failed
  }

  // ---------- views ----------

  /** Positions only move forward and stay inside the text. */
  ghost predicate Sound(v: View) {
    && (forall p: nat :: p <= v.size ==> p <= v.skip(p) <= v.size)
    && (forall p: nat :: v.ch(p) != '\0' ==> p < v.size)
    && (forall p: nat :: p <= v.size && v.binop(p).Some? ==> 1 <= v.binop(p).value.length <= v.size - p)
    && (forall p: nat :: v.atom(p).Parsed? ==> p < v.atom(p).pos <= v.size)
    && (forall p: nat :: v.name(p).Some? ==> p < v.name(p).value.pos <= v.size)
  }

  function AtomAt(s: string, p: nat): (r: Parse)
    ensures r.Parsed? ==> p < r.pos <= |s|
  {
    var c := CharAt(s, p);
    if c == '$' then ParseVariable(s, p)
    else if IsDigit(c) then ParseInteger(s, p)
    else if c == '"' then ParseText(s, p)
    else Failed
  }

  function NameAt(s: string, p: nat): (r: Option<Name>)
    ensures r.Some? ==> p < r.value.pos <= |s|
  {
    if IsIdentStart(CharAt(s, p)) then Some(Name(s[p..IdentEnd(s, p)], IdentEnd(s, p))) else None
  }

  function InfoOf(op: Operator): BinopInfo {
    BinopInfo(op, Prec(op), OpLength(op))
  }

  function BinopAt(s: string, p: nat): Option<BinopInfo> {
    if p > |s| || PeekBinop(s, p).None? then None else Some(InfoOf(PeekBinop(s, p).value))
  }

  function ViewOf(s: string): (v: View)
    ensures v.size == |s|
  {
    View(|s|,
         (p: nat) => CharAt(s, p),
         (p: nat) => if p <= |s| then LayoutEnd(s, p) else p,
         (p: nat) => BinopAt(s, p),
         (p: nat) => AtomAt(s, p),
         (p: nat) => NameAt(s, p))
  }

  lemma ViewIsSound(s: string)
    ensures Sound(ViewOf(s))
  {
  }

  // ---------- expressions ----------

  function ParseTernary(v: View, p: nat): (r: Parse)
    requires Sound(v) && p <= v.size
    ensures r.Parsed? ==> p < r.pos <= v.size
    decreases v.size - p, 5
  {
    var c := ParseBinary(v, p, 0);
    if c.Failed? then Failed
    else
      var q := v.skip(c.pos);
      if v.ch(q) != '?' then c
      else ParseBranches(v, c.expr, v.skip(q + 1))
  }

  /** Behind the question mark: both branches, or the short form that repeats the condition. */
  function ParseBranches(v: View, cond: Expr, p: nat): (r: Parse)
    requires Sound(v) && p <= v.size
    ensures r.Parsed? ==> p < r.pos <= v.size
    decreases v.size - p, 6
  {
    if v.ch(p) == ':' then
      var no := ParseTernary(v, p + 1);
      if no.Failed? then Failed else Parsed(IfExpr(cond, cond, no.expr), no.pos)
    else
      var yes := ParseTernary(v, p);
      if yes.Failed? then Failed
      else
        var q := v.skip(yes.pos);
        if v.ch(q) != ':' then Failed
        else
          var no := ParseTernary(v, q + 1);
          if no.Failed? then Failed else Parsed(IfExpr(cond, yes.expr, no.expr), no.pos)
  }

  function ParseBinary(v: View, p: nat, minPrec: nat): (r: Parse)
    requires Sound(v) && p <= v.size
    ensures r.Parsed? ==> p < r.pos <= v.size
    decreases v.size - p, 4
  {
    var left := ParseUnary(v, p);
    if left.Failed? then Failed else Climb(v, left.expr, left.pos, minPrec)
  }

  /** The climbing loop: fold in operators that bind at least as tightly as `minPrec`. */
  function Climb(v: View, left: Expr, p: nat, minPrec: nat): (r: Parse)
    requires Sound(v) && p <= v.size
    ensures r.Parsed? ==> p <= r.pos <= v.size
    decreases v.size - p, 7
  {
    var q := v.skip(p);
    var info := v.binop(q);
    if info.None? || info.value.prec < minPrec then Parsed(left, p)
    else
      var right := ParseBinary(v, q + info.value.length, info.value.prec + 1);
      if right.Failed? then Failed else Climb(v, Binop(left, info.value.op, right.expr), right.pos, minPrec)
  }

  function PrefixOf(c: char, next: char): Option<Prefix> {
    if c == '*' then Some(Deref)
    else if c == '!' && next != '=' then Some(Not)
    else if c == '~' then Some(Complement)
    else if c == '-' && next != '-' then Some(Negate)
    else None
  }

  predicate IsStep(c: char, next: char) {
    (c == '+' && next == '+') || (c == '-' && next == '-')
  }

  function ParseUnary(v: View, p: nat): (r: Parse)
    requires Sound(v) && p <= v.size
    ensures r.Parsed? ==> p < r.pos <= v.size
    decreases v.size - p, 3
  {
    var q := v.skip(p);
    var c, next := v.ch(q), v.ch(q + 1);
    if IsStep(c, next) then
      var e := ParseUnary(v, q + 2);
      if e.Parsed? && e.expr.Variable? then Parsed(Step(true, c == '+', e.expr), e.pos) else Failed
    else if c == '&' then Failed
    else if PrefixOf(c, next).Some? then
      var e := ParseUnary(v, q + 1);
      if e.Failed? then Failed else Parsed(Unop(PrefixOf(c, next).value, e.expr), e.pos)
    else ParseChain(v, q)
  }

  /** A primary expression with all the postfix operators behind it. */
  function ParseChain(v: View, p: nat): (r: Parse)
    requires Sound(v) && p <= v.size
    ensures r.Parsed? ==> p < r.pos <= v.size
    decreases v.size - p, 2
  {
    var e := ParsePrimary(v, p);
    if e.Failed? then Failed else ParsePostfix(v, e.expr, e.pos)
  }

  function ParsePostfix(v: View, e: Expr, p: nat): (r: Parse)
    requires Sound(v) && p <= v.size
    ensures r.Parsed? ==> p <= r.pos <= v.size
    decreases v.size - p, 7
  {
    var q := v.skip(p);
    var c, next := v.ch(q), v.ch(q + 1);
    if c == '.' && next == '.' then Parsed(e, q)
    else if c == '.' then ParseField(v, e, v.skip(q + 1))
    else if c == '-' && next == '>' then ParseField(v, e, v.skip(q + 2))
    else if c == '[' then ParseIndex(v, e, q + 1)
    else if IsStep(c, next) then
      if e.Variable? then ParsePostfix(v, Step(false, c == '+', e), q + 2) else Failed
    else Parsed(e, p)
  }

  function ParseIndex(v: View, e: Expr, p: nat): (r: Parse)
    requires Sound(v) && p <= v.size
    ensures r.Parsed? ==> p <= r.pos <= v.size
    decreases v.size - p, 8
  {
    var i := ParseTernary(v, p);
    if i.Failed? then Failed
    else
      var q := v.skip(i.pos);
      if v.ch(q) != ']' then Failed else ParsePostfix(v, Index(e, i.expr), q + 1)
  }

  /** A field name; a tuple element number is outside this model. */
  function ParseField(v: View, e: Expr, p: nat): (r: Parse)
    requires Sound(v) && p <= v.size
    ensures r.Parsed? ==> p <= r.pos <= v.size
    decreases v.size - p, 8
  {
    var n := v.name(p);
    if n.Some? then ParsePostfix(v, Field(e, n.value.text), n.value.pos) else Failed
  }

  /** Variables, literals and groups; calls, maps, blocks, casts, tuples and the other primary forms
      are outside this model. */
  function ParsePrimary(v: View, p: nat): (r: Parse)
    requires Sound(v) && p <= v.size
    ensures r.Parsed? ==> p < r.pos <= v.size
    decreases v.size - p, 1
  {
    var q := v.skip(p);
    if v.ch(q) == '(' then ParseGroup(v, q + 1) else v.atom(q)
  }

  function ParseGroup(v: View, p: nat): (r: Parse)
    requires Sound(v) && p <= v.size
    ensures r.Parsed? ==> p < r.pos <= v.size
    decreases v.size - p, 6
  {
    var q := v.skip(p);
    if v.ch(q) == ')' || IsIdentStart(v.ch(q)) then Failed
    else
      var e := ParseTernary(v, q);
      if e.Failed? then Failed
      else
        var r := v.skip(e.pos);
        if v.ch(r) != ')' then Failed else Parsed(e.expr, r + 1)
  }

  /** `parse_expression` at position `p` of a script. */
  function ParseExpression(s: string, p: nat): (r: Parse)
    requires p <= |s|
    ensures r.Parsed? ==> p < r.pos <= |s|
  {
    ViewIsSound(s);
    ParseTernary(ViewOf(s), p)
  }
}
