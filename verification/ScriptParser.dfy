/** The parser as it runs: an object that moves a position through the script and keeps the line and
    column of that position, with the grammar's functions as its specification. */
module ScriptParser {
  import opened Options
  import opened LayoutScan
  import opened Tokens
  import opened Grammar
  import opened GrammarAt

  // ---------- lines and columns ----------

  function Newlines(t: string): nat {
    if |t| == 0 then 0 else Newlines(t[..|t| - 1]) + if t[|t| - 1] == '\n' then 1 else 0
  }

  /** Just behind the last newline of `t`. */
  function LineStart(t: string): (k: nat)
    ensures k <= |t|
    ensures k > 0 ==> t[k - 1] == '\n'
    ensures forall i :: k <= i < |t| ==> t[i] != '\n'
  {
    if |t| == 0 then 0 else if t[|t| - 1] == '\n' then |t| else LineStart(t[..|t| - 1])
  }

  /** Line and column, both counted from 1, are those of position `p`. */
  ghost predicate Placed(s: string, p: nat, line: nat, col: nat) {
    p <= |s| && line == 1 + Newlines(s[..p]) && col == 1 + p - LineStart(s[..p])
  }

  lemma PlacedNext(s: string, p: nat, line: nat, col: nat)
    requires p < |s| && Placed(s, p, line, col)
    ensures s[p] == '\n' ==> Placed(s, p + 1, line + 1, 1)
    ensures s[p] != '\n' ==> Placed(s, p + 1, line, col + 1)
  {
    assert s[..p + 1][..p] == s[..p];
  }

  /** A jump over text without newline moves the column by its length. */
  lemma {:induction false} PlacedJump(s: string, p: nat, q: nat, line: nat, col: nat)
    requires p <= q <= |s| && Placed(s, p, line, col)
    requires forall i :: p <= i < q ==> s[i] != '\n'
    ensures Placed(s, q, line, col + q - p)
    decreases q - p
  {
    if p < q {
      PlacedNext(s, p, line, col);
      PlacedJump(s, p + 1, q, line, col + 1);
    }
  }

  lemma CommentStep(s: string, p: nat)
    requires p <= |s|
    ensures var stop := LineStop(s, p);
      CommentEnd(s, p) ==
        if stop == |s| then stop else if Closes(s, stop) then stop + 2 else CommentEnd(s, LineText(s, stop + 1))
  {
  }

  /** Where a string ends, well or not. */
  lemma ReadEnds(s: string, p: nat)
    requires p <= |s|
    ensures p == |s| || s[p] == '\n' ==> ReadChars(s, p) == StringRead("", p, 1)
    ensures p < |s| && s[p] == '"' ==> ReadChars(s, p) == StringRead("", p + 1, 0)
    ensures p + 1 == |s| && s[p] == '\\' ==> ReadChars(s, p) == StringRead("", p + 1, 1)
  {
  }

  /** Reading one character or escape and then the rest. */
  lemma ReadStep(s: string, p: nat)
    requires p < |s| && s[p] != '"' && s[p] != '\n'
    ensures s[p] != '\\' ==> ReadChars(s, p) == Prepend([s[p]], 0, ReadChars(s, p + 1))
    ensures s[p] == '\\' && p + 1 < |s| ==>
      var e := ReadEscape(s, p + 1);
      ReadChars(s, p) == Prepend(e.value, e.errors, ReadChars(s, e.pos))
  {
    hide ReadEscape;
  }

  lemma PrependTwice(t: string, m: nat, u: string, n: nat, r: StringRead)
    ensures Prepend(t, m, Prepend(u, n, r)) == Prepend(t + u, m + n, r)
  {
    assert t + (u + r.value) == (t + u) + r.value;
  }

  lemma CharInside(s: string, p: nat)
    ensures CharAt(s, p) != '\0' ==> p < |s|
  {
  }

  datatype Suffix = More(expr: Expr) | Done(expr: Expr) | Bad

  /** Reading postfix operators behind `e` from `p` on comes down to this outcome at `q`. */
  ghost predicate SuffixIs(s: string, e: Expr, p: nat, r: Suffix, q: nat)
    requires p <= |s| && q <= |s|
  {
    match r
    case More(x) => p < q && Postfix(s, e, p) == Postfix(s, x, q)
    case Done(x) => Postfix(s, e, p) == Parsed(x, q)
    case Bad => Postfix(s, e, p).Failed?
  }

  datatype SavePoint = SavePoint(pos: nat, line: nat, col: nat)

  class Parser {
    const input: string
    var pos: nat
    var line: nat
    var col: nat
    var errors: nat

    ghost predicate Valid()
      reads this
    {
      Placed(input, pos, line, col)
    }

    constructor (text: string)
      ensures Valid() && input == text && pos == 0 && errors == 0
    {
      input, pos, line, col, errors := text, 0, 1, 1, 0;
    }

    // ---------- moving ----------

    function Peek(offset: nat): char
      reads this
    {
      CharAt(input, pos + offset)
    }

    method Step()
      requires Valid()
      modifies this`pos, this`line, this`col
      ensures Valid() && pos == if old(pos) < |input| then old(pos) + 1 else old(pos)
    {
      if pos < |input| {
        PlacedNext(input, pos, line, col);
        if input[pos] == '\n' {
          line, col := line + 1, 1;
        } else {
          col := col + 1;
        }
        pos := pos + 1;
      }
    }

    method Advance(n: nat)
      requires Valid()
      modifies this`pos, this`line, this`col
      ensures Valid()
      ensures pos == if old(pos) + n <= |input| then old(pos) + n else |input|
    {
      var i := 0;
      while i < n && pos < |input|
        invariant Valid() && i <= n && pos == old(pos) + i
      {
        Step();
        i := i + 1;
      }
    }

    function Save(): SavePoint
      reads this
    {
      SavePoint(pos, line, col)
    }

    method Restore(sp: SavePoint)
      requires Placed(input, sp.pos, sp.line, sp.col)
      modifies this`pos, this`line, this`col
      ensures Valid() && Save() == sp
    {
      pos, line, col := sp.pos, sp.line, sp.col;
    }

    // ---------- layout ----------

    method ConsumeLineComment()
      requires Valid() && pos + 2 <= |input| && Peek(0) == '/' && Peek(1) == '/'
      modifies this`pos, this`line, this`col
      ensures Valid() && pos == LineEnd(input, old(pos) + 2)
    {
      Advance(2);
      if pos < |input| && Peek(0) == ' ' {
        Step();
      }
      while pos < |input| && Peek(0) != '\n'
        invariant Valid() && LineEnd(input, pos) == LineEnd(input, old(pos) + 2)
        decreases |input| - pos
      {
        Step();
      }
    }

    method ConsumeBlockComment()
      requires Valid() && pos + 2 <= |input| && Peek(0) == '/' && Peek(1) == '*'
      modifies this`pos, this`line, this`col
      ensures Valid() && pos == CommentEnd(input, AfterBlank(input, old(pos) + 2))
    {
      hide CommentEnd, Newlines, LineStart;
      Advance(2);
      if pos < |input| && Peek(0) == ' ' {
        Step();
      }
      CommentLines();
    }

    method CommentLines()
      requires Valid()
      modifies this`pos, this`line, this`col
      ensures Valid() && pos == CommentEnd(input, old(pos))
    {
      hide CommentEnd, LineStop, LineText, Newlines, LineStart;
      CommentStep(input, |input|);
      while pos < |input|
        invariant Valid() && CommentEnd(input, pos) == CommentEnd(input, old(pos))
        decreases |input| - pos
      {
        CommentStep(input, pos);
        ToLineStop();
        if pos < |input| && Peek(0) == '*' && Peek(1) == '/' {
          Advance(2);
          return;
        }
        if pos == |input| {
          return;
        }
        Step();
        ToLineText();
      }
    }

    /** To the next newline or closer of a block comment. */
    method ToLineStop()
      requires Valid()
      modifies this`pos, this`line, this`col
      ensures Valid() && old(pos) <= pos && pos == LineStop(input, old(pos))
    {
      while pos < |input| && Peek(0) != '\n' && !(Peek(0) == '*' && Peek(1) == '/')
        invariant Valid() && LineStop(input, pos) == LineStop(input, old(pos))
        decreases |input| - pos
      {
        Step();
      }
    }

    /** Over the blanks, stars and one space that start a continuation line. */
    method ToLineText()
      requires Valid()
      modifies this`pos, this`line, this`col
      ensures Valid() && pos == LineText(input, old(pos))
    {
      while pos < |input| && IsHspace(Peek(0))
        invariant Valid() && HspaceEnd(input, pos) == HspaceEnd(input, old(pos))
        decreases |input| - pos
      {
        Step();
      }
      if Peek(0) == '*' && Peek(1) == '/' {
        return;
      }
      ghost var r := pos;
      var stripped := false;
      while pos < |input| && Peek(0) == '*'
        invariant Valid() && r <= pos && StarsEnd(input, pos) == StarsEnd(input, r) && stripped == (pos > r)
        decreases |input| - pos
      {
        stripped := true;
        Step();
      }
      if stripped && pos < |input| && Peek(0) == ' ' {
        Step();
      }
    }

    method ConsumeLayout()
      requires Valid()
      modifies this`pos, this`line, this`col
      ensures Valid() && pos == LayoutEnd(input, old(pos))
    {
      while pos < |input|
        invariant Valid() && LayoutEnd(input, pos) == LayoutEnd(input, old(pos))
        decreases |input| - pos
      {
        var next := Peek(0);
        if IsHspace(next) || next == '\n' {
          Step();
        } else if next == '/' && Peek(1) == '/' {
          ConsumeLineComment();
        } else if next == '/' && Peek(1) == '*' {
          ConsumeBlockComment();
        } else {
          return;
        }
      }
    }

    // ---------- errors ----------

    /** Finds the token to blame and reports it; the position is what it was. */
    method Error()
      requires Valid()
      modifies this
      ensures Valid() && Save() == old(Save()) && errors == old(errors) + 1
    {
      var sp := Save();
      ConsumeLayout();
      if pos < |input| {
        var next := Peek(0);
        if IsIdentStart(next) {
          SkipWord(false);
        } else if IsDigit(next) {
          SkipWord(true);
        } else if next == '@' || next == '$' {
          Step();
          SkipWord(false);
        } else {
          Step();
        }
      }
      Restore(sp);
      errors := errors + 1;
    }

    method SkipWord(dots: bool)
      requires Valid()
      modifies this`pos, this`line, this`col
      ensures Valid() && old(pos) <= pos
      ensures dots || pos == IdentEnd(input, old(pos))
    {
      while pos < |input| && (IsIdentBody(Peek(0)) || (dots && Peek(0) == '.'))
        invariant Valid() && old(pos) <= pos
        invariant dots || IdentEnd(input, pos) == IdentEnd(input, old(pos))
        decreases |input| - pos
      {
        Step();
      }
    }

    // ---------- tokens ----------

    method MatchChar(c: char) returns (found: bool)
      requires Valid()
      modifies this`pos, this`line, this`col
      ensures Valid()
      ensures var q := LayoutEnd(input, old(pos));
        found == (c != '\0' && CharAt(input, q) == c) && pos == if found then q + 1 else q
    {
      ConsumeLayout();
      found := c != '\0' && Peek(0) == c;
      if found {
        Step();
      }
    }

    method MatchKeyword(kw: string) returns (found: bool)
      requires Valid() && |kw| > 0
      modifies this`pos, this`line, this`col
      ensures Valid()
      ensures var q := LayoutEnd(input, old(pos));
        found == KeywordAt(input, q, kw) && pos == if found then q + |kw| else q
    {
      ConsumeLayout();
      found := IsAt(pos, kw);
      if found {
        Advance(|kw|);
      }
    }

    /** The lookahead twin of `MatchKeyword`. */
    method CheckKeyword(kw: string) returns (found: bool)
      requires Valid() && |kw| > 0
      ensures found == KeywordAt(input, ScanLayout(input, pos), kw)
    {
      var p := ScanLayout(input, pos);
      found := IsAt(p, kw);
    }

    method IsAt(p: nat, kw: string) returns (found: bool)
      requires p <= |input| && |kw| > 0
      ensures found == KeywordAt(input, p, kw)
    {
      if p + |kw| - 1 >= |input| {
        return false;
      }
      for i := 0 to |kw|
        invariant forall j :: 0 <= j < i ==> input[p + j] == kw[j]
      {
        if input[p + i] != kw[i] {
          return false;
        }
      }
      found := !IsIdentBody(CharAt(input, p + |kw|));
    }

    /** Jumps to the end of the identifier scanned from `start` on. */
    method ConsumeIdentFrom(start: nat) returns (t: string)
      requires Valid() && pos <= start <= |input|
      requires forall i :: pos <= i < start ==> input[i] != '\n'
      modifies this`pos, this`line, this`col
      ensures Valid() && pos == IdentEnd(input, start) && t == input[old(pos)..pos]
    {
      var end := IdentEnd(input, start);
      PlacedJump(input, pos, end, line, col);
      t := input[pos..end];
      col := col + end - pos;
      pos := end;
    }

    method ConsumeIdentifier() returns (t: Option<string>)
      requires Valid()
      modifies this
      ensures Valid()
      ensures var q := LayoutEnd(input, old(pos));
        if IsIdentStart(CharAt(input, q))
        then pos == IdentEnd(input, q) && t == Some(input[q..pos]) && errors == old(errors)
        else t.None? && pos == q
    {
      ConsumeLayout();
      if !IsIdentStart(Peek(0)) {
        Error();
        return None;
      }
      var name := ConsumeIdentFrom(pos);
      t := Some(name);
    }

    method ConsumeVariable() returns (r: Option<Expr>)
      requires Valid() && Peek(0) == '$'
      modifies this
      ensures Valid() && Result(r, ParseVariable(input, old(pos))) && (r.Some? ==> errors == old(errors))
    {
      if !IsIdentStart(Peek(1)) {
        Error();
        return None;
      }
      var name := ConsumeIdentFrom(pos + 1);
      r := Some(Variable(name));
    }

    /** The outcome of a parsing method is the grammar's: the same expression ending at the same place,
        or a failure. */
    ghost predicate Result(r: Option<Expr>, spec: Parse)
      reads this
    {
      if r.Some? then spec == Parsed(r.value, pos) else spec.Failed?
    }

    method ConsumeInteger() returns (r: Option<Expr>)
      requires Valid() && IsDigit(Peek(0))
      modifies this
      ensures Valid() && Result(r, ParseInteger(input, old(pos))) && (r.Some? ==> errors == old(errors))
    {
      var start := pos;
      while pos < |input| && IsDigit(Peek(0))
        invariant Valid() && start <= pos && DigitsEnd(input, pos) == DigitsEnd(input, start)
        invariant errors == old(errors)
        decreases |input| - pos
      {
        Step();
      }
      var digits := input[start..pos];
      if IsDecimal(digits) && !IsIdentStart(Peek(0)) {
        r := Some(Integer(digits));
      } else {
        r := None;
      }
    }

    // ---------- strings ----------

    method OctalDigits(first: nat) returns (v: nat)
      requires Valid()
      modifies this`pos, this`line, this`col
      ensures Valid() && (v, pos) == ReadOctal(input, old(pos), first, 2)
    {
      v := first;
      var i := 0;
      while i < 2 && pos < |input| && IsOctal(Peek(0))
        invariant Valid() && i <= 2 && ReadOctal(input, pos, v, 2 - i) == ReadOctal(input, old(pos), first, 2)
      {
        v := 8 * v + (Peek(0) as int - '0' as int);
        Step();
        i := i + 1;
      }
    }

    method HexDigits() returns (v: nat)
      requires Valid()
      modifies this`pos, this`line, this`col
      ensures Valid() && (v, pos) == ReadHex(input, old(pos), 0, 2)
    {
      v := 0;
      var i := 0;
      while i < 2 && pos < |input| && IsHex(Peek(0))
        invariant Valid() && i <= 2 && ReadHex(input, pos, v, 2 - i) == ReadHex(input, old(pos), 0, 2)
      {
        v := 16 * v + HexDigit(Peek(0));
        Step();
        i := i + 1;
      }
    }

    /** The escape whose letter is next. */
    method ConsumeEscape() returns (t: string)
      requires Valid() && pos < |input|
      modifies this
      ensures Valid()
      ensures var e := ReadEscape(input, old(pos)); t == e.value && pos == e.pos && errors == old(errors) + e.errors
    {
      var c := Peek(0);
      Step();
      if c == 'n' {
        t := "\n";
      } else if c == 't' {
        t := "\t";
      } else if c == 'r' {
        t := "\r";
      } else if c == '"' || c == '\\' {
        t := [c];
      } else if IsOctal(c) {
        var v := OctalDigits(c as int - '0' as int);
        if v > 255 {
          errors := errors + 1;
        }
        t := [LowByte(v)];
      } else if c == 'x' || c == 'X' {
        var start := pos;
        var v := HexDigits();
        if pos == start {
          Error();
          t := "";
        } else {
          t := [LowByte(v)];
        }
      } else {
        Error();
        t := "";
      }
    }

    /** One character of a string, plain or escaped, unless the string ends badly here. */
    method ConsumeChar() returns (t: string, ok: bool)
      requires Valid() && pos < |input| && Peek(0) != '"'
      modifies this
      ensures Valid() && errors >= old(errors)
      ensures var r := ReadChars(input, old(pos));
        if ok then old(pos) < pos && r == Prepend(t, errors - old(errors), ReadChars(input, pos))
        else t == "" && r == StringRead("", pos, 1) && errors == old(errors) + 1
    {
      hide ReadChars, ReadEscape, Newlines, LineStart;
      ReadEnds(input, pos);
      if Peek(0) == '\n' {
        Error();
        return "", false;
      }
      ReadStep(input, pos);
      if Peek(0) != '\\' {
        t, ok := [Peek(0)], true;
        Step();
      } else {
        Step();
        if pos == |input| {
          Error();
          return "", false;
        }
        ok := true;
        t := ConsumeEscape();
      }
    }

    method ConsumeString() returns (t: string)
      requires Valid() && Peek(0) == '"'
      modifies this
      ensures Valid()
      ensures var r := ReadChars(input, old(pos) + 1);
        t == r.value && pos == r.pos && errors == old(errors) + r.errors
    {
      hide ReadChars, Newlines, LineStart;
      Step();
      t := "";
      ghost var whole := ReadChars(input, pos);
      assert Prepend("", 0, whole) == whole;
      while pos < |input| && Peek(0) != '"'
        invariant Valid() && errors >= old(errors)
        invariant Prepend(t, errors - old(errors), ReadChars(input, pos)) == whole
        decreases |input| - pos
      {
        ghost var e := errors;
        var c, ok := ConsumeChar();
        PrependTwice(t, e - old(errors), c, errors - e, ReadChars(input, pos));
        if !ok {
          assert t + "" == t;
          return;
        }
        t := t + c;
      }
      ReadEnds(input, pos);
      assert t + "" == t;
      if pos < |input| {
        Step();
      } else {
        Error();
      }
    }

    method ConsumeText() returns (r: Option<Expr>)
      requires Valid() && Peek(0) == '"'
      modifies this
      ensures Valid() && Result(r, ParseText(input, old(pos))) && (r.Some? ==> errors == old(errors))
    {
      var before := errors;
      var t := ConsumeString();
      r := if errors == before then Some(Text(t)) else None;
    }

    // ---------- expressions ----------

    method ParseExpression() returns (r: Option<Expr>)
      requires Valid()
      modifies this
      ensures Valid() && Result(r, Grammar.ParseExpression(input, old(pos))) && (r.Some? ==> errors == old(errors))
      decreases |input| - pos, 6
    {
      r := ParseTernary();
    }

    method ParseTernary() returns (r: Option<Expr>)
      requires Valid()
      modifies this
      ensures Valid() && Result(r, Ternary(input, old(pos))) && (r.Some? ==> errors == old(errors))
      decreases |input| - pos, 5
    {
      hide LayoutEnd, PeekBinop, Newlines, LineStart, Ternary, Branches, Binary, Climbing, Unary, Primary, Postfix;
      TernaryRule(input, pos);
      r := ParseBinary(0);
      if r.None? {
        return;
      }
      var sp := Save();
      ConsumeLayout();
      if Peek(0) != '?' {
        Restore(sp);
        return;
      }
      Step();
      ConsumeLayout();
      r := ParseBranches(r.value);
    }

    method ParseBranches(cond: Expr) returns (r: Option<Expr>)
      requires Valid()
      modifies this
      ensures Valid() && Result(r, Branches(input, cond, old(pos))) && (r.Some? ==> errors == old(errors))
      decreases |input| - pos, 6
    {
      hide LayoutEnd, PeekBinop, Newlines, LineStart, Ternary, Branches, Binary, Climbing, Unary, Primary, Postfix;
      BranchesRule(input, cond, pos);
      var yes := cond;
      if Peek(0) == ':' {
        Step();
      } else {
        r := ParseTernary();
        if r.None? {
          return;
        }
        yes := r.value;
        var found := MatchChar(':');
        if !found {
          Error();
          return None;
        }
      }
      r := ParseTernary();
      if r.Some? {
        r := Some(IfExpr(cond, yes, r.value));
      }
    }

    method ParseBinary(minPrec: nat) returns (r: Option<Expr>)
      requires Valid()
      modifies this
      ensures Valid() && Result(r, Binary(input, old(pos), minPrec)) && (r.Some? ==> errors == old(errors))
      decreases |input| - pos, 4
    {
      hide LayoutEnd, PeekBinop, Newlines, LineStart, Ternary, Branches, Binary, Climbing, Unary, Primary, Postfix;
      BinaryRule(input, pos, minPrec);
      r := ParseUnary();
      if r.None? {
        return;
      }
      r := ParseBinaryFrom(minPrec, r.value);
    }

    /** The climbing loop, from the left operand on. */
    method ParseBinaryFrom(minPrec: nat, operand: Expr) returns (r: Option<Expr>)
      requires Valid()
      modifies this
      ensures Valid() && Result(r, Climbing(input, operand, old(pos), minPrec)) && (r.Some? ==> errors == old(errors))
      decreases |input| - pos, 7
    {
      hide LayoutEnd, PeekBinop, Newlines, LineStart, Ternary, Branches, Binary, Climbing, Unary, Primary, Postfix;
      var left := operand;
      while true
        invariant Valid() && old(pos) <= pos && errors == old(errors)
        invariant Climbing(input, left, pos, minPrec) == Climbing(input, operand, old(pos), minPrec)
        decreases |input| - pos
      {
        ClimbingRule(input, left, pos, minPrec);
        var sp := Save();
        ConsumeLayout();
        var op := PeekBinop(input, pos);
        if op.None? || Prec(op.value) < minPrec {
          Restore(sp);
          return Some(left);
        }
        Advance(OpLength(op.value));
        var right := ParseBinary(Prec(op.value) + 1);
        if right.None? {
          return None;
        }
        left := Binop(left, op.value, right.value);
      }
    }

    method ParseUnary() returns (r: Option<Expr>)
      requires Valid()
      modifies this
      ensures Valid() && Result(r, Unary(input, old(pos))) && (r.Some? ==> errors == old(errors))
      decreases |input| - pos, 3
    {
      hide LayoutEnd, PeekBinop, Newlines, LineStart, Ternary, Branches, Binary, Climbing, Unary, Primary, Postfix;
      UnaryRule(input, pos);
      ConsumeLayout();
      var c, next := Peek(0), Peek(1);
      if IsStep(c, next) {
        Advance(2);
        r := ParseUnary();
        if r.Some? && r.value.Variable? {
          r := Some(Expr.Step(true, c == '+', r.value));
        } else {
          errors := errors + 1;
          r := None;
        }
      } else if c == '&' {
        r := None;
      } else if PrefixOf(c, next).Some? {
        Step();
        r := ParseUnary();
        if r.Some? {
          r := Some(Unop(PrefixOf(c, next).value, r.value));
        }
      } else {
        r := ParsePrimary();
        if r.Some? {
          r := ParsePostfix(r.value);
        }
      }
    }

    /** Behind an opening bracket: the index and the closing bracket. */
    method ParseIndex() returns (r: Option<Expr>)
      requires Valid()
      modifies this
      ensures Valid() && (r.Some? ==> errors == old(errors))
      ensures var i := Ternary(input, old(pos));
        if i.Failed? || CharAt(input, LayoutEnd(input, i.pos)) != ']' then r.None?
        else r == Some(i.expr) && pos == LayoutEnd(input, i.pos) + 1
      decreases |input| - pos, 6
    {
      hide LayoutEnd, Newlines, LineStart, Ternary;
      r := ParseTernary();
      if r.None? {
        return;
      }
      var found := MatchChar(']');
      if !found {
        Error();
        return None;
      }
    }

    method ParsePostfix(operand: Expr) returns (r: Option<Expr>)
      requires Valid()
      modifies this
      ensures Valid() && Result(r, Postfix(input, operand, old(pos))) && (r.Some? ==> errors == old(errors))
      decreases |input| - pos, 8
    {
      hide Newlines, LineStart, Postfix;
      var e := operand;
      while true
        invariant Valid() && old(pos) <= pos && errors == old(errors)
        invariant Postfix(input, e, pos) == Postfix(input, operand, old(pos))
        decreases |input| - pos
      {
        var s := ParseSuffix(e);
        match s {
          case More(x) => e := x;
          case Done(x) => return Some(x);
          case Bad => return None;
        }
      }
    }

    /** Behind a dot or an arrow: the name of the field. */
    method ParseMember(e: Expr) returns (r: Suffix)
      requires Valid()
      modifies this
      ensures Valid() && (!r.Bad? ==> errors == old(errors))
      ensures var k := LayoutEnd(input, old(pos));
        if !IsIdentStart(CharAt(input, k)) then r.Bad?
        else r == More(Field(e, input[k..IdentEnd(input, k)])) && pos == IdentEnd(input, k)
    {
      hide LayoutEnd, Newlines, LineStart, IdentEnd, IsIdentStart, CharAt;
      var name := ConsumeIdentifier();
      r := if name.None? then Bad else More(Field(e, name.value));
    }

    /** `++` or `--` behind an expression, which must be a variable. */
    method ParseStep(e: Expr, up: bool) returns (r: Suffix)
      requires Valid() && pos + 2 <= |input|
      modifies this
      ensures Valid() && pos == old(pos) + 2
      ensures if e.Variable? then r == More(Expr.Step(false, up, e)) && errors == old(errors) else r == Bad
    {
      hide Newlines, LineStart;
      Advance(2);
      if e.Variable? {
        r := More(Expr.Step(false, up, e));
      } else {
        errors := errors + 1;
        r := Bad;
      }
    }

    /** A dot or an arrow and the name of a field, behind an expression that ends at `start`. */
    method ParseAccess(e: Expr, ghost start: nat) returns (r: Suffix)
      requires Valid() && start <= |input| && pos == LayoutEnd(input, start)
      requires IsAccess(CharAt(input, pos), CharAt(input, pos + 1))
      modifies this
      ensures Valid() && (!r.Bad? ==> errors == old(errors))
      ensures SuffixIs(input, e, start, r, pos)
    {
      hide LayoutEnd, Newlines, LineStart, Postfix, IdentEnd, IsIdentStart, CharAt;
      ghost var q := pos;
      CharInside(input, pos);
      CharInside(input, pos + 1);
      Advance(if Peek(0) == '.' then 1 else 2);
      AccessRule(input, e, start, q, LayoutEnd(input, pos));
      r := ParseMember(e);
    }

    /** At most one postfix operator. */
    method ParseSuffix(e: Expr) returns (r: Suffix)
      requires Valid()
      modifies this
      ensures Valid() && (!r.Bad? ==> errors == old(errors))
      ensures SuffixIs(input, e, old(pos), r, pos)
      decreases |input| - pos, 7
    {
      hide LayoutEnd, Newlines, LineStart, Ternary, Postfix, IdentEnd, IsIdentStart, CharAt;
      var sp := Save();
      ConsumeLayout();
      ghost var q := pos;
      CharInside(input, pos);
      CharInside(input, pos + 1);
      var c, next := Peek(0), Peek(1);
      if c == '.' && next == '.' {
        RangeStops(input, e, sp.pos, q);
        r := Done(e);
      } else if c == '.' || (c == '-' && next == '>') {
        r := ParseAccess(e, sp.pos);
      } else if c == '[' {
        BracketRule(input, e, sp.pos, q);
        Step();
        var i := ParseIndex();
        r := if i.None? then Bad else More(Index(e, i.value));
      } else if IsStep(c, next) {
        StepRule(input, e, sp.pos, q);
        r := ParseStep(e, c == '+');
      } else {
        PostfixEnds(input, e, sp.pos, q);
        Restore(sp);
        r := Done(e);
      }
    }

    method ParsePrimary() returns (r: Option<Expr>)
      requires Valid()
      modifies this
      ensures Valid() && Result(r, Primary(input, old(pos))) && (r.Some? ==> errors == old(errors))
      decreases |input| - pos, 1
    {
      hide LayoutEnd, PeekBinop, Newlines, LineStart, Ternary, Branches, Binary, Climbing, Unary, Primary, Postfix;
      PrimaryRule(input, pos);
      ConsumeLayout();
      var c := Peek(0);
      if c == '(' {
        Step();
        r := ParseGroup();
      } else if c == '$' {
        r := ConsumeVariable();
      } else if IsDigit(c) {
        r := ConsumeInteger();
      } else if c == '"' {
        r := ConsumeText();
      } else {
        r := None;
      }
    }

    /** Behind an opening parenthesis: the expression and the closing one. */
    method ParseGroup() returns (r: Option<Expr>)
      requires Valid()
      modifies this
      ensures Valid() && (r.Some? ==> errors == old(errors))
      ensures var k := LayoutEnd(input, old(pos));
        if CharAt(input, k) == ')' || IsIdentStart(CharAt(input, k)) then r.None?
        else
          var e := Ternary(input, k);
          if e.Failed? || CharAt(input, LayoutEnd(input, e.pos)) != ')' then r.None?
          else r == Some(e.expr) && pos == LayoutEnd(input, e.pos) + 1
      decreases |input| - pos, 6
    {
      hide LayoutEnd, Newlines, LineStart, Ternary;
      ConsumeLayout();
      if Peek(0) == ')' || IsIdentStart(Peek(0)) {
        return None;
      }
      r := ParseTernary();
      if r.None? {
        return;
      }
      var found := MatchChar(')');
      if !found {
        Error();
        return None;
      }
    }
  }
}
