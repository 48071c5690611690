/** The binary operators by their texts, and how a chain of operands between them is read: stated by a
    table of the texts, loosest first, and not by the levels the parser compares. */
module Operators {
  import opened Options
  import opened LayoutScan
  import opened Tokens
  import opened Grammar
  import opened Printer
  import opened RoundTrip

  /** Texts and operators in groups, the loosest first. */
  const GROUPS: seq<seq<(string, Operator)>> := [
    [("||", LOR)],
    [("&&", LAND)],
    [("|", BOR)],
    [("^", BXOR)],
    [("&", BAND)],
    [("==", EQ), ("!=", NE)],
    [("<=", LE), (">=", GE), ("<", LT), (">", GT)],
    [("<<", LEFT), (">>", RIGHT)],
    [("+", PLUS), ("-", MINUS)],
    [("*", MUL), ("/", DIV), ("%", MOD)]
  ]

  /** An operand, as a text and what it stands for. */
  datatype Term = Term(text: string, syntax: Syntax)

  /** A place in the table. */
  datatype Entry = Entry(group: nat, place: nat)

  /** An operator and the operand behind it. */
  datatype Linked = Linked(op: Entry, term: Term)

  /** The term is written so that any prefix or postfix operators in it belong to it alone. */
  ghost predicate IsTerm(t: Term) {
    Print(t.syntax, UNARY) == Some(t.text)
  }

  predicate InTable(e: Entry) {
    e.group < |GROUPS| && e.place < |GROUPS[e.group]|
  }

  ghost predicate IsChain(first: Term, links: seq<Linked>) {
    IsTerm(first) && forall i :: 0 <= i < |links| ==> InTable(links[i].op) && IsTerm(links[i].term)
  }

  function TextOf(e: Entry): string
    requires InTable(e)
  {
    GROUPS[e.group][e.place].0
  }

  function OperatorOf(e: Entry): Operator
    requires InTable(e)
  {
    GROUPS[e.group][e.place].1
  }

  /** The operands and operators one after the other, between single spaces. */
  function ChainText(first: Term, links: seq<Linked>): string
    requires forall i :: 0 <= i < |links| ==> InTable(links[i].op)
  {
    if |links| == 0 then first.text
    else
      var n := |links| - 1;
      ChainText(first, links[..n]) + (" " + (TextOf(links[n].op) + " ") + links[n].term.text)
  }

  /** The last operator of the loosest group there is. */
  function LastLoosest(links: seq<Linked>): (k: nat)
    requires |links| > 0
    ensures k < |links|
    ensures forall i :: 0 <= i < |links| ==> links[k].op.group <= links[i].op.group
    ensures forall i :: k < i < |links| ==> links[k].op.group < links[i].op.group
  {
    var n := |links| - 1;
    if n == 0 then 0
    else
      var k := LastLoosest(links[..n]);
      if links[n].op.group <= links[k].op.group then n else k
  }

  /** The tree that is meant: it divides at the last operator of the loosest group. */
  function ChainTree(first: Term, links: seq<Linked>): Expr
    requires forall i :: 0 <= i < |links| ==> InTable(links[i].op)
    decreases |links|
  {
    if |links| == 0 then Erase(first.syntax)
    else
      var k := LastLoosest(links);
      Binop(ChainTree(first, links[..k]), OperatorOf(links[k].op), ChainTree(links[k].term, links[k + 1..]))
  }

  // ---------- the table and the parser's levels ----------

  lemma TableIs(e: Entry)
    requires InTable(e)
    ensures OpText(OperatorOf(e)) == TextOf(e) && InfoOf(OperatorOf(e)).prec == e.group + 1 && e.group < 10
  {
    assert |GROUPS| == 10;
    if e.group < 5 {
      assert e.place == 0;
    }
  }

  function ChainSyntax(first: Term, links: seq<Linked>): Syntax
    requires forall i :: 0 <= i < |links| ==> InTable(links[i].op)
    decreases |links|
  {
    if |links| == 0 then first.syntax
    else
      var k := LastLoosest(links);
      Infix(ChainSyntax(first, links[..k]), InfoOf(OperatorOf(links[k].op)), ChainSyntax(links[k].term, links[k + 1..]))
  }

  lemma {:induction false} ChainErases(first: Term, links: seq<Linked>)
    requires forall i :: 0 <= i < |links| ==> InTable(links[i].op)
    ensures Erase(ChainSyntax(first, links)) == ChainTree(first, links)
    decreases |links|
  {
    hide InTable, OperatorOf, LastLoosest;
    if |links| > 0 {
      var k := LastLoosest(links);
      ChainErases(first, links[..k]);
      ChainErases(links[k].term, links[k + 1..]);
    }
  }

  lemma Regroup(a: string, b: string, c: string, d: string)
    ensures (a + (b + c)) + d == a + (b + (c + d))
  {
  }

  lemma {:induction false} TextSplits(first: Term, links: seq<Linked>, k: nat)
    requires k < |links| && forall i :: 0 <= i < |links| ==> InTable(links[i].op)
    ensures ChainText(first, links) ==
            ChainText(first, links[..k]) + (" " + (TextOf(links[k].op) + " ") + ChainText(links[k].term, links[k + 1..]))
    decreases |links|
  {
    hide TextOf, InTable;
    var n := |links| - 1;
    var mark := " " + (TextOf(links[k].op) + " ");
    if k < n {
      TextSplits(first, links[..n], k);
      assert links[..n][..k] == links[..k] && links[..n][k + 1..] == links[k + 1..][..n - k - 1];
      Regroup(ChainText(first, links[..k]), mark, ChainText(links[k].term, links[k + 1..][..n - k - 1]),
              " " + (TextOf(links[n].op) + " ") + links[n].term.text);
    } else {
      assert links[k + 1..] == [];
    }
  }

  lemma TermPrints(t: Term, l: nat)
    requires IsTerm(t) && l <= UNARY
    ensures Print(t.syntax, l) == Some(t.text)
  {
  }

  lemma InfixPrints(x: Syntax, op: Operator, y: Syntax, l: nat, xt: string, yt: string)
    requires l <= InfoOf(op).prec
    requires Print(x, InfoOf(op).prec) == Some(xt) && Print(y, InfoOf(op).prec + 1) == Some(yt)
    ensures Print(Infix(x, InfoOf(op), y), l) == Some(xt + (" " + (OpText(op) + " ") + yt))
  {
  }

  lemma ChainParts(first: Term, links: seq<Linked>, k: nat)
    requires IsChain(first, links) && k < |links|
    ensures IsChain(first, links[..k]) && InTable(links[k].op) && IsChain(links[k].term, links[k + 1..])
  {
    hide InTable, IsTerm;
  }

  lemma {:induction false} ChainPrints(first: Term, links: seq<Linked>, l: nat)
    requires IsChain(first, links) && l <= UNARY
    requires forall i :: 0 <= i < |links| ==> l <= links[i].op.group + 1
    ensures Print(ChainSyntax(first, links), l) == Some(ChainText(first, links))
    decreases |links|
  {
    hide TextOf, OperatorOf, OpText, Print, IsTerm, InTable, LastLoosest, InfoOf, ChainText;
    if |links| > 0 {
      var k := LastLoosest(links);
      var x, y := links[..k], links[k + 1..];
      ChainParts(first, links, k);
      TableIs(links[k].op);
      ChainPrints(first, x, links[k].op.group + 1);
      ChainPrints(links[k].term, y, links[k].op.group + 2);
      TextSplits(first, links, k);
      InfixPrints(ChainSyntax(first, x), OperatorOf(links[k].op), ChainSyntax(links[k].term, y), l,
                  ChainText(first, x), ChainText(links[k].term, y));
    } else {
      TermPrints(first, l);
      NoLinks(first, links);
    }
  }

  lemma NoLinks(first: Term, links: seq<Linked>)
    requires |links| == 0
    ensures ChainText(first, links) == first.text && ChainTree(first, links) == Erase(first.syntax)
  {
  }

  // ---------- how chains are read ----------

  /** A chain of any operands and operators is read as the tree that divides at the last operator of the
      loosest group, and so on in both parts. */
  lemma ChainParses(first: Term, links: seq<Linked>)
    requires IsChain(first, links)
    ensures var s := ChainText(first, links); ParseExpression(s, 0) == Parsed(ChainTree(first, links), |s|)
  {
    hide Print, ChainText, ChainTree, ParseExpression;
    ChainPrints(first, links, 0);
    ChainErases(first, links);
    PrintParse(ChainSyntax(first, links), ChainText(first, links));
  }

  lemma DividesAt(first: Term, links: seq<Linked>, k: nat)
    requires |links| > 0 && k == LastLoosest(links) && forall i :: 0 <= i < |links| ==> InTable(links[i].op)
    ensures ChainTree(first, links) ==
            Binop(ChainTree(first, links[..k]), OperatorOf(links[k].op), ChainTree(links[k].term, links[k + 1..]))
  {
  }

  lemma OneTree(x: Term, a: Linked)
    requires InTable(a.op)
    ensures ChainTree(x, [a]) == Binop(Erase(x.syntax), OperatorOf(a.op), Erase(a.term.syntax))
  {
    hide ChainTree, InTable, OperatorOf, Erase;
    DividesAt(x, [a], 0);
    NoLinks(x, [a][..0]);
    NoLinks(a.term, [a][1..]);
  }

  lemma PairTree(x: Term, a: Linked, b: Linked)
    requires InTable(a.op) && InTable(b.op)
    ensures var (u, v, w) := (Erase(x.syntax), Erase(a.term.syntax), Erase(b.term.syntax));
            ChainTree(x, [a, b]) ==
            if b.op.group <= a.op.group then Binop(Binop(u, OperatorOf(a.op), v), OperatorOf(b.op), w)
            else Binop(u, OperatorOf(a.op), Binop(v, OperatorOf(b.op), w))
  {
    hide ChainTree, InTable, OperatorOf, Erase, LastLoosest;
    var links := [a, b];
    assert links[..1] == [a] && links[1..] == [b];
    if b.op.group <= a.op.group {
      assert links[LastLoosest(links)].op.group <= links[1].op.group;
      DividesAt(x, links, 1);
      OneTree(x, a);
      NoLinks(b.term, links[2..]);
    } else {
      assert links[LastLoosest(links)].op.group <= links[0].op.group;
      DividesAt(x, links, 0);
      OneTree(a.term, b);
      NoLinks(x, links[..0]);
    }
  }

  lemma PairText(x: Term, a: Linked, b: Linked)
    requires InTable(a.op) && InTable(b.op)
    ensures ChainText(x, [a, b]) ==
            x.text + (" " + (TextOf(a.op) + " ") + a.term.text) + (" " + (TextOf(b.op) + " ") + b.term.text)
  {
    hide TextOf;
    assert [a, b][..1] == [a] && [a][..0] == [];
    assert ChainText(x, [a]) == ChainText(x, [a][..0]) + (" " + (TextOf(a.op) + " ") + a.term.text);
  }

  /** Two operators: the first is done first unless the second is of a tighter group. */
  lemma PairParses(x: Term, a: Linked, b: Linked)
    requires IsTerm(x) && InTable(a.op) && IsTerm(a.term) && InTable(b.op) && IsTerm(b.term)
    ensures var s := x.text + (" " + (TextOf(a.op) + " ") + a.term.text) + (" " + (TextOf(b.op) + " ") + b.term.text);
            var (u, v, w) := (Erase(x.syntax), Erase(a.term.syntax), Erase(b.term.syntax));
            ParseExpression(s, 0) ==
            if b.op.group <= a.op.group then Parsed(Binop(Binop(u, OperatorOf(a.op), v), OperatorOf(b.op), w), |s|)
            else Parsed(Binop(u, OperatorOf(a.op), Binop(v, OperatorOf(b.op), w)), |s|)
  {
    hide TextOf, OperatorOf, ParseExpression, IsTerm, ChainText, ChainTree, InTable, Erase;
    PairText(x, a, b);
    PairTree(x, a, b);
    ChainParses(x, [a, b]);
  }

  // ---------- which operator stands somewhere ----------

  /** Texts of one to three characters that start with a character of a binary operator and are none. */
  const OTHERS: seq<string> := ["+=", "-=", "*=", "/=", "%=", "&=", "|=", "^=", "<<=", ">>=", "++", "--"]

  /** The text `t` is read at `p`, and none of the others there is longer. */
  ghost predicate LongestAt(s: string, p: nat, t: string) {
    && At(s, p, t)
    && (forall i :: 0 <= i < |OTHERS| && At(s, p, OTHERS[i]) ==> |OTHERS[i]| <= |t|)
    && (forall e :: InTable(e) && At(s, p, TextOf(e)) ==> |TextOf(e)| <= |t|)
  }

  /** The slash in front of a block closes a predicate. */
  predicate ClosesPredicate(s: string, p: nat) {
    p < |s| && CharAt(s, ScanLayout(s, p + 1)) == '{'
  }

  /** Two characters that make up a text of either list. */
  predicate Pairs(c: char, d: char) {
    || (d == '=' && c in "+-*/%&|^=!<>")
    || (c == d && c in "|&<>+-")
  }

  lemma AtOne(s: string, p: nat, t: string)
    requires |t| == 1
    ensures At(s, p, t) <==> p < |s| && s[p] == t[0]
  {
    if p < |s| {
      assert s[p..p + 1] == [s[p]];
      assert t == [t[0]];
    }
  }

  lemma AtTwo(s: string, p: nat, t: string)
    requires |t| == 2
    ensures At(s, p, t) <==> p + 1 < |s| && s[p] == t[0] && s[p + 1] == t[1]
  {
    if p + 2 <= |s| {
      assert s[p..p + 2] == [s[p], s[p + 1]];
      assert t == [t[0], t[1]];
    }
  }

  lemma AtThree(s: string, p: nat, t: string)
    requires |t| == 3
    ensures At(s, p, t) <==> p + 2 < |s| && s[p] == t[0] && s[p + 1] == t[1] && s[p + 2] == t[2]
  {
    if p + 3 <= |s| {
      assert s[p..p + 3] == [s[p], s[p + 1], s[p + 2]];
      assert t == [t[0], t[1], t[2]];
    }
  }

  lemma OtherIs(i: nat)
    requires i < |OTHERS|
    ensures var t := OTHERS[i];
            || (|t| == 2 && Pairs(t[0], t[1]))
            || t == "<<=" || t == ">>="
  {
  }

  lemma EntryIs(e: Entry)
    requires InTable(e)
    ensures var t := TextOf(e); |t| == 1 || (|t| == 2 && Pairs(t[0], t[1]))
  {
    assert |GROUPS| == 10;
  }

  /** Some text of two characters stands where two characters make one up. */
  lemma PairStands(s: string, p: nat) returns (t: string)
    requires p + 1 < |s| && Pairs(s[p], s[p + 1])
    ensures |t| == 2 && At(s, p, t)
    ensures (exists i :: 0 <= i < |OTHERS| && OTHERS[i] == t) || (exists e :: InTable(e) && TextOf(e) == t)
  {
    var c, d := s[p], s[p + 1];
    t := [c, d];
    AtTwo(s, p, t);
    if c == d {
      if c == '|' { assert TextOf(Entry(0, 0)) == t; }
      else if c == '&' { assert TextOf(Entry(1, 0)) == t; }
      else if c == '<' { assert TextOf(Entry(7, 0)) == t; }
      else if c == '>' { assert TextOf(Entry(7, 1)) == t; }
      else if c == '+' { assert OTHERS[10] == t; }
      else if c == '-' { assert OTHERS[11] == t; }
      else { assert TextOf(Entry(5, 0)) == t; }
    } else {
      if c == '+' { assert OTHERS[0] == t; }
      else if c == '-' { assert OTHERS[1] == t; }
      else if c == '*' { assert OTHERS[2] == t; }
      else if c == '/' { assert OTHERS[3] == t; }
      else if c == '%' { assert OTHERS[4] == t; }
      else if c == '&' { assert OTHERS[5] == t; }
      else if c == '|' { assert OTHERS[6] == t; }
      else if c == '^' { assert OTHERS[7] == t; }
      else if c == '!' { assert TextOf(Entry(5, 1)) == t; }
      else if c == '<' { assert TextOf(Entry(6, 0)) == t; }
      else { assert TextOf(Entry(6, 1)) == t; }
    }
  }

  lemma LongestIs(s: string, p: nat, t: string)
    requires p <= |s| && 1 <= |t| <= 2
    ensures LongestAt(s, p, t) <==>
            At(s, p, t) &&
            (if |t| == 1 then !(p + 1 < |s| && Pairs(s[p], s[p + 1])) else !At(s, p, "<<=") && !At(s, p, ">>="))
  {
    hide Pairs, TextOf, InTable;
    if |t| == 1 && p + 1 < |s| && Pairs(s[p], s[p + 1]) {
      var u := PairStands(s, p);
    } else if |t| == 2 {
      assert OTHERS[8] == "<<=" && OTHERS[9] == ">>=";
    }
    forall i | 0 <= i < |OTHERS| && At(s, p, OTHERS[i])
      ensures |OTHERS[i]| == 2 ==> p + 1 < |s| && Pairs(s[p], s[p + 1])
      ensures |OTHERS[i]| != 2 ==> At(s, p, "<<=") || At(s, p, ">>=")
      ensures |OTHERS[i]| <= 3
    {
      OtherIs(i);
      if |OTHERS[i]| == 2 {
        AtTwo(s, p, OTHERS[i]);
      }
    }
    forall e | InTable(e) && At(s, p, TextOf(e))
      ensures |TextOf(e)| <= 2
      ensures |TextOf(e)| == 2 ==> p + 1 < |s| && Pairs(s[p], s[p + 1])
    {
      EntryIs(e);
      if |TextOf(e)| == 2 {
        AtTwo(s, p, TextOf(e));
      }
    }
    TripleIsPair(s, p);
  }

  lemma TripleIsPair(s: string, p: nat)
    ensures At(s, p, "<<=") || At(s, p, ">>=") ==> p + 1 < |s| && Pairs(s[p], s[p + 1])
  {
    AtThree(s, p, "<<=");
    AtThree(s, p, ">>=");
  }

  lemma PeekShort(s: string, p: nat, e: Entry)
    requires p <= |s| && InTable(e) && |TextOf(e)| == 1
    ensures PeekBinop(s, p) == Some(OperatorOf(e)) <==>
            && p < |s| && s[p] == TextOf(e)[0] && !(p + 1 < |s| && Pairs(s[p], s[p + 1]))
            && !(TextOf(e) == "/" && ClosesPredicate(s, p))
  {
    hide ScanLayout;
  }

  lemma PeekLong(s: string, p: nat, e: Entry)
    requires p <= |s| && InTable(e) && |TextOf(e)| == 2
    ensures PeekBinop(s, p) == Some(OperatorOf(e)) <==>
            && p + 1 < |s| && s[p] == TextOf(e)[0] && s[p + 1] == TextOf(e)[1]
            && !(p + 2 < |s| && s[p] == s[p + 1] && s[p] in "<>" && s[p + 2] == '=')
  {
    hide ScanLayout;
  }

  /** The parser sees an operator of the table at `p` if and only if its text is the longest there of all
      operators, compound assignments and steps, and is not the slash that closes a predicate. */
  lemma PeekIsLongest(s: string, p: nat, e: Entry)
    requires p <= |s| && InTable(e)
    ensures PeekBinop(s, p) == Some(OperatorOf(e)) <==>
            LongestAt(s, p, TextOf(e)) && !(TextOf(e) == "/" && ClosesPredicate(s, p))
  {
    hide PeekBinop, LongestAt, At, Pairs, ClosesPredicate, InTable, TextOf, OperatorOf;
    var t := TextOf(e);
    EntryIs(e);
    LongestIs(s, p, t);
    AtThree(s, p, "<<=");
    AtThree(s, p, ">>=");
    if |t| == 1 {
      AtOne(s, p, t);
      PeekShort(s, p, e);
    } else {
      AtTwo(s, p, t);
      PeekLong(s, p, e);
    }
  }

  lemma Listed(op: Operator) returns (e: Entry)
    ensures InTable(e) && OperatorOf(e) == op
  {
    match op
    case LOR => e := Entry(0, 0);
    case LAND => e := Entry(1, 0);
    case BOR => e := Entry(2, 0);
    case BXOR => e := Entry(3, 0);
    case BAND => e := Entry(4, 0);
    case EQ => e := Entry(5, 0);
    case NE => e := Entry(5, 1);
    case LE => e := Entry(6, 0);
    case GE => e := Entry(6, 1);
    case LT => e := Entry(6, 2);
    case GT => e := Entry(6, 3);
    case LEFT => e := Entry(7, 0);
    case RIGHT => e := Entry(7, 1);
    case PLUS => e := Entry(8, 0);
    case MINUS => e := Entry(8, 1);
    case MUL => e := Entry(9, 0);
    case DIV => e := Entry(9, 1);
    case MOD => e := Entry(9, 2);
  }

  /** Where no text of the table is the longest, or only the slash that closes a predicate is, the parser
      sees no operator. */
  lemma PeekNothingIff(s: string, p: nat)
    requires p <= |s|
    ensures PeekBinop(s, p).None? <==>
            forall e | InTable(e) && LongestAt(s, p, TextOf(e)) :: TextOf(e) == "/" && ClosesPredicate(s, p)
  {
    hide PeekBinop, LongestAt, ClosesPredicate, InTable, TextOf, OperatorOf;
    forall e | InTable(e)
      ensures PeekBinop(s, p) == Some(OperatorOf(e)) <==>
              LongestAt(s, p, TextOf(e)) && !(TextOf(e) == "/" && ClosesPredicate(s, p))
    {
      PeekIsLongest(s, p, e);
    }
    if PeekBinop(s, p).Some? {
      var e := Listed(PeekBinop(s, p).value);
    }
  }
}
