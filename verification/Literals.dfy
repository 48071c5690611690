/** Characters and numbers of the language, by the characters themselves. */
module Literals {
  import opened Options
  import opened Tokens
  import opened Grammar
  import opened GrammarAt
  import opened Printer
  import opened RoundTrip
  import opened Payload
  import PayloadReader

  const SMALL: string := "abcdefghijklmnopqrstuvwxyz"
  const LARGE: string := "ABCDEFGHIJKLMNOPQRSTUVWXYZ"
  const DIGITS: string := "0123456789"

  /** Names start with a letter or an underscore and go on with these and digits. */
  lemma NameCharacters(c: char)
    ensures IsIdentStart(c) <==> c in SMALL || c in LARGE || c == '_'
    ensures Tokens.IsDigit(c) <==> c in DIGITS
    ensures IsIdentBody(c) <==> c in SMALL || c in LARGE || c == '_' || c in DIGITS
  {
    SmallIs(c);
    LargeIs(c);
    DigitIs(c);
  }

  lemma DigitIs(c: char)
    ensures Tokens.IsDigit(c) <==> c in DIGITS
  {
    if '0' <= c <= '9' {
      assert DIGITS[c as int - '0' as int] == c;
    }
  }

  lemma SmallIs(c: char)
    ensures 'a' <= c <= 'z' <==> c in SMALL
  {
    if 'a' <= c <= 'z' {
      assert SMALL[c as int - 'a' as int] == c;
    }
  }

  lemma LargeIs(c: char)
    ensures 'A' <= c <= 'Z' <==> c in LARGE
  {
    if 'A' <= c <= 'Z' {
      assert LARGE[c as int - 'A' as int] == c;
    }
  }

  lemma {:induction false} ValueIs(t: string)
    requires forall i :: 0 <= i < |t| ==> Tokens.IsDigit(t[i])
    ensures DecimalValue(t) == PayloadReader.Numeral(t)
  {
    if |t| > 0 {
      ValueIs(t[..|t| - 1]);
    }
  }

  /** The digits of a number are a literal exactly if it fits 64 bits. */
  lemma DecimalIsLiteral(n: nat)
    ensures IsDecimal(Decimal(n)) <==> n < 0x1_0000_0000_0000_0000
    ensures |Decimal(n)| > 0 && forall i :: 0 <= i < |Decimal(n)| ==> Tokens.IsDigit(Decimal(n)[i])
  {
    PayloadReader.DecimalReads(n);
    var t := Decimal(n);
    assert forall i :: 0 <= i < |t| ==> PayloadReader.IsDigit(t[i]);
    ValueIs(t);
  }

  /** A number written in digits is read as that literal if it fits 64 bits, and is an error otherwise. */
  lemma NumberParses(n: nat)
    ensures var t := Decimal(n);
            ParseExpression(t, 0) == if n < 0x1_0000_0000_0000_0000 then Parsed(Integer(t), |t|) else Failed
  {
    hide Decimal, ParseExpression, Print;
    var t := Decimal(n);
    DecimalIsLiteral(n);
    if n < 0x1_0000_0000_0000_0000 {
      LiteralPrints(t);
      PrintParse(Atom(t, Integer(t)), t);
    } else {
      NotParsed(t);
    }
  }

  lemma LiteralPrints(t: string)
    requires IsDecimal(t)
    ensures Print(Atom(t, Integer(t)), 0) == Some(t)
  {
  }

  lemma NotParsed(t: string)
    requires |t| > 0 && (forall i :: 0 <= i < |t| ==> Tokens.IsDigit(t[i])) && !IsDecimal(t)
    ensures ParseExpression(t, 0) == Failed
  {
    hide ParseTernary, ParseBinary, ParseUnary, ParsePrimary, IsDecimal, DecimalValue;
    NoLayout(t, 0);
    DigitsEndIs(t, 0, |t|);
    assert t[0..|t|] == t;
    assert AtomAt(t, 0) == Failed;
    hide AtomAt;
    PrimaryRule(t, 0);
    UnaryRule(t, 0);
    BinaryRule(t, 0, 0);
    TernaryRule(t, 0);
  }
}
