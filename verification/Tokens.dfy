/** Identifiers, keywords and string literals, as the positions and values the lexer produces. */
module Tokens {
  import opened LayoutScan

  /** The text `t` lies in `s` from `p` on. */
  ghost predicate At(s: string, p: nat, t: string) {
    p + |t| <= |s| && s[p..p + |t|] == t
  }

  lemma AtConcat(s: string, p: nat, a: string, b: string)
    requires At(s, p, a + b)
    ensures At(s, p, a) && At(s, p + |a|, b)
  {
    assert a == (a + b)[..|a|] == s[p..p + |a|];
    assert b == (a + b)[|a|..] == s[p + |a|..p + |a| + |b|];
  }

  lemma AtChar(s: string, p: nat, t: string, i: nat)
    requires At(s, p, t) && i < |t|
    ensures p + i < |s| && s[p + i] == t[i]
  {
    assert s[p..p + |t|][i] == t[i];
  }

  // ---------- identifiers ----------

  predicate IsDigit(c: char) {
    '0' <= c <= '9'
  }

  predicate IsIdentStart(c: char) {
    'a' <= c <= 'z' || 'A' <= c <= 'Z' || c == '_'
  }

  predicate IsIdentBody(c: char) {
    IsIdentStart(c) || IsDigit(c)
  }

  /** `scan_identifier_end`. */
  function IdentEnd(s: string, p: nat): (q: nat)
    requires p <= |s|
    ensures p <= q <= |s|
    ensures q < |s| ==> !IsIdentBody(s[q])
    ensures forall i :: p <= i < q ==> IsIdentBody(s[i])
    decreases |s| - p
  {
    if p < |s| && IsIdentBody(s[p]) then IdentEnd(s, p + 1) else p
  }

  /** The keyword `kw` stands at `p`, and is not the start of a longer identifier. */
  predicate KeywordAt(s: string, p: nat, kw: string) {
    && p + |kw| <= |s|
    && (forall i :: 0 <= i < |kw| ==> s[p + i] == kw[i])
    && !IsIdentBody(CharAt(s, p + |kw|))
  }

  predicate IsWord(kw: string) {
    |kw| > 0 && forall i :: 0 <= i < |kw| ==> IsIdentBody(kw[i])
  }

  /** The letters, digits and underscores from `p` on. */
  function WordAt(s: string, p: nat): string
    requires p <= |s|
  {
    s[p..IdentEnd(s, p)]
  }

  lemma {:induction false} WordReaches(s: string, p: nat, q: nat)
    requires p <= q <= |s| && forall i :: p <= i < q ==> IsIdentBody(s[i])
    ensures IdentEnd(s, p) == IdentEnd(s, q)
    decreases q - p
  {
    if p < q {
      WordReaches(s, p + 1, q);
    }
  }

  /** A keyword stands at `p` if and only if it is the whole word there. */
  lemma KeywordIsWord(s: string, p: nat, kw: string)
    requires p <= |s| && IsWord(kw)
    ensures KeywordAt(s, p, kw) <==> WordAt(s, p) == kw
  {
    if KeywordAt(s, p, kw) {
      assert s[p..p + |kw|] == kw;
      assert forall i :: p <= i < p + |kw| ==> s[i] == s[p..p + |kw|][i - p];
      WordReaches(s, p, p + |kw|);
    }
    if WordAt(s, p) == kw {
      forall i | 0 <= i < |kw|
        ensures s[p + i] == kw[i]
      {
        assert WordAt(s, p)[i] == s[p + i];
      }
    }
  }

  /** The lookahead test for a keyword and the consuming match agree wherever the two scans of the
      layout in front of it meet. For a keyword and any text they differ if and only if one scan ends at
      that word and the other does not. */
  lemma KeywordAgrees(s: string, p: nat, kw: string)
    requires p <= |s|
    ensures Meets(s, p, p) ==> KeywordAt(s, ScanLayout(s, p), kw) == KeywordAt(s, LayoutEnd(s, p), kw)
    ensures IsWord(kw) ==>
              (KeywordAt(s, ScanLayout(s, p), kw) != KeywordAt(s, LayoutEnd(s, p), kw) <==>
               kw in [WordAt(s, ScanLayout(s, p)), WordAt(s, LayoutEnd(s, p))] &&
               WordAt(s, ScanLayout(s, p)) != WordAt(s, LayoutEnd(s, p)))
  {
    LookaheadAgreesIff(s, p);
    if IsWord(kw) {
      KeywordIsWord(s, ScanLayout(s, p), kw);
      KeywordIsWord(s, LayoutEnd(s, p), kw);
    }
  }

  /** They agree on every keyword if and only if both scans end at the same word, even where they end at
      different places. */
  lemma KeywordsAgreeIff(s: string, p: nat)
    requires p <= |s|
    ensures (forall kw | IsWord(kw) :: KeywordAt(s, ScanLayout(s, p), kw) == KeywordAt(s, LayoutEnd(s, p), kw)) <==>
            WordAt(s, ScanLayout(s, p)) == WordAt(s, LayoutEnd(s, p))
  {
    hide ScanLayout, LayoutEnd, KeywordAt, Meets;
    var v, w := WordAt(s, ScanLayout(s, p)), WordAt(s, LayoutEnd(s, p));
    forall kw | IsWord(kw)
      ensures KeywordAt(s, ScanLayout(s, p), kw) != KeywordAt(s, LayoutEnd(s, p), kw) <==> kw in [v, w] && v != w
    {
      KeywordAgrees(s, p, kw);
    }
    if v != w {
      var kw := if |v| > 0 then v else w;
      assert IsWord(kw) && kw in [v, w];
    }
  }

  /** Behind a comment with a hidden closer, the test sees a keyword that the match does not find. */
  lemma KeywordCounterexample()
    ensures var s := "/*\n**/ x"; KeywordAt(s, ScanLayout(s, 0), "x") && !KeywordAt(s, LayoutEnd(s, 0), "x")
  {
    hide ScanLayout, LayoutEnd;
    LookaheadCounterexample();
  }

  // ---------- string literals ----------

  /** Text read, position reached, errors reported. */
  datatype StringRead = StringRead(value: string, pos: nat, errors: nat)

  predicate IsOctal(c: char) {
    '0' <= c <= '7'
  }

  predicate IsHex(c: char) {
    IsDigit(c) || 'a' <= c <= 'f' || 'A' <= c <= 'F'
  }

  function HexDigit(c: char): (d: nat)
    requires IsHex(c)
    ensures d < 16
  {
    if IsDigit(c) then c as int - '0' as int
    else if c <= 'F' then c as int - 'A' as int + 10
    else c as int - 'a' as int + 10
  }

  /** At most `n` octal digits from `p` on, appended to the number `v`. */
  function ReadOctal(s: string, p: nat, v: nat, n: nat): (r: (nat, nat))
    requires p <= |s|
    ensures p <= r.1 <= |s|
    decreases n
  {
    if n == 0 || p == |s| || !IsOctal(s[p]) then (v, p)
    else ReadOctal(s, p + 1, 8 * v + (s[p] as int - '0' as int), n - 1)
  }

  function ReadHex(s: string, p: nat, v: nat, n: nat): (r: (nat, nat))
    requires p <= |s|
    ensures p <= r.1 <= |s|
    decreases n
  {
    if n == 0 || p == |s| || !IsHex(s[p]) then (v, p)
    else ReadHex(s, p + 1, 16 * v + HexDigit(s[p]), n - 1)
  }

  /** `static_cast<char>`: the low eight bits. */
  function LowByte(v: nat): char {
    (v % 256) as char
  }

  /** The escape whose letter stands at `p`. */
  function ReadEscape(s: string, p: nat): (r: StringRead)
    requires p < |s|
    ensures p < r.pos <= |s|
  {
    var c := s[p];
    if c == 'n' then StringRead("\n", p + 1, 0)
    else if c == 't' then StringRead("\t", p + 1, 0)
    else if c == 'r' then StringRead("\r", p + 1, 0)
    else if c == '"' || c == '\\' then StringRead([c], p + 1, 0)
    else if IsOctal(c) then
      var (v, q) := ReadOctal(s, p + 1, c as int - '0' as int, 2);
      StringRead([LowByte(v)], q, if v > 255 then 1 else 0)
    else if c == 'x' || c == 'X' then
      var (v, q) := ReadHex(s, p + 1, 0, 2);
      if q == p + 1 then StringRead("", q, 1) else StringRead([LowByte(v)], q, 0)
    else StringRead("", p + 1, 1)
  }

  /** The rest of a string literal from `p` on, behind its opening quote. */
  function ReadChars(s: string, p: nat): (r: StringRead)
    requires p <= |s|
    ensures p <= r.pos <= |s|
    ensures r.errors == 0 ==> p < r.pos && s[r.pos - 1] == '"'
    decreases |s| - p
  {
    if p == |s| || s[p] == '\n' then StringRead("", p, 1)
    else if s[p] == '"' then StringRead("", p + 1, 0)
    else if s[p] != '\\' then Prepend([s[p]], 0, ReadChars(s, p + 1))
    else if p + 1 == |s| then StringRead("", p + 1, 1)
    else
      var e := ReadEscape(s, p + 1);
      Prepend(e.value, e.errors, ReadChars(s, e.pos))
  }

  function Prepend(t: string, errors: nat, r: StringRead): StringRead {
    StringRead(t + r.value, r.pos, errors + r.errors)
  }

  // ---------- ways to write a character ----------

  /** As itself, by a letter, in up to three octal digits, or in one or two hexadecimal digits, behind a small or
      a capital letter and each digit small or large. */
  datatype Spelling = Plain | Named | Octal(width: nat) | Hex(capital: bool, large: bool, larger: bool, width: nat)

  predicate CanSpell(c: char, how: Spelling) {
    var v := c as int;
    match how
    case Plain => c != '"' && c != '\\' && c != '\n'
    case Named => c == '\n' || c == '\t' || c == '\r' || c == '"' || c == '\\'
    case Octal(width) => (width == 1 && v < 8) || (width == 2 && v < 64) || (width == 3 && v < 256)
    case Hex(_, _, _, width) => (width == 1 && v < 16) || (width == 2 && v < 256)
  }

  function DigitChar(d: nat, large: bool): char
    requires d < 16
  {
    if large then "0123456789ABCDEF"[d] else "0123456789abcdef"[d]
  }

  function Spell(c: char, how: Spelling): (t: string)
    requires CanSpell(c, how)
    ensures |t| > 0
  {
    var v := c as int;
    match how
    case Plain => [c]
    case Named =>
      ['\\', if c == '\n' then 'n' else if c == '\t' then 't' else if c == '\r' then 'r' else c]
    case Octal(width) =>
      if width == 1 then ['\\', DigitChar(v, false)]
      else if width == 2 then ['\\', DigitChar(v / 8, false), DigitChar(v % 8, false)]
      else ['\\', DigitChar(v / 64, false), DigitChar(v / 8 % 8, false), DigitChar(v % 8, false)]
    case Hex(capital, large, larger, width) =>
      var x := if capital then 'X' else 'x';
      if width == 1 then ['\\', x, DigitChar(v, large)]
      else ['\\', x, DigitChar(v / 16, large), DigitChar(v % 16, larger)]
  }

  /** A number with fewer digits than there may be ends where no further digit follows. */
  predicate EndsBefore(how: Spelling, next: char) {
    match how
    case Octal(width) => width < 3 ==> !IsOctal(next)
    case Hex(_, _, _, width) => width < 2 ==> !IsHex(next)
    case _ => true
  }

  /** Every character can be spelled so. */
  predicate CanSpellEach(v: string, how: seq<Spelling>) {
    |how| == |v| && forall i :: 0 <= i < |v| ==> CanSpell(v[i], how[i])
  }

  /** The first character of the spelling of character `i`, or the closing quote. */
  function StartAt(v: string, how: seq<Spelling>, i: nat): char
    requires CanSpellEach(v, how) && i <= |v|
  {
    if i == |v| then '"' else Spell(v[i], how[i])[0]
  }

  predicate CanSpellAll(v: string, how: seq<Spelling>) {
    CanSpellEach(v, how) && forall i :: 0 <= i < |v| ==> EndsBefore(how[i], StartAt(v, how, i + 1))
  }

  function SpellAll(v: string, how: seq<Spelling>): string
    requires CanSpellEach(v, how)
  {
    if |v| == 0 then "" else Spell(v[0], how[0]) + SpellAll(v[1..], how[1..])
  }

  lemma SpellStart(v: string, how: seq<Spelling>)
    requires CanSpellEach(v, how)
    ensures (SpellAll(v, how) + "\"")[0] == StartAt(v, how, 0)
  {
    hide Spell, CanSpell;
  }

  lemma SpellRest(v: string, how: seq<Spelling>)
    requires |v| > 0 && CanSpellAll(v, how)
    ensures CanSpell(v[0], how[0]) && CanSpellAll(v[1..], how[1..]) && EndsBefore(how[0], StartAt(v[1..], how[1..], 0))
  {
    hide Spell, CanSpell, EndsBefore;
    assert StartAt(v[1..], how[1..], 0) == StartAt(v, how, 1);
    forall i | 0 <= i < |v[1..]|
      ensures EndsBefore(how[1..][i], StartAt(v[1..], how[1..], i + 1))
    {
      assert StartAt(v[1..], how[1..], i + 1) == StartAt(v, how, i + 2);
      assert EndsBefore(how[i + 1], StartAt(v, how, i + 1 + 1));
    }
  }

  lemma HexDigitChar(d: nat, large: bool)
    requires d < 16
    ensures IsHex(DigitChar(d, large)) && HexDigit(DigitChar(d, large)) == d
    ensures d < 8 ==> IsOctal(DigitChar(d, large)) && DigitChar(d, large) as int == '0' as int + d
  {
  }

  lemma AtAll(s: string, p: nat, t: string)
    requires At(s, p, t)
    ensures forall i :: p <= i < p + |t| ==> s[i] == t[i - p]
  {
    forall i | p <= i < p + |t|
      ensures s[i] == t[i - p]
    {
      AtChar(s, p, t, i - p);
    }
  }

  lemma OctalStops(s: string, p: nat, v: nat, n: nat)
    requires p <= |s| && (n > 0 ==> !IsOctal(CharAt(s, p)))
    ensures ReadOctal(s, p, v, n) == (v, p)
  {
  }

  /** One to three octal digits behind a backslash, and nothing more to read. */
  lemma OctalReads(s: string, p: nat, v: nat, width: nat)
    requires v < 256 && 1 <= width <= 3 && p + width <= |s| && (width < 3 ==> !IsOctal(CharAt(s, p + width)))
    requires forall i :: p <= i < p + width ==> IsOctal(s[i])
    requires var d := s[p] as int - '0' as int;
             v == if width == 1 then d
                  else var e := s[p + 1] as int - '0' as int;
                       if width == 2 then 8 * d + e else 64 * d + 8 * e + (s[p + 2] as int - '0' as int)
    ensures ReadEscape(s, p) == StringRead([v as char], p + width, 0)
  {
    var d := s[p] as int - '0' as int;
    if width == 1 {
      OctalStops(s, p + 1, v, 2);
    } else if width == 2 {
      assert ReadOctal(s, p + 1, d, 2) == ReadOctal(s, p + 2, v, 1);
      OctalStops(s, p + 2, v, 1);
    } else {
      var e := s[p + 1] as int - '0' as int;
      assert ReadOctal(s, p + 1, d, 2) == ReadOctal(s, p + 2, 8 * d + e, 1) == ReadOctal(s, p + 3, v, 0);
    }
  }

  lemma OctalDigits(v: nat)
    requires v < 256
    ensures v / 64 < 8 && v / 8 % 8 < 8 && v % 8 < 8 && v == 64 * (v / 64) + 8 * (v / 8 % 8) + v % 8
    ensures v < 64 ==> v / 8 < 8 && v == 8 * (v / 8) + v % 8
  {
  }

  lemma ReadsOctal(s: string, p: nat, c: char, width: nat)
    requires CanSpell(c, Octal(width)) && At(s, p, Spell(c, Octal(width)))
    requires EndsBefore(Octal(width), CharAt(s, p + 1 + width))
    ensures ReadEscape(s, p + 1) == StringRead([c], p + 1 + width, 0)
  {
    hide ReadEscape, DigitChar, IsOctal;
    var v := c as int;
    AtAll(s, p, Spell(c, Octal(width)));
    OctalDigits(v);
    if width == 1 {
      HexDigitChar(v, false);
    } else {
      HexDigitChar(v % 8, false);
      if width == 2 {
        HexDigitChar(v / 8, false);
      } else {
        HexDigitChar(v / 64, false);
        HexDigitChar(v / 8 % 8, false);
      }
    }
    OctalReads(s, p + 1, v, width);
  }

  lemma HexReads(s: string, p: nat, v: nat, width: nat)
    requires v < 256 && 1 <= width <= 2 && p + 1 + width <= |s| && s[p] in "xX"
    requires width < 2 ==> !IsHex(CharAt(s, p + 1 + width))
    requires forall i :: p < i <= p + width ==> IsHex(s[i])
    requires v == if width == 1 then HexDigit(s[p + 1]) else 16 * HexDigit(s[p + 1]) + HexDigit(s[p + 2])
    ensures ReadEscape(s, p) == StringRead([v as char], p + 1 + width, 0)
  {
    hide HexDigit;
    var d := HexDigit(s[p + 1]);
    assert ReadHex(s, p + 1, 0, 2) == ReadHex(s, p + 2, d, 1);
    if width == 1 {
      assert ReadHex(s, p + 2, d, 1) == (d, p + 2);
    } else {
      assert ReadHex(s, p + 2, d, 1) == ReadHex(s, p + 3, v, 0);
    }
  }

  lemma ReadsHex(s: string, p: nat, c: char, how: Spelling)
    requires how.Hex? && CanSpell(c, how) && At(s, p, Spell(c, how))
    requires EndsBefore(how, CharAt(s, p + 2 + how.width))
    ensures ReadEscape(s, p + 1) == StringRead([c], p + 2 + how.width, 0)
  {
    hide ReadEscape, DigitChar, IsHex, HexDigit;
    var v := c as int;
    AtAll(s, p, Spell(c, how));
    if how.width == 1 {
      HexDigitChar(v, how.large);
    } else {
      HexDigitChar(v / 16, how.large);
      HexDigitChar(v % 16, how.larger);
    }
    HexReads(s, p + 1, v, how.width);
  }

  lemma ReadsNamed(s: string, p: nat, c: char)
    requires CanSpell(c, Named) && At(s, p, Spell(c, Named))
    ensures ReadEscape(s, p + 1) == StringRead([c], p + 2, 0)
  {
    AtChar(s, p, Spell(c, Named), 1);
  }

  lemma EscapeContinues(s: string, p: nat)
    requires p + 1 < |s| && s[p] == '\\'
    ensures var e := ReadEscape(s, p + 1); ReadChars(s, p) == Prepend(e.value, e.errors, ReadChars(s, e.pos))
  {
    hide ReadEscape;
  }

  lemma PlainContinues(s: string, p: nat)
    requires p < |s| && CanSpell(s[p], Plain)
    ensures ReadChars(s, p) == Prepend([s[p]], 0, ReadChars(s, p + 1))
  {
  }

  lemma SpellShape(c: char, how: Spelling)
    requires CanSpell(c, how)
    ensures how.Plain? ==> Spell(c, how) == [c]
    ensures !how.Plain? ==>
              Spell(c, how)[0] == '\\' &&
              |Spell(c, how)| == if how.Named? then 2 else if how.Octal? then 1 + how.width else 2 + how.width
  {
    hide DigitChar;
  }

  /** One spelled character is read back, and reading goes on behind it. */
  lemma ReadsOne(s: string, p: nat, c: char, how: Spelling)
    requires CanSpell(c, how) && At(s, p, Spell(c, how)) && EndsBefore(how, CharAt(s, p + |Spell(c, how)|))
    ensures ReadChars(s, p) == Prepend([c], 0, ReadChars(s, p + |Spell(c, how)|))
  {
    hide ReadEscape, ReadChars, Spell, At, CharAt, EndsBefore;
    SpellShape(c, how);
    AtChar(s, p, Spell(c, how), 0);
    if how.Plain? {
      PlainContinues(s, p);
    } else {
      AtChar(s, p, Spell(c, how), 1);
      EscapeContinues(s, p);
      match how
      case Named => ReadsNamed(s, p, c);
      case Octal(width) => ReadsOctal(s, p, c, width);
      case Hex(_, _, _, _) => ReadsHex(s, p, c, how);
    }
  }

  lemma QuoteEnds(s: string, p: nat)
    requires p < |s| && s[p] == '"'
    ensures ReadChars(s, p) == StringRead("", p + 1, 0)
  {
  }

  lemma {:induction false} ReadsAll(s: string, p: nat, v: string, how: seq<Spelling>)
    requires CanSpellEach(v, how) && CanSpellAll(v, how) && At(s, p, SpellAll(v, how) + "\"")
    ensures ReadChars(s, p) == StringRead(v, p + |SpellAll(v, how)| + 1, 0)
    decreases |v|
  {
    hide Spell, ReadEscape, CanSpell, EndsBefore, CanSpellAll, ReadChars, At, StartAt;
    if |v| == 0 {
      AtChar(s, p, SpellAll(v, how) + "\"", 0);
      QuoteEnds(s, p);
    } else {
      var t, rest := Spell(v[0], how[0]), SpellAll(v[1..], how[1..]);
      assert SpellAll(v, how) + "\"" == t + (rest + "\"");
      AtConcat(s, p, t, rest + "\"");
      AtChar(s, p + |t|, rest + "\"", 0);
      SpellRest(v, how);
      SpellStart(v[1..], how[1..]);
      ReadsOne(s, p, v[0], how[0]);
      ReadsAll(s, p + |t|, v[1..], how[1..]);
      assert [v[0]] + v[1..] == v;
    }
  }

  /** However each character of a string is written, as itself, by a named escape, in octal or in
      hexadecimal, reading the literal gives the string back without an error and stops just
      behind the closing quote, whatever follows. */
  lemma StringRoundTrip(s: string, p: nat, v: string, how: seq<Spelling>)
    requires CanSpellAll(v, how) && At(s, p, "\"" + (SpellAll(v, how) + "\""))
    ensures p < |s| && s[p] == '"'
    ensures ReadChars(s, p + 1) == StringRead(v, p + |SpellAll(v, how)| + 2, 0)
  {
    hide SpellAll, ReadChars;
    AtChar(s, p, "\"" + (SpellAll(v, how) + "\""), 0);
    AtConcat(s, p, "\"", SpellAll(v, how) + "\"");
    ReadsAll(s, p + 1, v, how);
  }

  // ---------- nothing else is a string literal ----------

  lemma AtIs(s: string, p: nat, t: string)
    requires p + |t| <= |s| && forall i :: 0 <= i < |t| ==> s[p + i] == t[i]
    ensures At(s, p, t)
  {
    assert s[p..p + |t|] == t;
  }

  lemma DigitIs(c: char)
    requires IsHex(c)
    ensures DigitChar(HexDigit(c), 'A' <= c <= 'F') == c
    ensures IsOctal(c) ==> HexDigit(c) == c as int - '0' as int
  {
  }

  /** The number that one to three octal digits stand for. */
  function OctalValue(ds: string): nat
    requires 1 <= |ds| <= 3 && forall i :: 0 <= i < |ds| ==> IsOctal(ds[i])
  {
    assert IsOctal(ds[0]);
    var d := ds[0] as int - '0' as int;
    if |ds| == 1 then d
    else
      assert IsOctal(ds[1]) && IsOctal(ds[|ds| - 1]);
      var e := ds[1] as int - '0' as int;
      if |ds| == 2 then 8 * d + e else 64 * d + 8 * e + (ds[2] as int - '0' as int)
  }

  lemma SpellsOctal(ds: string)
    requires 1 <= |ds| <= 3 && (forall i :: 0 <= i < |ds| ==> IsOctal(ds[i])) && OctalValue(ds) < 256
    ensures var (c, how) := (OctalValue(ds) as char, Octal(|ds|)); CanSpell(c, how) && Spell(c, how) == ['\\'] + ds
  {
    hide DigitChar, HexDigit;
    forall i | 0 <= i < |ds|
      ensures DigitChar(ds[i] as int - '0' as int, false) == ds[i]
    {
      DigitIs(ds[i]);
    }
    var v := OctalValue(ds);
    if |ds| == 2 {
      assert v / 8 == ds[0] as int - '0' as int && v % 8 == ds[1] as int - '0' as int;
    } else if |ds| == 3 {
      ThreeDigits(ds[0] as int - '0' as int, ds[1] as int - '0' as int, ds[2] as int - '0' as int);
    }
  }

  lemma ThreeDigits(d: nat, e: nat, f: nat)
    requires d < 8 && e < 8 && f < 8
    ensures var v := 64 * d + 8 * e + f; v / 64 == d && v / 8 % 8 == e && v % 8 == f
  {
    var v := 64 * d + 8 * e + f;
    assert v / 8 == 8 * d + e;
  }

  /** How many octal digits are read at `p`, and their value. */
  lemma OctalRead(s: string, p: nat) returns (width: nat)
    requires p < |s| && IsOctal(s[p])
    ensures 1 <= width <= 3 && p + width <= |s| && (forall i :: p <= i < p + width ==> IsOctal(s[i]))
    ensures width < 3 ==> !IsOctal(CharAt(s, p + width))
    ensures ReadOctal(s, p + 1, s[p] as int - '0' as int, 2) == (OctalValue(s[p..p + width]), p + width)
  {
    var d := s[p] as int - '0' as int;
    if !IsOctal(CharAt(s, p + 1)) {
      width := 1;
      OctalStops(s, p + 1, d, 2);
    } else {
      var e := s[p + 1] as int - '0' as int;
      assert ReadOctal(s, p + 1, d, 2) == ReadOctal(s, p + 2, 8 * d + e, 1);
      if !IsOctal(CharAt(s, p + 2)) {
        width := 2;
        OctalStops(s, p + 2, 8 * d + e, 1);
      } else {
        width := 3;
        var f := s[p + 2] as int - '0' as int;
        assert ReadOctal(s, p + 2, 8 * d + e, 1) == ReadOctal(s, p + 3, 64 * d + 8 * e + f, 0);
      }
    }
  }

  /** An escape is at most one error. */
  lemma ErrorsOnce(s: string, p: nat)
    requires p < |s|
    ensures ReadEscape(s, p).errors <= 1
  {
    hide ReadOctal, ReadHex;
  }

  /** An octal escape above 255 is an error, and loses its ninth bit. */
  lemma OctalTooLarge(s: string, p: nat)
    requires p < |s| && IsOctal(s[p]) && ReadEscape(s, p).errors > 0
    ensures p + 3 <= |s| && (forall i :: p <= i < p + 3 ==> IsOctal(s[i])) && 256 <= OctalValue(s[p..p + 3]) < 512
    ensures ReadEscape(s, p) == StringRead([(OctalValue(s[p..p + 3]) - 256) as char], p + 3, 1)
  {
    var width := OctalRead(s, p);
    var ds := s[p..p + width];
    assert forall i :: 0 <= i < |ds| ==> IsOctal(ds[i]);
  }

  lemma OctalSpelled(s: string, p: nat) returns (c: char, how: Spelling)
    requires p + 1 < |s| && s[p] == '\\' && IsOctal(s[p + 1]) && ReadEscape(s, p + 1).errors == 0
    ensures CanSpell(c, how) && At(s, p, Spell(c, how)) && EndsBefore(how, CharAt(s, p + |Spell(c, how)|))
  {
    hide Spell, CanSpell, ReadOctal, OctalValue;
    var width := OctalRead(s, p + 1);
    var ds := s[p + 1..p + 1 + width];
    SpellsOctal(ds);
    c, how := OctalValue(ds) as char, Octal(width);
    assert s[p..p + 1 + width] == ['\\'] + ds;
  }

  function HexValue(ds: string): (v: nat)
    requires 1 <= |ds| <= 2 && forall i :: 0 <= i < |ds| ==> IsHex(ds[i])
    ensures v < 256
  {
    if |ds| == 1 then HexDigit(ds[0]) else 16 * HexDigit(ds[0]) + HexDigit(ds[1])
  }

  lemma SpellsHex(capital: bool, ds: string) returns (how: Spelling)
    requires 1 <= |ds| <= 2 && forall i :: 0 <= i < |ds| ==> IsHex(ds[i])
    ensures how.Hex? && how.width == |ds| && CanSpell(HexValue(ds) as char, how)
    ensures Spell(HexValue(ds) as char, how) == ['\\', if capital then 'X' else 'x'] + ds
  {
    hide DigitChar, HexDigit;
    var last := ds[|ds| - 1];
    how := Hex(capital, 'A' <= ds[0] <= 'F', 'A' <= last <= 'F', |ds|);
    DigitIs(ds[0]);
    DigitIs(last);
    if |ds| == 2 {
      var v := HexValue(ds);
      assert v / 16 == HexDigit(ds[0]) && v % 16 == HexDigit(ds[1]);
    }
  }

  lemma HexRead(s: string, p: nat) returns (width: nat)
    requires p <= |s| && IsHex(CharAt(s, p))
    ensures 1 <= width <= 2 && p + width <= |s| && (forall i :: p <= i < p + width ==> IsHex(s[i]))
    ensures width < 2 ==> !IsHex(CharAt(s, p + width))
    ensures ReadHex(s, p, 0, 2) == (HexValue(s[p..p + width]), p + width)
  {
    hide HexDigit;
    var d := HexDigit(s[p]);
    assert ReadHex(s, p, 0, 2) == ReadHex(s, p + 1, d, 1);
    if !IsHex(CharAt(s, p + 1)) {
      width := 1;
    } else {
      width := 2;
      assert ReadHex(s, p + 1, d, 1) == ReadHex(s, p + 2, 16 * d + HexDigit(s[p + 1]), 0);
    }
  }

  lemma HexStarts(s: string, p: nat)
    requires p < |s| && s[p] in "xX" && ReadEscape(s, p).errors == 0
    ensures IsHex(CharAt(s, p + 1))
  {
  }

  lemma HexSpelled(s: string, p: nat) returns (c: char, how: Spelling)
    requires p + 1 < |s| && s[p] == '\\' && s[p + 1] in "xX" && ReadEscape(s, p + 1).errors == 0
    ensures CanSpell(c, how) && At(s, p, Spell(c, how)) && EndsBefore(how, CharAt(s, p + |Spell(c, how)|))
  {
    hide Spell, CanSpell, ReadHex, HexValue, ReadEscape, IsHex;
    HexStarts(s, p + 1);
    var width := HexRead(s, p + 2);
    var ds := s[p + 2..p + 2 + width];
    how := SpellsHex(s[p + 1] == 'X', ds);
    c := HexValue(ds) as char;
    assert s[p..p + 2 + width] == [s[p], s[p + 1]] + ds;
  }

  /** Every escape that is read without an error spells a character. */
  lemma EscapeSpelled(s: string, p: nat) returns (c: char, how: Spelling)
    requires p + 1 < |s| && s[p] == '\\' && ReadEscape(s, p + 1).errors == 0
    ensures CanSpell(c, how) && At(s, p, Spell(c, how)) && EndsBefore(how, CharAt(s, p + |Spell(c, how)|))
  {
    var x := s[p + 1];
    if IsOctal(x) {
      c, how := OctalSpelled(s, p);
    } else if x == 'x' || x == 'X' {
      c, how := HexSpelled(s, p);
    } else {
      c, how := if x == 'n' then '\n' else if x == 't' then '\t' else if x == 'r' then '\r' else x, Named;
      AtIs(s, p, Spell(c, how));
    }
  }

  lemma SpellFront(c: char, how: Spelling, v: string, hows: seq<Spelling>)
    requires CanSpell(c, how) && CanSpellAll(v, hows) && EndsBefore(how, StartAt(v, hows, 0))
    ensures CanSpellAll([c] + v, [how] + hows) && SpellAll([c] + v, [how] + hows) == Spell(c, how) + SpellAll(v, hows)
  {
    hide Spell, CanSpell, EndsBefore;
    var w, all := [c] + v, [how] + hows;
    assert w[1..] == v && all[1..] == hows;
    forall i | 0 <= i < |w|
      ensures EndsBefore(all[i], StartAt(w, all, i + 1))
    {
      assert StartAt(w, all, i + 1) == StartAt(v, hows, i);
    }
  }

  lemma AtJoins(s: string, p: nat, a: string, b: string)
    requires At(s, p, a) && At(s, p + |a|, b)
    ensures At(s, p, a + b)
  {
    assert s[p..p + |a| + |b|] == s[p..p + |a|] + s[p + |a|..p + |a| + |b|];
  }

  /** Whatever is read without an error spells a string. */
  lemma {:induction false} StringSpelled(s: string, p: nat) returns (v: string, how: seq<Spelling>)
    requires p <= |s| && ReadChars(s, p).errors == 0
    ensures CanSpellAll(v, how) && At(s, p, SpellAll(v, how) + "\"")
    decreases |s| - p
  {
    hide ReadEscape, Spell, CanSpell, EndsBefore, At, StartAt;
    if s[p] == '"' {
      v, how := "", [];
      EmptySpelled(s, p);
    } else {
      var c: char, one: Spelling;
      if s[p] == '\\' {
        c, one := EscapeSpelled(s, p);
      } else {
        c, one := PlainSpelled(s, p);
      }
      ReadsOne(s, p, c, one);
      var t := Spell(c, one);
      var w, hows := StringSpelled(s, p + |t|);
      AtChar(s, p + |t|, SpellAll(w, hows) + "\"", 0);
      SpellStart(w, hows);
      SpellFront(c, one, w, hows);
      v, how := [c] + w, [one] + hows;
      assert SpellAll(v, how) + "\"" == t + (SpellAll(w, hows) + "\"");
      AtJoins(s, p, t, SpellAll(w, hows) + "\"");
    }
  }

  lemma EmptySpelled(s: string, p: nat)
    requires p < |s| && s[p] == '"'
    ensures CanSpellAll("", []) && At(s, p, SpellAll("", []) + "\"")
  {
    assert s[p..p + 1] == "\"";
  }

  lemma PlainSpelled(s: string, p: nat) returns (c: char, how: Spelling)
    requires p < |s| && s[p] != '"' && s[p] != '\\' && s[p] != '\n'
    ensures CanSpell(c, how) && At(s, p, Spell(c, how)) && EndsBefore(how, CharAt(s, p + |Spell(c, how)|))
  {
    c, how := s[p], Plain;
    assert s[p..p + 1] == [s[p]];
  }

  /** A string literal is read without an error if and only if it spells a string, and then gives that
      string. */
  lemma StringReadsIff(s: string, p: nat)
    requires p <= |s|
    ensures ReadChars(s, p).errors == 0 <==>
            exists v, how :: CanSpellAll(v, how) && At(s, p, SpellAll(v, how) + "\"")
    ensures forall v, how :: CanSpellAll(v, how) && At(s, p, SpellAll(v, how) + "\"") ==> ReadChars(s, p).value == v
  {
    hide ReadChars, SpellAll, At, StartAt, Spell, CanSpell, EndsBefore;
    if ReadChars(s, p).errors == 0 {
      var v, how := StringSpelled(s, p);
    }
    forall v, how | CanSpellAll(v, how) && At(s, p, SpellAll(v, how) + "\"")
      ensures ReadChars(s, p).errors == 0 && ReadChars(s, p).value == v
    {
      ReadsAll(s, p, v, how);
    }
  }
}
