/** White space and comments in a script: the lookahead scan and the consuming scan, each as the
    position it reaches, and exactly when the two agree. */
module LayoutScan {

  // ---------- characters ----------

  function CharAt(s: string, p: nat): char {
    if p < |s| then s[p] else '\0'
  }

  predicate IsHspace(c: char) {
    c == ' ' || c == '\t' || c == '\r'
  }

  /** Vertical tab and form feed: white space to `isspace`, but not to the consuming scan. */
  predicate IsOddSpace(c: char) {
    c == 11 as char || c == 12 as char
  }

  predicate IsSpace(c: char) {
    IsHspace(c) || c == '\n' || IsOddSpace(c)
  }

  // ---------- comments ----------

  /** The end of the line that `p` is on: a newline or the end of the text. */
  function LineEnd(s: string, p: nat): (q: nat)
    requires p <= |s|
    ensures p <= q <= |s|
    ensures q < |s| ==> s[q] == '\n'
    ensures forall i :: p <= i < q ==> s[i] != '\n'
    decreases |s| - p
  {
    if p == |s| || s[p] == '\n' then p else LineEnd(s, p + 1)
  }

  predicate Closes(s: string, p: nat) {
    CharAt(s, p) == '*' && CharAt(s, p + 1) == '/'
  }

  /** Just behind the first closer from `p` on, or the end of the text. */
  function ScanComment(s: string, p: nat): (q: nat)
    requires p <= |s|
    ensures p <= q <= |s|
    decreases |s| - p
  {
    if p == |s| then p else if Closes(s, p) then p + 2 else ScanComment(s, p + 1)
  }

  /** The first newline or closer from `p` on, or the end of the text. */
  function LineStop(s: string, p: nat): (q: nat)
    requires p <= |s|
    ensures p <= q <= |s|
    ensures q < |s| ==> s[q] == '\n' || Closes(s, q)
    ensures forall i :: p <= i < q ==> s[i] != '\n' && !Closes(s, i)
    decreases |s| - p
  {
    if p == |s| || s[p] == '\n' || Closes(s, p) then p else LineStop(s, p + 1)
  }

  function HspaceEnd(s: string, p: nat): (q: nat)
    requires p <= |s|
    ensures p <= q <= |s|
    ensures q < |s| ==> !IsHspace(s[q])
    ensures forall i :: p <= i < q ==> IsHspace(s[i])
    decreases |s| - p
  {
    if p == |s| || !IsHspace(s[p]) then p else HspaceEnd(s, p + 1)
  }

  function StarsEnd(s: string, p: nat): (q: nat)
    requires p <= |s|
    ensures p <= q <= |s|
    ensures q < |s| ==> s[q] != '*'
    ensures forall i :: p <= i < q ==> s[i] == '*'
    decreases |s| - p
  {
    if p == |s| || s[p] != '*' then p else StarsEnd(s, p + 1)
  }

  /** Where a continuation line's text starts: behind leading blanks, leading stars and one space. */
  function LineText(s: string, p: nat): (q: nat)
    requires p <= |s|
    ensures p <= q <= |s|
  {
    var r := HspaceEnd(s, p);
    if Closes(s, r) then r
    else
      var t := StarsEnd(s, r);
      if t > r && t < |s| && s[t] == ' ' then t + 1 else t
  }

  /** Where the line-by-line consumption of a block comment, entered at `p`, stops. */
  function CommentEnd(s: string, p: nat): (q: nat)
    requires p <= |s|
    ensures p <= q <= |s|
    decreases |s| - p
  {
    var stop := LineStop(s, p);
    if stop == |s| then stop
    else if Closes(s, stop) then stop + 2
    else CommentEnd(s, LineText(s, stop + 1))
  }

  /** The line at `p` starts, after blanks, with stars that run into a closing slash. */
  predicate HidesCloser(s: string, p: nat)
    requires p <= |s|
  {
    var r := HspaceEnd(s, p);
    !Closes(s, r) && StarsEnd(s, r) > r && CharAt(s, StarsEnd(s, r)) == '/'
  }

  /** Before the comment entered at `p` closes visibly, some continuation line hides a closer. */
  predicate HiddenClose(s: string, p: nat)
    requires p <= |s|
    decreases |s| - p
  {
    var stop := LineStop(s, p);
    if stop == |s| || Closes(s, stop) then false
    else HidesCloser(s, stop + 1) || HiddenClose(s, LineText(s, stop + 1))
  }

  // ---------- layout ----------

  /** `scan_layout`. */
  function ScanLayout(s: string, p: nat): (q: nat)
    requires p <= |s|
    ensures p <= q <= |s|
    decreases |s| - p
  {
    if p == |s| then p
    else if IsSpace(s[p]) then ScanLayout(s, p + 1)
    else if s[p] == '/' && CharAt(s, p + 1) == '/' then ScanLayout(s, LineEnd(s, p + 2))
    else if s[p] == '/' && CharAt(s, p + 1) == '*' then ScanLayout(s, ScanComment(s, p + 2))
    else p
  }

  function AfterBlank(s: string, p: nat): (q: nat)
    requires p <= |s|
    ensures p <= q <= |s|
  {
    if CharAt(s, p) == ' ' then p + 1 else p
  }

  /** The position `consume_layout` reaches. */
  function LayoutEnd(s: string, p: nat): (q: nat)
    requires p <= |s|
    ensures p <= q <= |s|
    decreases |s| - p
  {
    if p == |s| then p
    else if IsHspace(s[p]) || s[p] == '\n' then LayoutEnd(s, p + 1)
    else if s[p] == '/' && CharAt(s, p + 1) == '/' then LayoutEnd(s, LineEnd(s, AfterBlank(s, p + 2)))
    else if s[p] == '/' && CharAt(s, p + 1) == '*' then LayoutEnd(s, CommentEnd(s, AfterBlank(s, p + 2)))
    else p
  }

  // ---------- one comment ----------

  lemma {:induction false} ScanSkips(s: string, p: nat, q: nat)
    requires p <= q <= |s|
    requires forall i :: p <= i < q ==> !Closes(s, i)
    ensures ScanComment(s, p) == ScanComment(s, q)
    decreases q - p
  {
    if p < q {
      assert !Closes(s, p);
      ScanSkips(s, p + 1, q);
    }
  }

  /** A line start that hides no closer is passed over by the lookahead scan. */
  lemma ScanToText(s: string, p: nat)
    requires p <= |s|
    requires !HidesCloser(s, p)
    ensures ScanComment(s, p) == ScanComment(s, LineText(s, p))
  {
    var r := HspaceEnd(s, p);
    var t := StarsEnd(s, r);
    ScanSkips(s, p, r);
    if !Closes(s, r) {
      assert forall i :: r <= i < t ==> !Closes(s, i);
      ScanSkips(s, r, LineText(s, p));
    }
  }

  lemma NextLine(s: string, p: nat)
    requires p <= |s|
    requires LineStop(s, p) < |s| && !Closes(s, LineStop(s, p))
    ensures ScanComment(s, p) == ScanComment(s, LineStop(s, p) + 1)
    ensures CommentEnd(s, p) == CommentEnd(s, LineText(s, LineStop(s, p) + 1))
  {
    ScanSkips(s, p, LineStop(s, p) + 1);
  }

  lemma ScanCloses(s: string, p: nat)
    requires p < |s| && Closes(s, p)
    ensures ScanComment(s, p) == p + 2
  {
  }

  lemma ScanEnds(s: string)
    ensures ScanComment(s, |s|) == |s|
  {
  }

  lemma {:induction false} CommentsAgree(s: string, p: nat)
    requires p <= |s| && !HiddenClose(s, p)
    ensures CommentEnd(s, p) == ScanComment(s, p)
    decreases |s| - p
  {
    hide ScanComment, LineStop, LineText, HidesCloser;
    var stop := LineStop(s, p);
    if stop == |s| {
      ScanSkips(s, p, stop);
      ScanEnds(s);
    } else if Closes(s, stop) {
      ScanSkips(s, p, stop);
      ScanCloses(s, stop);
    } else {
      NextLine(s, p);
      ScanToText(s, stop + 1);
      CommentsAgree(s, LineText(s, stop + 1));
    }
  }

  lemma {:induction false} CommentEndGap(s: string, p: nat)
    requires p <= |s|
    ensures CommentEnd(s, p) == |s| || CommentEnd(s, p) >= p + 2
    decreases |s| - p
  {
    var stop := LineStop(s, p);
    if stop < |s| && !Closes(s, stop) {
      CommentEndGap(s, LineText(s, stop + 1));
    }
  }

  /** The consuming scan went further, unless both ran into the end of the text. */
  predicate Parted(s: string, consumed: nat, scanned: nat) {
    consumed > scanned || consumed == scanned == |s|
  }

  /** At a line whose stars run into a slash, the lookahead scan stops behind that slash and the
      consuming scan goes past it. */
  lemma HiddenLine(s: string, p: nat)
    requires p <= |s|
    requires HidesCloser(s, p)
    ensures Parted(s, CommentEnd(s, LineText(s, p)), ScanComment(s, p))
  {
    hide HspaceEnd, StarsEnd, CommentEnd, ScanComment;
    var r := HspaceEnd(s, p);
    var t := StarsEnd(s, r);
    ScanSkips(s, p, r);
    ScanSkips(s, r, t - 1);
    ScanCloses(s, t - 1);
    CommentEndGap(s, t);
  }

  lemma {:induction false} HiddenDisagrees(s: string, p: nat)
    requires p <= |s| && HiddenClose(s, p)
    ensures Parted(s, CommentEnd(s, p), ScanComment(s, p))
    decreases |s| - p
  {
    hide ScanComment, LineStop, LineText, HidesCloser;
    NextLine(s, p);
    var stop := LineStop(s, p);
    if HidesCloser(s, stop + 1) {
      HiddenLine(s, stop + 1);
    } else {
      ScanToText(s, stop + 1);
      HiddenDisagrees(s, LineText(s, stop + 1));
    }
  }

  /** The two scans of one block comment end at the same place if and only if no closer is hidden
      behind stars at the start of a continuation line, or the text ends there anyway. */
  lemma CommentAgreesIff(s: string, p: nat)
    requires p <= |s|
    ensures CommentEnd(s, p) == ScanComment(s, p) <==> !HiddenClose(s, p) || ScanComment(s, p) == |s|
  {
    if HiddenClose(s, p) {
      HiddenDisagrees(s, p);
    } else {
      CommentsAgree(s, p);
    }
  }

  // ---------- whole layout ----------

  /** No block comment met by the consuming scan from `p` on hides a closer. */
  predicate PlainComments(s: string, p: nat)
    requires p <= |s|
    decreases |s| - p
  {
    if p == |s| then true
    else if IsHspace(s[p]) || s[p] == '\n' then PlainComments(s, p + 1)
    else if s[p] == '/' && CharAt(s, p + 1) == '/' then PlainComments(s, LineEnd(s, AfterBlank(s, p + 2)))
    else if s[p] == '/' && CharAt(s, p + 1) == '*' then
      !HiddenClose(s, AfterBlank(s, p + 2)) && PlainComments(s, CommentEnd(s, AfterBlank(s, p + 2)))
    else true
  }

  lemma BlankStart(s: string, p: nat)
    requires p <= |s|
    ensures LineEnd(s, AfterBlank(s, p)) == LineEnd(s, p)
    ensures ScanComment(s, AfterBlank(s, p)) == ScanComment(s, p)
  {
    ScanSkips(s, p, AfterBlank(s, p));
  }

  // ---------- any layout ----------

  /** Behind one white space character or comment, as the lookahead reads them; `p` if there is none. */
  function ScanItem(s: string, p: nat): (q: nat)
    requires p <= |s|
    ensures p <= q <= |s|
  {
    if p == |s| then p
    else if IsSpace(s[p]) then p + 1
    else if s[p] == '/' && CharAt(s, p + 1) == '/' then LineEnd(s, p + 2)
    else if s[p] == '/' && CharAt(s, p + 1) == '*' then ScanComment(s, p + 2)
    else p
  }

  /** Behind one white space character or comment, as they are consumed; `p` if there is none. */
  function ConsumeItem(s: string, p: nat): (q: nat)
    requires p <= |s|
    ensures p <= q <= |s|
  {
    if p == |s| then p
    else if IsHspace(s[p]) || s[p] == '\n' then p + 1
    else if s[p] == '/' && CharAt(s, p + 1) == '/' then LineEnd(s, AfterBlank(s, p + 2))
    else if s[p] == '/' && CharAt(s, p + 1) == '*' then CommentEnd(s, AfterBlank(s, p + 2))
    else p
  }

  lemma ScanByItems(s: string, p: nat)
    requires p <= |s|
    ensures ScanLayout(s, p) == if ScanItem(s, p) == p then p else ScanLayout(s, ScanItem(s, p))
  {
  }

  lemma ConsumeByItems(s: string, p: nat)
    requires p <= |s|
    ensures LayoutEnd(s, p) == if ConsumeItem(s, p) == p then p else LayoutEnd(s, ConsumeItem(s, p))
  {
  }

  /** Where no comment hides a closer, an item that is consumed is the same to the lookahead. */
  lemma PlainItem(s: string, p: nat)
    requires p <= |s| && PlainComments(s, p) && ConsumeItem(s, p) > p
    ensures ScanItem(s, p) == ConsumeItem(s, p) && PlainComments(s, ConsumeItem(s, p))
  {
    hide ScanComment, CommentEnd, LineEnd, HiddenClose, AfterBlank;
    if s[p] == '/' {
      BlankStart(s, p + 2);
      if CharAt(s, p + 1) == '*' {
        CommentsAgree(s, AfterBlank(s, p + 2));
      }
    }
  }

  /** What stops the consuming scan stops the lookahead too, unless it is an odd space. */
  lemma StuckItem(s: string, p: nat)
    requires p <= |s| && ConsumeItem(s, p) == p
    ensures ScanItem(s, p) == p <==> !IsOddSpace(CharAt(s, p))
  {
    hide HiddenClose, LineStop;
    if p + 2 <= |s| {
      CommentEndGap(s, AfterBlank(s, p + 2));
    }
  }

  /** Where no comment hides a closer, the lookahead goes on where the consuming scan stops: they
      agree if and only if what stops the consuming scan is not a vertical tab or form feed. */
  lemma {:induction false} PlainAgreesIff(s: string, p: nat)
    requires p <= |s| && PlainComments(s, p)
    ensures ScanLayout(s, p) == ScanLayout(s, LayoutEnd(s, p))
    ensures ScanLayout(s, p) == LayoutEnd(s, p) <==> !IsOddSpace(CharAt(s, LayoutEnd(s, p)))
    decreases |s| - p
  {
    hide ScanLayout, LayoutEnd, ScanItem, ConsumeItem, PlainComments, IsOddSpace, CharAt;
    ScanByItems(s, p);
    ConsumeByItems(s, p);
    if ConsumeItem(s, p) > p {
      PlainItem(s, p);
      PlainAgreesIff(s, ConsumeItem(s, p));
    } else {
      StuckItem(s, p);
    }
  }

  /** With the lookahead at `p` and the consuming scan at `q`, whichever is behind moves on by one
      item: the one behind always finds white space or a comment, until both stand at the same place
      and neither finds any. */
  predicate Meets(s: string, p: nat, q: nat)
    requires p <= |s| && q <= |s|
    decreases |s| - p + |s| - q
  {
    if p < q then ScanItem(s, p) > p && Meets(s, ScanItem(s, p), q)
    else if q < p then ConsumeItem(s, q) > q && Meets(s, p, ConsumeItem(s, q))
    else if ScanItem(s, p) == p then ConsumeItem(s, p) == p
    else ConsumeItem(s, p) > p && Meets(s, ScanItem(s, p), ConsumeItem(s, p))
  }

  lemma {:induction false} MeetsIff(s: string, p: nat, q: nat)
    requires p <= |s| && q <= |s|
    ensures Meets(s, p, q) <==> ScanLayout(s, p) == LayoutEnd(s, q)
    decreases |s| - p + |s| - q
  {
    hide ScanLayout, LayoutEnd, ScanItem, ConsumeItem;
    var p', q' := ScanItem(s, p), ConsumeItem(s, q);
    ScanByItems(s, p);
    ConsumeByItems(s, q);
    if p < q {
      if p' > p {
        MeetsIff(s, p', q);
      }
    } else if q < p {
      if q' > q {
        MeetsIff(s, p, q');
      }
    } else if p' > p && q' > q {
      MeetsIff(s, p', q');
    }
  }

  /** For every text and position: the lookahead and the consuming scan reach the same place if and
      only if neither, while it is behind the other, is stopped by something that is not layout to it. */
  lemma LookaheadAgreesIff(s: string, p: nat)
    requires p <= |s|
    ensures ScanLayout(s, p) == LayoutEnd(s, p) <==> Meets(s, p, p)
  {
    MeetsIff(s, p, p);
  }

  /** Where the lookahead, at `p`, first reaches or passes `q`, or is stopped on the way. */
  function CatchUp(s: string, p: nat, q: nat): (r: nat)
    requires p <= |s|
    ensures p <= r <= |s|
    decreases |s| - p
  {
    if p >= q || ScanItem(s, p) == p then p else CatchUp(s, ScanItem(s, p), q)
  }

  lemma {:induction false} MeetsBehind(s: string, p: nat, q: nat)
    requires p <= q <= |s|
    ensures Meets(s, p, q) <==> CatchUp(s, p, q) >= q && Meets(s, CatchUp(s, p, q), q)
    ensures CatchUp(s, p, q) < q ==> ScanLayout(s, p) == CatchUp(s, p, q)
    decreases |s| - p
  {
    hide ScanItem, ConsumeItem, ScanLayout;
    if p < q {
      ScanByItems(s, p);
      if p < ScanItem(s, p) < q {
        MeetsBehind(s, ScanItem(s, p), q);
      }
    }
  }

  /** A block comment at `p` that hides a closer: the lookahead leaves it at `a`, the consuming scan at
      `b`. The two scans agree if and only if all that lies between is layout to the lookahead and,
      from where that takes it, it meets the consuming scan. If it is stopped on the way, they differ. */
  lemma HiddenAgreesIff(s: string, p: nat)
    requires p + 2 <= |s| && s[p] == '/' && s[p + 1] == '*'
    ensures var a, b := ScanComment(s, p + 2), CommentEnd(s, AfterBlank(s, p + 2));
            && a <= b
            && (ScanLayout(s, p) == LayoutEnd(s, p) <==> CatchUp(s, a, b) >= b && Meets(s, CatchUp(s, a, b), b))
            && (ScanLayout(s, a) < b ==> ScanLayout(s, p) != LayoutEnd(s, p))
  {
    var a, b := ScanComment(s, p + 2), CommentEnd(s, AfterBlank(s, p + 2));
    var c := AfterBlank(s, p + 2);
    BlankStart(s, p + 2);
    CommentAgreesIff(s, c);
    if HiddenClose(s, c) {
      HiddenDisagrees(s, c);
    }
    ScanByItems(s, p);
    ConsumeByItems(s, p);
    hide ScanLayout, LayoutEnd, Meets, CatchUp;
    MeetsIff(s, a, b);
    MeetsBehind(s, a, b);
  }

  /** A script where the two scans part ways: a comment closed by two stars on a line of its own. */
  lemma CounterexampleConsumed()
    ensures var s := "/*\n**/ x"; HiddenClose(s, 2) && LayoutEnd(s, 0) == 8
  {
    var s := "/*\n**/ x";
    assert LineStop(s, 2) == 2 && HspaceEnd(s, 3) == 3;
    assert StarsEnd(s, 3) == StarsEnd(s, 4) == StarsEnd(s, 5) == 5;
    assert LineText(s, 3) == 5;
    assert LineStop(s, 5) == LineStop(s, 6) == LineStop(s, 7) == LineStop(s, 8) == 8;
    assert CommentEnd(s, 2) == CommentEnd(s, 5) == 8;
    assert LayoutEnd(s, 0) == LayoutEnd(s, 8) == 8;
  }

  lemma CounterexampleScanned()
    ensures var s := "/*\n**/ x"; ScanLayout(s, 0) == 7
  {
    var s := "/*\n**/ x";
    assert ScanComment(s, 2) == ScanComment(s, 3) == ScanComment(s, 4) == 6;
    assert ScanLayout(s, 0) == ScanLayout(s, 6) == ScanLayout(s, 7) == 7;
  }

  lemma LookaheadCounterexample()
    ensures var s := "/*\n**/ x";
            HiddenClose(s, 2) && ScanLayout(s, 0) == 7 && LayoutEnd(s, 0) == 8
  {
    hide ScanLayout, LayoutEnd, HiddenClose;
    CounterexampleConsumed();
    CounterexampleScanned();
  }

  /** A hidden closer need not separate the scans: here what follows it is a comment to both. */
  lemma HiddenButConsumed()
    ensures var s := "/*\n**/ /**/x"; HiddenClose(s, 2) && LayoutEnd(s, 0) == 11
  {
    var s := "/*\n**/ /**/x";
    hide LineStop, StarsEnd, HspaceEnd, LineText, LayoutEnd, HiddenClose, CommentEnd;
    HiddenLineText(s);
    assert Closes(s, 9) && forall i :: 5 <= i < 9 ==> s[i] != '\n' && !Closes(s, i);
    assert LineStop(s, 5) == 9;
    HiddenEnds(s);
  }

  lemma HiddenLineText(s: string)
    requires |s| >= 6 && s[2] == '\n' && s[3] == s[4] == '*' && s[5] == '/'
    ensures LineStop(s, 2) == 2 && LineText(s, 3) == 5 && HidesCloser(s, 3)
  {
    hide StarsEnd, HspaceEnd;
    assert HspaceEnd(s, 3) == 3;
    assert StarsEnd(s, 3) == 5;
  }

  lemma HiddenEnds(s: string)
    requires s == "/*\n**/ /**/x" && LineStop(s, 2) == 2 && LineText(s, 3) == 5 && HidesCloser(s, 3) && LineStop(s, 5) == 9
    ensures HiddenClose(s, 2) && LayoutEnd(s, 0) == 11
  {
    hide LineStop, StarsEnd, HspaceEnd, LineText, HidesCloser;
    assert CommentEnd(s, 5) == 11;
    assert CommentEnd(s, 2) == 11;
    assert LayoutEnd(s, 11) == 11;
  }

  lemma HiddenButScanned()
    ensures var s := "/*\n**/ /**/x"; ScanLayout(s, 0) == 11
  {
    var s := "/*\n**/ /**/x";
    assert ScanComment(s, 2) == ScanComment(s, 3) == ScanComment(s, 4) == 6;
    assert ScanComment(s, 9) == 11;
    assert ScanLayout(s, 0) == ScanLayout(s, 6) == ScanLayout(s, 7) == ScanLayout(s, 11) == 11;
  }

  lemma HiddenButAgrees()
    ensures var s := "/*\n**/ /**/x"; HiddenClose(s, 2) && ScanLayout(s, 0) == LayoutEnd(s, 0) && Meets(s, 0, 0)
  {
    hide ScanLayout, LayoutEnd, HiddenClose, Meets;
    HiddenButConsumed();
    HiddenButScanned();
    LookaheadAgreesIff("/*\n**/ /**/x", 0);
  }

  // ---------- the lookahead from outside ----------

  const BLANKS: string := [' ', '\t', '\r', '\n', 11 as char, 12 as char]

  predicate IsCloser(s: string, i: nat) {
    i + 1 < |s| && s[i] == '*' && s[i + 1] == '/'
  }

  /** A comment to the end of its line. */
  ghost predicate IsLineComment(s: string, p: nat, q: nat) {
    && p + 2 <= q <= |s| && s[p] == '/' && s[p + 1] == '/'
    && (forall i :: p + 2 <= i < q ==> s[i] != '\n') && (q < |s| ==> s[q] == '\n')
  }

  /** A comment up to the first closer behind its start, or to the end of the text if there is none. */
  ghost predicate IsBlockComment(s: string, p: nat, q: nat) {
    && p + 2 <= q <= |s| && s[p] == '/' && s[p + 1] == '*'
    && ((p + 4 <= q && IsCloser(s, q - 2) && forall i :: p + 2 <= i < q - 2 ==> !IsCloser(s, i)) ||
        (q == |s| && forall i :: p + 2 <= i < q ==> !IsCloser(s, i)))
  }

  /** White space or a comment lies between `p` and `q`. */
  ghost predicate IsItem(s: string, p: nat, q: nat) {
    (p < |s| && q == p + 1 && s[p] in BLANKS) || IsLineComment(s, p, q) || IsBlockComment(s, p, q)
  }

  /** Nothing but items from `p` to `q`. */
  ghost predicate AllItems(s: string, p: nat, q: nat)
    decreases |s| - p
  {
    p == q || (p < q <= |s| && exists r: nat :: p < r <= q && IsItem(s, p, r) && AllItems(s, r, q))
  }

  /** Something that starts no item stands at `q`, or nothing does. */
  predicate IsOther(s: string, q: nat) {
    q < |s| ==> s[q] !in BLANKS && !(s[q] == '/' && q + 1 < |s| && (s[q + 1] == '/' || s[q + 1] == '*'))
  }

  lemma BlankIs(c: char)
    ensures c in BLANKS <==> IsSpace(c)
  {
    assert BLANKS[0] == ' ' && BLANKS[1] == '\t' && BLANKS[2] == '\r' && BLANKS[3] == '\n';
    assert BLANKS[4] == 11 as char && BLANKS[5] == 12 as char;
  }

  lemma {:induction false} ScanCommentIs(s: string, p: nat, q: nat)
    requires p <= |s|
    ensures ScanComment(s, p) == q <==>
            || (p + 2 <= q <= |s| && IsCloser(s, q - 2) && forall i :: p <= i < q - 2 ==> !IsCloser(s, i))
            || (q == |s| && forall i :: p <= i < q ==> !IsCloser(s, i))
    decreases |s| - p
  {
    if p < |s| {
      assert Closes(s, p) <==> IsCloser(s, p);
      if !IsCloser(s, p) {
        ScanCommentIs(s, p + 1, q);
      }
    }
  }

  lemma ItemIs(s: string, p: nat, q: nat)
    requires p <= |s|
    ensures IsItem(s, p, q) <==> p < q && ScanItem(s, p) == q
    ensures ScanItem(s, p) == p <==> IsOther(s, p)
  {
    if p < |s| {
      BlankIs(s[p]);
      hide IsSpace;
      if p + 2 <= |s| {
        ScanCommentIs(s, p + 2, q);
        hide ScanComment;
      }
    }
  }

  /** The lookahead ends where the white space and comments do: what it passes is nothing else, and where it
      stops none starts. */
  lemma {:induction false} ScanIff(s: string, p: nat, q: nat)
    requires p <= |s|
    ensures ScanLayout(s, p) == q <==> p <= q <= |s| && AllItems(s, p, q) && IsOther(s, q)
    decreases |s| - p
  {
    hide IsItem, IsOther, ScanItem, ScanLayout;
    var r := ScanItem(s, p);
    ScanByItems(s, p);
    ItemIs(s, p, r);
    ItemIs(s, p, p);
    forall t: nat | IsItem(s, p, t)
      ensures t == r
    {
      ItemIs(s, p, t);
    }
    if r > p {
      ScanIff(s, r, q);
    }
  }
}
