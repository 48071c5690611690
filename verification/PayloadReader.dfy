/** A reader of what the decoder shows for a payload, written from the shown texts: it recovers the numbers
    that were logged. */
module PayloadReader {
  import opened Options
  import opened Words
  import opened Payload

  // ---------- numbers ----------

  predicate IsDigit(c: char) {
    '0' <= c <= '9'
  }

  ghost predicate AllDigits(s: string) {
    forall i :: 0 <= i < |s| ==> IsDigit(s[i])
  }

  /** The number that digits stand for, the last one counting once. */
  function Numeral(s: string): int {
    if |s| == 0 then 0 else 10 * Numeral(s[..|s| - 1]) + (s[|s| - 1] as int - '0' as int)
  }

  /** Numbers are shown in digits, without leading zero, that stand for them. */
  lemma {:induction false} DecimalReads(n: nat)
    ensures |Decimal(n)| > 0 && AllDigits(Decimal(n)) && Numeral(Decimal(n)) == n
    ensures n > 0 ==> Decimal(n)[0] != '0'
    ensures n == 0 ==> Decimal(n) == "0"
  {
    if n >= 10 {
      DecimalReads(n / 10);
      var s := Decimal(n);
      assert s[..|s| - 1] == Decimal(n / 10);
    } else {
      assert Decimal(n)[..0] == "";
    }
  }

  function DigitRun(s: string): (k: nat)
    ensures k <= |s|
  {
    if |s| > 0 && IsDigit(s[0]) then 1 + DigitRun(s[1..]) else 0
  }

  /** The number at the front, and what follows. */
  function ReadNumber(s: string): (int, string) {
    var k := DigitRun(s);
    (Numeral(s[..k]), s[k..])
  }

  lemma {:induction false} RunIs(d: string, rest: string)
    requires AllDigits(d) && (|rest| > 0 ==> !IsDigit(rest[0]))
    ensures DigitRun(d + rest) == |d|
    decreases |d|
  {
    if |d| > 0 {
      assert (d + rest)[1..] == d[1..] + rest;
      RunIs(d[1..], rest);
    } else {
      assert d + rest == rest;
    }
  }

  lemma NumberReads(n: nat, rest: string)
    requires |rest| > 0 ==> !IsDigit(rest[0])
    ensures ReadNumber(Decimal(n) + rest) == (n, rest)
  {
    var d := Decimal(n);
    DecimalReads(n);
    RunIs(d, rest);
    assert (d + rest)[..|d|] == d && (d + rest)[|d|..] == rest;
  }

  // ---------- reports ----------

  /** What a payload that is not text reports. */
  datatype Report =
    | Measured(action: int, value: int)
    | Called(action: int, first: int, second: int)
    | Sized(action: int, size: int)
    | Raw(size: int)

  const COMPUTE: string := "[HPC Compute] Compute time: "
  const BARRIER: string := "[MPI Barrier] Barrier wait time: "
  const ALLREDUCE: string := "[MPI Allreduce] Allreduce latency: "
  const ACTION: string := "[Event Action "
  const VALUE: string := "] Value: "
  const ARGS: string := "] Args: ("
  const BINARY: string := "[Binary Payload: "

  function ReadTime(action: int, s: string): Option<Report> {
    var (n, rest) := ReadNumber(s);
    if rest == " us" then Some(Measured(action, n)) else None
  }

  function ReadAction(s: string): Option<Report> {
    var (action, rest) := ReadNumber(s);
    if VALUE <= rest then
      var (n, end) := ReadNumber(rest[|VALUE|..]);
      if end == "" then Some(Measured(action, n)) else None
    else if ARGS <= rest then
      var (x, more) := ReadNumber(rest[|ARGS|..]);
      if ", " <= more then
        var (y, end) := ReadNumber(more[2..]);
        if end == ")" then Some(Called(action, x, y)) else None
      else None
    else if " (" <= rest then
      var (n, end) := ReadNumber(rest[2..]);
      if end == " bytes)]" then Some(Sized(action, n)) else None
    else None
  }

  function ReadReport(s: string): Option<Report> {
    if COMPUTE <= s then ReadTime(0, s[|COMPUTE|..])
    else if BARRIER <= s then ReadTime(1, s[|BARRIER|..])
    else if ALLREDUCE <= s then ReadTime(2, s[|ALLREDUCE|..])
    else if ACTION <= s then ReadAction(s[|ACTION|..])
    else if BINARY <= s then
      var (n, end) := ReadNumber(s[|BINARY|..]);
      if end == " bytes]" then Some(Raw(n)) else None
    else None
  }

  /** The numbers in the bytes of a payload. */
  function ReportOf(p: seq<byte>): Report {
    if |p| < 8 then Raw(|p|)
    else if |p| == 16 then Measured(FromLE(p[..8]), FromLE(p[8..]))
    else if |p| == 24 then Called(FromLE(p[..8]), FromLE(p[8..16]), FromLE(p[16..]))
    else Sized(FromLE(p[..8]), |p|)
  }

  // ---------- what is shown is read back ----------

  /** The text starts with `head`, and what the reader then sees is `rest`. */
  lemma Opens(head: string, rest: string)
    ensures head <= head + rest && (head + rest)[|head|..] == rest
  {
  }

  lemma TimeReads(action: nat, n: nat)
    ensures ReadTime(action, Decimal(n) + " us") == Some(Measured(action, n))
  {
    NumberReads(n, " us");
  }

  lemma ValueReads(action: nat, n: nat)
    ensures ReadAction(Decimal(action) + (VALUE + Decimal(n))) == Some(Measured(action, n))
  {
    hide Decimal, DigitRun, Numeral, ReadNumber;
    NumberReads(action, VALUE + Decimal(n));
    Opens(VALUE, Decimal(n));
    assert Decimal(n) + "" == Decimal(n);
    NumberReads(n, "");
  }

  lemma ArgsRead(action: nat, x: nat, y: nat)
    ensures ReadAction(Decimal(action) + (ARGS + (Decimal(x) + (", " + (Decimal(y) + ")"))))) == Some(Called(action, x, y))
  {
    hide Decimal, DigitRun, Numeral, ReadNumber;
    var tail := ", " + (Decimal(y) + ")");
    NumberReads(action, ARGS + (Decimal(x) + tail));
    Opens(ARGS, Decimal(x) + tail);
    NumberReads(x, tail);
    Opens(", ", Decimal(y) + ")");
    NumberReads(y, ")");
    assert !(VALUE <= ARGS + (Decimal(x) + tail)) by {
      assert (ARGS + (Decimal(x) + tail))[2] == 'A' && VALUE[2] == 'V';
    }
  }

  lemma SizeReads(action: nat, n: nat)
    ensures ReadAction(Decimal(action) + (" (" + (Decimal(n) + " bytes)]"))) == Some(Sized(action, n))
  {
    hide Decimal, DigitRun, Numeral, ReadNumber;
    NumberReads(action, " (" + (Decimal(n) + " bytes)]"));
    Opens(" (", Decimal(n) + " bytes)]");
    NumberReads(n, " bytes)]");
    var rest := " (" + (Decimal(n) + " bytes)]");
    assert rest[0] == ' ' && VALUE[0] == ']' && ARGS[0] == ']';
  }

  /** Texts with these starts are told apart. */
  lemma StartsDiffer(rest: string)
    ensures !(COMPUTE <= BARRIER + rest)
    ensures !(COMPUTE <= ALLREDUCE + rest) && !(BARRIER <= ALLREDUCE + rest)
    ensures !(COMPUTE <= ACTION + rest) && !(BARRIER <= ACTION + rest) && !(ALLREDUCE <= ACTION + rest)
    ensures !(COMPUTE <= BINARY + rest) && !(BARRIER <= BINARY + rest) && !(ALLREDUCE <= BINARY + rest)
    ensures !(ACTION <= BINARY + rest)
  {
    assert COMPUTE[1] == 'H' && BARRIER[1] == 'M' && BARRIER[5] == 'B' && ALLREDUCE[1] == 'M' && ALLREDUCE[5] == 'A';
    assert ACTION[1] == 'E' && BINARY[1] == 'B';
    assert (BARRIER + rest)[1] == 'M' && (ALLREDUCE + rest)[1] == 'M' && (ALLREDUCE + rest)[5] == 'A';
    assert (ACTION + rest)[1] == 'E' && (BINARY + rest)[1] == 'B';
  }

  lemma TimeReport(action: nat, head: string, n: nat)
    requires (action == 0 && head == COMPUTE) || (action == 1 && head == BARRIER) || (action == 2 && head == ALLREDUCE)
    ensures ReadReport(head + Decimal(n) + " us") == Some(Measured(action, n))
  {
    hide Decimal, ReadTime, ReadAction;
    var rest := Decimal(n) + " us";
    assert head + Decimal(n) + " us" == head + rest;
    Opens(head, rest);
    StartsDiffer(rest);
    TimeReads(action, n);
  }

  lemma ActionReport(rest: string)
    ensures ReadReport(ACTION + rest) == ReadAction(rest)
  {
    hide ReadTime, ReadAction;
    Opens(ACTION, rest);
    StartsDiffer(rest);
  }

  lemma SixteenReads(p: seq<byte>)
    requires |p| == 16
    ensures ReadReport(RenderBinary(p)) == Some(ReportOf(p))
  {
    hide Decimal, ReadReport, ReadAction, FromLE;
    assert p[8..] == p[8..16];
    var a, v := FromLE(p[..8]), FromLE(p[8..16]);
    if a == 0 {
      TimeReport(0, COMPUTE, v);
    } else if a == 1 {
      TimeReport(1, BARRIER, v);
    } else if a == 2 {
      TimeReport(2, ALLREDUCE, v);
    } else {
      ValueReads(a, v);
      ActionReport(Decimal(a) + (VALUE + Decimal(v)));
      assert ACTION + Decimal(a) + VALUE + Decimal(v) == ACTION + (Decimal(a) + (VALUE + Decimal(v)));
    }
  }

  lemma RegroupFour(a: string, b: string, c: string, d: string)
    ensures a + b + c + d == a + (b + (c + d))
  {
  }

  lemma ArgsReport(a: nat, x: nat, y: nat)
    ensures ReadReport(ACTION + Decimal(a) + ARGS + Decimal(x) + ", " + Decimal(y) + ")") == Some(Called(a, x, y))
  {
    hide Decimal, ReadReport, ReadAction;
    ArgsRead(a, x, y);
    var tail := ", " + (Decimal(y) + ")");
    ActionReport(Decimal(a) + (ARGS + (Decimal(x) + tail)));
    RegroupFour(ACTION + Decimal(a) + ARGS + Decimal(x), ", ", Decimal(y), ")");
    RegroupFour(ACTION, Decimal(a), ARGS, Decimal(x) + tail);
    assert ACTION + Decimal(a) + ARGS + Decimal(x) + tail == ACTION + Decimal(a) + ARGS + (Decimal(x) + tail);
  }

  lemma SizeReport(a: nat, n: nat)
    ensures ReadReport(ACTION + Decimal(a) + " (" + Decimal(n) + " bytes)]") == Some(Sized(a, n))
  {
    hide Decimal, ReadReport, ReadAction;
    SizeReads(a, n);
    ActionReport(Decimal(a) + (" (" + (Decimal(n) + " bytes)]")));
    RegroupFour(ACTION, Decimal(a), " (", Decimal(n) + " bytes)]");
    assert ACTION + Decimal(a) + " (" + Decimal(n) + " bytes)]" == ACTION + Decimal(a) + " (" + (Decimal(n) + " bytes)]");
  }

  lemma ManyRead(p: seq<byte>)
    requires |p| >= 8 && |p| != 16
    ensures ReadReport(RenderBinary(p)) == Some(ReportOf(p))
  {
    hide Decimal, ReadReport, FromLE;
    var a := FromLE(p[..8]);
    if |p| == 24 {
      assert p[16..] == p[16..24];
      ArgsReport(a, FromLE(p[8..16]), FromLE(p[16..24]));
    } else {
      SizeReport(a, |p|);
    }
  }

  lemma FewRead(p: seq<byte>)
    requires |p| < 8
    ensures ReadReport(RenderBinary(p)) == Some(ReportOf(p))
  {
    hide Decimal, ReadNumber, ReadTime, ReadAction;
    var rest := Decimal(|p|) + " bytes]";
    Opens(BINARY, rest);
    StartsDiffer(rest);
    NumberReads(|p|, " bytes]");
    assert BINARY + Decimal(|p|) + " bytes]" == BINARY + rest;
  }

  // ---------- both kinds of payload ----------

  /** The bytes are printable, tabs or line ends; the last one may be zero. */
  ghost predicate Readable(p: seq<byte>) {
    forall i :: 0 <= i < |p| ==> 32 <= p[i] <= 126 || p[i] in {9, 10, 13} || (p[i] == 0 && i == |p| - 1)
  }

  lemma ReadableIsText(p: seq<byte>)
    ensures Readable(p) <==> IsText(p)
  {
    forall i | 0 <= i < |p|
      ensures TextByte(p, i) <==> 32 <= p[i] <= 126 || p[i] in {9, 10, 13} || (p[i] == 0 && i == |p| - 1)
    {
    }
  }

  /** A readable payload is shown byte by byte, without the zeros and line ends at its end. */
  lemma TextIsShown(p: seq<byte>)
    requires Readable(p)
    ensures var s := Render(p);
            && |s| <= |p| && (forall i :: 0 <= i < |s| ==> s[i] as int == p[i])
            && (|s| > 0 ==> p[|s| - 1] !in {0, 10, 13}) && forall i :: |s| <= i < |p| ==> p[i] in {0, 10, 13}
  {
    ReadableIsText(p);
  }

  /** From what is shown for any other payload the reader recovers its numbers. */
  lemma ReportIsRead(p: seq<byte>)
    requires !Readable(p)
    ensures ReadReport(Render(p)) == Some(ReportOf(p))
  {
    hide ReadReport, RenderBinary, ReportOf;
    ReadableIsText(p);
    if |p| < 8 {
      FewRead(p);
    } else if |p| == 16 {
      SixteenReads(p);
    } else {
      ManyRead(p);
    }
  }

  /** An action logged with one number, or with two, is read back from what is shown. */
  lemma LoggedIsRead(action: nat, x: nat, y: nat)
    requires action < 0x1_0000_0000_0000_0000 && x < 0x1_0000_0000_0000_0000 && y < 0x1_0000_0000_0000_0000
    ensures var p := ToLE(action, 8) + ToLE(x, 8); !Readable(p) ==> ReadReport(Render(p)) == Some(Measured(action, x))
    ensures var p := ToLE(action, 8) + ToLE(x, 8) + ToLE(y, 8);
            !Readable(p) ==> ReadReport(Render(p)) == Some(Called(action, x, y))
  {
    hide ReadReport, Render, Readable, ToLE, FromLE;
    Pow2Values();
    var a, b, c := ToLE(action, 8), ToLE(x, 8), ToLE(y, 8);
    FromToLE(action, 8);
    FromToLE(x, 8);
    FromToLE(y, 8);
    var p, q := a + b, a + b + c;
    assert p[..8] == a && p[8..] == b && q[..8] == a && q[8..16] == b && q[16..] == c;
    if !Readable(p) {
      ReportIsRead(p);
    }
    if !Readable(q) {
      ReportIsRead(q);
    }
  }
}
