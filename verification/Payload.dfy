/** How the decoder turns a record's payload bytes into text. */
module Payload {
  import opened Words

  predicate IsPrint(c: byte) {
    32 <= c <= 126
  }

  predicate TextByte(p: seq<byte>, i: nat)
    requires i < |p|
  {
    (p[i] == 0 && i == |p| - 1) || IsPrint(p[i]) || p[i] == 10 || p[i] == 9 || p[i] == 13
  }

  predicate IsText(p: seq<byte>) {
    forall i :: 0 <= i < |p| ==> TextByte(p, i)
  }

  predicate Strippable(c: byte) {
    c == 0 || c == 10 || c == 13
  }

  function Strip(p: seq<byte>): (r: seq<byte>)
    ensures r <= p
    ensures |r| > 0 ==> !Strippable(r[|r| - 1])
    ensures forall i :: |r| <= i < |p| ==> Strippable(p[i])
  {
    if |p| == 0 || !Strippable(p[|p| - 1]) then p else Strip(p[..|p| - 1])
  }

  function Chars(p: seq<byte>): (s: string)
    ensures |s| == |p|
  {
    seq(|p|, i requires 0 <= i < |p| => p[i] as char)
  }

  function Digit(d: nat): char
    requires d < 10
  {
    ('0' as int + d) as char
  }

  function Decimal(n: nat): string {
    if n < 10 then [Digit(n)] else Decimal(n / 10) + [Digit(n % 10)]
  }

  /** A payload that is not text: a numbered action with up to two arguments, or raw bytes. */
  function RenderBinary(p: seq<byte>): string {
    if |p| < 8 then "[Binary Payload: " + Decimal(|p|) + " bytes]"
    else
      var action := FromLE(p[..8]);
      if |p| == 16 then
        var v := FromLE(p[8..16]);
        if action == 0 then "[HPC Compute] Compute time: " + Decimal(v) + " us"
        else if action == 1 then "[MPI Barrier] Barrier wait time: " + Decimal(v) + " us"
        else if action == 2 then "[MPI Allreduce] Allreduce latency: " + Decimal(v) + " us"
        else "[Event Action " + Decimal(action) + "] Value: " + Decimal(v)
      else if |p| == 24 then
        "[Event Action " + Decimal(action) + "] Args: (" + Decimal(FromLE(p[8..16])) + ", "
        + Decimal(FromLE(p[16..24])) + ")"
      else "[Event Action " + Decimal(action) + " (" + Decimal(|p|) + " bytes)]"
  }

  function Render(p: seq<byte>): string {
    if |p| == 0 then "" else if IsText(p) then Chars(Strip(p)) else RenderBinary(p)
  }

  method CheckText(p: seq<byte>) returns (printable: bool)
    ensures printable == IsText(p)
  {
    printable := true;
    for i := 0 to |p|
      invariant forall j :: 0 <= j < i ==> TextByte(p, j)
    {
      var c := p[i];
      if c == 0 && i == |p| - 1 {
        return;
      }
      if !IsPrint(c) && c != 10 && c != 9 && c != 13 {
        assert !TextByte(p, i);
        printable := false;
        return;
      }
    }
  }

  method StripTail(p: seq<byte>) returns (n: nat)
    ensures n <= |p| && p[..n] == Strip(p)
  {
    n := |p|;
    assert p[..n] == p;
    while n > 0 && Strippable(p[n - 1])
      invariant n <= |p|
      invariant Strip(p) == Strip(p[..n])
    {
      assert p[..n][..n - 1] == p[..n - 1];
      n := n - 1;
    }
  }

  /** The payload branch of the record loop. */
  method RenderPayload(p: seq<byte>) returns (text: string)
    ensures text == Render(p)
  {
    text := "";
    if |p| > 0 {
      var printable := CheckText(p);
      if printable {
        var n := StripTail(p);
        text := Chars(p[..n]);
      } else {
        text := RenderBinary(p);
      }
    }
  }
}
