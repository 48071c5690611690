/** The bit-serial CRC-32 of the trace container: the byte loop of the decoder, the polynomial
    remainder it computes, and the error bursts it is guaranteed to notice. */
module Crc32 {
  import opened Words

  const MAX32: nat := 0xFFFF_FFFF

  // ---------- the register ----------

  /** One shift of the register: drop the low bit, and fold in the generator if it was set. */
  function Step(c: nat): nat {
    if c % 2 == 1 then Xor(c / 2, Poly()) else c / 2
  }

  function Steps(c: nat, n: nat): nat
    decreases n
  {
    if n == 0 then c else Step(Steps(c, n - 1))
  }

  /** The register after the bytes of `data`, each shifted through by `n` steps. */
  function Register(c: nat, data: seq<byte>, n: nat): nat
    decreases |data|
  {
    if data == [] then c
    else Steps(Xor(Register(c, data[..|data| - 1], n), data[|data| - 1]), n)
  }

  /** Two's complement negation of a 32-bit word. */
  function Neg32(x: nat): nat
    requires x <= MAX32
  {
    (MAX32 + 1 - x) % (MAX32 + 1)
  }

  /** The branch-free selection of the inner loop: the generator when the bit is set, else zero. */
  lemma MaskTrick(bit: nat)
    requires bit == 0 || bit == 1
    ensures And(0xEDB8_8320, Neg32(bit)) == if bit == 1 then Poly() else 0
  {
    PolyWord();
    if bit == 1 {
      Pow2Values();
      AndOnes(0xEDB8_8320, 32);
    }
  }

  method RegisterLoop(init: nat, data: seq<byte>, n: nat) returns (crc: nat)
    ensures crc == Register(init, data, n)
  {
    crc := init;
    for i := 0 to |data|
      invariant crc == Register(init, data[..i], n)
    {
      ghost var before := crc;
      var byte := data[i];
      crc := Xor(crc, byte);
      for j := 0 to n
        invariant crc == Steps(Xor(before, byte), j)
      {
        MaskTrick(crc % 2);
        crc := Xor(crc / 2, And(0xEDB8_8320, Neg32(crc % 2)));
      }
      assert data[..i + 1][..i] == data[..i];
    }
    assert data[..|data|] == data;
  }

  /** The CRC field of a chunk whose compressed bytes are `data`: the register inverted. */
  function Crc(data: seq<byte>): int {
    MAX32 - Register(MAX32, data, 8)
  }

  /** The decoder's `compute_crc32`. */
  method ComputeCrc32(data: seq<byte>) returns (crc: int)
    ensures crc == Crc(data)
  {
    crc := RegisterLoop(MAX32, data, 8);
    crc := MAX32 - crc;
  }

  // ---------- the register as a bit string ----------

  function Ones(n: nat): (s: seq<bool>)
    ensures |s| == n
  {
    seq(n, i => true)
  }

  /** The exponents of the generator polynomial below its leading term x^32. */
  predicate InGenerator(e: int) {
    || e == 26 || e == 23 || e == 22 || e == 16 || e == 12 || e == 11 || e == 10
    || e == 8 || e == 7 || e == 5 || e == 4 || e == 2 || e == 1 || e == 0
  }

  /** The coefficients of x^31 down to x^0. */
  function Generator(): (g: seq<bool>)
    ensures |g| == 32
  {
    seq(32, i => InGenerator(31 - i))
  }

  /** The generator as the register holds it: the coefficient of x^31 in the low bit. */
  function Poly(): nat {
    Val(Generator())
  }

  /** The message as a bit string: bytes in order, each least significant bit first. */
  function MessageBits(data: seq<byte>): (s: seq<bool>)
    ensures |s| == 8 * |data|
  {
    if data == [] then [] else MessageBits(data[..|data| - 1]) + Bits(data[|data| - 1], 8)
  }

  function StepBits(s: seq<bool>): (r: seq<bool>)
    requires |s| == 32
    ensures |r| == 32
  {
    if s[0] then XorBits(s[1..] + [false], Generator()) else s[1..] + [false]
  }

  /** The register fed one message bit per step. */
  function RegisterBits(s: seq<bool>, m: seq<bool>): (r: seq<bool>)
    requires |s| == 32
    ensures |r| == 32
    decreases |m|
  {
    if m == [] then s else RegisterBits(StepBits(XorBits(s, [m[0]])), m[1..])
  }

  function StepsBits(s: seq<bool>, n: nat): (r: seq<bool>)
    requires |s| == 32
    ensures |r| == 32
    decreases n
  {
    if n == 0 then s else StepBits(StepsBits(s, n - 1))
  }

  // ---------- words and bit strings agree ----------

  /** Four bits from position `k` on, as a number. */
  function Nibble(s: seq<bool>, k: nat): nat
    requires k + 4 <= |s|
  {
    BitVal(s[k]) + 2 * BitVal(s[k + 1]) + 4 * BitVal(s[k + 2]) + 8 * BitVal(s[k + 3])
  }

  lemma ValNibble(s: seq<bool>, k: nat)
    requires k + 4 <= |s|
    ensures Val(s[k..]) == Nibble(s, k) + 16 * Val(s[k + 4..])
  {
    assert Val(s[k..]) == BitVal(s[k]) + 2 * Val(s[k + 1..]) by { assert s[k..][1..] == s[k + 1..]; }
    assert Val(s[k + 1..]) == BitVal(s[k + 1]) + 2 * Val(s[k + 2..]) by { assert s[k + 1..][1..] == s[k + 2..]; }
    assert Val(s[k + 2..]) == BitVal(s[k + 2]) + 2 * Val(s[k + 3..]) by { assert s[k + 2..][1..] == s[k + 3..]; }
    assert Val(s[k + 3..]) == BitVal(s[k + 3]) + 2 * Val(s[k + 4..]) by { assert s[k + 3..][1..] == s[k + 4..]; }
  }

  lemma ValSixteen(s: seq<bool>, k: nat, a: nat, b: nat, c: nat, d: nat)
    requires k + 16 <= |s|
    requires Nibble(s, k) == a && Nibble(s, k + 4) == b && Nibble(s, k + 8) == c && Nibble(s, k + 12) == d
    ensures Val(s[k..]) == a + 0x10 * b + 0x100 * c + 0x1000 * d + 0x1_0000 * Val(s[k + 16..])
  {
    ValNibble(s, k);
    ValNibble(s, k + 4);
    ValNibble(s, k + 8);
    ValNibble(s, k + 12);
  }

  lemma PolyWord()
    ensures Poly() == 0xEDB8_8320
  {
    HighNibbles();
    LowNibbles();
    hide Nibble, Generator, Val;
    var g := Generator();
    ValSixteen(g, 16, 8, 0xB, 0xD, 0xE);
    ValSixteen(g, 0, 0, 2, 3, 8);
    assert g[0..] == g && g[32..] == [];
    NoBits();
  }

  lemma NoBits()
    ensures Val([]) == 0
  {
  }

  /** Four coefficients of the generator, from that of x^(31-k) down. */
  lemma GeneratorNibble(k: nat)
    requires k + 4 <= 32
    ensures Nibble(Generator(), k) == BitVal(InGenerator(31 - k)) + 2 * BitVal(InGenerator(30 - k))
                                    + 4 * BitVal(InGenerator(29 - k)) + 8 * BitVal(InGenerator(28 - k))
  {
  }

  lemma HighNibbles()
    ensures var g := Generator();
            Nibble(g, 16) == 8 && Nibble(g, 20) == 0xB && Nibble(g, 24) == 0xD && Nibble(g, 28) == 0xE
  {
    hide Nibble, Generator;
    GeneratorNibble(16);
    GeneratorNibble(20);
    GeneratorNibble(24);
    GeneratorNibble(28);
  }

  lemma LowNibbles()
    ensures var g := Generator(); Nibble(g, 0) == 0 && Nibble(g, 4) == 2 && Nibble(g, 8) == 3 && Nibble(g, 12) == 8
  {
    hide Nibble, Generator;
    GeneratorNibble(0);
    GeneratorNibble(4);
    GeneratorNibble(8);
    GeneratorNibble(12);
  }

  lemma HalfBits(c: nat, n: nat)
    requires n > 0 && c < Pow2(n)
    ensures Bits(c / 2, n) == Bits(c, n)[1..] + [false]
  {
    BitsAbove(c / 2, n - 1, n);
    assert Zeros(1) == [false];
    assert Bits(c, n)[1..] == Bits(c / 2, n - 1);
  }

  lemma XorPadded(c: nat, b: nat, k: nat, n: nat)
    requires k <= n && c < Pow2(n) && b < Pow2(k)
    ensures Xor(c, b) < Pow2(n)
    ensures Bits(Xor(c, b), n) == XorBits(Bits(c, n), Bits(b, k))
  {
    Pow2Monotone(k, n);
    XorBound(c, b, n);
    BitsOfXor(c, b, n);
    BitsAbove(b, k, n);
  }

  lemma StepBound32(c: nat)
    requires c < Pow2(32)
    ensures Step(c) < Pow2(32)
  {
    ValBound(Generator());
    XorBound(c / 2, Poly(), 32);
  }

  lemma StepAsBits(c: nat, n: nat)
    requires n == 32 && c < Pow2(n)
    ensures Bits(Step(c), n) == StepBits(Bits(c, n))
  {
    HalfBits(c, n);
    if c % 2 == 1 {
      BitsVal(Generator());
      BitsOfXor(c / 2, Poly(), n);
    }
  }

  lemma WordStep(c: nat)
    requires c <= MAX32
    ensures Step(c) <= MAX32
    ensures Bits(Step(c), 32) == StepBits(Bits(c, 32))
  {
    Pow2Values();
    StepBound32(c);
    StepAsBits(c, 32);
  }

  lemma {:induction false} WordSteps(c: nat, n: nat)
    requires c <= MAX32
    ensures Steps(c, n) <= MAX32
    ensures Bits(Steps(c, n), 32) == StepsBits(Bits(c, 32), n)
    decreases n
  {
    if n > 0 {
      WordSteps(c, n - 1);
      WordStep(Steps(c, n - 1));
    }
  }

  lemma WordByte(c: nat, b: byte)
    requires c <= MAX32
    ensures Xor(c, b) <= MAX32
    ensures Bits(Xor(c, b), 32) == XorBits(Bits(c, 32), Bits(b, 8))
  {
    Pow2Values();
    XorPadded(c, b, 8, 32);
  }

  lemma {:induction false} StepsBitsFirst(s: seq<bool>, n: nat)
    requires |s| == 32
    ensures StepsBits(s, n + 1) == StepsBits(StepBits(s), n)
    decreases n
  {
    if n > 0 {
      StepsBitsFirst(s, n - 1);
    }
  }

  /** Message bits added ahead of time travel down the register untouched. */
  lemma StepPastPending(s: seq<bool>, m: seq<bool>)
    requires |s| == 32 && 0 < |m| <= 32
    ensures StepBits(XorBits(s, m)) == XorBits(StepBits(XorBits(s, [m[0]])), m[1..])
  {
    var x, y := XorBits(s, m), XorBits(s, [m[0]]);
    assert x[0] == y[0];
    forall i | 0 <= i < 32
      ensures StepBits(x)[i] == XorBits(StepBits(y), m[1..])[i]
    {
    }
  }

  lemma {:induction false} FeedIsSteps(s: seq<bool>, m: seq<bool>)
    requires |s| == 32 && |m| <= 32
    ensures RegisterBits(s, m) == StepsBits(XorBits(s, m), |m|)
    decreases |m|
  {
    if m == [] {
      assert XorBits(s, m) == s;
    } else {
      FeedIsSteps(StepBits(XorBits(s, [m[0]])), m[1..]);
      StepPastPending(s, m);
      StepsBitsFirst(XorBits(s, m), |m| - 1);
    }
  }

  lemma {:induction false} FeedConcat(s: seq<bool>, a: seq<bool>, b: seq<bool>)
    requires |s| == 32
    ensures RegisterBits(s, a + b) == RegisterBits(RegisterBits(s, a), b)
    decreases |a|
  {
    if a == [] {
      assert a + b == b;
    } else {
      assert (a + b)[1..] == a[1..] + b;
      FeedConcat(StepBits(XorBits(s, [a[0]])), a[1..], b);
    }
  }

  /** The byte loop is the bit-serial register over the message bits. */
  lemma {:induction false} ByteLoopIsBitSerial(c: nat, data: seq<byte>)
    requires c <= MAX32
    ensures Register(c, data, 8) <= MAX32
    ensures Bits(Register(c, data, 8), 32) == RegisterBits(Bits(c, 32), MessageBits(data))
    decreases |data|
  {
    if data != [] {
      var front, b := data[..|data| - 1], data[|data| - 1];
      ByteLoopIsBitSerial(c, front);
      ByteStepIsBitSerial(Register(c, front, 8), b, 8);
      FeedConcat(Bits(c, 32), MessageBits(front), Bits(b, 8));
    }
  }

  lemma ByteStepIsBitSerial(r: nat, b: byte, n: nat)
    requires r <= MAX32 && n == 8
    ensures Steps(Xor(r, b), n) <= MAX32
    ensures Bits(Steps(Xor(r, b), n), 32) == RegisterBits(Bits(r, 32), Bits(b, n))
  {
    WordByte(r, b);
    WordSteps(Xor(r, b), n);
    FeedIsSteps(Bits(r, 32), Bits(b, n));
  }

  // ---------- the step is invertible ----------

  lemma StepInjective(s: seq<bool>, t: seq<bool>)
    requires |s| == |t| == 32
    requires StepBits(s) == StepBits(t)
    ensures s == t
  {
    assert Generator()[31];
    assert StepBits(s)[31] == s[0] && StepBits(t)[31] == t[0];
    forall i | 0 <= i < 32
      ensures s[i] == t[i]
    {
      if i > 0 {
        assert StepBits(s)[i - 1] == (s[i] != (s[0] && Generator()[i - 1]));
        assert StepBits(t)[i - 1] == (t[i] != (t[0] && Generator()[i - 1]));
      }
    }
  }

  lemma {:induction false} StepsInjective(s: seq<bool>, t: seq<bool>, n: nat)
    requires |s| == |t| == 32
    requires StepsBits(s, n) == StepsBits(t, n)
    ensures s == t
    decreases n
  {
    if n > 0 {
      StepInjective(StepsBits(s, n - 1), StepsBits(t, n - 1));
      StepsInjective(s, t, n - 1);
    }
  }

  lemma XorInjective(s: seq<bool>, m: seq<bool>, m': seq<bool>)
    requires |m| == |m'| <= |s|
    requires XorBits(s, m) == XorBits(s, m')
    ensures m == m'
  {
    forall i | 0 <= i < |m|
      ensures m[i] == m'[i]
    {
      assert XorBits(s, m)[i] == (s[i] != m[i]);
      assert XorBits(s, m')[i] == (s[i] != m'[i]);
    }
  }

  /** Two registers that differ stay different while the same bits are fed to both. */
  lemma {:induction false} FeedInjective(s: seq<bool>, t: seq<bool>, m: seq<bool>)
    requires |s| == |t| == 32
    requires RegisterBits(s, m) == RegisterBits(t, m)
    ensures s == t
    decreases |m|
  {
    if m != [] {
      var s', t' := XorBits(s, [m[0]]), XorBits(t, [m[0]]);
      FeedInjective(StepBits(s'), StepBits(t'), m[1..]);
      StepInjective(s', t');
      forall i | 0 <= i < 32
        ensures s[i] == t[i]
      {
        assert s'[i] == t'[i];
      }
    }
  }

  // ---------- burst errors ----------

  lemma BurstMovesRegister(s: seq<bool>, m: seq<bool>, m': seq<bool>)
    requires |s| == 32 && |m| == |m'| <= 32
    requires m != m'
    ensures RegisterBits(s, m) != RegisterBits(s, m')
  {
    if RegisterBits(s, m) == RegisterBits(s, m') {
      FeedIsSteps(s, m);
      FeedIsSteps(s, m');
      StepsInjective(XorBits(s, m), XorBits(s, m'), |m|);
      XorInjective(s, m, m');
    }
  }

  lemma ConcatInjective(p: seq<bool>, q: seq<bool>, p': seq<bool>, q': seq<bool>)
    requires |p| == |p'|
    requires p + q == p' + q'
    ensures p == p' && q == q'
  {
    assert p == (p + q)[..|p|] && q == (p + q)[|p|..];
    assert p' == (p' + q')[..|p|] && q' == (p' + q')[|p|..];
  }

  lemma BitsInjective(x: nat, y: nat, n: nat)
    requires x < Pow2(n) && y < Pow2(n)
    requires Bits(x, n) == Bits(y, n)
    ensures x == y
  {
    ValBits(x, n);
    ValBits(y, n);
  }

  lemma {:induction false} MessageBitsInjective(a: seq<byte>, b: seq<byte>)
    requires |a| == |b|
    requires MessageBits(a) == MessageBits(b)
    ensures a == b
    decreases |a|
  {
    hide Bits;
    if a != [] {
      var n := |a| - 1;
      ConcatInjective(MessageBits(a[..n]), Bits(a[n], 8), MessageBits(b[..n]), Bits(b[n], 8));
      MessageBitsInjective(a[..n], b[..n]);
      Pow2Values();
      BitsInjective(a[n], b[n], 8);
      assert a == a[..n] + [a[n]] && b == b[..n] + [b[n]];
    }
  }

  /** The message bits of `a` and `b` agree outside the 32 positions from `start` on. */
  ghost predicate DifferInBurst(a: seq<byte>, b: seq<byte>, start: nat) {
    && |a| == |b|
    && forall i :: 0 <= i < 8 * |a| && !(start <= i < start + 32) ==> MessageBits(a)[i] == MessageBits(b)[i]
  }

  lemma WindowMovesRegister(s: seq<bool>, p: seq<bool>, w: seq<bool>, w': seq<bool>, q: seq<bool>)
    requires |s| == 32 && |w| == |w'| <= 32
    requires w != w'
    ensures RegisterBits(s, p + w + q) != RegisterBits(s, p + w' + q)
  {
    var r := RegisterBits(s, p);
    FeedConcat(s, p, w);
    FeedConcat(s, p, w');
    FeedConcat(s, p + w, q);
    FeedConcat(s, p + w', q);
    BurstMovesRegister(r, w, w');
    if RegisterBits(s, p + w + q) == RegisterBits(s, p + w' + q) {
      FeedInjective(RegisterBits(r, w), RegisterBits(r, w'), q);
    }
  }

  lemma BurstMessages(s: seq<bool>, m: seq<bool>, m': seq<bool>, start: nat)
    requires |s| == 32 && |m| == |m'|
    requires m != m'
    requires forall i :: 0 <= i < |m| && !(start <= i < start + 32) ==> m[i] == m'[i]
    ensures RegisterBits(s, m) != RegisterBits(s, m')
  {
    var lo := if start <= |m| then start else |m|;
    var hi := if start + 32 <= |m| then start + 32 else |m|;
    var p, w, w', q := m[..lo], m[lo..hi], m'[lo..hi], m[hi..];
    assert m'[..lo] == p && m'[hi..] == q;
    assert m == p + w + q && m' == p + w' + q;
    WindowMovesRegister(s, p, w, w', q);
  }

  /** Two chunks of equal length, however long, whose bits differ only inside one burst of at most
      32 positions never share a checksum, so at most one of them passes the decoder's test. */
  lemma BurstDetected(a: seq<byte>, b: seq<byte>, start: nat, stored: int)
    requires a != b && DifferInBurst(a, b, start)
    ensures Crc(a) != Crc(b)
    ensures !(Crc(a) == stored && Crc(b) == stored)
  {
    if MessageBits(a) == MessageBits(b) {
      MessageBitsInjective(a, b);
    }
    BurstMessages(Bits(MAX32, 32), MessageBits(a), MessageBits(b), start);
    ByteLoopIsBitSerial(MAX32, a);
    ByteLoopIsBitSerial(MAX32, b);
  }

  // ---------- the polynomial remainder ----------

  /** Schoolbook division over GF(2): coefficients most significant first, divided by
      x^32 + the generator. */
  function Remainder(d: seq<bool>): (r: seq<bool>)
    requires |d| >= 32
    ensures |r| == 32
    decreases |d|
  {
    if |d| == 32 then d
    else Remainder(if d[0] then XorBits(d[1..], Generator()) else d[1..])
  }

  lemma DivisionStep(s: seq<bool>, m: seq<bool>)
    requires |s| == 32 && |m| > 32
    ensures var d := XorBits(m, s);
            (if d[0] then XorBits(d[1..], Generator()) else d[1..])
            == XorBits(m[1..], StepBits(XorBits(s, [m[0]])))
  {
    var d, x := XorBits(m, s), XorBits(s, [m[0]]);
    assert d[0] == x[0];
    var lhs := if d[0] then XorBits(d[1..], Generator()) else d[1..];
    var rhs := XorBits(m[1..], StepBits(x));
    forall i | 0 <= i < |m| - 1
      ensures lhs[i] == rhs[i]
    {
      if i < 31 {
        assert x[1..][i] == s[i + 1];
      }
    }
  }

  lemma {:induction false} RegisterDivides(s: seq<bool>, m: seq<bool>)
    requires |s| == 32
    ensures RegisterBits(s, m) == Remainder(XorBits(m + Zeros(32), s))
    decreases |m|
  {
    if m == [] {
      assert XorBits(m + Zeros(32), s) == s;
    } else {
      DivisionStep(s, m + Zeros(32));
      assert (m + Zeros(32))[1..] == m[1..] + Zeros(32);
      RegisterDivides(StepBits(XorBits(s, [m[0]])), m[1..]);
    }
  }

  lemma {:induction false} BitsOfMax(n: nat)
    ensures Bits(Pow2(n) - 1, n) == Ones(n)
    decreases n
  {
    if n > 0 {
      BitsOfMax(n - 1);
      OddHalves(Pow2(n) - 1, Pow2(n - 1));
    }
  }

  lemma RegisterFromOnes(data: seq<byte>, n: nat)
    requires n == 32
    ensures RegisterBits(Bits(MAX32, n), MessageBits(data)) == RegisterBits(Ones(n), MessageBits(data))
  {
    Pow2Values();
    BitsOfMax(n);
  }

  lemma ValOfRegister(r: nat, s: seq<bool>)
    requires r <= MAX32
    requires Bits(r, |s|) == s && |s| == 32
    ensures r == Val(s)
  {
    Pow2Values();
    hide Bits, Val, Pow2;
    ValBits(r, 32);
    DivModUnique(r, 0x1_0000_0000, 0, r);
  }

  /** The checksum is the complement of the remainder of the message, followed by 32 zeros and with
      its first 32 bits inverted, divided by the generator polynomial. */
  lemma CrcIsRemainder(data: seq<byte>)
    ensures 0 <= Crc(data) <= MAX32
    ensures Crc(data) == MAX32 - Val(Remainder(XorBits(MessageBits(data) + Zeros(32), Ones(32))))
  {
    ByteLoopIsBitSerial(MAX32, data);
    RegisterFromOnes(data, 32);
    RegisterDivides(Ones(32), MessageBits(data));
    ValOfRegister(Register(MAX32, data, 8), RegisterBits(Ones(32), MessageBits(data)));
  }
}
