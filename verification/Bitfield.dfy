/** Reading bitfields: shift and mask on a little-endian container against the absolute bits of the
    structure. */
module Bitfield {
  import opened Words

  datatype Bitfield = Bitfield(readBytes: nat, rshift: nat, mask: nat)

  const MAX_WIDTH: nat := 64

  function MakeBitfield(bitOffset: nat, width: nat): Bitfield {
    var w := if width > MAX_WIDTH then MAX_WIDTH else width;
    Bitfield((bitOffset + w + 7) / 8, bitOffset, Pow2(w) - 1)
  }

  /** `to_opaque` on an unsigned container of `n` bytes. */
  function Extract(bf: Bitfield, raw: nat, n: nat): nat {
    And(Quotient(raw, Pow2(bf.rshift)), bf.mask % Pow2(8 * n))
  }

  function Quotient(a: nat, p: nat): (q: nat)
    requires p > 0
  {
    a / p
  }

  // ---------- bytes and bits ----------

  /** All bits of a byte string, least significant bit of the first byte first. */
  function ByteBits(s: seq<byte>): (b: seq<bool>)
    ensures |b| == 8 * |s|
  {
    if |s| == 0 then [] else Bits(s[0], 8) + ByteBits(s[1..])
  }

  lemma {:induction false} FromLEIsVal(s: seq<byte>)
    ensures FromLE(s) == Val(ByteBits(s))
  {
    hide Bits, Val, Pow2;
    if |s| > 0 {
      FromLEIsVal(s[1..]);
      ValConcat(Bits(s[0], 8), ByteBits(s[1..]));
      ByteValue(s[0]);
    } else {
      NoBits();
    }
  }

  lemma ByteValue(b: byte)
    ensures Val(Bits(b, 8)) == b && Pow2(8) == 256
  {
    hide Bits, Val;
    ValBits(b, 8);
    Pow2Values();
  }

  lemma NoBits()
    ensures Val([]) == 0
  {
  }

  lemma {:induction false} ByteBitsConcat(s: seq<byte>, t: seq<byte>)
    ensures ByteBits(s + t) == ByteBits(s) + ByteBits(t)
  {
    hide Bits;
    if |s| == 0 {
      assert s + t == t;
    } else {
      ByteBitsConcat(s[1..], t);
      assert (s + t)[1..] == s[1..] + t;
      assert Bits(s[0], 8) + (ByteBits(s[1..]) + ByteBits(t)) == (Bits(s[0], 8) + ByteBits(s[1..])) + ByteBits(t);
    }
  }

  lemma Middle(a: seq<bool>, b: seq<bool>, c: seq<bool>)
    ensures (a + (b + c))[|a|..|a| + |b|] == b
  {
  }

  lemma ByteBitsThree(s: seq<byte>, i: nat, j: nat)
    requires i <= j <= |s|
    ensures ByteBits(s) == ByteBits(s[..i]) + (ByteBits(s[i..j]) + ByteBits(s[j..]))
  {
    Rejoin(s, i, j);
    ByteBitsJoin(s[..i], s[i..j], s[j..]);
  }

  lemma Rejoin(s: seq<byte>, i: nat, j: nat)
    requires i <= j <= |s|
    ensures s == s[..i] + (s[i..j] + s[j..])
  {
  }

  lemma ByteBitsJoin(a: seq<byte>, b: seq<byte>, c: seq<byte>)
    ensures ByteBits(a + (b + c)) == ByteBits(a) + (ByteBits(b) + ByteBits(c))
  {
    hide ByteBits;
    ByteBitsConcat(a, b + c);
    ByteBitsConcat(b, c);
  }

  lemma ByteBitsSlice(s: seq<byte>, i: nat, j: nat)
    requires i <= j <= |s|
    ensures ByteBits(s[i..j]) == ByteBits(s)[8 * i..8 * j]
  {
    hide ByteBits;
    ByteBitsThree(s, i, j);
    Middle(ByteBits(s[..i]), ByteBits(s[i..j]), ByteBits(s[j..]));
  }

  /** The number held in bits `at` to `at + width` of the structure. */
  function AbsoluteBits(s: seq<byte>, at: nat, width: nat): nat
    requires at + width <= 8 * |s|
  {
    Val(ByteBits(s)[at..at + width])
  }

  // ---------- extraction ----------

  lemma MaskKeeps(a: nat, width: nat, n: nat)
    requires width <= 8 * n
    ensures And(a, (Pow2(width) - 1) % Pow2(8 * n)) == a % Pow2(width)
  {
    Pow2Monotone(width, 8 * n);
    DivModUnique(Pow2(width) - 1, Pow2(8 * n), 0, Pow2(width) - 1);
    AndOnes(a, width);
  }

  /** Shift and mask on a bit string. */
  lemma ShiftMask(b: seq<bool>, shift: nat, width: nat, n: nat)
    requires shift + width <= |b| && width <= 8 * n
    ensures And(Quotient(Val(b), Pow2(shift)), (Pow2(width) - 1) % Pow2(8 * n)) == Val(b[shift..shift + width])
  {
    hide Val, And, Pow2;
    ValSplit(b, shift);
    MaskKeeps(Val(b[shift..]), width, n);
    ValSplit(b[shift..], width);
    assert b[shift..][..width] == b[shift..shift + width];
  }

  lemma SubSlice(b: seq<bool>, lo: nat, hi: nat, r: nat, width: nat)
    requires lo <= hi <= |b| && r + width <= hi - lo
    ensures b[lo..hi][r..r + width] == b[lo + r..lo + r + width]
  {
    var x, y := b[lo..hi][r..r + width], b[lo + r..lo + r + width];
    forall i | 0 <= i < width
      ensures x[i] == y[i]
    {
      assert x[i] == b[lo..hi][r + i] == b[lo + (r + i)];
    }
  }

  /** Read from its container, a field that the container holds is exactly its absolute bits. */
  lemma ContainerExact(s: seq<byte>, at: nat, width: nat, n: nat)
    requires width <= MAX_WIDTH && at / 8 + n <= |s| && at % 8 + width <= 8 * n
    ensures at + width <= 8 * |s|
    ensures Extract(MakeBitfield(at % 8, width), FromLE(s[at / 8..at / 8 + n]), n) == AbsoluteBits(s, at, width)
  {
    hide Extract, MakeBitfield, AbsoluteBits, FromLE;
    ContainerExactAt(s, at / 8, at % 8, width, n);
  }

  /** The same with the position split into whole bytes and bits. */
  lemma ContainerExactAt(s: seq<byte>, o: nat, r: nat, width: nat, n: nat)
    requires width <= MAX_WIDTH && o + n <= |s| && r + width <= 8 * n
    ensures Extract(MakeBitfield(r, width), FromLE(s[o..o + n]), n) == AbsoluteBits(s, 8 * o + r, width)
  {
    hide ByteBits, Val, And, Pow2, FromLE;
    ByteBitsSlice(s, o, o + n);
    FromLEIsVal(s[o..o + n]);
    ShiftMask(ByteBits(s[o..o + n]), r, width, n);
    SubSlice(ByteBits(s), 8 * o, 8 * (o + n), r, width);
  }

  // ---------- probe reads ----------

  function ZeroBytes(n: nat): (s: seq<byte>)
    ensures |s| == n
  {
    seq(n, i => 0)
  }

  /** Only the first `readBytes` bytes are read into a zeroed container. */
  lemma ProbeReadExact(s: seq<byte>, at: nat, width: nat, n: nat)
    requires width <= MAX_WIDTH && at % 8 + width <= 8 * n
    requires at / 8 + MakeBitfield(at % 8, width).readBytes <= |s|
    ensures var bf, o := MakeBitfield(at % 8, width), at / 8;
      && bf.readBytes <= n && at + width <= 8 * |s|
      && Extract(bf, FromLE(s[o..o + bf.readBytes] + ZeroBytes(n - bf.readBytes)), n) == AbsoluteBits(s, at, width)
  {
    hide Extract, MakeBitfield, AbsoluteBits, FromLE, ZeroBytes;
    var o, r := at / 8, at % 8;
    var k := MakeBitfield(r, width).readBytes;
    ReadBytesMinimal(r, width, n);
    ReadBytesMinimal(r, width, k);
    ProbeReadAt(s, o, r, width, n, k);
    assert 8 * o + r == at;
  }

  /** `k` bytes that hold the field, and zeros behind them. */
  lemma ProbeReadAt(s: seq<byte>, o: nat, r: nat, width: nat, n: nat, k: nat)
    requires width <= MAX_WIDTH && o + k <= |s| && k <= n && r + width <= 8 * k
    ensures Extract(MakeBitfield(r, width), FromLE(s[o..o + k] + ZeroBytes(n - k)), n) == AbsoluteBits(s, 8 * o + r, width)
  {
    hide ByteBits, Val, And, Pow2, FromLE, ZeroBytes;
    var part, pad := s[o..o + k], ZeroBytes(n - k);
    ByteBitsConcat(part, pad);
    ByteBitsSlice(s, o, o + k);
    FromLEIsVal(part + pad);
    ShiftMask(ByteBits(part + pad), r, width, n);
    SliceFront(ByteBits(part), ByteBits(pad), r, r + width);
    SubSlice(ByteBits(s), 8 * o, 8 * (o + k), r, width);
  }

  lemma SliceFront(a: seq<bool>, b: seq<bool>, i: nat, j: nat)
    requires i <= j <= |a|
    ensures (a + b)[i..j] == a[i..j]
  {
  }

  /** No fewer bytes would do. */
  lemma ReadBytesMinimal(bitOffset: nat, width: nat, k: nat)
    requires width <= MAX_WIDTH
    ensures bitOffset + width <= 8 * k <==> MakeBitfield(bitOffset, width).readBytes <= k
  {
  }

  // ---------- when the container is too small ----------

  function OnesBytes(n: nat): (s: seq<byte>)
    ensures |s| == n
  {
    seq(n, i => 255)
  }

  function Ones(n: nat): (b: seq<bool>)
    ensures |b| == n
  {
    seq(n, i => true)
  }

  lemma {:induction false} ValOnes(n: nat)
    ensures Val(Ones(n)) == Pow2(n) - 1
  {
    if n > 0 {
      ValOnes(n - 1);
      assert Ones(n)[1..] == Ones(n - 1);
    }
  }

  lemma ByteOnes()
    ensures Bits(255, 8) == Ones(8)
  {
    assert Ones(8) == [true, true, true, true, true, true, true, true];
    BitsVal(Ones(8));
    ValOnes(8);
    Pow2Values();
  }

  lemma {:induction false} BitsOnes(n: nat)
    ensures ByteBits(OnesBytes(n)) == Ones(8 * n)
  {
    if n > 0 {
      BitsOnes(n - 1);
      ByteOnes();
      assert OnesBytes(n)[1..] == OnesBytes(n - 1);
      assert Ones(8) + Ones(8 * (n - 1)) == Ones(8 * n);
    }
  }

  lemma {:induction false} Pow2Strict(a: nat, b: nat)
    requires a < b
    ensures Pow2(a) < Pow2(b)
    decreases b
  {
    if a < b - 1 {
      Pow2Strict(a, b - 1);
    }
  }

  lemma {:induction false} AndAtMost(a: nat, m: nat)
    ensures And(a, m) <= a
    decreases a
  {
    if a > 0 && m > 0 {
      AndAtMost(a / 2, m / 2);
      AndHalves(a, m);
    }
  }

  /** With all bits set, a container too small for the field loses its high bits. */
  lemma TooSmallLoses(at: nat, width: nat, n: nat, size: nat)
    requires n > 0 && width <= MAX_WIDTH && at / 8 + n <= size && at + width <= 8 * size && at % 8 + width > 8 * n
    ensures var s := OnesBytes(size);
      Extract(MakeBitfield(at % 8, width), FromLE(s[at / 8..at / 8 + n]), n) < AbsoluteBits(s, at, width)
  {
    hide Val, And, Pow2, FromLE, Extract, MakeBitfield, ByteBits;
    var o, r, s := at / 8, at % 8, OnesBytes(size);
    assert s[o..o + n] == OnesBytes(n);
    OnesExtract(r, width, n);
    BitsOnes(size);
    assert Ones(8 * size)[at..at + width] == Ones(width);
    ValOnes(width);
    Pow2Strict(8 * n - r, width);
  }

  /** From a container of ones no more comes out than the ones above the shift. */
  lemma OnesExtract(r: nat, width: nat, n: nat)
    requires width <= MAX_WIDTH && r <= 8 * n
    ensures Extract(MakeBitfield(r, width), FromLE(OnesBytes(n)), n) <= Pow2(8 * n - r) - 1
  {
    hide ByteBits, Val, And, Pow2, FromLE;
    FromLEIsVal(OnesBytes(n));
    BitsOnes(n);
    ValSplit(Ones(8 * n), r);
    assert Ones(8 * n)[r..] == Ones(8 * n - r);
    ValOnes(8 * n - r);
    AndAtMost(Pow2(8 * n - r) - 1, (Pow2(width) - 1) % Pow2(8 * n));
  }

  /** Shift and mask on an `n`-byte container read a field right in every structure exactly when the
      container reaches the field's last bit. */
  lemma ContainerExactIff(at: nat, width: nat, n: nat)
    requires n > 0 && width <= MAX_WIDTH
    ensures at % 8 + width <= 8 * n <==>
      forall s: seq<byte> :: at / 8 + n <= |s| && at + width <= 8 * |s| ==>
        Extract(MakeBitfield(at % 8, width), FromLE(s[at / 8..at / 8 + n]), n) == AbsoluteBits(s, at, width)
  {
    if at % 8 + width <= 8 * n {
      forall s: seq<byte> | at / 8 + n <= |s| && at + width <= 8 * |s|
        ensures Extract(MakeBitfield(at % 8, width), FromLE(s[at / 8..at / 8 + n]), n) == AbsoluteBits(s, at, width)
      {
        ContainerExact(s, at, width, n);
      }
    } else {
      TooSmallLoses(at, width, n, at + n + width);
      assert |OnesBytes(at + n + width)| == at + n + width;
    }
  }

  // ---------- packing ----------

  /** A value for the bits `at` to `at + width`. */
  datatype Packed = Packed(at: nat, width: nat, value: nat)

  ghost predicate Holdable(f: Packed, size: nat) {
    f.at + f.width <= size && f.width <= MAX_WIDTH && f.value < Pow2(f.width)
  }

  predicate Apart(f: Packed, g: Packed) {
    f.at + f.width <= g.at || g.at + g.width <= f.at
  }

  function Put(b: seq<bool>, f: Packed): (r: seq<bool>)
    requires f.at + f.width <= |b|
    ensures |r| == |b|
  {
    b[..f.at] + Bits(f.value, f.width) + b[f.at + f.width..]
  }

  ghost predicate Packable(fs: seq<Packed>, size: nat) {
    && (forall i :: 0 <= i < |fs| ==> Holdable(fs[i], size))
    && (forall i, j :: 0 <= i < j < |fs| ==> Apart(fs[i], fs[j]))
  }

  function PackAll(b: seq<bool>, fs: seq<Packed>): (r: seq<bool>)
    requires forall i :: 0 <= i < |fs| ==> fs[i].at + fs[i].width <= |b|
    ensures |r| == |b|
  {
    if |fs| == 0 then b else Put(PackAll(b, fs[..|fs| - 1]), fs[|fs| - 1])
  }

  lemma PutGets(b: seq<bool>, f: Packed)
    requires Holdable(f, |b|)
    ensures Val(Put(b, f)[f.at..f.at + f.width]) == f.value
  {
    hide Bits, Val;
    assert Put(b, f)[f.at..f.at + f.width] == Bits(f.value, f.width);
    ValBits(f.value, f.width);
    DivModUnique(f.value, Pow2(f.width), 0, f.value);
  }

  lemma PutKeeps(b: seq<bool>, f: Packed, g: Packed)
    requires f.at + f.width <= |b| && g.at + g.width <= |b| && Apart(f, g)
    ensures Put(b, f)[g.at..g.at + g.width] == b[g.at..g.at + g.width]
  {
    hide Bits;
  }

  /** Whatever order the fields are packed in, each keeps its value. */
  lemma {:induction false} PackGets(b: seq<bool>, fs: seq<Packed>, i: nat)
    requires Packable(fs, |b|) && i < |fs|
    ensures Val(PackAll(b, fs)[fs[i].at..fs[i].at + fs[i].width]) == fs[i].value
    decreases |fs|
  {
    hide Put, Val;
    var n := |fs| - 1;
    var rest := fs[..n];
    if i == n {
      PutGets(PackAll(b, rest), fs[n]);
    } else {
      PackGets(b, rest, i);
      PutKeeps(PackAll(b, rest), fs[n], fs[i]);
    }
  }

  lemma PackedBits(b: seq<bool>, fs: seq<Packed>, i: nat, s: seq<byte>)
    requires Packable(fs, |b|) && i < |fs| && ByteBits(s) == PackAll(b, fs)
    ensures fs[i].width <= MAX_WIDTH && fs[i].at + fs[i].width <= 8 * |s|
    ensures AbsoluteBits(s, fs[i].at, fs[i].width) == fs[i].value
  {
    hide ByteBits, PackAll, Val, Pow2;
    PackGets(b, fs, i);
    assert Holdable(fs[i], |b|);
  }

  /** The container of `n` bytes lies in the structure and reaches the last bit of the field. */
  predicate Reached(f: Packed, size: nat, n: nat) {
    f.at / 8 + n <= size && f.at % 8 + f.width <= 8 * n
  }

  /** The field as it is read from its container. */
  function ReadField(f: Packed, s: seq<byte>, n: nat): nat
    requires Reached(f, |s|, n)
  {
    Extract(MakeBitfield(f.at % 8, f.width), FromLE(s[f.at / 8..f.at / 8 + n]), n)
  }

  lemma ReadFieldIs(f: Packed, s: seq<byte>, n: nat)
    requires Reached(f, |s|, n) && f.width <= MAX_WIDTH
    ensures f.at + f.width <= 8 * |s| && ReadField(f, s, n) == AbsoluteBits(s, f.at, f.width)
  {
    ContainerExact(s, f.at, f.width, n);
  }

  /** Packing disjoint fields into a structure and reading any of them gives the value packed, whenever
      its container reaches its last bit. */
  lemma PackThenExtract(b: seq<bool>, fs: seq<Packed>, i: nat, s: seq<byte>, n: nat)
    requires Packable(fs, |b|) && i < |fs|
    requires ByteBits(s) == PackAll(b, fs)
    requires Reached(fs[i], |s|, n)
    ensures ReadField(fs[i], s, n) == fs[i].value
  {
    hide Packable, Reached, ReadField, AbsoluteBits;
    PackedBits(b, fs, i, s);
    ReadFieldIs(fs[i], s, n);
  }
}
