/** Machine words as natural numbers: fixed-width values, their bit strings (least significant bit
    first), the bitwise operators, and little-endian byte encodings. */
module Words {

  type byte = b: int | 0 <= b < 256

  function Pow2(n: nat): (p: nat)
    ensures p > 0
  {
    if n == 0 then 1 else 2 * Pow2(n - 1)
  }

  lemma {:induction false} Pow2Add(a: nat, b: nat)
    ensures Pow2(a + b) == Pow2(a) * Pow2(b)
    decreases b
  {
    if b > 0 {
      Pow2Add(a, b - 1);
      assert Pow2(a + b) == 2 * (Pow2(a) * Pow2(b - 1)) == Pow2(a) * (2 * Pow2(b - 1));
    }
  }

  lemma {:induction false} Pow2Monotone(a: nat, b: nat)
    requires a <= b
    ensures Pow2(a) <= Pow2(b)
    decreases b
  {
    if a < b {
      Pow2Monotone(a, b - 1);
    }
  }

  lemma Pow2Square(n: nat, m: nat, p: nat)
    requires m == n + n
    requires Pow2(n) == p
    ensures Pow2(m) == p * p
  {
    Pow2Add(n, n);
  }

  lemma Pow2Values()
    ensures Pow2(8) == 0x100
    ensures Pow2(16) == 0x1_0000
    ensures Pow2(32) == 0x1_0000_0000
    ensures Pow2(64) == 0x1_0000_0000_0000_0000
  {
    Pow2Square(8, 16, 0x100);
    Pow2Square(16, 32, 0x1_0000);
    Pow2Square(32, 64, 0x1_0000_0000);
  }

  // ---------- bit strings ----------

  /** The low `n` bits of `c`, least significant first. */
  function Bits(c: nat, n: nat): (s: seq<bool>)
    ensures |s| == n
    decreases n
  {
    if n == 0 then [] else [c % 2 == 1] + Bits(c / 2, n - 1)
  }

  function BitVal(b: bool): nat {
    if b then 1 else 0
  }

  /** The number whose bits, least significant first, are `s`. */
  function Val(s: seq<bool>): nat {
    if s == [] then 0 else BitVal(s[0]) + 2 * Val(s[1..])
  }

  lemma {:induction false} ValBound(s: seq<bool>)
    ensures Val(s) < Pow2(|s|)
  {
    if s != [] {
      ValBound(s[1..]);
    }
  }

  lemma {:induction false} ValBits(c: nat, n: nat)
    ensures Val(Bits(c, n)) == c % Pow2(n)
    decreases n
  {
    if n > 0 {
      assert Bits(c, n)[1..] == Bits(c / 2, n - 1);
      ValBits(c / 2, n - 1);
      ModTwice(c, Pow2(n - 1));
    }
  }

  lemma ModTwice(c: nat, p: nat)
    requires p > 0
    ensures c % (2 * p) == c % 2 + 2 * ((c / 2) % p)
  {
    var h := c / 2;
    var q := h / p;
    assert h == q * p + h % p;
    assert c == q * (2 * p) + (c % 2 + 2 * (h % p));
    DivModUnique(c, 2 * p, q, c % 2 + 2 * (h % p));
  }

  lemma DivModUnique(c: int, p: int, q: int, r: int)
    requires p > 0
    requires c == q * p + r
    requires 0 <= r < p
    ensures c / p == q && c % p == r
  {
    var d := c / p - q;
    assert c == (c / p) * p + c % p;
    assert d * p == r - c % p;
    NoMultipleBetween(d, p);
  }

  lemma NoMultipleBetween(d: int, p: int)
    requires -p < d * p < p
    ensures d == 0
  {
  }

  lemma {:induction false} BitsVal(s: seq<bool>)
    ensures Bits(Val(s), |s|) == s
  {
    if s != [] {
      BitsVal(s[1..]);
      assert Val(s) % 2 == BitVal(s[0]) && Val(s) / 2 == Val(s[1..]);
      assert s == [s[0]] + s[1..];
    }
  }

  lemma {:induction false} ValConcat(s: seq<bool>, t: seq<bool>)
    ensures Val(s + t) == Val(s) + Pow2(|s|) * Val(t)
  {
    if s == [] {
      assert s + t == t;
    } else {
      assert (s + t)[1..] == s[1..] + t;
      ValConcat(s[1..], t);
      MulAssoc(2, Pow2(|s| - 1), Val(t));
    }
  }

  lemma MulAssoc(a: int, b: int, c: int)
    ensures a * (b * c) == (a * b) * c
  {
  }

  /** Cutting a bit string is dividing its value. */
  lemma ValSplit(s: seq<bool>, k: nat)
    requires k <= |s|
    ensures Val(s) / Pow2(k) == Val(s[k..])
    ensures Val(s) % Pow2(k) == Val(s[..k])
  {
    assert s == s[..k] + s[k..];
    ValConcat(s[..k], s[k..]);
    ValBound(s[..k]);
    assert Pow2(k) * Val(s[k..]) == Val(s[k..]) * Pow2(k);
    DivModUnique(Val(s), Pow2(k), Val(s[k..]), Val(s[..k]));
  }

  function Zeros(n: nat): (s: seq<bool>)
    ensures |s| == n
  {
    seq(n, i => false)
  }

  lemma {:induction false} BitsOfZero(n: nat)
    ensures Bits(0, n) == Zeros(n)
  {
    if n > 0 {
      BitsOfZero(n - 1);
    }
  }

  /** A number below `2^k` has only zeros from position `k` on. */
  lemma {:induction false} BitsAbove(c: nat, k: nat, n: nat)
    requires k <= n
    requires c < Pow2(k)
    ensures Bits(c, n) == Bits(c, k) + Zeros(n - k)
    decreases n
  {
    if k > 0 {
      BitsAbove(c / 2, k - 1, n - 1);
    } else {
      BitsOfZero(n);
    }
  }

  // ---------- bitwise operators ----------

  function Xor(a: nat, b: nat): nat
    decreases a + b
  {
    if a == 0 then b else if b == 0 then a
    else BitVal((a % 2 == 1) != (b % 2 == 1)) + 2 * Xor(a / 2, b / 2)
  }

  function And(a: nat, b: nat): nat
    decreases a
  {
    if a == 0 || b == 0 then 0
    else BitVal(a % 2 == 1 && b % 2 == 1) + 2 * And(a / 2, b / 2)
  }

  /** `s` with `t` added, without carries, to its leading bits. */
  function XorBits(s: seq<bool>, t: seq<bool>): (r: seq<bool>)
    requires |t| <= |s|
    ensures |r| == |s|
  {
    seq(|s|, i requires 0 <= i < |s| => if i < |t| then s[i] != t[i] else s[i])
  }

  lemma XorHalves(a: nat, b: nat)
    ensures Xor(a, b) % 2 == BitVal((a % 2 == 1) != (b % 2 == 1))
    ensures Xor(a, b) / 2 == Xor(a / 2, b / 2)
  {
  }

  lemma {:induction false} BitsOfXor(a: nat, b: nat, n: nat)
    ensures Bits(Xor(a, b), n) == XorBits(Bits(a, n), Bits(b, n))
    decreases n
  {
    if n > 0 {
      XorHalves(a, b);
      BitsOfXor(a / 2, b / 2, n - 1);
    }
  }

  lemma {:induction false} XorBound(a: nat, b: nat, n: nat)
    requires a < Pow2(n) && b < Pow2(n)
    ensures Xor(a, b) < Pow2(n)
    decreases n
  {
    if n > 0 {
      XorHalves(a, b);
      XorBound(a / 2, b / 2, n - 1);
    }
  }

  lemma AndHalves(a: nat, b: nat)
    ensures And(a, b) == BitVal(a % 2 == 1 && b % 2 == 1) + 2 * And(a / 2, b / 2)
  {
  }

  lemma OddHalves(m: nat, p: nat)
    requires p > 0 && m == 2 * p - 1
    ensures m % 2 == 1 && m / 2 == p - 1
  {
  }

  lemma AndOnesStep(a: nat, m: nat, p: nat)
    requires p > 0 && m == 2 * p - 1
    requires And(a / 2, p - 1) == (a / 2) % p
    ensures And(a, m) == a % (2 * p)
  {
    OddHalves(m, p);
    AndHalves(a, m);
    assert And(a, m) == a % 2 + 2 * And(a / 2, p - 1);
    ModTwice(a, p);
  }

  /** Masking with a run of ones keeps the low bits. */
  lemma {:induction false} AndOnes(a: nat, n: nat)
    ensures And(a, Pow2(n) - 1) == a % Pow2(n)
    decreases n
  {
    if n > 0 {
      AndOnes(a / 2, n - 1);
      AndOnesStep(a, Pow2(n) - 1, Pow2(n - 1));
    }
  }

  // ---------- little-endian integers ----------

  /** The low `n` bytes of `v`, least significant first. */
  function ToLE(v: nat, n: nat): (s: seq<byte>)
    ensures |s| == n
    decreases n
  {
    if n == 0 then [] else [v % 256] + ToLE(v / 256, n - 1)
  }

  function FromLE(s: seq<byte>): nat {
    if s == [] then 0 else s[0] + 256 * FromLE(s[1..])
  }

  lemma {:induction false} FromToLE(v: nat, n: nat)
    requires v < Pow2(8 * n)
    ensures FromLE(ToLE(v, n)) == v
    decreases n
  {
    if n > 0 {
      Pow2Values();
      Pow2Add(8, 8 * (n - 1));
      assert ToLE(v, n)[1..] == ToLE(v / 256, n - 1);
      FromToLE(v / 256, n - 1);
    }
  }
}
