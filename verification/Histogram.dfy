/** Log-linear histograms: which bucket a value is counted in, which interval a bucket is printed as,
    and that the two agree. */
module Histogram {
  import opened Words

  const TABLE: nat := 65 * 32

  // ---------- bounds ----------

  /** The upper bound printed for bucket `i`, with `n` buckets to a power of two; bucket `i` holds the
      values from the bound of bucket `i - 1` up to its own, and bucket 0 the negative ones. */
  function Bound(i: nat, n: nat): nat
    requires n > 0
  {
    if i <= 2 * n then i else Interval(i, n)
  }

  /** `hist_index_label`. */
  function Interval(i: nat, n: nat): nat
    requires n > 0 && i >= n
  {
    Quotients(i, n);
    Pow2(i / n - 1) * (n + i % n)
  }

  lemma Quotients(i: nat, n: nat)
    requires n > 0 && i >= n
    ensures i / n >= 1
  {
  }

  lemma DivModOf(q: nat, n: nat, r: nat)
    requires r < n
    ensures (q * n + r) / n == q && (q * n + r) % n == r
  {
    DivModUnique(q * n + r, n, q, r);
  }

  /** Up to `2n` the bound is the number of the bucket in either way of writing it. */
  lemma SmallInterval(i: nat, n: nat)
    requires n > 0 && n <= i <= 2 * n
    ensures Interval(i, n) == i
  {
    if i < 2 * n {
      DivModOf(1, n, i - n);
      assert Pow2(0) == 1;
    } else {
      DivModOf(2, n, 0);
      assert Pow2(1) == 2 * Pow2(0);
    }
  }

  lemma SmallBound(i: nat, n: nat)
    requires n > 0 && i <= n
    ensures Bound(i, n) == i
  {
  }

  lemma BoundIs(i: nat, n: nat)
    requires n > 0 && i >= n
    ensures Bound(i, n) == Interval(i, n)
  {
    if i <= 2 * n {
      SmallInterval(i, n);
    }
  }

  /** The bound of the bucket made from a power `p` and a step `x` inside it. */
  lemma BoundAt(p: nat, n: nat, x: nat)
    requires x < n
    ensures Bound((p + 1) * n + x, n) == Pow2(p) * (n + x)
  {
    DivModOf(p + 1, n, x);
    MulGrows(p + 1, n);
    BoundIs((p + 1) * n + x, n);
  }

  lemma MulGrows(q: nat, n: nat)
    requires q > 0
    ensures q * n >= n
  {
    assert q * n == (q - 1) * n + n;
  }

  /** Adjacent bounds differ by 1 up to `2n`, and by the current power of two from `n` on. */
  lemma BoundStep(p: nat, n: nat, x: nat)
    requires x < n
    ensures Bound((p + 1) * n + x + 1, n) == Pow2(p) * (n + x + 1)
  {
    if x + 1 < n {
      BoundAt(p, n, x + 1);
      assert (p + 1) * n + x + 1 == (p + 1) * n + (x + 1);
    } else {
      BoundAt(p + 1, n, 0);
      assert (p + 1) * n + n == (p + 2) * n;
      PowerStep(Pow2(p), n);
    }
  }

  lemma PowerStep(p: nat, n: nat)
    ensures 2 * p * n == p * (n + n)
  {
  }

  /** The bounds increase strictly. */
  lemma BoundsIncrease(i: nat, n: nat)
    requires n > 0
    ensures Bound(i, n) < Bound(i + 1, n)
  {
    if i >= n {
      Quotients(i, n);
      var p, x := i / n - 1, i % n;
      assert i == (p + 1) * n + x;
      BoundAt(p, n, x);
      BoundStep(p, n, x);
      assert Pow2(p) * (n + x + 1) == Pow2(p) * (n + x) + Pow2(p);
    }
  }

  lemma {:induction false} BoundsOrdered(i: nat, j: nat, n: nat)
    requires n > 0 && i < j
    ensures Bound(i, n) < Bound(j, n)
    decreases j - i
  {
    BoundsIncrease(i, n);
    if i + 1 < j {
      BoundsOrdered(i + 1, j, n);
    }
  }

  // ---------- buckets ----------

  predicate InBucket(v: int, i: nat, n: nat)
    requires n > 0
  {
    if i == 0 then v < 0 else Bound(i - 1, n) <= v < Bound(i, n)
  }

  /** No value is in two buckets. */
  lemma BucketsDisjoint(v: int, i: nat, j: nat, n: nat)
    requires n > 0 && InBucket(v, i, n) && InBucket(v, j, n)
    ensures i == j
  {
    if 0 < i < j {
      if i < j - 1 {
        BoundsOrdered(i, j - 1, n);
      }
    } else if 0 < j < i {
      if j < i - 1 {
        BoundsOrdered(j, i - 1, n);
      }
    }
  }

  /** A bucket is at most one value wide or at most its lower bound divided by `n`. */
  lemma BucketWidth(i: nat, n: nat)
    requires n > 0 && i > 0
    ensures var width, lower := Bound(i, n) - Bound(i - 1, n), Bound(i - 1, n);
      width == 1 || width * n <= lower
  {
    var j := i - 1;
    if j >= n {
      Quotients(j, n);
      var p, x := j / n - 1, j % n;
      assert j == (p + 1) * n + x;
      BoundAt(p, n, x);
      BoundStep(p, n, x);
      StepWidth(Pow2(p), n, x);
    }
  }

  lemma StepWidth(w: nat, n: nat, x: nat)
    ensures w * (n + x + 1) - w * (n + x) == w && w * n <= w * (n + x)
  {
    assert w * (n + x) == w * n + w * x;
  }

  // ---------- the bucket of a value ----------

  function Log(v: nat): nat {
    if v < 2 then 0 else 1 + Log(v / 2)
  }

  lemma {:induction false} LogBounds(v: nat)
    requires v > 0
    ensures Pow2(Log(v)) <= v < Pow2(Log(v) + 1)
  {
    if v >= 2 {
      LogBounds(v / 2);
    }
  }

  lemma {:induction false} Pow2Order(a: nat, b: nat)
    ensures a < b <==> Pow2(a) < Pow2(b)
    decreases a + b
  {
    if a > 0 && b > 0 {
      Pow2Order(a - 1, b - 1);
    }
  }

  lemma LogIs(v: nat, l: nat)
    requires Pow2(l) <= v < Pow2(l + 1)
    ensures v > 0 && Log(v) == l
  {
    LogBounds(v);
    Pow2Order(l, Log(v) + 1);
    Pow2Order(Log(v), l + 1);
  }

  /** The index that the generated code counts the value `v` under. */
  function Index(v: int, k: nat): nat {
    if v < 0 then 0
    else if v < Pow2(k) then v + 1
    else
      EnoughBits(v, k);
      var l := Log(v) - k;
      (l + 1) * Pow2(k) + (v / Pow2(l)) % Pow2(k) + 1
  }

  lemma EnoughBits(v: nat, k: nat)
    requires v >= Pow2(k)
    ensures Log(v) >= k
  {
    LogBounds(v);
    Pow2Order(k, Log(v) + 1);
  }

  /** The leading bits of a value. */
  lemma Leading(v: nat, k: nat, l: nat)
    requires Pow2(l + k) <= v < Pow2(l + k + 1)
    ensures var q, n := v / Pow2(l), Pow2(k);
      n <= q < 2 * n && q % n == q - n && Pow2(l) * q <= v < Pow2(l) * (q + 1)
  {
    Pow2Add(l, k);
    Pow2Add(l, k + 1);
    LeadingOf(v, Pow2(l), Pow2(k));
  }

  lemma LeadingOf(v: nat, w: nat, n: nat)
    requires w > 0 && n > 0 && w * n <= v < w * (2 * n)
    ensures var q := v / w; n <= q < 2 * n && q % n == q - n && w * q <= v < w * (q + 1)
  {
    var q := v / w;
    Floor(v, w);
    Between(w, n, q, v);
    DivModUnique(q, n, 1, q - n);
  }

  lemma Floor(v: nat, w: nat)
    requires w > 0
    ensures v / w >= 0 && w * (v / w) <= v < w * (v / w + 1)
  {
    assert v == w * (v / w) + v % w;
    assert w * (v / w + 1) == w * (v / w) + w;
  }

  lemma Between(w: nat, n: nat, q: nat, v: nat)
    requires w > 0 && w * n <= v < w * (2 * n) && w * q <= v < w * (q + 1)
    ensures n <= q < 2 * n
  {
    if q < n {
      LessTimes(w, q + 1, n);
    }
    if q >= 2 * n {
      LessTimes(w, 2 * n, q);
    }
  }

  lemma LessTimes(w: nat, a: nat, b: nat)
    ensures a <= b ==> w * a <= w * b
  {
    if a <= b {
      assert w * b == w * a + w * (b - a);
    }
  }

  /** Every value is in the bucket it is counted under, and in no other. */
  lemma CountedWhereItBelongs(v: int, k: nat, i: nat)
    ensures InBucket(v, i, Pow2(k)) <==> i == Index(v, k)
  {
    BelongsThere(v, k);
    if InBucket(v, i, Pow2(k)) {
      BucketsDisjoint(v, i, Index(v, k), Pow2(k));
    }
  }

  lemma BelongsThere(v: int, k: nat)
    ensures InBucket(v, Index(v, k), Pow2(k))
  {
    hide Pow2, Log, Bound;
    var n := Pow2(k);
    if v >= n {
      EnoughBits(v, k);
      LogBounds(v);
      var l := Log(v) - k;
      Leading(v, k, l);
      var x := v / Pow2(l) - n;
      BoundAt(l, n, x);
      BoundStep(l, n, x);
    } else if v >= 0 {
      SmallBound(v, n);
      SmallBound(v + 1, n);
    }
  }

  // ---------- 64 bits ----------

  lemma Pow2Small()
    ensures Pow2(0) == 1 && Pow2(1) == 2 && Pow2(2) == 4 && Pow2(3) == 8 && Pow2(4) == 16 && Pow2(5) == 32
  {
  }

  lemma TableSize(k: nat)
    requires k <= 5
    ensures (64 - k) * Pow2(k) < TABLE
  {
    Pow2Small();
  }

  lemma IndexLimit(v: int, k: nat)
    requires v < Pow2(63) && k <= 5
    ensures Index(v, k) <= (64 - k) * Pow2(k)
  {
    hide Pow2, Log;
    var n := Pow2(k);
    if v >= n {
      EnoughBits(v, k);
      LogBounds(v);
      Pow2Order(Log(v), 63);
      var l := Log(v) - k;
      Leading(v, k, l);
      LimitStep(l, k, n, v / Pow2(l) - n);
    } else {
      LimitStep(0, k, n, 0);
    }
  }

  lemma LimitStep(l: nat, k: nat, n: nat, x: nat)
    requires x < n && l + 1 <= 63 - k
    ensures (l + 1) * n + x + 1 <= (64 - k) * n && n <= (64 - k) * n
  {
    LessTimes(n, l + 1, 63 - k);
    LessTimes(n, 1, 64 - k);
    assert (64 - k) * n == n * (63 - k) + n;
    assert (l + 1) * n == n * (l + 1);
  }

  /** Values below 2^63 are counted inside the table, under an index whose bound is at most 2^63. */
  lemma InsideTable(v: int, k: nat)
    requires v < Pow2(63) && k <= 5
    ensures Index(v, k) < TABLE && Bound(Index(v, k), Pow2(k)) <= Pow2(63)
  {
    hide Pow2, Bound, Index;
    IndexLimit(v, k);
    TableSize(k);
    TopBound(k);
    if Index(v, k) < (64 - k) * Pow2(k) {
      BoundsOrdered(Index(v, k), (64 - k) * Pow2(k), Pow2(k));
    }
  }

  lemma TopBound(k: nat)
    requires k <= 5
    ensures Bound((64 - k) * Pow2(k), Pow2(k)) == Pow2(63)
  {
    BoundAt(63 - k, Pow2(k), 0);
    Pow2Add(63 - k, k);
    assert (63 - k) + k == 63;
  }
}
