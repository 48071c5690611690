/** Counting values into a histogram and printing it: the generated search for the leading bit, the
    labels, the trimming to the buckets in use, and what is conserved on the way. */
module HistogramOutput {
  import opened Options
  import opened Words
  import opened Histogram

  // ---------- the search for the leading bit ----------

  /** Halving the remaining width keeps the quotient between its bounds. */
  lemma HalfStep(v: nat, w: nat, n: nat, t: nat)
    requires w > 0 && t > 0 && w * n <= v < w * (n + 1) && t <= n < t * t
    ensures 1 <= n / t < t && (w * t) * (n / t) <= v < (w * t) * (n / t + 1)
  {
    var q := n / t;
    Floor(n, t);
    LessTimes(t, t, q);
    LessTimes(t, q + 1, 1);
    LessTimes(w, t * q, n);
    LessTimes(w, n + 1, t * (q + 1));
    MulAssoc(w, t, q);
    MulAssoc(w, t, q + 1);
  }

  function Shifted(v: nat, p: nat): (q: nat)
    requires p > 0
  {
    v / p
  }

  /** `n` is `v` without its last `l` bits, and has fewer than `2^i` bits left. */
  ghost predicate Narrowed(v: nat, n: nat, l: nat, i: nat) {
    0 < n < Pow2(Pow2(i)) && Pow2(l) * n <= v < Pow2(l) * (n + 1)
  }

  lemma NarrowedFirst(v: nat)
    requires 0 < v < Pow2(63)
    ensures Narrowed(v, v, 0, 6)
  {
    assert Pow2(6) == 64;
    Pow2Order(63, 64);
  }

  lemma NarrowedNext(v: nat, n: nat, l: nat, i: nat)
    requires Narrowed(v, n, l, i + 1)
    ensures var t := Pow2(Pow2(i));
      if n >= t then Narrowed(v, Shifted(n, t), l + Pow2(i), i) else Narrowed(v, n, l, i)
  {
    var t := Pow2(Pow2(i));
    Pow2Add(Pow2(i), Pow2(i));
    assert Pow2(i + 1) == Pow2(i) + Pow2(i);
    if n >= t {
      HalfStep(v, Pow2(l), n, t);
      Pow2Add(l, Pow2(i));
    }
  }

  lemma NarrowedLast(v: nat, n: nat, l: nat)
    requires Narrowed(v, n, l, 0)
    ensures v > 0 && Log(v) == l
  {
    assert Pow2(Pow2(0)) == 2 * Pow2(0);
    assert n == 1;
    LogIs(v, l);
  }

  method LeadingBit(v: nat) returns (l: nat)
    requires 0 < v < Pow2(63)
    ensures l == Log(v)
  {
    hide Pow2, Narrowed;
    var n, i := v, 6;
    l := 0;
    NarrowedFirst(v);
    while i > 0
      invariant Narrowed(v, n, l, i)
    {
      i := i - 1;
      NarrowedNext(v, n, l, i);
      var threshold := Pow2(Pow2(i));
      if n >= threshold {
        n := Shifted(n, threshold);
        l := l + Pow2(i);
      }
    }
    NarrowedLast(v, n, l);
  }

  method Log2(v: int, k: nat) returns (index: nat)
    requires v < Pow2(63) && k <= 5
    ensures index == Index(v, k)
  {
    hide Pow2, Log, And;
    if v < 0 {
      return 0;
    }
    var mask := Pow2(k) - 1;
    if v <= mask {
      return v + 1;
    }
    var bit := LeadingBit(v);
    EnoughBits(v, k);
    var l := bit - k;
    AndOnes(Shifted(v, Pow2(l)), k);
    var x := And(Shifted(v, Pow2(l)), mask);
    index := (l + 1) * Pow2(k) + x + 1;
  }

  // ---------- labels ----------

  /** The number printed, the suffix as a power of 1024, and the number meant. */
  datatype Label = Label(number: nat, decade: nat, value: nat)

  function IndexLabel(i: nat, n: nat): Label
    requires n > 0 && i >= n
  {
    Quotients(i, n);
    var power := i / n - 1;
    var decade := power / 10;
    Label(Pow2(power - 10 * decade) * (n + i % n), decade, Pow2(power) * (n + i % n))
  }

  function LabelOf(i: nat, n: nat): Label
    requires n > 0
  {
    if i <= 2 * n then Label(i, 0, i) else IndexLabel(i, n)
  }

  function Kilo(d: nat): nat {
    if d == 0 then 1 else 1024 * Kilo(d - 1)
  }

  lemma {:induction false} KiloIsPow2(d: nat)
    ensures Kilo(d) == Pow2(10 * d)
  {
    if d > 0 {
      KiloIsPow2(d - 1);
      Pow2Add(10, 10 * (d - 1));
      assert Pow2(10) == 1024;
    }
  }

  /** The printed number times its suffix is the bound of the bucket. */
  lemma PrintedIsBound(i: nat, n: nat)
    requires n > 0
    ensures var shown := LabelOf(i, n);
      shown.value == Bound(i, n) && shown.number * Kilo(shown.decade) == shown.value
  {
    if i > 2 * n {
      Quotients(i, n);
      var power := i / n - 1;
      var decade := power / 10;
      KiloIsPow2(decade);
      Pow2Add(power - 10 * decade, 10 * decade);
      Reorder(Pow2(power - 10 * decade), n + i % n, Pow2(10 * decade));
    }
  }

  lemma SmallPower(e: nat)
    requires e < 10
    ensures 1 <= Pow2(e) <= 512
  {
    assert Pow2(9) == 512;
    Pow2Order(e, 9);
    Pow2Order(0, e);
  }

  /** Above twice the number of buckets per power, the suffix is the largest that leaves a number not below it. */
  lemma SuffixIsLargest(i: nat, n: nat)
    requires n > 0 && i > 2 * n
    ensures n <= LabelOf(i, n).number < 1024 * n
  {
    hide Pow2;
    Quotients(i, n);
    var power := i / n - 1;
    var e := power - 10 * (power / 10);
    SmallPower(e);
    var x := n + i % n;
    LessTimes(x, 1, Pow2(e));
    LessTimes(x, Pow2(e), 512);
    assert Pow2(e) * x == x * Pow2(e);
    assert i % n < n;
  }

  lemma Reorder(a: nat, b: nat, c: nat)
    ensures (a * b) * c == (a * c) * b
  {
  }

  /** For every bucket a 64-bit value can be counted in, the numbers stay below 2^64 and the suffix is
      one of the seven there are. */
  lemma LabelFits(v: int, k: nat)
    requires v < Pow2(63) && k <= 5
    ensures var shown := LabelOf(Index(v, k), Pow2(k));
      shown.value < Pow2(64) && shown.number <= shown.value && shown.decade <= 6
  {
    hide Pow2, Index, Bound;
    var i, n := Index(v, k), Pow2(k);
    InsideTable(v, k);
    Pow2Order(63, 64);
    PrintedIsBound(i, n);
    KiloPositive(LabelOf(i, n).number, LabelOf(i, n).decade);
    IndexLimit(v, k);
    if i > 2 * n {
      DecadeLimit(i, n, k);
    }
  }

  lemma KiloPositive(x: nat, d: nat)
    ensures x <= x * Kilo(d)
  {
    KiloIsPow2(d);
    LessTimes(x, 1, Kilo(d));
  }

  lemma DecadeLimit(i: nat, n: nat, k: nat)
    requires n > 0 && k <= 5 && n <= i <= (64 - k) * n
    ensures i / n <= 64
  {
    Floor(i, n);
    LessTimes(n, 65, i / n);
    LessTimes(n, 64 - k, 64);
    assert (64 - k) * n == n * (64 - k);
  }

  // ---------- trimming ----------

  /** `int v = count`: the low 32 bits, as a signed number. */
  function Narrow(count: nat): int {
    var low := count % 0x1_0000_0000;
    if low < 0x8000_0000 then low else low - 0x1_0000_0000
  }

  /** The number of 32 bits, with a sign, that agrees with the count in these bits. */
  lemma NarrowIs(count: nat)
    ensures -0x8000_0000 <= Narrow(count) < 0x8000_0000 && (count - Narrow(count)) % 0x1_0000_0000 == 0
  {
  }

  predicate Visible(count: nat) {
    Narrow(count) > 0
  }

  lemma SmallIsVisible(count: nat)
    requires count < 0x8000_0000
    ensures Visible(count) <==> count > 0
  {
  }

  method Indices(values: seq<nat>) returns (lo: int, hi: int)
    ensures -1 <= lo <= hi < |values| && (lo == -1 <==> hi == -1)
    ensures lo == -1 ==> forall i :: 0 <= i < |values| ==> !Visible(values[i])
    ensures lo >= 0 ==> Visible(values[lo]) && Visible(values[hi])
    ensures lo >= 0 ==> forall i :: 0 <= i < lo || hi < i < |values| ==> !Visible(values[i])
  {
    lo, hi := -1, -1;
    for n := 0 to |values|
      invariant -1 <= lo <= hi < n && (lo == -1 <==> hi == -1)
      invariant lo == -1 ==> forall i :: 0 <= i < n ==> !Visible(values[i])
      invariant lo >= 0 ==> Visible(values[lo]) && Visible(values[hi])
      invariant lo >= 0 ==> forall i :: 0 <= i < lo || hi < i < n ==> !Visible(values[i])
    {
      if Narrow(values[n]) > 0 {
        if lo == -1 {
          lo := n;
        }
        hi := n;
      }
    }
  }

  datatype Hist = Hist(lower: Option<Label>, labels: seq<Label>, counts: seq<nat>)

  /** `hist` shows the buckets from `lo` to `hi`, each with its bounds. */
  ghost predicate Shows(hist: Hist, values: seq<nat>, div: nat, n: nat, lo: nat, hi: nat)
    requires n > 0 && div > 0 && lo <= hi < |values|
  {
    && hist.lower == (if lo == 0 then None else Some(LabelOf(lo - 1, n)))
    && |hist.labels| == |hist.counts| == hi + 1 - lo
    && forall j :: 0 <= j <= hi - lo ==> hist.labels[j] == LabelOf(lo + j, n) && hist.counts[j] == values[lo + j] / div
  }

  ghost predicate Trims(values: seq<nat>, lo: nat, hi: nat) {
    && lo <= hi < |values| && Visible(values[lo]) && Visible(values[hi])
    && forall i :: 0 <= i < lo || hi < i < |values| ==> !Visible(values[i])
  }

  ghost predicate Built(hist: Hist, values: seq<nat>, div: nat, n: nat)
    requires n > 0 && div > 0
  {
    if forall i :: 0 <= i < |values| ==> !Visible(values[i]) then hist == Hist(None, [], [])
    else exists lo: nat, hi: nat :: Trims(values, lo, hi) && Shows(hist, values, div, n, lo, hi)
  }

  method BuildHistogram(values: seq<nat>, div: nat, n: nat) returns (hist: Hist)
    requires n > 0 && div > 0
    ensures Built(hist, values, div, n)
  {
    hide LabelOf, Visible;
    var lo, hi := Indices(values);
    if lo == -1 {
      return Hist(None, [], []);
    }
    var lower := None;
    if lo != 0 {
      lower := Some(LabelOf(lo - 1, n));
    }
    var labels, counts := Rows(values, div, n, lo, hi);
    hist := Hist(lower, labels, counts);
    assert Trims(values, lo, hi) && Shows(hist, values, div, n, lo, hi);
  }

  method Rows(values: seq<nat>, div: nat, n: nat, lo: nat, hi: nat) returns (labels: seq<Label>, counts: seq<nat>)
    requires n > 0 && div > 0 && lo <= hi < |values|
    ensures |labels| == |counts| == hi + 1 - lo
    ensures forall j :: 0 <= j <= hi - lo ==> labels[j] == LabelOf(lo + j, n) && counts[j] == values[lo + j] / div
  {
    hide LabelOf;
    labels, counts := [], [];
    for i := lo to hi + 1
      invariant |labels| == |counts| == i - lo
      invariant forall j :: 0 <= j < i - lo ==> labels[j] == LabelOf(lo + j, n) && counts[j] == values[lo + j] / div
    {
      labels := labels + [LabelOf(i, n)];
      counts := counts + [values[i] / div];
    }
  }

  // ---------- conservation ----------

  function Sum(s: seq<nat>): nat {
    if |s| == 0 then 0 else s[0] + Sum(s[1..])
  }

  lemma {:induction false} SumConcat(s: seq<nat>, t: seq<nat>)
    ensures Sum(s + t) == Sum(s) + Sum(t)
  {
    if |s| == 0 {
      assert s + t == t;
    } else {
      assert (s + t)[1..] == s[1..] + t;
      SumConcat(s[1..], t);
    }
  }

  ghost predicate AllZero(s: seq<nat>) {
    forall i :: 0 <= i < |s| ==> s[i] == 0
  }

  lemma {:induction false} SumZero(s: seq<nat>)
    ensures Sum(s) == 0 <==> AllZero(s)
  {
    if |s| > 0 {
      SumZero(s[1..]);
      assert forall i :: 0 < i < |s| ==> s[i] == s[1..][i - 1];
    }
  }

  lemma SumParts(s: seq<nat>, lo: nat, hi: nat)
    requires lo <= hi <= |s|
    ensures Sum(s) == Sum(s[..lo]) + Sum(s[lo..hi]) + Sum(s[hi..])
  {
    hide Sum;
    Rejoin(s, lo, hi);
    SumConcat(s[..lo], s[lo..hi] + s[hi..]);
    SumConcat(s[lo..hi], s[hi..]);
  }

  lemma Rejoin(s: seq<nat>, lo: nat, hi: nat)
    requires lo <= hi <= |s|
    ensures s == s[..lo] + (s[lo..hi] + s[hi..])
  {
  }

  ghost predicate ZeroOutside(values: seq<nat>, lo: nat, hi: nat) {
    forall i :: 0 <= i < lo <= |values| || hi < i < |values| ==> values[i] == 0
  }

  lemma PartOnlyIff(values: seq<nat>, lo: nat, hi: nat)
    requires lo <= hi < |values|
    ensures Sum(values[lo..hi + 1]) == Sum(values) <==> ZeroOutside(values, lo, hi)
  {
    hide Sum;
    SumParts(values, lo, hi + 1);
    SumZero(values[..lo]);
    SumZero(values[hi + 1..]);
    OutsideIff(values, lo, hi);
  }

  lemma OutsideIff(values: seq<nat>, lo: nat, hi: nat)
    requires lo <= hi < |values|
    ensures ZeroOutside(values, lo, hi) <==> AllZero(values[..lo]) && AllZero(values[hi + 1..])
  {
    var head, tail := values[..lo], values[hi + 1..];
    assert forall i :: hi < i < |values| ==> values[i] == tail[i - hi - 1];
    assert forall i :: 0 <= i < |tail| ==> tail[i] == values[hi + 1 + i];
    assert forall i :: 0 <= i < lo ==> values[i] == head[i];
  }

  /** The counts divided one by one. */
  function Quotient(values: seq<nat>, div: nat): (qs: seq<nat>)
    requires div > 0
    ensures |qs| == |values|
  {
    seq(|values|, i requires 0 <= i < |values| => values[i] / div)
  }

  /** Every count of at least `div` lies between two counts that survive the narrowing to `int` as
      positive numbers. */
  ghost predicate NothingHidden(values: seq<nat>, div: nat) {
    forall i :: 0 <= i < |values| && values[i] >= div ==> Between(values, i)
  }

  ghost predicate Between(values: seq<nat>, i: nat) {
    exists a: nat, b: nat :: a <= i <= b < |values| && Visible(values[a]) && Visible(values[b])
  }

  lemma QuotientZero(x: nat, div: nat)
    requires div > 0
    ensures x / div == 0 <==> x < div
  {
    Floor(x, div);
    if x / div > 0 {
      LessTimes(div, 1, x / div);
    }
  }

  /** The printed counts add up to all counts, divided one by one, exactly when nothing is hidden. */
  lemma ShownIffNothingHidden(hist: Hist, values: seq<nat>, div: nat, n: nat)
    requires n > 0 && div > 0 && Built(hist, values, div, n)
    ensures Sum(hist.counts) == Sum(Quotient(values, div)) <==> NothingHidden(values, div)
  {
    hide Visible, LabelOf, NothingHidden, Sum;
    var qs := Quotient(values, div);
    if forall i :: 0 <= i < |values| ==> !Visible(values[i]) {
      SumZero([]);
      SumZero(qs);
      NoneVisible(values, div);
    } else {
      var lo: nat, hi: nat :| Trims(values, lo, hi) && Shows(hist, values, div, n, lo, hi);
      assert hist.counts == qs[lo..hi + 1];
      PartOnlyIff(qs, lo, hi);
      HiddenIff(values, div, lo, hi);
    }
  }

  lemma NoneVisible(values: seq<nat>, div: nat)
    requires div > 0 && forall i :: 0 <= i < |values| ==> !Visible(values[i])
    ensures NothingHidden(values, div) <==> AllZero(Quotient(values, div))
  {
    hide Visible;
    forall i | 0 <= i < |values|
      ensures Quotient(values, div)[i] == 0 <==> values[i] < div
    {
      QuotientZero(values[i], div);
    }
  }

  lemma BetweenIff(values: seq<nat>, lo: nat, hi: nat, i: nat)
    requires Trims(values, lo, hi) && i < |values|
    ensures Between(values, i) <==> lo <= i <= hi
  {
    hide Visible;
    if Between(values, i) {
      var a: nat, b: nat :| a <= i <= b < |values| && Visible(values[a]) && Visible(values[b]);
      assert lo <= a && b <= hi;
    }
  }

  lemma HiddenIff(values: seq<nat>, div: nat, lo: nat, hi: nat)
    requires div > 0 && lo <= hi < |values| && Trims(values, lo, hi)
    ensures NothingHidden(values, div) <==> ZeroOutside(Quotient(values, div), lo, hi)
  {
    hide Trims, Between;
    forall i | 0 <= i < |values|
      ensures Quotient(values, div)[i] == 0 <==> values[i] < div
      ensures Between(values, i) <==> lo <= i <= hi
    {
      QuotientZero(values[i], div);
      BetweenIff(values, lo, hi, i);
    }
  }

  lemma QuotientOne(values: seq<nat>)
    ensures Quotient(values, 1) == values
  {
    assert forall i :: 0 <= i < |values| ==> Quotient(values, 1)[i] == values[i];
  }

  /** A bucket with exactly 2^31 values, alone, is not shown at all. */
  lemma HiddenBucket(n: nat)
    requires n > 0
    ensures Built(Hist(None, [], []), [0x8000_0000], 1, n) && !NothingHidden([0x8000_0000], 1)
  {
    var values: seq<nat> := [0x8000_0000];
    assert values[0] >= 1 && !Visible(values[0]);
    assert !Between(values, 0);
  }

  // ---------- samples ----------

  function Zeros(n: nat): (s: seq<nat>)
    ensures |s| == n
  {
    seq(n, i => 0)
  }

  ghost predicate Samples(vs: seq<int>) {
    forall i :: 0 <= i < |vs| ==> vs[i] < Pow2(63)
  }

  /** The table after counting the samples one by one. */
  ghost function Table(vs: seq<int>, k: nat): (t: seq<nat>)
    requires k <= 5 && Samples(vs)
    ensures |t| == TABLE
  {
    if |vs| == 0 then Zeros(TABLE)
    else
      var t, v := Table(vs[..|vs| - 1], k), vs[|vs| - 1];
      InsideTable(v, k);
      t[Index(v, k) := t[Index(v, k)] + 1]
  }

  /** The samples in the interval of bucket `i`. */
  ghost function Members(vs: seq<int>, k: nat, i: nat): nat {
    if |vs| == 0 then 0
    else Members(vs[..|vs| - 1], k, i) + if InBucket(vs[|vs| - 1], i, Pow2(k)) then 1 else 0
  }

  /** Each entry of the table is the number of samples between the bounds printed for it. */
  lemma {:induction false} TableCounts(vs: seq<int>, k: nat, i: nat)
    requires k <= 5 && Samples(vs) && i < TABLE
    ensures Table(vs, k)[i] == Members(vs, k, i)
  {
    hide Index, InBucket;
    if |vs| > 0 {
      TableCounts(vs[..|vs| - 1], k, i);
      CountedWhereItBelongs(vs[|vs| - 1], k, i);
      InsideTable(vs[|vs| - 1], k);
    }
  }

  lemma SumUpdate(s: seq<nat>, i: nat, x: nat)
    requires i < |s|
    ensures Sum(s[i := x]) == Sum(s) - s[i] + x
  {
    var t := s[i := x];
    SumParts(s, i, i + 1);
    SumParts(t, i, i + 1);
    assert t[..i] == s[..i] && t[i + 1..] == s[i + 1..];
    assert s[i..i + 1] == [s[i]] && t[i..i + 1] == [x];
    assert Sum([s[i]]) == s[i] && Sum([x]) == x;
  }

  lemma {:induction false} TableSum(vs: seq<int>, k: nat)
    requires k <= 5 && Samples(vs)
    ensures Sum(Table(vs, k)) == |vs|
  {
    hide Index, Sum;
    if |vs| == 0 {
      SumZero(Zeros(TABLE));
    } else {
      var t, v := Table(vs[..|vs| - 1], k), vs[|vs| - 1];
      TableSum(vs[..|vs| - 1], k);
      InsideTable(v, k);
      SumUpdate(t, Index(v, k), t[Index(v, k)] + 1);
    }
  }

  lemma {:induction false} EntryBelowSum(s: seq<nat>, i: nat)
    requires i < |s|
    ensures s[i] <= Sum(s)
  {
    if i > 0 {
      EntryBelowSum(s[1..], i - 1);
    }
  }

  /** Fewer than 2^31 samples below 2^63 are all shown, each once. */
  lemma EverySampleShown(vs: seq<int>, k: nat, hist: Hist)
    requires k <= 5 && Samples(vs) && |vs| < 0x8000_0000
    requires Built(hist, Table(vs, k), 1, Pow2(k))
    ensures Sum(hist.counts) == |vs|
  {
    hide Built, Visible, Table;
    var t := Table(vs, k);
    TableSum(vs, k);
    ShownIffNothingHidden(hist, t, 1, Pow2(k));
    QuotientOne(t);
    forall i | 0 <= i < |t| && t[i] >= 1
      ensures Between(t, i)
    {
      EntryBelowSum(t, i);
      SmallIsVisible(t[i]);
    }
  }
}
