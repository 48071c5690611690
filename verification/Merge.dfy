/** The k-way merge of the event streams of several nodes by timestamp. */
module Merge {
  import opened Framing

  type Files = seq<seq<DecodedEvent>>

  /** The head of one file's remaining events. */
  datatype Cursor = Cursor(file: nat, event: nat, timestamp: nat)

  // ---------- what a merge is ----------

  /** How often `f` occurs in `trace`. */
  function Cnt(trace: seq<nat>, f: nat): nat {
    if |trace| == 0 then 0
    else Cnt(trace[..|trace| - 1], f) + (if trace[|trace| - 1] == f then 1 else 0)
  }

  ghost predicate Within(files: Files, trace: seq<nat>) {
    forall g :: 0 <= g < |files| ==> Cnt(trace, g) <= |files[g]|
  }

  /** `trace` names, for each emitted event, the file it came from; every file is read in order. */
  ghost predicate Reads(files: Files, trace: seq<nat>, out: seq<DecodedEvent>) {
    && |trace| == |out|
    && Within(files, trace)
    && forall k :: 0 <= k < |trace| ==>
         && trace[k] < |files|
         && Cnt(trace[..k], trace[k]) < |files[trace[k]]|
         && out[k] == files[trace[k]][Cnt(trace[..k], trace[k])]
  }

  /** Every event of every file has been emitted. */
  ghost predicate Complete(files: Files, trace: seq<nat>) {
    forall f :: 0 <= f < |files| ==> Cnt(trace, f) == |files[f]|
  }

  /** No head available at step `k` was older than the event emitted there. */
  ghost predicate GreedyAt(files: Files, trace: seq<nat>, out: seq<DecodedEvent>, k: nat)
    requires k < |trace| && k < |out|
  {
    forall f :: 0 <= f < |files| && Cnt(trace[..k], f) < |files[f]| ==>
      out[k].timestamp <= files[f][Cnt(trace[..k], f)].timestamp
  }

  ghost predicate Greedy(files: Files, trace: seq<nat>, out: seq<DecodedEvent>)
    requires |trace| == |out|
  {
    forall k :: 0 <= k < |out| ==> GreedyAt(files, trace, out, k)
  }

  predicate Sorted(es: seq<DecodedEvent>) {
    forall i, j :: 0 <= i < j < |es| ==> es[i].timestamp <= es[j].timestamp
  }

  // ---------- counting ----------

  lemma CntAppend(trace: seq<nat>, g: nat, f: nat)
    ensures Cnt(trace + [g], f) == Cnt(trace, f) + (if g == f then 1 else 0)
  {
    assert (trace + [g])[..|trace|] == trace;
  }

  lemma {:induction false} CntMonotone(trace: seq<nat>, k: nat, l: nat, f: nat)
    requires k <= l <= |trace|
    ensures Cnt(trace[..k], f) <= Cnt(trace[..l], f)
    decreases l
  {
    if k < l {
      assert trace[..l][..l - 1] == trace[..l - 1];
      CntMonotone(trace, k, l - 1, f);
    }
  }

  /** The step at which file `f` gave its event number `n`. */
  lemma {:induction false} StepOf(trace: seq<nat>, f: nat, n: nat) returns (k: nat)
    requires n < Cnt(trace, f)
    ensures k < |trace| && trace[k] == f && Cnt(trace[..k], f) == n
    decreases |trace|
  {
    var m := |trace| - 1;
    if n < Cnt(trace[..m], f) {
      k := StepOf(trace[..m], f, n);
      assert trace[..m][..k] == trace[..k];
    } else {
      k := m;
    }
  }

  function Remaining(files: Files, trace: seq<nat>, n: nat): int
    requires n <= |files|
  {
    if n == 0 then 0 else Remaining(files, trace, n - 1) + |files[n - 1]| - Cnt(trace, n - 1)
  }

  lemma {:induction false} RemainingStep(files: Files, trace: seq<nat>, f: nat, n: nat)
    requires n <= |files|
    ensures Remaining(files, trace + [f], n) == Remaining(files, trace, n) - (if f < n then 1 else 0)
  {
    if n > 0 {
      RemainingStep(files, trace, f, n - 1);
      CntAppend(trace, f, n - 1);
    }
  }

  lemma {:induction false} RemainingNonNegative(files: Files, trace: seq<nat>, n: nat)
    requires n <= |files| && Within(files, trace)
    ensures Remaining(files, trace, n) >= 0
  {
    if n > 0 {
      RemainingNonNegative(files, trace, n - 1);
    }
  }

  // ---------- the queue ----------

  /** The queue holds one cursor, at its next event, for every file with events left, and no other. */
  ghost predicate Heads(files: Files, trace: seq<nat>, q: seq<Cursor>) {
    && (forall i :: 0 <= i < |q| ==> HeadOk(files, trace, q[i]))
    && (forall i, j :: 0 <= i < j < |q| ==> q[i].file != q[j].file)
    && (forall f :: 0 <= f < |files| && Cnt(trace, f) < |files[f]| ==> exists i :: 0 <= i < |q| && q[i].file == f)
  }

  ghost predicate HeadOk(files: Files, trace: seq<nat>, c: Cursor) {
    && c.file < |files| && c.event == Cnt(trace, c.file) && c.event < |files[c.file]|
    && c.timestamp == files[c.file][c.event].timestamp
  }

  /** Some cursor of least timestamp; which one among equals is left open. */
  method TopIndex(q: seq<Cursor>) returns (m: nat)
    requires |q| > 0
    ensures m < |q| && forall i :: 0 <= i < |q| ==> q[m].timestamp <= q[i].timestamp
  {
    m := 0;
    for i := 0 to |q|
      invariant m < |q|
      invariant forall j :: 0 <= j < i ==> q[m].timestamp <= q[j].timestamp
    {
      if q[i].timestamp < q[m].timestamp {
        m := i;
      }
    }
  }

  lemma TopIsGreedy(files: Files, trace: seq<nat>, q: seq<Cursor>, m: nat, f: nat)
    requires Heads(files, trace, q) && m < |q|
    requires forall i :: 0 <= i < |q| ==> q[m].timestamp <= q[i].timestamp
    requires f < |files| && Cnt(trace, f) < |files[f]|
    ensures q[m].timestamp <= files[f][Cnt(trace, f)].timestamp
  {
    var i :| 0 <= i < |q| && q[i].file == f;
    assert HeadOk(files, trace, q[i]);
  }

  function Popped(q: seq<Cursor>, m: nat): seq<Cursor>
    requires m < |q|
  {
    q[..m] + q[m + 1..]
  }

  function Pushed(files: Files, q: seq<Cursor>, c: Cursor): seq<Cursor>
    requires c.file < |files|
  {
    if c.event + 1 < |files[c.file]|
    then q + [Cursor(c.file, c.event + 1, files[c.file][c.event + 1].timestamp)]
    else q
  }

  lemma PoppedAt(q: seq<Cursor>, m: nat, i: nat)
    requires m < |q| && i < |q| - 1
    ensures Popped(q, m)[i] == if i < m then q[i] else q[i + 1]
  {
  }

  lemma HeadStays(files: Files, trace: seq<nat>, c: Cursor, g: nat)
    requires HeadOk(files, trace, c) && c.file != g
    ensures HeadOk(files, trace + [g], c)
  {
    CntAppend(trace, g, c.file);
  }

  lemma HeadsOkStep(files: Files, trace: seq<nat>, q: seq<Cursor>, m: nat, i: nat)
    requires Heads(files, trace, q) && m < |q| && HeadOk(files, trace, q[m])
    requires i < |Pushed(files, Popped(q, m), q[m])|
    ensures HeadOk(files, trace + [q[m].file], Pushed(files, Popped(q, m), q[m])[i])
    ensures i < |q| - 1 ==> Pushed(files, Popped(q, m), q[m])[i].file != q[m].file
    ensures i >= |q| - 1 ==> Pushed(files, Popped(q, m), q[m])[i].file == q[m].file
  {
    var c := q[m];
    if i < |q| - 1 {
      PoppedAt(q, m, i);
      var j := if i < m then i else i + 1;
      assert q[j].file != c.file;
      assert HeadOk(files, trace, q[j]);
      HeadStays(files, trace, q[j], c.file);
    } else {
      CntAppend(trace, c.file, c.file);
    }
  }

  lemma HeadsDistinctStep(files: Files, trace: seq<nat>, q: seq<Cursor>, m: nat)
    requires Heads(files, trace, q) && m < |q| && HeadOk(files, trace, q[m])
    ensures var q' := Pushed(files, Popped(q, m), q[m]);
            forall i, j :: 0 <= i < j < |q'| ==> q'[i].file != q'[j].file
  {
    var q' := Pushed(files, Popped(q, m), q[m]);
    forall i, j | 0 <= i < j < |q'|
      ensures q'[i].file != q'[j].file
    {
      HeadsOkStep(files, trace, q, m, i);
      HeadsOkStep(files, trace, q, m, j);
      if j < |q| - 1 {
        PoppedAt(q, m, i);
        PoppedAt(q, m, j);
      }
    }
  }

  lemma HeadsCoverStep(files: Files, trace: seq<nat>, q: seq<Cursor>, m: nat, f: nat)
    requires Heads(files, trace, q) && m < |q| && HeadOk(files, trace, q[m])
    requires f < |files| && Cnt(trace + [q[m].file], f) < |files[f]|
    ensures var q' := Pushed(files, Popped(q, m), q[m]);
            exists i :: 0 <= i < |q'| && q'[i].file == f
  {
    var c, q' := q[m], Pushed(files, Popped(q, m), q[m]);
    CntAppend(trace, c.file, f);
    if f == c.file {
      assert q'[|q| - 1].file == f;
    } else {
      var i :| 0 <= i < |q| && q[i].file == f;
      var j := if i < m then i else i - 1;
      PoppedAt(q, m, j);
      assert q'[j].file == f;
    }
  }

  lemma HeadsStep(files: Files, trace: seq<nat>, q: seq<Cursor>, m: nat)
    requires Heads(files, trace, q) && m < |q| && HeadOk(files, trace, q[m])
    ensures Heads(files, trace + [q[m].file], Pushed(files, Popped(q, m), q[m]))
  {
    var trace', q' := trace + [q[m].file], Pushed(files, Popped(q, m), q[m]);
    forall i | 0 <= i < |q'|
      ensures HeadOk(files, trace', q'[i])
    {
      HeadsOkStep(files, trace, q, m, i);
    }
    HeadsDistinctStep(files, trace, q, m);
    forall f | 0 <= f < |files| && Cnt(trace', f) < |files[f]|
      ensures exists i :: 0 <= i < |q'| && q'[i].file == f
    {
      HeadsCoverStep(files, trace, q, m, f);
    }
  }

  lemma ReadsStep(files: Files, trace: seq<nat>, out: seq<DecodedEvent>, f: nat)
    requires Reads(files, trace, out) && f < |files| && Cnt(trace, f) < |files[f]|
    ensures Reads(files, trace + [f], out + [files[f][Cnt(trace, f)]])
  {
    var trace', out' := trace + [f], out + [files[f][Cnt(trace, f)]];
    forall g | 0 <= g < |files|
      ensures Cnt(trace', g) <= |files[g]|
    {
      CntAppend(trace, f, g);
    }
    forall k | 0 <= k < |trace'|
      ensures trace'[k] < |files| && Cnt(trace'[..k], trace'[k]) < |files[trace'[k]]|
              && out'[k] == files[trace'[k]][Cnt(trace'[..k], trace'[k])]
    {
      assert trace'[..k] == trace[..k];
      assert k == |trace| ==> trace[..k] == trace;
    }
  }

  lemma GreedyStep(files: Files, trace: seq<nat>, out: seq<DecodedEvent>, f: nat, e: DecodedEvent)
    requires |trace| == |out| && Greedy(files, trace, out)
    requires forall g :: 0 <= g < |files| && Cnt(trace, g) < |files[g]| ==>
               e.timestamp <= files[g][Cnt(trace, g)].timestamp
    ensures Greedy(files, trace + [f], out + [e])
  {
    var trace', out' := trace + [f], out + [e];
    forall k | 0 <= k < |out'|
      ensures GreedyAt(files, trace', out', k)
    {
      assert trace'[..k] == trace[..k];
      if k < |out| {
        assert GreedyAt(files, trace, out, k);
      } else {
        assert trace[..k] == trace;
      }
    }
  }

  /** The first loop of the merge: one cursor per file that has events. */
  method InitialQueue(files: Files) returns (q: seq<Cursor>)
    ensures Heads(files, [], q)
  {
    q := [];
    for f := 0 to |files|
      invariant forall i :: 0 <= i < |q| ==> HeadOk(files, [], q[i]) && q[i].file < f
      invariant forall i, j :: 0 <= i < j < |q| ==> q[i].file != q[j].file
      invariant forall g :: 0 <= g < f && 0 < |files[g]| ==> exists i :: 0 <= i < |q| && q[i].file == g
    {
      ghost var q0 := q;
      if |files[f]| > 0 {
        q := q + [Cursor(f, 0, files[f][0].timestamp)];
        assert q[|q0|].file == f;
      }
      forall g | 0 <= g < f + 1 && 0 < |files[g]|
        ensures exists i :: 0 <= i < |q| && q[i].file == g
      {
        if g < f {
          var i :| 0 <= i < |q0| && q0[i].file == g;
          assert q[i].file == g;
        }
      }
    }
  }

  /** What holds each time the queue is inspected. */
  ghost predicate Merging(files: Files, trace: seq<nat>, q: seq<Cursor>, out: seq<DecodedEvent>) {
    && Heads(files, trace, q) && Reads(files, trace, out) && Greedy(files, trace, out)
    && Remaining(files, trace, |files|) >= 0
  }

  lemma MergingStep(files: Files, trace: seq<nat>, q: seq<Cursor>, out: seq<DecodedEvent>, m: nat)
    requires Merging(files, trace, q, out) && m < |q|
    requires forall i :: 0 <= i < |q| ==> q[m].timestamp <= q[i].timestamp
    ensures HeadOk(files, trace, q[m])
    ensures var c := q[m];
            && Merging(files, trace + [c.file], Pushed(files, Popped(q, m), c), out + [files[c.file][c.event]])
            && Remaining(files, trace + [c.file], |files|) < Remaining(files, trace, |files|)
  {
    var c := q[m];
    assert HeadOk(files, trace, q[m]);
    forall f | 0 <= f < |files| && Cnt(trace, f) < |files[f]|
      ensures files[c.file][c.event].timestamp <= files[f][Cnt(trace, f)].timestamp
    {
      TopIsGreedy(files, trace, q, m, f);
    }
    HeadsStep(files, trace, q, m);
    ReadsStep(files, trace, out, c.file);
    GreedyStep(files, trace, out, c.file, files[c.file][c.event]);
    RemainingStep(files, trace, c.file, |files|);
    RemainingNonNegative(files, trace + [c.file], |files|);
  }

  lemma MergingDone(files: Files, trace: seq<nat>, out: seq<DecodedEvent>)
    requires Merging(files, trace, [], out)
    ensures Complete(files, trace)
  {
  }

  /** Take the cursor out, and put its file back at the next event if there is one. */
  method Advance(files: Files, q: seq<Cursor>, m: nat) returns (q': seq<Cursor>)
    requires m < |q| && q[m].file < |files|
    ensures q' == Pushed(files, Popped(q, m), q[m])
  {
    var cur := q[m];
    q' := q[..m] + q[m + 1..];
    if cur.event + 1 < |files[cur.file]| {
      q' := q' + [Cursor(cur.file, cur.event + 1, files[cur.file][cur.event + 1].timestamp)];
    }
  }

  /** `merge_and_dump_events`, returning what it prints. */
  method MergeEvents(files: Files) returns (out: seq<DecodedEvent>)
    ensures multiset(out) == AllOf(files, |files|)
    ensures Sorted(out) <==> forall f :: 0 <= f < |files| ==> Sorted(files[f])
    ensures exists trace: seq<nat> :: Reads(files, trace, out) && Complete(files, trace) && Greedy(files, trace, out)
  {
    hide AllOf, Sorted;
    var q := InitialQueue(files);
    ghost var trace: seq<nat> := [];
    out := [];
    RemainingNonNegative(files, trace, |files|);
    while |q| > 0
      invariant Merging(files, trace, q, out)
      decreases Remaining(files, trace, |files|)
    {
      var m := TopIndex(q);
      var cur := q[m];
      MergingStep(files, trace, q, out, m);
      out, trace := out + [files[cur.file][cur.event]], trace + [cur.file];
      q := Advance(files, q, m);
    }
    assert q == [];
    MergingDone(files, trace, out);
    MergeIsPermutation(files, trace, out);
    MergeSortedIff(files, trace, out);
  }

  // ---------- what a merge guarantees ----------

  lemma FileOrder(files: Files, trace: seq<nat>, out: seq<DecodedEvent>, f: nat, i: nat, j: nat)
    requires Reads(files, trace, out) && Complete(files, trace) && Sorted(out)
    requires f < |files| && i < j < |files[f]|
    ensures files[f][i].timestamp <= files[f][j].timestamp
  {
    var k := StepOf(trace, f, i);
    var l := StepOf(trace, f, j);
    if l <= k {
      CntMonotone(trace, l, k, f);
    }
  }

  lemma OutOrder(files: Files, trace: seq<nat>, out: seq<DecodedEvent>, k: nat, l: nat)
    requires Reads(files, trace, out) && Greedy(files, trace, out) && k < l < |out|
    requires trace[l] < |files| && Sorted(files[trace[l]])
    ensures out[k].timestamp <= out[l].timestamp
  {
    CntMonotone(trace, k, l, trace[l]);
    assert GreedyAt(files, trace, out, k);
  }

  /** The output is in timestamp order if and only if every input file is. */
  lemma MergeSortedIff(files: Files, trace: seq<nat>, out: seq<DecodedEvent>)
    requires Reads(files, trace, out) && Complete(files, trace) && Greedy(files, trace, out)
    ensures Sorted(out) <==> forall f :: 0 <= f < |files| ==> Sorted(files[f])
  {
    if Sorted(out) {
      forall f | 0 <= f < |files|
        ensures Sorted(files[f])
      {
        forall i, j | 0 <= i < j < |files[f]|
          ensures files[f][i].timestamp <= files[f][j].timestamp
        {
          FileOrder(files, trace, out, f, i, j);
        }
      }
    }
    if forall f :: 0 <= f < |files| ==> Sorted(files[f]) {
      forall k, l | 0 <= k < l < |out|
        ensures out[k].timestamp <= out[l].timestamp
      {
        OutOrder(files, trace, out, k, l);
      }
    }
  }

  /** The events of the first `n` files that `trace` has read. */
  ghost function Taken(files: Files, trace: seq<nat>, n: nat): multiset<DecodedEvent>
    requires n <= |files| && Within(files, trace)
  {
    if n == 0 then multiset{} else Taken(files, trace, n - 1) + multiset(files[n - 1][..Cnt(trace, n - 1)])
  }

  function AllOf(files: Files, n: nat): multiset<DecodedEvent>
    requires n <= |files|
  {
    if n == 0 then multiset{} else AllOf(files, n - 1) + multiset(files[n - 1])
  }

  lemma GrowLeft<T>(a: multiset<T>, b: multiset<T>, x: T)
    ensures (a + multiset{x}) + b == (a + b) + multiset{x}
  {
  }

  lemma GrowRight<T>(a: multiset<T>, b: multiset<T>, x: T)
    ensures a + (b + multiset{x}) == (a + b) + multiset{x}
  {
  }

  lemma PrefixGrows<T>(s: seq<T>, i: nat)
    requires i < |s|
    ensures multiset(s[..i + 1]) == multiset(s[..i]) + multiset{s[i]}
  {
    assert s[..i + 1] == s[..i] + [s[i]];
  }

  lemma {:induction false} TakenSame(files: Files, trace: seq<nat>, f: nat, n: nat)
    requires n <= f < |files| && Within(files, trace) && Within(files, trace + [f])
    ensures Taken(files, trace + [f], n) == Taken(files, trace, n)
  {
    if n > 0 {
      TakenSame(files, trace, f, n - 1);
      CntAppend(trace, f, n - 1);
    }
  }

  lemma {:induction false} TakenStep(files: Files, trace: seq<nat>, f: nat, n: nat)
    requires f < n <= |files| && Within(files, trace) && Within(files, trace + [f])
    requires Cnt(trace, f) < |files[f]|
    ensures Taken(files, trace + [f], n) == Taken(files, trace, n) + multiset{files[f][Cnt(trace, f)]}
  {
    hide Cnt;
    CntAppend(trace, f, n - 1);
    var x := files[f][Cnt(trace, f)];
    var a, b := Taken(files, trace, n - 1), multiset(files[n - 1][..Cnt(trace, n - 1)]);
    if f == n - 1 {
      TakenSame(files, trace, f, n - 1);
      PrefixGrows(files[f], Cnt(trace, f));
      GrowRight(a, b, x);
    } else {
      TakenStep(files, trace, f, n - 1);
      GrowLeft(a, b, x);
    }
  }

  lemma {:induction false} TakenNone(files: Files, n: nat)
    requires n <= |files|
    ensures Taken(files, [], n) == multiset{}
  {
    if n > 0 {
      TakenNone(files, n - 1);
      assert files[n - 1][..0] == [];
    }
  }

  lemma {:induction false} TakenAll(files: Files, trace: seq<nat>, n: nat)
    requires n <= |files| && Complete(files, trace)
    ensures Taken(files, trace, n) == AllOf(files, n)
  {
    if n > 0 {
      TakenAll(files, trace, n - 1);
      assert files[n - 1][..|files[n - 1]|] == files[n - 1];
    }
  }

  lemma ReadsPrefix(files: Files, trace: seq<nat>, out: seq<DecodedEvent>)
    requires Reads(files, trace, out) && |trace| > 0
    ensures Reads(files, trace[..|trace| - 1], out[..|out| - 1])
  {
    hide Cnt;
    var m := |trace| - 1;
    forall f | 0 <= f < |files|
      ensures Cnt(trace[..m], f) <= |files[f]|
    {
      assert trace[..|trace|] == trace;
      CntMonotone(trace, m, |trace|, f);
    }
    forall k | 0 <= k < m
      ensures Cnt(trace[..m][..k], trace[k]) < |files[trace[k]]|
              && out[k] == files[trace[k]][Cnt(trace[..m][..k], trace[k])]
    {
      assert trace[..m][..k] == trace[..k];
    }
  }

  lemma SplitLast<T>(s: seq<T>)
    requires |s| > 0
    ensures s == s[..|s| - 1] + [s[|s| - 1]]
  {
  }

  lemma {:induction false} ReadsTakes(files: Files, trace: seq<nat>, out: seq<DecodedEvent>)
    requires Reads(files, trace, out)
    ensures multiset(out) == Taken(files, trace, |files|)
    decreases |trace|
  {
    if |trace| == 0 {
      TakenNone(files, |files|);
      assert trace == [];
    } else {
      var m := |trace| - 1;
      ReadsPrefix(files, trace, out);
      ReadsTakes(files, trace[..m], out[..m]);
      SplitLast(trace);
      SplitLast(out);
      assert multiset(out) == multiset(out[..m]) + multiset{out[m]};
      TakenStep(files, trace[..m], trace[m], |files|);
    }
  }

  /** Every event of every file is printed exactly once. */
  lemma MergeIsPermutation(files: Files, trace: seq<nat>, out: seq<DecodedEvent>)
    requires Reads(files, trace, out) && Complete(files, trace)
    ensures multiset(out) == AllOf(files, |files|)
  {
    ReadsTakes(files, trace, out);
    TakenAll(files, trace, |files|);
  }
}
