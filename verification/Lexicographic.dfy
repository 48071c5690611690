/** Dictionary order of sequences of numbers, by the first place where two of them differ. */
module Lexicographic {

  /** The sequences differ first at `k`, where `s` has the smaller number. */
  predicate BelowAt(s: seq<int>, t: seq<int>, k: nat) {
    k < |s| && k < |t| && s[..k] == t[..k] && s[k] < t[k]
  }

  ghost predicate Below(s: seq<int>, t: seq<int>) {
    exists k: nat :: BelowAt(s, t, k)
  }

  lemma OneWayAt(s: seq<int>, t: seq<int>, k: nat, l: nat)
    requires BelowAt(s, t, k)
    ensures !BelowAt(t, s, l)
  {
    if l < k {
      assert s[..k][l] == t[..k][l];
    } else if k < l && l < |s| && l < |t| {
      assert s[..l][k] == s[k] && t[..l][k] == t[k];
    }
  }

  lemma BelowOneWay(s: seq<int>, t: seq<int>)
    ensures Below(s, t) ==> s != t && !Below(t, s)
  {
    hide BelowAt;
    if k: nat :| BelowAt(s, t, k) {
      OneWayAt(s, t, k, k);
      forall l: nat
        ensures !BelowAt(t, s, l)
      {
        OneWayAt(s, t, k, l);
      }
    }
  }

  /** What follows a difference does not matter. */
  lemma BelowLonger(s: seq<int>, t: seq<int>, u: seq<int>, v: seq<int>)
    requires Below(s, t)
    ensures Below(s + u, t + v)
  {
    var k: nat :| BelowAt(s, t, k);
    assert (s + u)[..k] == s[..k] && (t + v)[..k] == t[..k];
    assert BelowAt(s + u, t + v, k);
  }

  /** Behind an equal beginning the rest decides. */
  lemma BelowBehind(s: seq<int>, u: seq<int>, v: seq<int>)
    requires Below(u, v)
    ensures Below(s + u, s + v)
  {
    var k: nat :| BelowAt(u, v, k);
    var n := |s| + k;
    assert (s + u)[..n] == s + u[..k] && (s + v)[..n] == s + v[..k];
    assert BelowAt(s + u, s + v, n);
  }
}
