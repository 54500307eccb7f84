/** The most frequent patterns of a log: an in-place exchange sort, then a cut. */
module TopPatterns {

  datatype Pair = Pair(pattern: string, count: int)

  /** The sequence lists every entry of the map exactly once. */
  ghost predicate Lists(patterns: map<string, int>, s: seq<Pair>) {
    && |s| == |patterns|
    && (forall i :: 0 <= i < |s| ==> s[i].pattern in patterns && patterns[s[i].pattern] == s[i].count)
    && (forall i, j :: 0 <= i < j < |s| ==> s[i].pattern != s[j].pattern)
  }

  predicate Descending(s: seq<Pair>) {
    forall i, j :: 0 <= i < j < |s| ==> s[i].count >= s[j].count
  }

  /** The result is a descending prefix, of the right length, of a listing of the map. */
  ghost predicate IsTop(patterns: map<string, int>, limit: nat, out: seq<Pair>) {
    exists all: seq<Pair> ::
      Lists(patterns, all) && Descending(all) && out == if |all| > limit then all[..limit] else all
  }

  method Exchange(a: array<Pair>, i: nat, j: nat, ghost patterns: map<string, int>)
    requires i < j < a.Length && Lists(patterns, a[..])
    modifies a
    ensures Lists(patterns, a[..])
    ensures a[..] == old(a[..])[i := old(a[j])][j := old(a[i])]
  {
    a[i], a[j] := a[j], a[i];
  }

  // The exchange sort: position i is compared with every later position and swapped when smaller.
  method SortDescending(a: array<Pair>, ghost patterns: map<string, int>)
    requires Lists(patterns, a[..])
    modifies a
    ensures Lists(patterns, a[..]) && Descending(a[..])
  {
    var i := 0;
    while i < a.Length
      invariant 0 <= i <= a.Length && Lists(patterns, a[..])
      invariant forall x, y :: 0 <= x < i && x < y < a.Length ==> a[x].count >= a[y].count
    {
      var j := i + 1;
      while j < a.Length
        invariant i < j <= a.Length && Lists(patterns, a[..])
        invariant forall x, y :: 0 <= x < i && x < y < a.Length ==> a[x].count >= a[y].count
        invariant forall y :: i < y < j ==> a[i].count >= a[y].count
      {
        if a[j].count > a[i].count { Exchange(a, i, j, patterns); }
        j := j + 1;
      }
      i := i + 1;
    }
  }

  // Ranges over the map in any order, sorts, and keeps at most `limit` pairs.
  method TopPatterns(patterns: map<string, int>, limit: nat) returns (out: seq<Pair>)
    ensures IsTop(patterns, limit, out)
  {
    var pairs: seq<Pair> := [];
    var rest := patterns;
    while |rest| > 0
      invariant forall k :: k in rest ==> k in patterns && rest[k] == patterns[k]
      invariant forall i :: 0 <= i < |pairs| ==>
                  pairs[i].pattern in patterns && patterns[pairs[i].pattern] == pairs[i].count && pairs[i].pattern !in rest
      invariant forall i, j :: 0 <= i < j < |pairs| ==> pairs[i].pattern != pairs[j].pattern
      invariant |pairs| + |rest| == |patterns|
      decreases |rest|
    {
      var k :| k in rest;
      pairs := pairs + [Pair(k, rest[k])];
      SmallerBy(rest, k);
      rest := rest - {k};
    }
    var a := new Pair[|pairs|](i requires 0 <= i < |pairs| => pairs[i]);
    assert a[..] == pairs;
    SortDescending(a, patterns);
    out := a[..];
    ghost var all := out;
    if |out| > limit { out := out[..limit]; }
    assert Lists(patterns, all) && Descending(all) && out == if |all| > limit then all[..limit] else all;
  }

  lemma SmallerBy(m: map<string, int>, k: string)
    requires k in m
    ensures |m - {k}| == |m| - 1
  {
    assert (m - {k}).Keys == m.Keys - {k};
    assert |(m - {k}).Keys| == |m - {k}| && |m.Keys| == |m|;
  }

  function Counts(s: seq<Pair>): (c: seq<int>)
    ensures |c| == |s|
  {
    seq(|s|, i requires 0 <= i < |s| => s[i].count)
  }

  /** The patterns of the first `n` pairs. */
  function FirstPatterns(s: seq<Pair>, n: nat): set<string>
    requires n <= |s|
  {
    set i | 0 <= i < n :: s[i].pattern
  }

  lemma {:induction false} FirstPatternsSize(s: seq<Pair>, n: nat)
    requires n <= |s| && forall i, j :: 0 <= i < j < |s| ==> s[i].pattern != s[j].pattern
    ensures |FirstPatterns(s, n)| == n
  {
    if n > 0 {
      FirstPatternsSize(s, n - 1);
      assert FirstPatterns(s, n) == FirstPatterns(s, n - 1) + {s[n - 1].pattern};
    }
  }

  /** A listing's patterns are all of the map's. */
  lemma ListingIsOnto(patterns: map<string, int>, s: seq<Pair>)
    requires Lists(patterns, s)
    ensures FirstPatterns(s, |s|) == patterns.Keys
  {
    FirstPatternsSize(s, |s|);
    assert FirstPatterns(s, |s|) <= patterns.Keys;
    SubsetOfSameSize(FirstPatterns(s, |s|), patterns.Keys);
  }

  lemma SubsetOfSameSize(a: set<string>, b: set<string>)
    requires a <= b && |a| == |b|
    ensures a == b
  {
    assert b == a + (b - a);
    assert |b| == |a| + |b - a|;
  }

  /** Of the first i + 1 patterns of one listing, one is not among the first i of another. */
  lemma PatternBeyond(a: seq<Pair>, b: seq<Pair>, i: nat) returns (x: nat)
    requires i < |a| && i <= |b|
    requires forall x, y :: 0 <= x < y < |a| ==> a[x].pattern != a[y].pattern
    requires forall x, y :: 0 <= x < y < |b| ==> b[x].pattern != b[y].pattern
    ensures x <= i && forall y :: 0 <= y < i ==> b[y].pattern != a[x].pattern
  {
    var large, early := FirstPatterns(a, i + 1), FirstPatterns(b, i);
    FirstPatternsSize(a, i + 1);
    FirstPatternsSize(b, i);
    var p := NotSubset(large, early);
    x :| 0 <= x < i + 1 && a[x].pattern == p;
  }

  lemma NotSubset(large: set<string>, small: set<string>) returns (p: string)
    requires |large| > |small|
    ensures p in large && p !in small
  {
    assert |large - small| + |large * small| == |large| by {
      assert large == (large - small) + (large * small);
    }
    assert |small - large| + |large * small| == |small| by {
      assert small == (small - large) + (large * small);
    }
    assert large - small != {};
    p :| p in large - small;
  }

  lemma PlaceOf(patterns: map<string, int>, s: seq<Pair>, p: string) returns (y: nat)
    requires Lists(patterns, s) && p in patterns
    ensures y < |s| && s[y] == Pair(p, patterns[p])
  {
    ListingIsOnto(patterns, s);
    assert p in FirstPatterns(s, |s|);
    y :| 0 <= y < |s| && s[y].pattern == p;
  }

  /** No descending listing of a map is anywhere below another. */
  lemma NotLess(patterns: map<string, int>, a: seq<Pair>, b: seq<Pair>, i: nat)
    requires Lists(patterns, a) && Lists(patterns, b) && Descending(a) && Descending(b) && i < |a|
    ensures b[i].count >= a[i].count
  {
    var x := PatternBeyond(a, b, i);
    var y := PlaceOf(patterns, b, a[x].pattern);
    assert y >= i && b[y].count == a[x].count;
  }

  /** Whatever the iteration order, the same counts come out in the same order. */
  lemma CountsAreDetermined(patterns: map<string, int>, limit: nat, out1: seq<Pair>, out2: seq<Pair>)
    requires IsTop(patterns, limit, out1) && IsTop(patterns, limit, out2)
    ensures Counts(out1) == Counts(out2)
  {
    var a: seq<Pair> :| Lists(patterns, a) && Descending(a) && out1 == if |a| > limit then a[..limit] else a;
    var b: seq<Pair> :| Lists(patterns, b) && Descending(b) && out2 == if |b| > limit then b[..limit] else b;
    forall i | 0 <= i < |out1| ensures out1[i].count == out2[i].count {
      NotLess(patterns, a, b, i);
      NotLess(patterns, b, a, i);
    }
  }

  /** What is left out counts no more than anything kept, and nothing is left out below the limit. */
  lemma OmittedCountLess(patterns: map<string, int>, limit: nat, out: seq<Pair>, p: string, i: nat)
    requires IsTop(patterns, limit, out) && p in patterns && i < |out|
    requires forall x :: 0 <= x < |out| ==> out[x].pattern != p
    ensures |out| == limit && patterns[p] <= out[i].count
  {
    var a: seq<Pair> :| Lists(patterns, a) && Descending(a) && out == if |a| > limit then a[..limit] else a;
    var y := PlaceOf(patterns, a, p);
    hide Lists;
    assert y >= |out|;
  }
}
