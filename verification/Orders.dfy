/** Sequences of indices: bijections, sums that ignore order. */
module Orders {

  ghost predicate Indices(s: seq<nat>, n: nat) {
    forall i :: 0 <= i < |s| ==> s[i] < n
  }

  /** Every index below n exactly once. */
  ghost predicate Bijection(perm: seq<nat>, n: nat) {
    && |perm| == n && Indices(perm, n)
    && (forall i, j :: 0 <= i < j < n ==> perm[i] != perm[j])
    && (forall x :: 0 <= x < n ==> x in perm)
  }

  function Range(n: nat): (r: seq<nat>)
    ensures |r| == n && forall i :: 0 <= i < n ==> r[i] == i
  {
    seq(n, i requires 0 <= i < n => i)
  }

  /** sorted(result) == list(range(size)): two lists sort alike when they hold the same entries. */
  predicate Validates(perm: seq<nat>, size: nat) {
    |perm| == size && multiset(perm) == multiset(Range(size))
  }

  function Total(values: seq<real>, s: seq<nat>): real
    requires Indices(s, |values|)
  {
    if s == [] then 0.0 else Total(values, s[..|s| - 1]) + values[s[|s| - 1]]
  }

  lemma SameMembers(a: seq<nat>, b: seq<nat>)
    requires multiset(a) == multiset(b)
    ensures |a| == |b| && forall x :: x in a <==> x in b
  {
    assert |multiset(a)| == |a| && |multiset(b)| == |b|;
    forall x
      ensures x in a <==> x in b
    {
      assert x in multiset(a) <==> x in a;
      assert x in multiset(b) <==> x in b;
    }
  }

  lemma {:induction false} CountsOfDistinct(s: seq<nat>)
    requires forall i, j :: 0 <= i < j < |s| ==> s[i] != s[j]
    ensures forall x :: multiset(s)[x] == if x in s then 1 else 0
  {
    if s != [] {
      CountsOfDistinct(s[1..]);
      assert s == [s[0]] + s[1..];
      assert s[0] !in s[1..];
    }
  }

  lemma {:induction false} DistinctByCounts(s: seq<nat>)
    requires forall x :: multiset(s)[x] <= 1
    ensures forall i, j :: 0 <= i < j < |s| ==> s[i] != s[j]
  {
    if s != [] {
      var rest := s[1..];
      assert s == [s[0]] + rest;
      assert forall x :: multiset(s)[x] == (multiset{s[0]} + multiset(rest))[x];
      assert forall x :: multiset(rest)[x] <= multiset(s)[x];
      DistinctByCounts(rest);
      assert multiset(rest)[s[0]] == 0;
      assert s[0] !in rest;
    }
  }

  lemma RangeIsBijection(n: nat)
    ensures Bijection(Range(n), n)
  {
    forall x | 0 <= x < n
      ensures x in Range(n)
    {
      assert Range(n)[x] == x;
    }
  }

  lemma BijectionsReorder(p: seq<nat>, q: seq<nat>, n: nat)
    requires Bijection(p, n) && Bijection(q, n)
    ensures multiset(p) == multiset(q)
  {
    CountsOfDistinct(p);
    CountsOfDistinct(q);
    forall x
      ensures multiset(p)[x] == multiset(q)[x]
    {
      assert x in p ==> 0 <= x < n;
      assert x in q ==> 0 <= x < n;
    }
  }

  lemma ReorderOfRangeIsBijection(perm: seq<nat>, n: nat)
    requires Validates(perm, n)
    ensures Bijection(perm, n)
  {
    CountsOfDistinct(Range(n));
    RangeIsBijection(n);
    SameMembers(perm, Range(n));
    assert forall x :: multiset(perm)[x] == multiset(Range(n))[x];
    DistinctByCounts(perm);
    assert forall i :: 0 <= i < |perm| ==> perm[i] in Range(n);
  }

  /** The validation accepts exactly the bijections. */
  lemma ValidatesIffBijection(perm: seq<nat>, n: nat)
    ensures Validates(perm, n) <==> Bijection(perm, n)
  {
    if Validates(perm, n) {
      ReorderOfRangeIsBijection(perm, n);
    }
    if Bijection(perm, n) {
      RangeIsBijection(n);
      BijectionsReorder(perm, Range(n), n);
    }
  }

  lemma {:induction false} TotalWithout(values: seq<real>, s: seq<nat>, k: nat)
    requires Indices(s, |values|) && k < |s|
    ensures Indices(s[..k] + s[k + 1..], |values|)
    ensures Total(values, s) == Total(values, s[..k] + s[k + 1..]) + values[s[k]]
  {
    var without := s[..k] + s[k + 1..];
    if k == |s| - 1 {
      assert without == s[..k];
    } else {
      TotalWithout(values, s[..|s| - 1], k);
      assert without[..|without| - 1] == s[..|s| - 1][..k] + s[..|s| - 1][k + 1..];
    }
  }

  lemma SplitAt(s: seq<nat>, k: nat)
    requires k < |s|
    ensures multiset(s[..k] + s[k + 1..]) == multiset(s) - multiset{s[k]}
  {
    assert s == s[..k] + [s[k]] + s[k + 1..];
  }

  /** A sum over indices does not depend on the order it is taken in. */
  lemma {:induction false} TotalOfReorder(values: seq<real>, s: seq<nat>, t: seq<nat>)
    requires Indices(s, |values|) && Indices(t, |values|) && multiset(s) == multiset(t)
    ensures Total(values, s) == Total(values, t)
    decreases |s|
  {
    SameMembers(s, t);
    if s != [] {
      var m := |s| - 1;
      assert s[m] in t;
      var k :| 0 <= k < |t| && t[k] == s[m];
      SplitAt(s, m);
      SplitAt(t, k);
      TotalWithout(values, t, k);
      var init, rest := s[..m], t[..k] + t[k + 1..];
      assert s[..m] + s[m + 1..] == init;
      TotalOfReorder(values, init, rest);
    }
  }
}
