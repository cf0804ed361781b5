/** Energy-balanced channel order: a capacity-limited greedy over Hadamard blocks. */
module EnergyBalance {
  import opened Common
  import opened Orders

  /** The sort key (-value, index): i comes before j. */
  predicate Before(values: seq<real>, i: nat, j: nat)
    requires i < |values| && j < |values|
  {
    values[i] > values[j] || (values[i] == values[j] && i < j)
  }

  ghost predicate Ranked(values: seq<real>, s: seq<nat>)
    requires Indices(s, |values|)
  {
    forall i, j :: 0 <= i < j < |s| ==> Before(values, s[i], s[j])
  }

  function Insert(values: seq<real>, s: seq<nat>, x: nat): (r: seq<nat>)
    requires Indices(s, |values|) && x < |values|
    ensures Indices(r, |values|) && multiset(r) == multiset(s) + multiset{x}
  {
    if s == [] then [x]
    else if Before(values, x, s[0]) then [x] + s
    else
      assert s == [s[0]] + s[1..];
      [s[0]] + Insert(values, s[1..], x)
  }

  /** sorted(s, key=(-value, index)). */
  function Sort(values: seq<real>, s: seq<nat>): (r: seq<nat>)
    requires Indices(s, |values|)
    ensures Indices(r, |values|) && multiset(r) == multiset(s)
  {
    if s == [] then []
    else
      assert s == [s[0]] + s[1..];
      Insert(values, Sort(values, s[1..]), s[0])
  }

  lemma {:induction false} InsertRanked(values: seq<real>, s: seq<nat>, x: nat)
    requires Indices(s, |values|) && x < |values| && x !in s && Ranked(values, s)
    ensures Ranked(values, Insert(values, s, x))
  {
    if s != [] && !Before(values, x, s[0]) {
      InsertRanked(values, s[1..], x);
      var r := Insert(values, s[1..], x);
      SameMembers(r, s[1..] + [x]);
      forall k | 0 <= k < |r|
        ensures Before(values, s[0], r[k])
      {
        assert r[k] in s[1..] + [x];
      }
    }
  }

  lemma {:induction false} SortRanked(values: seq<real>, s: seq<nat>)
    requires Indices(s, |values|) && forall i, j :: 0 <= i < j < |s| ==> s[i] != s[j]
    ensures Ranked(values, Sort(values, s))
  {
    if s != [] {
      SortRanked(values, s[1..]);
      var r := Sort(values, s[1..]);
      SameMembers(r, s[1..]);
      assert s[0] !in s[1..];
      InsertRanked(values, r, s[0]);
    }
  }

  /** Sorting a bucket that was filled in rank order changes nothing. */
  lemma {:induction false} SortOfRanked(values: seq<real>, s: seq<nat>)
    requires Indices(s, |values|) && Ranked(values, s)
    ensures Sort(values, s) == s
  {
    if s != [] {
      SortOfRanked(values, s[1..]);
      assert s == [s[0]] + s[1..];
    }
  }

  // ---- totals --------------------------------------------------------------

  /** Total of the first m entries. */
  ghost function Prefix(values: seq<real>, s: seq<nat>, m: nat): real
    requires Indices(s, |values|) && m <= |s|
  {
    if m == 0 then 0.0 else Prefix(values, s, m - 1) + values[s[m - 1]]
  }

  lemma {:induction false} PrefixIsTotal(values: seq<real>, s: seq<nat>, m: nat)
    requires Indices(s, |values|) && m <= |s|
    ensures Prefix(values, s, m) == Total(values, s[..m])
  {
    if m > 0 {
      PrefixIsTotal(values, s, m - 1);
      assert s[..m][..m - 1] == s[..m - 1];
    }
  }

  lemma {:induction false} PrefixOfAppend(values: seq<real>, s: seq<nat>, x: nat, m: nat)
    requires Indices(s, |values|) && x < |values| && m <= |s|
    ensures Prefix(values, s + [x], m) == Prefix(values, s, m)
  {
    if m > 0 {
      PrefixOfAppend(values, s, x, m - 1);
    }
  }

  lemma {:induction false} PrefixMonotone(values: seq<real>, s: seq<nat>, m: nat, k: nat)
    requires Indices(s, |values|) && m <= k <= |s|
    requires forall i :: 0 <= i < |values| ==> 0.0 <= values[i]
    ensures Prefix(values, s, m) <= Prefix(values, s, k)
    decreases k - m
  {
    if m < k {
      PrefixMonotone(values, s, m, k - 1);
    }
  }

  // ---- the balance invariant -----------------------------------------------

  /** At equal counts a leads by at most the top entry; the last entry a has beyond b was placed fairly. */
  ghost predicate Fair(values: seq<real>, a: seq<nat>, b: seq<nat>, top: real)
    requires Indices(a, |values|) && Indices(b, |values|)
  {
    && (|a| <= |b| ==> Prefix(values, a, |a|) - Prefix(values, b, |a|) <= top)
    && (|b| <= |a| ==> Prefix(values, a, |b|) - Prefix(values, b, |b|) <= top)
    && (|b| < |a| ==> Prefix(values, a, |a| - 1) <= Prefix(values, b, |b|))
  }

  /** The entry goes to a, whose total is the smaller one unless b is full. */
  lemma FairWhenAheadGrows(values: seq<real>, a: seq<nat>, b: seq<nat>, top: real, x: nat)
    requires Indices(a, |values|) && Indices(b, |values|) && x < |values| && Fair(values, a, b, top)
    requires |b| <= |a| ==> Prefix(values, a, |a|) <= Prefix(values, b, |b|)
    requires forall i :: 0 <= i < |b| ==> values[x] <= values[b[i]]
    ensures Fair(values, a + [x], b, top)
  {
    PrefixOfAppend(values, a, x, |a|);
    if |b| <= |a| {
      PrefixOfAppend(values, a, x, |b|);
    }
  }

  /** The entry goes to b. */
  lemma FairWhenBehindGrows(values: seq<real>, a: seq<nat>, b: seq<nat>, top: real, x: nat)
    requires Indices(a, |values|) && Indices(b, |values|) && x < |values| && Fair(values, a, b, top)
    requires forall i :: 0 <= i < |values| ==> 0.0 <= values[i] <= top
    ensures Fair(values, a, b + [x], top)
  {
    PrefixOfAppend(values, b, x, |b|);
    if |a| <= |b| {
      PrefixOfAppend(values, b, x, |a|);
    } else {
      PrefixMonotone(values, a, |b|, |a| - 1);
    }
  }

  // ---- the greedy ----------------------------------------------------------

  function Flatten(buckets: seq<seq<nat>>): seq<nat> {
    if buckets == [] then [] else buckets[0] + Flatten(buckets[1..])
  }

  lemma {:induction false} FlattenAppend(buckets: seq<seq<nat>>, d: nat, x: nat)
    requires d < |buckets|
    ensures multiset(Flatten(buckets[d := buckets[d] + [x]])) == multiset(Flatten(buckets)) + multiset{x}
    ensures |Flatten(buckets[d := buckets[d] + [x]])| == |Flatten(buckets)| + 1
  {
    var updated := buckets[d := buckets[d] + [x]];
    if d == 0 {
      assert updated[1..] == buckets[1..];
    } else {
      FlattenAppend(buckets[1..], d - 1, x);
      assert updated[1..] == buckets[1..][d - 1 := buckets[d] + [x]];
    }
  }

  /** Full buckets hold everything: while entries are left some bucket has room. */
  lemma {:induction false} FullBuckets(buckets: seq<seq<nat>>, block: nat)
    requires forall b :: 0 <= b < |buckets| ==> |buckets[b]| == block
    ensures |Flatten(buckets)| == Blocks(|buckets|, block)
  {
    if buckets != [] {
      FullBuckets(buckets[1..], block);
      assert Blocks(|buckets|, block) == Blocks(|buckets| - 1, block) + block;
    }
  }

  /** Buckets within their capacity hold no more than they all can. */
  lemma {:induction false} AtMostFull(buckets: seq<seq<nat>>, block: nat)
    requires forall b :: 0 <= b < |buckets| ==> |buckets[b]| <= block
    ensures |Flatten(buckets)| <= Blocks(|buckets|, block)
  {
    if buckets != [] {
      AtMostFull(buckets[1..], block);
      assert Blocks(|buckets|, block) == Blocks(|buckets| - 1, block) + block;
    }
  }

  /** No bucket over its capacity and nothing missing: every bucket is exactly full. */
  lemma {:induction false} NothingMissing(buckets: seq<seq<nat>>, block: nat, b: nat)
    requires forall d :: 0 <= d < |buckets| ==> |buckets[d]| <= block
    requires |Flatten(buckets)| == Blocks(|buckets|, block) && b < |buckets|
    ensures |buckets[b]| == block
    decreases |buckets|
  {
    var tail := buckets[1..];
    AtMostFull(tail, block);
    assert Blocks(|buckets|, block) == Blocks(|tail|, block) + block;
    if b > 0 {
      NothingMissing(tail, block, b - 1);
    }
  }

  /** A bucket holds entries of done in rank order, at most block of them, and total is their sum. */
  ghost predicate Holds(values: seq<real>, block: nat, bucket: seq<nat>, total: real, done: seq<nat>) {
    && |bucket| <= block && Indices(bucket, |values|)
    && total == Prefix(values, bucket, |bucket|)
    && (forall i :: 0 <= i < |bucket| ==> bucket[i] in done)
    && Ranked(values, bucket)
  }

  /** State of the greedy after some entries of the ranking: what every later step may rely on. */
  ghost predicate Placed(values: seq<real>, block: nat, buckets: seq<seq<nat>>, totals: seq<real>, done: seq<nat>) {
    && |buckets| == |totals|
    && multiset(Flatten(buckets)) == multiset(done) && |Flatten(buckets)| == |done|
    && (forall b :: 0 <= b < |buckets| ==> Holds(values, block, buckets[b], totals[b], done))
  }

  ghost predicate AllFair(values: seq<real>, buckets: seq<seq<nat>>, top: real)
    requires forall b :: 0 <= b < |buckets| ==> Indices(buckets[b], |values|)
  {
    forall a, b :: 0 <= a < |buckets| && 0 <= b < |buckets| && a != b ==> Fair(values, buckets[a], buckets[b], top)
  }

  /** min over the eligible buckets by (total, bucket); -1 stands for the error of an empty min. */
  method LeastEligible(buckets: seq<seq<nat>>, totals: seq<real>, block: nat) returns (d: int)
    requires |buckets| == |totals|
    ensures d == -1 <==> forall b :: 0 <= b < |buckets| ==> block <= |buckets[b]|
    ensures d != -1 ==> 0 <= d < |buckets| && |buckets[d]| < block
    ensures d != -1 ==> forall b :: 0 <= b < |buckets| && |buckets[b]| < block ==>
      totals[d] < totals[b] || (totals[d] == totals[b] && d <= b)
  {
    d := -1;
    for b := 0 to |buckets|
      invariant -1 <= d < b
      invariant d == -1 <==> forall k :: 0 <= k < b ==> block <= |buckets[k]|
      invariant d != -1 ==> |buckets[d]| < block && forall k :: 0 <= k < b && |buckets[k]| < block ==>
        totals[d] < totals[k] || (totals[d] == totals[k] && d <= k)
    {
      if |buckets[b]| < block && (d == -1 || totals[b] < totals[d]) {
        d := b;
      }
    }
  }

  lemma RankedAppend(values: seq<real>, s: seq<nat>, done: seq<nat>, x: nat)
    requires Indices(s, |values|) && Ranked(values, s) && x < |values|
    requires forall i :: 0 <= i < |s| ==> s[i] in done
    requires forall y :: y in done ==> y < |values| && Before(values, y, x)
    ensures Ranked(values, s + [x])
  {
    forall i, j | 0 <= i < j < |s + [x]|
      ensures Before(values, (s + [x])[i], (s + [x])[j])
    {
      assert s[i] in done;
    }
  }

  lemma HoldsGrows(values: seq<real>, block: nat, bucket: seq<nat>, total: real, done: seq<nat>, x: nat)
    requires Holds(values, block, bucket, total, done) && |bucket| < block && x < |values|
    requires forall y :: y in done ==> y < |values| && Before(values, y, x)
    ensures Holds(values, block, bucket + [x], total + values[x], done + [x])
  {
    PrefixOfAppend(values, bucket, x, |bucket|);
    RankedAppend(values, bucket, done, x);
  }

  /** Appending the next entry of the ranking to a bucket with room. */
  lemma PlacedGrows(values: seq<real>, block: nat, buckets: seq<seq<nat>>, totals: seq<real>, done: seq<nat>, x: nat, d: nat)
    requires Placed(values, block, buckets, totals, done)
    requires d < |buckets| && |buckets[d]| < block && x < |values|
    requires forall y :: y in done ==> y < |values| && Before(values, y, x)
    ensures Placed(values, block, buckets[d := buckets[d] + [x]], totals[d := totals[d] + values[x]], done + [x])
  {
    FlattenAppend(buckets, d, x);
    HoldsGrows(values, block, buckets[d], totals[d], done, x);
    forall b | 0 <= b < |buckets| && b != d
      ensures Holds(values, block, buckets[b], totals[b], done + [x])
    {
      assert Holds(values, block, buckets[b], totals[b], done);
    }
  }

  lemma FairGrows(values: seq<real>, block: nat, buckets: seq<seq<nat>>, totals: seq<real>, done: seq<nat>, x: nat, d: nat, top: real)
    requires Placed(values, block, buckets, totals, done) && AllFair(values, buckets, top)
    requires d < |buckets| && |buckets[d]| < block && x < |values|
    requires forall y :: y in done ==> y < |values| && Before(values, y, x)
    requires forall b :: 0 <= b < |buckets| && |buckets[b]| < block ==> totals[d] <= totals[b]
    requires forall i :: 0 <= i < |values| ==> 0.0 <= values[i] <= top
    ensures forall b :: 0 <= b < |buckets| && b != d ==>
      && Fair(values, buckets[d] + [x], buckets[b], top)
      && Fair(values, buckets[b], buckets[d] + [x], top)
  {
    forall b | 0 <= b < |buckets| && b != d
      ensures Fair(values, buckets[d] + [x], buckets[b], top)
      ensures Fair(values, buckets[b], buckets[d] + [x], top)
    {
      forall i | 0 <= i < |buckets[b]|
        ensures values[x] <= values[buckets[b][i]]
      {
        assert buckets[b][i] in done;
      }
      FairWhenAheadGrows(values, buckets[d], buckets[b], top, x);
      FairWhenBehindGrows(values, buckets[b], buckets[d], top, x);
    }
  }

  lemma SomeBucketHasRoom(values: seq<real>, block: nat, buckets: seq<seq<nat>>, totals: seq<real>, done: seq<nat>)
    requires Placed(values, block, buckets, totals, done) && |done| < Blocks(|buckets|, block)
    ensures exists b :: 0 <= b < |buckets| && |buckets[b]| < block
  {
    if forall b :: 0 <= b < |buckets| ==> block <= |buckets[b]| {
      FullBuckets(buckets, block);
    }
  }

  ghost predicate Nonnegative(values: seq<real>, top: real) {
    forall i :: 0 <= i < |values| ==> 0.0 <= values[i] <= top
  }

  lemma Empties(values: seq<real>, block: nat, n: nat, top: real)
    requires 0.0 <= top
    ensures Placed(values, block, seq(n, _ => []), seq(n, _ => 0.0), [])
    ensures AllFair(values, seq(n, _ => []), top)
  {
    FullBuckets(seq(n, _ => []), 0);
    BlocksIsProduct(n, 0);
  }

  /** What every step keeps: buckets and totals of the entries done, fair to each other. */
  ghost predicate Kept(values: seq<real>, block: nat, top: real, buckets: seq<seq<nat>>, totals: seq<real>, done: seq<nat>) {
    Placed(values, block, buckets, totals, done) && (Nonnegative(values, top) ==> AllFair(values, buckets, top))
  }

  /** Puts the next entry of the ranking into the least eligible bucket; the min is never empty. */
  method PlaceNext(values: seq<real>, block: nat, buckets: seq<seq<nat>>, totals: seq<real>, ghost done: seq<nat>, x: nat, ghost top: real)
    returns (buckets': seq<seq<nat>>, totals': seq<real>, ghost d: nat)
    requires Kept(values, block, top, buckets, totals, done) && |done| < Blocks(|buckets|, block)
    requires x < |values| && forall y :: y in done ==> y < |values| && Before(values, y, x)
    ensures d < |buckets| && |buckets[d]| < block
    ensures forall b :: 0 <= b < |buckets| && |buckets[b]| < block ==> totals[d] < totals[b] || (totals[d] == totals[b] && d <= b)
    ensures buckets' == buckets[d := buckets[d] + [x]] && totals' == totals[d := totals[d] + values[x]]
    ensures Kept(values, block, top, buckets', totals', done + [x])
  {
    SomeBucketHasRoom(values, block, buckets, totals, done);
    var least := LeastEligible(buckets, totals, block);
    d := least;
    PlacedGrows(values, block, buckets, totals, done, x, d);
    if Nonnegative(values, top) {
      FairGrows(values, block, buckets, totals, done, x, d, top);
    }
    buckets' := buckets[least := buckets[least] + [x]];
    totals' := totals[least := totals[least] + values[x]];
  }

  lemma NextInRanking(values: seq<real>, ranked: seq<nat>, k: nat)
    requires Indices(ranked, |values|) && Ranked(values, ranked) && k < |ranked|
    ensures ranked[..k + 1] == ranked[..k] + [ranked[k]]
    ensures forall y :: y in ranked[..k] ==> y < |values| && Before(values, y, ranked[k])
  {
  }

  // ---- the greedy in numbers -----------------------------------------------

  /** The entries of the ranking before rank k that went to bucket b, in rank order. */
  ghost function Taken(ranked: seq<nat>, choices: seq<nat>, k: nat, b: nat): (s: seq<nat>)
    requires k <= |choices| && k <= |ranked|
    ensures forall i :: 0 <= i < |s| ==> s[i] in ranked
  {
    if k == 0 then [] else Taken(ranked, choices, k - 1, b) + if choices[k - 1] == b then [ranked[k - 1]] else []
  }

  /** Rank k went to the bucket with room whose total was the smallest, the lowest of several. */
  ghost predicate IsChoice(values: seq<real>, ranked: seq<nat>, choices: seq<nat>, nblocks: nat, block: nat, k: nat)
    requires Indices(ranked, |values|) && k < |choices| <= |ranked|
  {
    var d := choices[k];
    && d < nblocks && |Taken(ranked, choices, k, d)| < block
    && forall b: nat :: b < nblocks && |Taken(ranked, choices, k, b)| < block ==>
         || Total(values, Taken(ranked, choices, k, d)) < Total(values, Taken(ranked, choices, k, b))
         || (Total(values, Taken(ranked, choices, k, d)) == Total(values, Taken(ranked, choices, k, b)) && d <= b)
  }

  ghost predicate AreChoices(values: seq<real>, ranked: seq<nat>, choices: seq<nat>, nblocks: nat, block: nat)
    requires Indices(ranked, |values|) && |choices| <= |ranked|
  {
    forall k :: 0 <= k < |choices| ==> IsChoice(values, ranked, choices, nblocks, block, k)
  }

  /** Descending values, ascending indices among equal ones. */
  ghost predicate IsRanking(values: seq<real>, ranked: seq<nat>) {
    && Bijection(ranked, |values|)
    && forall i, j :: 0 <= i < j < |ranked| ==>
         values[ranked[i]] > values[ranked[j]] || (values[ranked[i]] == values[ranked[j]] && ranked[i] < ranked[j])
  }

  lemma {:induction false} TakenOfMore(ranked: seq<nat>, choices: seq<nat>, d: nat, k: nat, b: nat)
    requires k <= |choices| && k <= |ranked|
    ensures Taken(ranked, choices + [d], k, b) == Taken(ranked, choices, k, b)
  {
    if k > 0 {
      TakenOfMore(ranked, choices, d, k - 1, b);
    }
  }

  lemma ChoiceStays(values: seq<real>, ranked: seq<nat>, choices: seq<nat>, nblocks: nat, block: nat, d: nat, k: nat)
    requires Indices(ranked, |values|) && k < |choices| < |ranked| && IsChoice(values, ranked, choices, nblocks, block, k)
    ensures IsChoice(values, ranked, choices + [d], nblocks, block, k)
  {
    forall b: nat
      ensures Taken(ranked, choices + [d], k, b) == Taken(ranked, choices, k, b)
    {
      TakenOfMore(ranked, choices, d, k, b);
    }
  }

  /** The buckets are what the choices say, and the totals are theirs. */
  ghost predicate Filled(values: seq<real>, ranked: seq<nat>, choices: seq<nat>, buckets: seq<seq<nat>>, totals: seq<real>)
    requires Indices(ranked, |values|) && |choices| <= |ranked|
  {
    |totals| == |buckets| && forall b :: 0 <= b < |buckets| ==> FilledAt(values, ranked, choices, b, buckets[b], totals[b])
  }

  ghost predicate FilledAt(values: seq<real>, ranked: seq<nat>, choices: seq<nat>, b: nat, bucket: seq<nat>, total: real)
    requires Indices(ranked, |values|) && |choices| <= |ranked|
  {
    bucket == Taken(ranked, choices, |choices|, b) && total == Total(values, bucket)
  }

  lemma FilledAtGrows(values: seq<real>, ranked: seq<nat>, choices: seq<nat>, d: nat, x: nat, b: nat, bucket: seq<nat>, total: real)
    requires Indices(ranked, |values|) && |choices| < |ranked| && x == ranked[|choices|]
    requires FilledAt(values, ranked, choices, b, bucket, total)
    ensures if b == d then FilledAt(values, ranked, choices + [d], b, bucket + [x], total + values[x])
            else FilledAt(values, ranked, choices + [d], b, bucket, total)
  {
    TakenOfMore(ranked, choices, d, |choices|, b);
    assert (bucket + [x])[..|bucket|] == bucket;
  }

  lemma FilledGrows(values: seq<real>, ranked: seq<nat>, choices: seq<nat>, buckets: seq<seq<nat>>, totals: seq<real>, d: nat, x: nat,
                    buckets': seq<seq<nat>>, totals': seq<real>)
    requires Indices(ranked, |values|) && |choices| < |ranked| && Filled(values, ranked, choices, buckets, totals)
    requires d < |buckets| && x == ranked[|choices|]
    requires buckets' == buckets[d := buckets[d] + [x]] && totals' == totals[d := totals[d] + values[x]]
    ensures Filled(values, ranked, choices + [d], buckets', totals')
  {
    forall b: nat | b < |buckets|
      ensures FilledAt(values, ranked, choices + [d], b, buckets'[b], totals'[b])
    {
      FilledAtGrows(values, ranked, choices, d, x, b, buckets[b], totals[b]);
    }
  }

  lemma ChoicesGrow(values: seq<real>, ranked: seq<nat>, choices: seq<nat>, buckets: seq<seq<nat>>, totals: seq<real>, block: nat, d: nat)
    requires Indices(ranked, |values|) && |choices| < |ranked| && Filled(values, ranked, choices, buckets, totals)
    requires AreChoices(values, ranked, choices, |buckets|, block) && d < |buckets| && |buckets[d]| < block
    requires forall b :: 0 <= b < |buckets| && |buckets[b]| < block ==> totals[d] < totals[b] || (totals[d] == totals[b] && d <= b)
    ensures AreChoices(values, ranked, choices + [d], |buckets|, block)
  {
    var k := |choices|;
    forall b: nat | b < |buckets|
      ensures Taken(ranked, choices + [d], k, b) == buckets[b] && totals[b] == Total(values, buckets[b])
    {
      TakenOfMore(ranked, choices, d, k, b);
      assert FilledAt(values, ranked, choices, b, buckets[b], totals[b]);
    }
    assert IsChoice(values, ranked, choices + [d], |buckets|, block, k);
    forall i | 0 <= i < k
      ensures IsChoice(values, ranked, choices + [d], |buckets|, block, i)
    {
      ChoiceStays(values, ranked, choices, |buckets|, block, d, i);
    }
  }

  /** How the buckets came about: the choice of every rank so far, and what they add up to. */
  ghost predicate History(values: seq<real>, ranked: seq<nat>, block: nat, buckets: seq<seq<nat>>, totals: seq<real>, choices: seq<nat>)
    requires Indices(ranked, |values|)
  {
    && |choices| <= |ranked| && Filled(values, ranked, choices, buckets, totals)
    && AreChoices(values, ranked, choices, |buckets|, block)
  }

  lemma HistoryGrows(values: seq<real>, ranked: seq<nat>, block: nat, buckets: seq<seq<nat>>, totals: seq<real>,
                     choices: seq<nat>, d: nat, x: nat, buckets': seq<seq<nat>>, totals': seq<real>)
    requires Indices(ranked, |values|) && |choices| < |ranked| && x == ranked[|choices|]
    requires History(values, ranked, block, buckets, totals, choices)
    requires d < |buckets| == |totals| && |buckets[d]| < block
    requires forall b :: 0 <= b < |buckets| && |buckets[b]| < block ==> totals[d] < totals[b] || (totals[d] == totals[b] && d <= b)
    requires buckets' == buckets[d := buckets[d] + [x]] && totals' == totals[d := totals[d] + values[x]]
    ensures History(values, ranked, block, buckets', totals', choices + [d])
  {
    FilledGrows(values, ranked, choices, buckets, totals, d, x, buckets', totals');
    ChoicesGrow(values, ranked, choices, buckets, totals, block, d);
  }

  /** Places rank |choices|. */
  method PlaceRank(values: seq<real>, ranked: seq<nat>, x: nat, block: nat, ghost top: real, ghost done: seq<nat>,
                   buckets: seq<seq<nat>>, totals: seq<real>, ghost choices: seq<nat>)
    returns (buckets': seq<seq<nat>>, totals': seq<real>, ghost choices': seq<nat>)
    requires Indices(ranked, |values|) && |choices| < |ranked| && x == ranked[|choices|]
    requires Kept(values, block, top, buckets, totals, done) && |done| < Blocks(|buckets|, block)
    requires forall y :: y in done ==> y < |values| && Before(values, y, x)
    requires History(values, ranked, block, buckets, totals, choices)
    ensures |buckets'| == |buckets| && |choices'| == |choices| + 1
    ensures Kept(values, block, top, buckets', totals', done + [x])
    ensures History(values, ranked, block, buckets', totals', choices')
  {
    ghost var d;
    buckets', totals', d := PlaceNext(values, block, buckets, totals, done, x, top);
    HistoryGrows(values, ranked, block, buckets, totals, choices, d, x, buckets', totals');
    choices' := choices + [d];
  }

  /** Places every entry of the ranking. */
  method FillBuckets(values: seq<real>, ranked: seq<nat>, nblocks: nat, block: nat, ghost top: real)
    returns (buckets: seq<seq<nat>>, ghost choices: seq<nat>)
    requires Indices(ranked, |values|) && Ranked(values, ranked) && |ranked| == Blocks(nblocks, block) && 0.0 <= top
    ensures |buckets| == nblocks && multiset(Flatten(buckets)) == multiset(ranked)
    ensures forall b :: 0 <= b < nblocks ==> |buckets[b]| == block && Indices(buckets[b], |values|) && Ranked(values, buckets[b])
    ensures Nonnegative(values, top) ==> AllFair(values, buckets, top)
    ensures |choices| == |ranked| && AreChoices(values, ranked, choices, nblocks, block)
    ensures forall b :: 0 <= b < nblocks ==> buckets[b] == Taken(ranked, choices, |choices|, b)
  {
    buckets, choices := seq(nblocks, _ => []), [];
    var totals := seq(nblocks, _ => 0.0);
    Empties(values, block, nblocks, top);
    for k := 0 to |ranked|
      invariant |buckets| == nblocks && |choices| == k && Kept(values, block, top, buckets, totals, ranked[..k])
      invariant History(values, ranked, block, buckets, totals, choices)
    {
      NextInRanking(values, ranked, k);
      buckets, totals, choices := PlaceRank(values, ranked, ranked[k], block, top, ranked[..k], buckets, totals, choices);
    }
    assert ranked[..|ranked|] == ranked;
    forall b | 0 <= b < nblocks
      ensures |buckets[b]| == block
    {
      NothingMissing(buckets, block, b);
    }
  }

  // ---- the returned order --------------------------------------------------

  function Reverse(s: seq<nat>): (r: seq<nat>)
    ensures |r| == |s| && multiset(r) == multiset(s)
    ensures forall i :: 0 <= i < |s| ==> r[i] == s[|s| - 1 - i]
  {
    if s == [] then []
    else
      assert s == s[..|s| - 1] + [s[|s| - 1]];
      [s[|s| - 1]] + Reverse(s[..|s| - 1])
  }

  /** The order inside block b: by rank, turned round on odd blocks when serpentine. */
  function Arrange(values: seq<real>, bucket: seq<nat>, b: nat, serpentine: bool): (r: seq<nat>)
    requires Indices(bucket, |values|)
    ensures Indices(r, |values|) && multiset(r) == multiset(bucket) && |r| == |bucket|
  {
    var sorted := Sort(values, bucket);
    SameMembers(sorted, bucket);
    if serpentine && b % 2 == 1 then Reverse(sorted) else sorted
  }

  lemma {:induction false} FlattenSlices(buckets: seq<seq<nat>>, block: nat, b: nat)
    requires forall k :: 0 <= k < |buckets| ==> |buckets[k]| == block
    requires b < |buckets|
    ensures Blocks(b, block) <= Blocks(b + 1, block) <= |Flatten(buckets)| == Blocks(|buckets|, block)
    ensures Flatten(buckets)[Blocks(b, block)..Blocks(b + 1, block)] == buckets[b]
  {
    FullBuckets(buckets, block);
    var rest := buckets[1..];
    if b > 0 {
      FlattenSlices(rest, block, b - 1);
      assert Flatten(buckets)[Blocks(b, block)..Blocks(b + 1, block)] == Flatten(rest)[Blocks(b - 1, block)..Blocks(b, block)];
    } else {
      FullBuckets(rest, block);
    }
  }

  lemma {:induction false} FlattenRearranged(before: seq<seq<nat>>, after: seq<seq<nat>>)
    requires |before| == |after|
    requires forall b :: 0 <= b < |before| ==> multiset(after[b]) == multiset(before[b])
    ensures multiset(Flatten(after)) == multiset(Flatten(before))
  {
    if before != [] {
      FlattenRearranged(before[1..], after[1..]);
    }
  }

  /** Block b of the new order: new coordinates Blocks(b, block) up to Blocks(b + 1, block). */
  function Block(order: seq<nat>, block: nat, b: nat): seq<nat>
    requires Blocks(b, block) <= Blocks(b + 1, block) <= |order|
  {
    order[Blocks(b, block)..Blocks(b + 1, block)]
  }

  /** Totals of any two blocks differ by at most top. */
  ghost predicate Balanced(values: seq<real>, order: seq<nat>, nblocks: nat, block: nat, top: real)
    requires Indices(order, |values|) && |order| == Blocks(nblocks, block)
  {
    forall a, b :: 0 <= a < nblocks && 0 <= b < nblocks ==>
      BlockTotal(values, order, nblocks, block, a) - BlockTotal(values, order, nblocks, block, b) <= top
  }

  function BlockTotal(values: seq<real>, order: seq<nat>, nblocks: nat, block: nat, b: nat): real
    requires Indices(order, |values|) && |order| == Blocks(nblocks, block) && b < nblocks
  {
    BlockFits(b, nblocks, block);
    Total(values, Block(order, block, b))
  }

  /** Inside block b entries run by rank, or from the last rank up on odd blocks of a serpentine order. */
  ghost predicate BlockOrdered(values: seq<real>, order: seq<nat>, nblocks: nat, block: nat, serpentine: bool, b: nat)
    requires Indices(order, |values|) && |order| == Blocks(nblocks, block) && b < nblocks
  {
    BlockFits(b, nblocks, block);
    var s := Block(order, block, b);
    Ranked(values, if serpentine && b % 2 == 1 then Reverse(s) else s)
  }

  lemma ReverseTwice(s: seq<nat>)
    ensures Reverse(Reverse(s)) == s
  {
  }

  lemma ArrangedRanked(values: seq<real>, bucket: seq<nat>, b: nat, serpentine: bool)
    requires Indices(bucket, |values|) && Ranked(values, bucket)
    ensures Arrange(values, bucket, b, serpentine) == if serpentine && b % 2 == 1 then Reverse(bucket) else bucket
    ensures Total(values, Arrange(values, bucket, b, serpentine)) == Prefix(values, bucket, |bucket|)
  {
    SortOfRanked(values, bucket);
    TotalOfReorder(values, Arrange(values, bucket, b, serpentine), bucket);
    PrefixIsTotal(values, bucket, |bucket|);
    assert bucket[..|bucket|] == bucket;
  }

  lemma BlocksArranged(values: seq<real>, buckets: seq<seq<nat>>, arranged: seq<seq<nat>>, block: nat, serpentine: bool, b: nat)
    requires |arranged| == |buckets| && b < |buckets|
    requires forall k :: 0 <= k < |buckets| ==> |buckets[k]| == block
    requires Indices(buckets[b], |values|) && Ranked(values, buckets[b])
    requires forall k :: 0 <= k < |buckets| ==> |arranged[k]| == block
    requires arranged[b] == Arrange(values, buckets[b], b, serpentine)
    requires |Flatten(arranged)| == Blocks(|buckets|, block) && Indices(Flatten(arranged), |values|)
    ensures BlockOrdered(values, Flatten(arranged), |buckets|, block, serpentine, b)
    ensures BlockTotal(values, Flatten(arranged), |buckets|, block, b) == Prefix(values, buckets[b], block)
  {
    FlattenSlices(arranged, block, b);
    ArrangedRanked(values, buckets[b], b, serpentine);
    ReverseTwice(buckets[b]);
    assert Block(Flatten(arranged), block, b) == arranged[b];
  }

  /** The buckets in order, each arranged. */
  method ArrangeAll(values: seq<real>, buckets: seq<seq<nat>>, serpentine: bool) returns (arranged: seq<seq<nat>>)
    requires forall b :: 0 <= b < |buckets| ==> Indices(buckets[b], |values|)
    ensures |arranged| == |buckets|
    ensures forall b :: 0 <= b < |buckets| ==> arranged[b] == Arrange(values, buckets[b], b, serpentine)
  {
    arranged := [];
    for b := 0 to |buckets|
      invariant |arranged| == b
      invariant forall k :: 0 <= k < b ==> arranged[k] == Arrange(values, buckets[k], k, serpentine)
    {
      var block := Arrange(values, buckets[b], b, serpentine);
      arranged := arranged + [block];
    }
  }

  lemma FairBothWays(values: seq<real>, buckets: seq<seq<nat>>, block: nat, top: real, a: nat, b: nat)
    requires forall k :: 0 <= k < |buckets| ==> |buckets[k]| == block && Indices(buckets[k], |values|)
    requires AllFair(values, buckets, top) && a < |buckets| && b < |buckets| && 0.0 <= top
    ensures Prefix(values, buckets[a], block) - Prefix(values, buckets[b], block) <= top
  {
    if a != b {
      assert Fair(values, buckets[a], buckets[b], top);
    }
  }

  lemma RankedRange(values: seq<real>)
    ensures Indices(Range(|values|), |values|) && Ranked(values, Sort(values, Range(|values|)))
    ensures |Sort(values, Range(|values|))| == |values|
  {
    SortRanked(values, Range(|values|));
    SameMembers(Sort(values, Range(|values|)), Range(|values|));
  }

  lemma ArrangedIsBijection(values: seq<real>, buckets: seq<seq<nat>>, arranged: seq<seq<nat>>, ranked: seq<nat>)
    requires |arranged| == |buckets| && Indices(ranked, |values|)
    requires forall b :: 0 <= b < |buckets| ==> multiset(arranged[b]) == multiset(buckets[b])
    requires multiset(Flatten(buckets)) == multiset(ranked) == multiset(Range(|values|))
    ensures Validates(Flatten(arranged), |values|) && Bijection(Flatten(arranged), |values|)
  {
    FlattenRearranged(buckets, arranged);
    SameMembers(Flatten(arranged), Range(|values|));
    ValidatesIffBijection(Flatten(arranged), |values|);
  }

  /** What the returned order promises, given how the greedy filled the buckets. */
  lemma ArrangedMeetsPromise(values: seq<real>, buckets: seq<seq<nat>>, arranged: seq<seq<nat>>, block: nat,
                             serpentine: bool, top: real)
    requires |arranged| == |buckets| && 0.0 <= top
    requires forall k :: 0 <= k < |buckets| ==> |buckets[k]| == block && Indices(buckets[k], |values|) && Ranked(values, buckets[k])
    requires forall k :: 0 <= k < |buckets| ==> arranged[k] == Arrange(values, buckets[k], k, serpentine)
    requires |Flatten(arranged)| == Blocks(|buckets|, block) && Indices(Flatten(arranged), |values|)
    ensures forall b :: 0 <= b < |buckets| ==> BlockOrdered(values, Flatten(arranged), |buckets|, block, serpentine, b)
    ensures AllFair(values, buckets, top) ==> Balanced(values, Flatten(arranged), |buckets|, block, top)
  {
    forall b | 0 <= b < |buckets|
      ensures BlockOrdered(values, Flatten(arranged), |buckets|, block, serpentine, b)
      ensures BlockTotal(values, Flatten(arranged), |buckets|, block, b) == Prefix(values, buckets[b], block)
    {
      BlocksArranged(values, buckets, arranged, block, serpentine, b);
    }
    if AllFair(values, buckets, top) {
      forall a, b | 0 <= a < |buckets| && 0 <= b < |buckets|
        ensures Prefix(values, buckets[a], block) - Prefix(values, buckets[b], block) <= top
      {
        FairBothWays(values, buckets, block, top, a, b);
      }
    }
  }

  /** Block b of the order is what bucket b took, by rank, or from the last rank up on odd blocks of a serpentine order. */
  ghost predicate IsBlockOf(order: seq<nat>, ranked: seq<nat>, choices: seq<nat>, block: nat, serpentine: bool, b: nat)
    requires |choices| <= |ranked|
  {
    var s, from := Taken(ranked, choices, |choices|, b), Blocks(b, block);
    |s| == block && from + block <= |order| && RunsAs(order[from..from + block], s, serpentine && b % 2 == 1)
  }

  ghost predicate RunsAs(part: seq<nat>, s: seq<nat>, backwards: bool) {
    |part| == |s| && forall i :: 0 <= i < |s| ==> part[i] == s[if backwards then |s| - 1 - i else i]
  }

  /** The order is that of the greedy. */
  ghost predicate IsGreedy(values: seq<real>, order: seq<nat>, nblocks: nat, block: nat, serpentine: bool, ranked: seq<nat>, choices: seq<nat>) {
    && IsRanking(values, ranked) && |choices| == |ranked| && AreChoices(values, ranked, choices, nblocks, block)
    && forall b :: 0 <= b < nblocks ==> IsBlockOf(order, ranked, choices, block, serpentine, b)
  }

  lemma ArrangedRuns(values: seq<real>, bucket: seq<nat>, b: nat, serpentine: bool)
    requires Indices(bucket, |values|) && Ranked(values, bucket)
    ensures RunsAs(Arrange(values, bucket, b, serpentine), bucket, serpentine && b % 2 == 1)
  {
    ArrangedRanked(values, bucket, b, serpentine);
  }

  lemma BlockSlice(arranged: seq<seq<nat>>, block: nat, b: nat)
    requires b < |arranged| && forall k :: 0 <= k < |arranged| ==> |arranged[k]| == block
    ensures Blocks(b, block) + block <= |Flatten(arranged)|
    ensures Flatten(arranged)[Blocks(b, block)..Blocks(b, block) + block] == arranged[b]
  {
    FlattenSlices(arranged, block, b);
  }

  lemma BlockIsTaken(values: seq<real>, bucket: seq<nat>, arranged: seq<seq<nat>>, ranked: seq<nat>, choices: seq<nat>,
                     block: nat, serpentine: bool, b: nat)
    requires b < |arranged| && |choices| <= |ranked|
    requires Indices(bucket, |values|) && Ranked(values, bucket) && bucket == Taken(ranked, choices, |choices|, b)
    requires forall k :: 0 <= k < |arranged| ==> |arranged[k]| == block
    requires arranged[b] == Arrange(values, bucket, b, serpentine)
    ensures IsBlockOf(Flatten(arranged), ranked, choices, block, serpentine, b)
  {
    BlockSlice(arranged, block, b);
    ArrangedRuns(values, bucket, b, serpentine);
  }

  lemma RankingOf(values: seq<real>, ranked: seq<nat>)
    requires ranked == Sort(values, Range(|values|))
    ensures IsRanking(values, ranked)
  {
    RankedRange(values);
    ValidatesIffBijection(ranked, |values|);
    forall i, j | 0 <= i < j < |ranked|
      ensures values[ranked[i]] > values[ranked[j]] || (values[ranked[i]] == values[ranked[j]] && ranked[i] < ranked[j])
    {
      assert Before(values, ranked[i], ranked[j]);
    }
  }

  lemma GreedyOf(values: seq<real>, buckets: seq<seq<nat>>, arranged: seq<seq<nat>>, ranked: seq<nat>, choices: seq<nat>,
                 block: nat, serpentine: bool)
    requires ranked == Sort(values, Range(|values|)) && |choices| == |ranked| && |arranged| == |buckets|
    requires AreChoices(values, ranked, choices, |buckets|, block)
    requires forall b :: 0 <= b < |buckets| ==> Indices(buckets[b], |values|) && Ranked(values, buckets[b])
    requires forall b :: 0 <= b < |buckets| ==> buckets[b] == Taken(ranked, choices, |choices|, b)
    requires forall b :: 0 <= b < |buckets| ==> |arranged[b]| == block && arranged[b] == Arrange(values, buckets[b], b, serpentine)
    ensures IsGreedy(values, Flatten(arranged), |buckets|, block, serpentine, ranked, choices)
  {
    RankingOf(values, ranked);
    forall b: nat | b < |buckets|
      ensures IsBlockOf(Flatten(arranged), ranked, choices, block, serpentine, b)
    {
      BlockIsTaken(values, buckets[b], arranged, ranked, choices, block, serpentine, b);
    }
  }

  /** The order for whole blocks: a bijection with every block full, ordered and balanced. */
  method BalanceBlocks(values: seq<real>, nblocks: nat, block: nat, serpentine: bool, ghost top: real)
    returns (order: seq<nat>)
    requires |values| == Blocks(nblocks, block) && 0.0 <= top
    ensures Validates(order, |values|) && Bijection(order, |values|)
    ensures forall b :: 0 <= b < nblocks ==> BlockOrdered(values, order, nblocks, block, serpentine, b)
    ensures Nonnegative(values, top) ==> Balanced(values, order, nblocks, block, top)
    ensures exists ranked, choices :: IsGreedy(values, order, nblocks, block, serpentine, ranked, choices)
  {
    RankedRange(values);
    var ranked := Sort(values, Range(|values|));
    var buckets, choices := FillBuckets(values, ranked, nblocks, block, top);
    var arranged := ArrangeAll(values, buckets, serpentine);
    order := Flatten(arranged);
    ArrangedIsBijection(values, buckets, arranged, ranked);
    ArrangedMeetsPromise(values, buckets, arranged, block, serpentine, top);
    GreedyOf(values, buckets, arranged, ranked, choices, block, serpentine);
  }

  /**
    * The refusal is exactly an empty diagonal or a ragged one. Otherwise the greedy never runs out of
    * eligible buckets and the order it returns passes validation.
    */
  method EnergyBalanced(values: seq<real>, block: nat, serpentine: bool, ghost top: real) returns (order: Option<seq<nat>>)
    requires block > 0 && 0.0 <= top
    ensures order.None? <==> values == [] || |values| % block != 0
    ensures order.Some? ==> Bijection(order.value, |values|) && |values| == Blocks(|values| / block, block)
    ensures order.Some? ==> forall b :: 0 <= b < |values| / block ==>
      BlockOrdered(values, order.value, |values| / block, block, serpentine, b)
    ensures order.Some? ==> exists ranked, choices ::
      IsGreedy(values, order.value, |values| / block, block, serpentine, ranked, choices)
    ensures order.Some? && Nonnegative(values, top) ==> Balanced(values, order.value, |values| / block, block, top)
  {
    if values == [] || |values| % block != 0 {
      return None;
    }
    var nblocks := |values| / block;
    BlocksIsProduct(nblocks, block);
    var result := BalanceBlocks(values, nblocks, block, serpentine, top);
    return if Validates(result, |values|) then Some(result) else None;
  }
}
