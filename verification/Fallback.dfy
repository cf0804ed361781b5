/** Cold fallback: four stratified reservoirs and a global one that tops them up. */
module Fallback {
  import opened Common

  /** A row of a shard; shards are numbered in the order of their ids. */
  datatype Loc = Loc(shard: nat, offset: nat)

  /** A row as streamed: its largest and its total selected route weight, and whether it is in the wanted split. */
  datatype Streamed = Streamed(loc: Loc, maximum: real, total: real, inSplit: bool)

  /** The same row with its bucket. */
  datatype Row = Row(loc: Loc, bucket: nat, inSplit: bool)

  type Priority = Loc -> int

  /** The heap order of (-priority, shard, offset). */
  predicate Less(p: Priority, a: Loc, b: Loc) {
    p(b) < p(a) || (p(a) == p(b) && (a.shard < b.shard || (a.shard == b.shard && a.offset < b.offset)))
  }

  ghost predicate Sorted(p: Priority, s: seq<Loc>) {
    forall i, j :: 0 <= i < j < |s| ==> Less(p, s[i], s[j])
  }

  function Insert(p: Priority, s: seq<Loc>, x: Loc): (r: seq<Loc>)
    ensures |r| == |s| + 1 && forall y :: y in r <==> y in s || y == x
  {
    if s == [] || Less(p, x, s[0]) then [x] + s
    else
      assert s == [s[0]] + s[1..];
      [s[0]] + Insert(p, s[1..], x)
  }

  function Sort(p: Priority, s: seq<Loc>): (r: seq<Loc>)
    ensures |r| == |s| && forall y :: y in r <==> y in s
  {
    if s == [] then []
    else
      assert s == s[..|s| - 1] + [s[|s| - 1]];
      Insert(p, Sort(p, s[..|s| - 1]), s[|s| - 1])
  }

  lemma {:induction false} InsertKeepsSorted(p: Priority, s: seq<Loc>, x: Loc)
    requires Sorted(p, s) && x !in s
    ensures Sorted(p, Insert(p, s, x))
  {
    if s != [] && !Less(p, x, s[0]) {
      InsertKeepsSorted(p, s[1..], x);
      var r := Insert(p, s[1..], x);
      forall k | 0 <= k < |r|
        ensures Less(p, s[0], r[k])
      {
        assert r[k] in s[1..] || r[k] == x;
      }
    }
  }

  predicate Distinct(s: seq<Loc>) {
    forall i, j :: 0 <= i < j < |s| ==> s[i] != s[j]
  }

  lemma {:induction false} SortIsSorted(p: Priority, s: seq<Loc>)
    requires Distinct(s)
    ensures Sorted(p, Sort(p, s))
  {
    if s != [] {
      SortIsSorted(p, s[..|s| - 1]);
      assert s[|s| - 1] !in s[..|s| - 1];
      InsertKeepsSorted(p, Sort(p, s[..|s| - 1]), s[|s| - 1]);
    }
  }

  lemma FirstIsMember(s: seq<Loc>)
    ensures s == [] || s[0] in s
  {
  }

  /** A set of rows has one sorted listing. */
  lemma {:induction false} SortedUnique(p: Priority, a: seq<Loc>, b: seq<Loc>)
    requires Sorted(p, a) && Sorted(p, b) && forall y :: y in a <==> y in b
    ensures a == b
  {
    if a == [] {
      FirstIsMember(b);
    } else {
      assert a[0] in b && b != [] && b[0] in a;
      assert a[0] == b[0];
      forall y
        ensures y in a[1..] <==> y in b[1..]
      {
        assert y in a <==> y == a[0] || y in a[1..];
        assert y in b <==> y == b[0] || y in b[1..];
      }
      SortedUnique(p, a[1..], b[1..]);
      assert a == [a[0]] + a[1..] && b == [b[0]] + b[1..];
    }
  }

  // ---- one reservoir ---------------------------------------------------------

  function Last<T>(s: seq<T>, n: nat): (r: seq<T>)
    ensures |r| == if n < |s| then n else |s|
  {
    if n < |s| then s[|s| - n..] else s
  }

  lemma {:induction false} InsertAbove(p: Priority, low: seq<Loc>, high: seq<Loc>, x: Loc)
    requires forall k :: 0 <= k < |low| ==> Less(p, low[k], x)
    ensures Insert(p, low + high, x) == low + Insert(p, high, x)
  {
    if low == [] {
      assert low + high == high;
    } else {
      var rest := low[1..];
      assert (low + high)[1..] == rest + high;
      InsertAbove(p, rest, high, x);
      assert [low[0]] + (rest + Insert(p, high, x)) == low + Insert(p, high, x);
    }
  }

  lemma {:induction false} InsertBelow(p: Priority, low: seq<Loc>, high: seq<Loc>, x: Loc)
    requires high != [] && Less(p, x, high[0])
    ensures Insert(p, low + high, x) == Insert(p, low, x) + high
  {
    if low == [] {
      assert low + high == high;
    } else if Less(p, x, low[0]) {
      assert [x] + (low + high) == ([x] + low) + high;
    } else {
      var rest := low[1..];
      assert (low + high)[1..] == rest + high;
      InsertBelow(p, rest, high, x);
      assert [low[0]] + (Insert(p, rest, x) + high) == ([low[0]] + Insert(p, rest, x)) + high;
    }
  }

  /** heappush while there is room, else heapreplace when the item beats the smallest; None is heap[0] of an empty heap. */
  function Offer(p: Priority, heap: seq<Loc>, capacity: nat, x: Loc): Option<seq<Loc>> {
    if |heap| < capacity then Some(Insert(p, heap, x))
    else if heap == [] then None
    else if Less(p, heap[0], x) then Some(Insert(p, heap[1..], x))
    else Some(heap)
  }

  /** A better row takes the place of the smallest one. */
  lemma OfferReplaces(p: Priority, low: seq<Loc>, heap: seq<Loc>, x: Loc)
    requires Sorted(p, low + heap) && heap != [] && Less(p, heap[0], x)
    ensures Insert(p, low + heap, x) == (low + [heap[0]]) + Insert(p, heap[1..], x)
  {
    var all, lower := low + heap, low + [heap[0]];
    assert all == lower + heap[1..];
    forall k | 0 <= k < |lower|
      ensures Less(p, lower[k], x)
    {
      assert lower[k] == all[k] && heap[0] == all[|low|];
      assert k < |low| ==> Less(p, all[k], all[|low|]);
    }
    InsertAbove(p, lower, heap[1..], x);
  }

  /** Offering one more row keeps the reservoir at the best rows so far. */
  lemma OfferKeepsBest(p: Priority, all: seq<Loc>, capacity: nat, x: Loc)
    requires Sorted(p, all) && x !in all && capacity > 0
    ensures Offer(p, Last(all, capacity), capacity, x) == Some(Last(Insert(p, all, x), capacity))
  {
    var heap := Last(all, capacity);
    if |all| >= capacity {
      var low := all[..|all| - capacity];
      assert all == low + heap;
      assert heap[0] == all[|low|];
      if Less(p, heap[0], x) {
        OfferReplaces(p, low, heap, x);
      } else {
        assert heap[0] != x;
        InsertBelow(p, low, heap, x);
      }
    }
  }

  // ---- buckets ----------------------------------------------------------------

  const FLOOR: real := 1e-30

  /** min(3, int(4 * share)), share being the maximum over the total. */
  function BucketOf(maximum: real, total: real): (b: nat)
    requires 0.0 <= maximum
    ensures b < 4
    ensures b < 3 ==> b as real / 4.0 <= maximum / (if total > FLOOR then total else FLOOR) < (b + 1) as real / 4.0
    ensures b == 3 ==> 0.75 <= maximum / if total > FLOOR then total else FLOOR
  {
    var share := maximum / if total > FLOOR then total else FLOOR;
    ShareNonnegative(maximum, if total > FLOOR then total else FLOOR);
    var quarter := (share * 4.0).Floor;
    if quarter > 3 then 3 else quarter
  }

  lemma ShareNonnegative(a: real, b: real)
    requires 0.0 <= a && 0.0 < b
    ensures 0.0 <= a / b
  {
  }

  /** The rows of the wanted split, in streaming order. */
  function Kept(rows: seq<Row>): (r: seq<Loc>) {
    if rows == [] then []
    else
      var last := rows[|rows| - 1];
      Kept(rows[..|rows| - 1]) + if last.inSplit then [last.loc] else []
  }

  function InBucket(rows: seq<Row>, bucket: nat): (r: seq<Loc>)
  {
    if rows == [] then []
    else
      var last := rows[|rows| - 1];
      InBucket(rows[..|rows| - 1], bucket) + if last.inSplit && last.bucket == bucket then [last.loc] else []
  }

  predicate Bucketed(rows: seq<Row>) {
    forall k :: 0 <= k < |rows| ==> rows[k].bucket < 4
  }

  /** No row is streamed twice. */
  predicate DistinctRows(rows: seq<Row>) {
    forall i, j :: 0 <= i < j < |rows| ==> rows[i].loc != rows[j].loc
  }

  lemma {:induction false} KeptMembers(rows: seq<Row>)
    ensures forall y :: y in Kept(rows) <==> exists k :: 0 <= k < |rows| && rows[k].inSplit && rows[k].loc == y
  {
    if rows != [] {
      var init, last := rows[..|rows| - 1], rows[|rows| - 1];
      KeptMembers(init);
      forall y
        ensures y in Kept(rows) <==> exists k :: 0 <= k < |rows| && rows[k].inSplit && rows[k].loc == y
      {
        if y in Kept(init) {
          var k :| 0 <= k < |init| && init[k].inSplit && init[k].loc == y;
          assert rows[k].inSplit && rows[k].loc == y;
        }
        if k :| 0 <= k < |rows| && rows[k].inSplit && rows[k].loc == y {
          assert k < |init| ==> init[k].inSplit && init[k].loc == y;
        }
      }
    }
  }

  lemma {:induction false} BucketMembers(rows: seq<Row>, bucket: nat)
    requires Bucketed(rows)
    ensures forall y :: y in InBucket(rows, bucket) <==>
      exists k :: 0 <= k < |rows| && rows[k].inSplit && rows[k].loc == y && rows[k].bucket == bucket
  {
    if rows != [] {
      var init, last := rows[..|rows| - 1], rows[|rows| - 1];
      BucketMembers(init, bucket);
      forall y
        ensures y in InBucket(rows, bucket) <==>
          exists k :: 0 <= k < |rows| && rows[k].inSplit && rows[k].loc == y && rows[k].bucket == bucket
      {
        if y in InBucket(init, bucket) {
          var k :| 0 <= k < |init| && init[k].inSplit && init[k].loc == y && init[k].bucket == bucket;
          assert rows[k].inSplit && rows[k].loc == y && rows[k].bucket == bucket;
        }
        if k :| 0 <= k < |rows| && rows[k].inSplit && rows[k].loc == y && rows[k].bucket == bucket {
          assert k < |init| ==> init[k].inSplit && init[k].loc == y && init[k].bucket == bucket;
        }
      }
    }
  }

  lemma {:induction false} KeptDistinct(rows: seq<Row>)
    requires DistinctRows(rows)
    ensures Distinct(Kept(rows))
  {
    if rows != [] {
      var init, last := rows[..|rows| - 1], rows[|rows| - 1];
      KeptDistinct(init);
      KeptMembers(init);
      assert forall k :: 0 <= k < |init| ==> init[k].loc != last.loc;
      assert last.loc !in Kept(init);
    }
  }

  lemma {:induction false} BucketDistinct(rows: seq<Row>, bucket: nat)
    requires Bucketed(rows) && DistinctRows(rows)
    ensures Distinct(InBucket(rows, bucket))
  {
    if rows != [] {
      var init, last := rows[..|rows| - 1], rows[|rows| - 1];
      BucketDistinct(init, bucket);
      BucketMembers(init, bucket);
      assert forall k :: 0 <= k < |init| ==> init[k].loc != last.loc;
      assert last.loc !in InBucket(init, bucket);
    }
  }

  // ---- the selection ------------------------------------------------------------

  function Members(s: seq<Loc>): (r: set<Loc>)
    ensures forall y :: y in r <==> y in s
  {
    set k | 0 <= k < |s| :: s[k]
  }

  lemma {:induction false} MembersCount(s: seq<Loc>)
    requires Distinct(s)
    ensures |Members(s)| == |s|
  {
    if s != [] {
      MembersCount(s[..|s| - 1]);
      assert s[|s| - 1] !in s[..|s| - 1];
      assert Members(s) == Members(s[..|s| - 1]) + {s[|s| - 1]};
    }
  }

  lemma SortedIsDistinct(p: Priority, s: seq<Loc>)
    requires Sorted(p, s)
    ensures Distinct(s)
  {
    forall i, j | 0 <= i < j < |s|
      ensures s[i] != s[j]
    {
      assert Less(p, s[i], s[j]);
    }
  }

  /** The loop over the global reservoir, best first, until limit rows are selected. */
  function TopUp(best: seq<Loc>, selected: set<Loc>, limit: nat): set<Loc> {
    if best == [] || |selected| >= limit then selected
    else TopUp(best[..|best| - 1], selected + {best[|best| - 1]}, limit)
  }

  /** The top-up only adds, stops at limit, or runs through everything. */
  lemma {:induction false} TopUpAdds(best: seq<Loc>, selected: set<Loc>, limit: nat)
    requires |selected| <= limit
    ensures selected <= TopUp(best, selected, limit) <= selected + Members(best)
    ensures |TopUp(best, selected, limit)| <= limit
    ensures |TopUp(best, selected, limit)| < limit ==> TopUp(best, selected, limit) == selected + Members(best)
  {
    if best == [] {
      assert selected + Members(best) == selected;
    } else if |selected| < limit {
      var init, last := best[..|best| - 1], best[|best| - 1];
      TopUpAdds(init, selected + {last}, limit);
      assert best == init + [last];
      assert selected + {last} + Members(init) == selected + Members(best);
    }
  }

  /** What it adds beats everything it leaves out. */
  lemma {:induction false} TopUpIsBest(p: Priority, best: seq<Loc>, selected: set<Loc>, limit: nat, a: Loc, b: Loc)
    requires Sorted(p, best) && |selected| <= limit
    requires a in TopUp(best, selected, limit) && a !in selected && b in best && b !in TopUp(best, selected, limit)
    ensures Less(p, b, a)
  {
    if best != [] && |selected| < limit {
      var init, last := best[..|best| - 1], best[|best| - 1];
      assert best == init + [last];
      TopUpAdds(init, selected + {last}, limit);
      assert b != last;
      if a == last {
        var k :| 0 <= k < |init| && init[k] == b;
        assert best[k] == b;
      } else {
        TopUpIsBest(p, init, selected + {last}, limit, a, b);
      }
    }
  }

  lemma {:induction false} Subset(a: set<Loc>, b: set<Loc>)
    requires a <= b
    ensures |a| <= |b|
    decreases |a|
  {
    if a != {} {
      var x :| x in a;
      Subset(a - {x}, b - {x});
    }
  }

  /** The best `room` rows of every bucket, then the best of the rest up to limit. */
  function Chosen(p: Priority, rows: seq<Row>, limit: nat): set<Loc>
  {
    TopUp(Last(Sort(p, Kept(rows)), limit), Stratified(p, rows, limit / 4), limit)
  }

  function Stratified(p: Priority, rows: seq<Row>, room: nat): set<Loc>
  {
    BucketBest(p, rows, 0, room) + BucketBest(p, rows, 1, room) + BucketBest(p, rows, 2, room) + BucketBest(p, rows, 3, room)
  }

  function BucketBest(p: Priority, rows: seq<Row>, bucket: nat, room: nat): set<Loc>
  {
    Members(Last(Sort(p, InBucket(rows, bucket)), room))
  }

  lemma BucketBestSmall(p: Priority, rows: seq<Row>, bucket: nat, room: nat)
    requires Bucketed(rows) && DistinctRows(rows)
    ensures |BucketBest(p, rows, bucket, room)| == if room < |InBucket(rows, bucket)| then room else |InBucket(rows, bucket)|
    ensures forall y :: y in BucketBest(p, rows, bucket, room) ==> y in Kept(rows)
  {
    BucketDistinct(rows, bucket);
    BucketMembers(rows, bucket);
    KeptMembers(rows);
    var sorted := Sort(p, InBucket(rows, bucket));
    SortIsSorted(p, InBucket(rows, bucket));
    SortedIsDistinct(p, Last(sorted, room));
    MembersCount(Last(sorted, room));
    forall y | y in Last(sorted, room)
      ensures y in InBucket(rows, bucket)
    {
      assert y in sorted;
    }
  }

  lemma UnionSize(a: set<Loc>, b: set<Loc>)
    ensures |a + b| <= |a| + |b|
  {
    assert |a + b| == |a| + |b| - |a * b|;
  }

  lemma StratifiedSmall(p: Priority, rows: seq<Row>, room: nat)
    requires Bucketed(rows) && DistinctRows(rows)
    ensures |Stratified(p, rows, room)| <= 4 * room
    ensures forall y :: y in Stratified(p, rows, room) ==> y in Kept(rows)
  {
    forall b: nat | b < 4
      ensures |BucketBest(p, rows, b, room)| <= room
      ensures forall y :: y in BucketBest(p, rows, b, room) ==> y in Kept(rows)
    {
      BucketBestSmall(p, rows, b, room);
    }
    var b0, b1, b2, b3 := BucketBest(p, rows, 0, room), BucketBest(p, rows, 1, room), BucketBest(p, rows, 2, room), BucketBest(p, rows, 3, room);
    UnionSize(b0, b1);
    UnionSize(b0 + b1, b2);
    UnionSize(b0 + b1 + b2, b3);
  }

  lemma LastMembers(s: seq<Loc>, n: nat)
    ensures forall k :: |s| - |Last(s, n)| <= k < |s| ==> s[k] in Last(s, n)
    ensures forall y :: y in Last(s, n) ==> y in s
  {
    var cut := |s| - |Last(s, n)|;
    forall k | cut <= k < |s|
      ensures s[k] in Last(s, n)
    {
      assert Last(s, n)[k - cut] == s[k];
    }
  }

  /** Whatever Last leaves out is below everything it takes. */
  lemma LastIsBest(p: Priority, all: seq<Loc>, n: nat, a: Loc, b: Loc)
    requires Sorted(p, all) && a in Last(all, n) && b in all && b !in Last(all, n)
    ensures Less(p, b, a)
  {
    var best := Last(all, n);
    var cut := |all| - |best|;
    LastMembers(all, n);
    var j :| 0 <= j < |best| && best[j] == a;
    var i :| 0 <= i < |all| && all[i] == b;
    assert i < cut && all[cut + j] == a;
  }

  lemma BeatsLeftOut(p: Priority, all: seq<Loc>, limit: nat, strata: set<Loc>, a: Loc, b: Loc)
    requires Sorted(p, all) && |strata| <= limit && b in all
    requires a in TopUp(Last(all, limit), strata, limit) && a !in strata && b !in TopUp(Last(all, limit), strata, limit)
    ensures Less(p, b, a)
  {
    var best := Last(all, limit);
    if b in best {
      TopUpIsBest(p, best, strata, limit, a, b);
    } else {
      TopUpAdds(best, strata, limit);
      LastIsBest(p, all, limit, a, b);
    }
  }

  lemma TopUpSize(p: Priority, all: seq<Loc>, limit: nat, strata: set<Loc>)
    requires Sorted(p, all) && |strata| <= limit && forall y :: y in strata ==> y in all
    ensures |TopUp(Last(all, limit), strata, limit)| == if limit < |all| then limit else |all|
    ensures forall y :: y in TopUp(Last(all, limit), strata, limit) ==> y in all
  {
    var best := Last(all, limit);
    TopUpAdds(best, strata, limit);
    LastMembers(all, limit);
    SortedIsDistinct(p, all);
    MembersCount(all);
    SortedIsDistinct(p, best);
    MembersCount(best);
    Subset(Members(best), strata + Members(best));
    Subset(TopUp(best, strata, limit), Members(all));
  }

  /** For every limit: exactly min(limit, N) rows of the split, and each bucket's best quarter among them. */
  lemma ChosenSize(p: Priority, rows: seq<Row>, limit: nat)
    requires Bucketed(rows) && DistinctRows(rows)
    ensures |Chosen(p, rows, limit)| == if limit < |Kept(rows)| then limit else |Kept(rows)|
    ensures Stratified(p, rows, limit / 4) <= Chosen(p, rows, limit)
    ensures forall y :: y in Chosen(p, rows, limit) ==> y in Kept(rows)
  {
    var all, strata := Sort(p, Kept(rows)), Stratified(p, rows, limit / 4);
    KeptDistinct(rows);
    SortIsSorted(p, Kept(rows));
    StratifiedSmall(p, rows, limit / 4);
    TopUpSize(p, all, limit, strata);
    TopUpAdds(Last(all, limit), strata, limit);
  }

  /** Every topped-up row beats every row of the split left out. */
  lemma ToppedUpBeatsLeftOut(p: Priority, rows: seq<Row>, limit: nat, a: Loc, b: Loc)
    requires Bucketed(rows) && DistinctRows(rows)
    requires a in Chosen(p, rows, limit) && a !in Stratified(p, rows, limit / 4)
    requires b in Kept(rows) && b !in Chosen(p, rows, limit)
    ensures Less(p, b, a)
  {
    KeptDistinct(rows);
    SortIsSorted(p, Kept(rows));
    StratifiedSmall(p, rows, limit / 4);
    BeatsLeftOut(p, Sort(p, Kept(rows)), limit, Stratified(p, rows, limit / 4), a, b);
  }

  // ---- the selection in numbers ---------------------------------------------------

  /** Row a goes before row b: the lower priority or, on equal priorities, the later shard and offset. */
  ghost predicate Before(p: Priority, a: Loc, b: Loc) {
    p(a) < p(b) || (p(a) == p(b) && (b.shard < a.shard || (b.shard == a.shard && b.offset < a.offset)))
  }

  /** As many of the rows as there is room for, each of them before every row left out. */
  ghost predicate TakesFirst(p: Priority, taken: set<Loc>, all: set<Loc>, room: nat) {
    && taken <= all && |taken| == (if room < |all| then room else |all|)
    && forall a, c :: a in taken && c in all && c !in taken ==> Before(p, a, c)
  }

  ghost function SplitSet(rows: seq<Row>): set<Loc> {
    set k | 0 <= k < |rows| && rows[k].inSplit :: rows[k].loc
  }

  ghost function BucketSet(rows: seq<Row>, bucket: nat): set<Loc> {
    set k | 0 <= k < |rows| && rows[k].inSplit && rows[k].bucket == bucket :: rows[k].loc
  }

  /**
    * kept[b] is the first quarter of the limit out of bucket b; the selection has min(limit, N) rows of the split,
    * those kept and then the first ones of the whole split.
    */
  ghost predicate IsSelection(p: Priority, rows: seq<Row>, limit: nat, locs: set<Loc>, kept: seq<set<Loc>>) {
    && |kept| == 4 && (forall b :: 0 <= b < 4 ==> TakesFirst(p, kept[b], BucketSet(rows, b), limit / 4) && kept[b] <= locs)
    && locs <= SplitSet(rows) && |locs| == (if limit < |SplitSet(rows)| then limit else |SplitSet(rows)|)
    && forall a, c :: a in locs && IsToppedUp(kept, a) && c in SplitSet(rows) && c !in locs ==> Before(p, a, c)
  }

  /** In no quarter. */
  ghost predicate IsToppedUp(kept: seq<set<Loc>>, a: Loc) {
    forall b :: 0 <= b < |kept| ==> a !in kept[b]
  }

  /** Of a sorted listing, Last takes the first rows. */
  lemma LastTakesFirst(p: Priority, listed: seq<Loc>, room: nat)
    requires Distinct(listed)
    ensures TakesFirst(p, Members(Last(Sort(p, listed), room)), Members(listed), room)
  {
    var sorted := Sort(p, listed);
    var taken := Last(sorted, room);
    SortIsSorted(p, listed);
    SortedIsDistinct(p, sorted);
    SortedIsDistinct(p, taken);
    MembersCount(taken);
    MembersCount(listed);
    LastMembers(sorted, room);
    forall a, c | a in taken && c in listed && c !in taken
      ensures Before(p, a, c)
    {
      LastIsBest(p, sorted, room, a, c);
    }
  }

  lemma SetsOfRows(rows: seq<Row>, b: nat)
    requires Bucketed(rows)
    ensures BucketSet(rows, b) == Members(InBucket(rows, b)) && SplitSet(rows) == Members(Kept(rows))
  {
    BucketMembers(rows, b);
    KeptMembers(rows);
    forall y
      ensures y in BucketSet(rows, b) <==> y in Members(InBucket(rows, b))
      ensures y in SplitSet(rows) <==> y in Members(Kept(rows))
    {
    }
  }

  lemma BucketTakesFirst(p: Priority, rows: seq<Row>, b: nat, room: nat)
    requires Bucketed(rows) && DistinctRows(rows)
    ensures TakesFirst(p, BucketBest(p, rows, b, room), BucketSet(rows, b), room)
    ensures b < 4 ==> BucketBest(p, rows, b, room) <= Stratified(p, rows, room)
  {
    BucketDistinct(rows, b);
    SetsOfRows(rows, b);
    LastTakesFirst(p, InBucket(rows, b), room);
    assert b < 4 ==> b == 0 || b == 1 || b == 2 || b == 3;
  }

  lemma ChosenFromSplit(p: Priority, rows: seq<Row>, limit: nat)
    requires Bucketed(rows) && DistinctRows(rows)
    ensures Chosen(p, rows, limit) <= SplitSet(rows)
    ensures |Chosen(p, rows, limit)| == if limit < |SplitSet(rows)| then limit else |SplitSet(rows)|
    ensures Stratified(p, rows, limit / 4) <= Chosen(p, rows, limit)
  {
    ChosenSize(p, rows, limit);
    KeptDistinct(rows);
    MembersCount(Kept(rows));
    SetsOfRows(rows, 0);
  }

  ghost predicate Quarters(p: Priority, rows: seq<Row>, room: nat, kept: seq<set<Loc>>) {
    |kept| == 4 && forall b :: 0 <= b < 4 ==> kept[b] == BucketBest(p, rows, b, room)
  }

  lemma ToppedUpBefore(p: Priority, rows: seq<Row>, limit: nat, kept: seq<set<Loc>>, a: Loc, c: Loc)
    requires Bucketed(rows) && DistinctRows(rows) && Quarters(p, rows, limit / 4, kept) && IsToppedUp(kept, a)
    requires a in Chosen(p, rows, limit) && c in SplitSet(rows) && c !in Chosen(p, rows, limit)
    ensures Before(p, a, c)
  {
    assert a !in kept[0] && a !in kept[1] && a !in kept[2] && a !in kept[3];
    SetsOfRows(rows, 0);
    ToppedUpBeatsLeftOut(p, rows, limit, a, c);
  }

  lemma QuarterFirst(p: Priority, rows: seq<Row>, limit: nat, kept: seq<set<Loc>>, b: nat)
    requires Bucketed(rows) && DistinctRows(rows) && Quarters(p, rows, limit / 4, kept) && b < 4
    ensures TakesFirst(p, kept[b], BucketSet(rows, b), limit / 4) && kept[b] <= Chosen(p, rows, limit)
  {
    BucketTakesFirst(p, rows, b, limit / 4);
    ChosenFromSplit(p, rows, limit);
  }

  /** What is chosen is the selection the heaps are there for. */
  lemma ChosenIsSelection(p: Priority, rows: seq<Row>, limit: nat, locs: set<Loc>, kept: seq<set<Loc>>)
    requires Bucketed(rows) && DistinctRows(rows) && Quarters(p, rows, limit / 4, kept) && locs == Chosen(p, rows, limit)
    ensures IsSelection(p, rows, limit, locs, kept)
  {
    ChosenFromSplit(p, rows, limit);
    forall b: nat | b < 4
      ensures TakesFirst(p, kept[b], BucketSet(rows, b), limit / 4) && kept[b] <= locs
    {
      QuarterFirst(p, rows, limit, kept, b);
    }
    forall a, c | a in locs && IsToppedUp(kept, a) && c in SplitSet(rows) && c !in locs
      ensures Before(p, a, c)
    {
      ToppedUpBefore(p, rows, limit, kept, a, c);
    }
  }

  ghost predicate IsSelected(p: Priority, rows: seq<Row>, limit: nat, locs: set<Loc>) {
    exists kept :: IsSelection(p, rows, limit, locs, kept)
  }

  lemma SelectionExists(p: Priority, rows: seq<Row>, limit: nat, locs: set<Loc>)
    requires Bucketed(rows) && DistinctRows(rows) && locs == Chosen(p, rows, limit)
    ensures IsSelected(p, rows, limit, locs)
  {
    ChosenIsSelection(p, rows, limit, locs, QuartersOf(p, rows, limit / 4));
  }

  ghost function QuartersOf(p: Priority, rows: seq<Row>, room: nat): (kept: seq<set<Loc>>)
    ensures Quarters(p, rows, room, kept)
  {
    seq(4, b requires 0 <= b < 4 => BucketBest(p, rows, b, room))
  }

  /** Nothing else is such a selection. */
  lemma TakesFirstUnique(p: Priority, a: set<Loc>, b: set<Loc>, all: set<Loc>, room: nat)
    requires TakesFirst(p, a, all, room) && TakesFirst(p, b, all, room)
    ensures a == b
  {
    if x :| x in a && x !in b {
      Missing(b, a, x);
      var y :| y in b && y !in a;
      assert false;
    }
    Equal(a, b);
  }

  /** Of two sets of one size, each has what the other lacks. */
  lemma Missing(a: set<Loc>, b: set<Loc>, x: Loc)
    requires |a| == |b| && x in b && x !in a
    ensures exists y :: y in a && y !in b
  {
    if a <= b {
      Subset(a, b - {x});
    }
  }

  lemma Equal(a: set<Loc>, b: set<Loc>)
    requires a <= b && |a| == |b|
    ensures a == b
  {
    if x :| x in b && x !in a {
      Subset(a, b - {x});
    }
  }

  /** One scan has one selection. */
  lemma SelectionUnique(p: Priority, rows: seq<Row>, limit: nat, locs: set<Loc>, kept: seq<set<Loc>>, locs': set<Loc>, kept': seq<set<Loc>>)
    requires IsSelection(p, rows, limit, locs, kept) && IsSelection(p, rows, limit, locs', kept')
    ensures locs == locs'
  {
    forall b | 0 <= b < 4
      ensures kept[b] == kept'[b]
    {
      TakesFirstUnique(p, kept[b], kept'[b], BucketSet(rows, b), limit / 4);
    }
    if x :| x in locs && x !in locs' {
      Missing(locs', locs, x);
      var y :| y in locs' && y !in locs;
      assert false;
    }
    Equal(locs, locs');
  }

  /** The selection depends on which rows are streamed, not on their order. */
  lemma OrderDoesNotMatter(p: Priority, a: seq<Row>, b: seq<Row>, limit: nat)
    requires Bucketed(a) && Bucketed(b) && DistinctRows(a) && DistinctRows(b) && forall r :: r in a <==> r in b
    ensures Chosen(p, a, limit) == Chosen(p, b, limit)
  {
    KeptMembers(a);
    KeptMembers(b);
    KeptDistinct(a);
    KeptDistinct(b);
    SortIsSorted(p, Kept(a));
    SortIsSorted(p, Kept(b));
    SameKept(a, b);
    SortedUnique(p, Sort(p, Kept(a)), Sort(p, Kept(b)));
    forall k: nat
      ensures BucketBest(p, a, k, limit / 4) == BucketBest(p, b, k, limit / 4)
    {
      SameBucket(p, a, b, k);
    }
  }

  lemma SameKept(a: seq<Row>, b: seq<Row>)
    requires forall r :: r in a <==> r in b
    ensures forall y :: y in Kept(a) <==> y in Kept(b)
  {
    KeptMembers(a);
    KeptMembers(b);
    forall y
      ensures y in Kept(a) <==> y in Kept(b)
    {
      if k :| 0 <= k < |a| && a[k].inSplit && a[k].loc == y {
        assert a[k] in b;
      }
      if k :| 0 <= k < |b| && b[k].inSplit && b[k].loc == y {
        assert b[k] in a;
      }
    }
  }

  lemma SameBucket(p: Priority, a: seq<Row>, b: seq<Row>, bucket: nat)
    requires Bucketed(a) && Bucketed(b) && DistinctRows(a) && DistinctRows(b) && forall r :: r in a <==> r in b
    ensures Sort(p, InBucket(a, bucket)) == Sort(p, InBucket(b, bucket))
  {
    BucketMembers(a, bucket);
    BucketMembers(b, bucket);
    forall y
      ensures y in InBucket(a, bucket) <==> y in InBucket(b, bucket)
    {
      if k :| 0 <= k < |a| && a[k].inSplit && a[k].loc == y && a[k].bucket == bucket {
        assert a[k] in b;
      }
      if k :| 0 <= k < |b| && b[k].inSplit && b[k].loc == y && b[k].bucket == bucket {
        assert b[k] in a;
      }
    }
    BucketDistinct(a, bucket);
    BucketDistinct(b, bucket);
    SortIsSorted(p, InBucket(a, bucket));
    SortIsSorted(p, InBucket(b, bucket));
    SortedUnique(p, Sort(p, InBucket(a, bucket)), Sort(p, InBucket(b, bucket)));
  }

  // ---- the streaming loop ----------------------------------------------------------

  datatype Result = Selected(locs: set<Loc>) | EmptyHeap | EmptyReservoir

  /** Four bucket reservoirs and the global one hold the best rows so far. */
  ghost predicate Best(p: Priority, rows: seq<Row>, limit: nat, heaps: seq<seq<Loc>>, global: seq<Loc>)
  {
    && |heaps| == 4
    && (forall b :: 0 <= b < 4 ==> heaps[b] == Last(Sort(p, InBucket(rows, b)), limit / 4))
    && global == Last(Sort(p, Kept(rows)), limit)
  }

  /** A new row of the wanted split, seen by the global reservoir. */
  lemma GlobalKeepsBest(p: Priority, rows: seq<Row>, row: Row, limit: nat)
    requires DistinctRows(rows + [row]) && row.inSplit && limit > 0
    ensures Offer(p, Last(Sort(p, Kept(rows)), limit), limit, row.loc) == Some(Last(Sort(p, Kept(rows + [row])), limit))
  {
    FreshRow(rows, row);
    KeptMembers(rows);
    KeptDistinct(rows);
    SortIsSorted(p, Kept(rows));
    assert Kept(rows + [row]) == Kept(rows) + [row.loc];
    assert Kept(rows + [row])[..|Kept(rows)|] == Kept(rows);
    OfferKeepsBest(p, Sort(p, Kept(rows)), limit, row.loc);
  }

  /** A new row of the wanted split, seen by its bucket. */
  lemma BucketKeepsBest(p: Priority, rows: seq<Row>, row: Row, capacity: nat)
    requires Bucketed(rows) && DistinctRows(rows + [row]) && row.inSplit && capacity > 0
    ensures Offer(p, Last(Sort(p, InBucket(rows, row.bucket)), capacity), capacity, row.loc)
         == Some(Last(Sort(p, InBucket(rows + [row], row.bucket)), capacity))
  {
    var b := row.bucket;
    FreshRow(rows, row);
    BucketMembers(rows, b);
    BucketDistinct(rows, b);
    SortIsSorted(p, InBucket(rows, b));
    assert InBucket(rows + [row], b) == InBucket(rows, b) + [row.loc];
    assert InBucket(rows + [row], b)[..|InBucket(rows, b)|] == InBucket(rows, b);
    OfferKeepsBest(p, Sort(p, InBucket(rows, b)), capacity, row.loc);
  }

  lemma FreshRow(rows: seq<Row>, row: Row)
    requires DistinctRows(rows + [row])
    ensures DistinctRows(rows) && (rows + [row])[..|rows|] == rows
    ensures forall k :: 0 <= k < |rows| ==> rows[k].loc != row.loc
  {
    assert (rows + [row])[|rows|] == row;
    assert forall k :: 0 <= k < |rows| ==> (rows + [row])[k] == rows[k];
  }

  lemma OtherBuckets(rows: seq<Row>, row: Row)
    ensures forall b: nat :: b != row.bucket ==> InBucket(rows + [row], b) == InBucket(rows, b)
  {
    assert (rows + [row])[..|rows|] == rows;
  }

  /** Rows of the other split leave every reservoir alone. */
  lemma SkippedRow(rows: seq<Row>, row: Row)
    requires Bucketed(rows + [row]) && Bucketed(rows) && !row.inSplit
    ensures Kept(rows + [row]) == Kept(rows) && forall b: nat :: InBucket(rows + [row], b) == InBucket(rows, b)
  {
    assert (rows + [row])[..|rows|] == rows;
  }

  method OfferRow(p: Priority, ghost rows: seq<Row>, row: Row, limit: nat, heaps: seq<seq<Loc>>, global: seq<Loc>)
    returns (heaps': seq<seq<Loc>>, global': seq<Loc>, failed: bool)
    requires Bucketed(rows + [row]) && Bucketed(rows) && DistinctRows(rows + [row]) && Best(p, rows, limit, heaps, global)
    ensures limit >= 4 || !row.inSplit ==> !failed && Best(p, rows + [row], limit, heaps', global')
    ensures failed ==> row.inSplit && limit < 4
    ensures row.inSplit && limit < 4 ==> failed
  {
    heaps', global', failed := heaps, global, false;
    if row.inSplit {
      assert (rows + [row])[|rows|] == row;
      if limit >= 4 {
        GlobalKeepsBest(p, rows, row, limit);
        BucketKeepsBest(p, rows, row, limit / 4);
        OtherBuckets(rows, row);
      }
      var bucket := row.bucket;
      var heap := Offer(p, heaps[bucket], limit / 4, row.loc);
      if heap.None? {
        return heaps, global, true;
      }
      var wide := Offer(p, global, limit, row.loc);
      if wide.None? {
        return heaps, global, true;
      }
      heaps', global' := heaps[bucket := heap.value], wide.value;
    } else {
      SkippedRow(rows, row);
    }
  }

  /** {location for heap in heaps for item in heap} */
  method Union(heaps: seq<seq<Loc>>) returns (selected: set<Loc>)
    requires |heaps| == 4
    ensures selected == Members(heaps[0]) + Members(heaps[1]) + Members(heaps[2]) + Members(heaps[3])
  {
    selected := {};
    for b := 0 to 4
      invariant selected == (if b > 0 then Members(heaps[0]) else {}) + (if b > 1 then Members(heaps[1]) else {})
                          + (if b > 2 then Members(heaps[2]) else {}) + (if b > 3 then Members(heaps[3]) else {})
    {
      selected := selected + Members(heaps[b]);
    }
  }

  /** for item in sorted(global, reverse=True): stop at limit, else add */
  method AddBest(global: seq<Loc>, selected: set<Loc>, limit: nat) returns (r: set<Loc>)
    ensures r == TopUp(global, selected, limit)
  {
    r := selected;
    var k := |global|;
    assert global[..k] == global;
    while k > 0
      invariant 0 <= k <= |global| && TopUp(global[..k], r, limit) == TopUp(global, selected, limit)
      decreases k
    {
      if |r| >= limit {
        return;
      }
      assert global[..k][..k - 1] == global[..k - 1];
      r := r + {global[k - 1]};
      k := k - 1;
    }
  }

  lemma NothingKept(p: Priority, rows: seq<Row>, limit: nat)
    requires Bucketed(rows) && DistinctRows(rows)
    ensures Kept(rows) == [] <==> forall k :: 0 <= k < |rows| ==> !rows[k].inSplit
    ensures limit > 0 ==> (Chosen(p, rows, limit) == {} <==> Kept(rows) == [])
  {
    KeptMembers(rows);
    ChosenSize(p, rows, limit);
    if Kept(rows) != [] {
      assert Kept(rows)[0] in Kept(rows);
    }
    forall k | 0 <= k < |rows| && rows[k].inSplit
      ensures Kept(rows) != []
    {
      assert rows[k].loc in Kept(rows);
    }
  }

  /** Route weights are not negative. */
  predicate Weighted(rows: seq<Streamed>) {
    forall k :: 0 <= k < |rows| ==> 0.0 <= rows[k].maximum
  }

  function Classified(rows: seq<Streamed>): (r: seq<Row>)
    requires Weighted(rows)
    ensures |r| == |rows| && Bucketed(r)
    ensures forall k :: 0 <= k < |rows| ==>
      r[k] == Row(rows[k].loc, BucketOf(rows[k].maximum, rows[k].total), rows[k].inSplit)
  {
    seq(|rows|, k requires 0 <= k < |rows| => Row(rows[k].loc, BucketOf(rows[k].maximum, rows[k].total), rows[k].inSplit))
  }

  /** Streams the rows through the reservoirs. */
  method Stream(p: Priority, streamed: seq<Streamed>, ghost rows: seq<Row>, limit: nat)
    returns (heaps: seq<seq<Loc>>, global: seq<Loc>, failed: bool)
    requires Weighted(streamed) && rows == Classified(streamed) && DistinctRows(rows)
    ensures failed <==> limit < 4 && exists k :: 0 <= k < |rows| && rows[k].inSplit
    ensures !failed ==> Best(p, rows, limit, heaps, global)
  {
    heaps, global, failed := [[], [], [], []], [], false;
    for k := 0 to |streamed|
      invariant !failed && Best(p, rows[..k], limit, heaps, global)
      invariant limit < 4 ==> forall i :: 0 <= i < k ==> !rows[i].inSplit
    {
      assert rows[..k + 1] == rows[..k] + [rows[k]];
      var row := Row(streamed[k].loc, BucketOf(streamed[k].maximum, streamed[k].total), streamed[k].inSplit);
      assert row == rows[k];
      heaps, global, failed := OfferRow(p, rows[..k], row, limit, heaps, global);
      if failed {
        return;
      }
    }
    assert rows[..|streamed|] == rows;
  }

  /**
    * The streamed selection is the sort-and-take selection for limit >= 4. Below 4 a bucket has no room, and
    * the first row of the split makes it look at the smallest item of an empty heap.
    */
  method FallbackLocations(p: Priority, streamed: seq<Streamed>, limit: nat) returns (r: Result)
    requires Weighted(streamed) && DistinctRows(Classified(streamed))
    ensures r == EmptyHeap <==> limit < 4 && exists k :: 0 <= k < |streamed| && Classified(streamed)[k].inSplit
    ensures r == EmptyReservoir <==> Kept(Classified(streamed)) == []
    ensures r.Selected? ==> r.locs == Chosen(p, Classified(streamed), limit)
    ensures r.Selected? ==> IsSelected(p, Classified(streamed), limit, r.locs)
  {
    ghost var rows := Classified(streamed);
    var heaps, global, failed := Stream(p, streamed, rows, limit);
    NothingKept(p, rows, limit);
    SelectionExists(p, rows, limit, Chosen(p, rows, limit));
    if failed {
      return EmptyHeap;
    }
    var selected := Union(heaps);
    assert selected == Stratified(p, rows, limit / 4);
    selected := AddBest(global, selected, limit);
    if selected == {} {
      return EmptyReservoir;
    }
    return Selected(selected);
  }
}
