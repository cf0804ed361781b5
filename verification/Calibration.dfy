/** Row planning over a real capture: routed rows from the row iterators, fallback rows from the reservoirs. */
module Calibration {
  import opened Common
  import opened RowIndex
  import opened ExpertRows
  import opened RowPlans
  import Fallback
  import Linear

  /** Reservoir size of the fallback. */
  const FALLBACK_ROWS: nat := 8192

  // ---- routed rows ---------------------------------------------------------------

  function Plain<H>(chunk: seq<ExpertRow<H>>): (rows: seq<Row<H>>)
    ensures |rows| == |chunk|
  {
    seq(|chunk|, k requires 0 <= k < |chunk| => Row(chunk[k].row, chunk[k].hidden))
  }

  function PlainChunks<H>(chunks: seq<seq<ExpertRow<H>>>): (batches: seq<seq<Row<H>>>)
    ensures |batches| == |chunks|
  {
    seq(|chunks|, k requires 0 <= k < |chunks| => Plain(chunks[k]))
  }

  /** However the iterator cuts its rows, the ids of the batches are those of the rows. */
  lemma {:induction false} AllOfChunks<H>(chunks: seq<seq<ExpertRow<H>>>)
    ensures All(PlainChunks(chunks)) == Ids(Plain(Concat(chunks)))
  {
    if chunks != [] {
      var init, last := chunks[..|chunks| - 1], chunks[|chunks| - 1];
      AllOfChunks(init);
      assert PlainChunks(chunks)[..|chunks| - 1] == PlainChunks(init);
      assert Ids(Plain(Concat(init) + last)) == Ids(Plain(Concat(init))) + Ids(Plain(last));
    }
  }

  /** Row ids the iterators yield for one split. */
  function RoutedIds<H>(tokens: seq<Token<H>>, holdout: Membership, expert: nat, split: Split): seq<nat>
    requires Paired(tokens)
  {
    Ids(Plain(Rows(tokens, 0, holdout, expert, split)))
  }

  /** They ascend and are exactly the rows of the split that list the expert. */
  lemma {:induction false} RoutedIdsExactly<H>(tokens: seq<Token<H>>, holdout: Membership, expert: nat, split: Split)
    requires Paired(tokens)
    ensures forall x: nat :: x in RoutedIds(tokens, holdout, expert, split) <==>
      x < |tokens| && expert in tokens[x].ids && Keeps(holdout, expert, x, split)
    ensures Ascending(RoutedIds(tokens, holdout, expert, split))
  {
    if tokens != [] {
      var last := |tokens| - 1;
      var init := tokens[..last];
      RoutedIdsExactly(init, holdout, expert, split);
      var before := RoutedIds(init, holdout, expert, split);
      assert RoutedIds(tokens, holdout, expert, split)
        == before + if expert in tokens[last].ids && Keeps(holdout, expert, last, split) then [last] else [];
      AscendingAppend(before, last);
    }
  }

  predicate Ascending(ids: seq<nat>) {
    forall i, j :: 0 <= i < j < |ids| ==> ids[i] < ids[j]
  }

  lemma AscendingAppend(ids: seq<nat>, x: nat)
    requires Ascending(ids)
    ensures (forall y :: y in ids ==> y < x) ==> Ascending(ids + [x])
  {
    if forall y :: y in ids ==> y < x {
      assert forall k :: 0 <= k < |ids| ==> ids[k] in ids;
    }
  }

  // ---- fallback rows ---------------------------------------------------------------

  /** weights.max(), for weights that are not negative. */
  function Largest(weights: seq<real>): (r: real)
    ensures 0.0 <= r && forall w :: w in weights ==> w <= r
    ensures r == 0.0 || r in weights
  {
    if weights == [] then 0.0
    else
      var before, last := Largest(weights[..|weights| - 1]), weights[|weights| - 1];
      assert weights == weights[..|weights| - 1] + [last];
      if last > before then last else before
  }

  function Total(weights: seq<real>): real {
    if weights == [] then 0.0 else Total(weights[..|weights| - 1]) + weights[|weights| - 1]
  }

  /** The total is the inner product with ones. */
  lemma {:induction false} TotalIsDot(weights: seq<real>, ones: seq<real>, n: nat)
    requires n <= |weights| == |ones| && forall k :: 0 <= k < |ones| ==> ones[k] == 1.0
    ensures Total(weights[..n]) == Linear.Dot(weights, ones, n)
  {
    if n > 0 {
      TotalIsDot(weights, ones, n - 1);
      assert weights[..n][..n - 1] == weights[..n - 1];
    }
  }

  /** One block as the reservoir scan streams it; the block is shard number `shard`. */
  function StreamBlock<H>(block: Batch<H>, shard: nat, holdout: Membership, expert: nat, split: Split): (r: seq<Fallback.Streamed>)
    ensures |r| == |block.tokens|
  {
    seq(|block.tokens|, o requires 0 <= o < |block.tokens| =>
      Fallback.Streamed(Fallback.Loc(shard, o), Largest(block.tokens[o].weights), Total(block.tokens[o].weights),
                        Keeps(holdout, expert, block.start + o, split)))
  }

  function StreamAll<H>(blocks: seq<Batch<H>>, holdout: Membership, expert: nat, split: Split): seq<Fallback.Streamed> {
    if blocks == [] then []
    else
      var last := |blocks| - 1;
      StreamAll(blocks[..last], holdout, expert, split) + StreamBlock(blocks[last], last, holdout, expert, split)
  }

  /** The shard and offset of a row. */
  function LocAt<H>(blocks: seq<Batch<H>>, row: nat): Fallback.Loc {
    if blocks == [] then Fallback.Loc(0, 0)
    else
      var last := |blocks| - 1;
      if blocks[last].start <= row then Fallback.Loc(last, row - blocks[last].start) else LocAt(blocks[..last], row)
  }

  /** Row x as the scan streams it. */
  function StreamedRow<H>(tokens: seq<Token<H>>, blocks: seq<Batch<H>>, x: nat, holdout: Membership, expert: nat, split: Split): Fallback.Streamed
    requires x < |tokens|
  {
    Fallback.Streamed(LocAt(blocks, x), Largest(tokens[x].weights), Total(tokens[x].weights), Keeps(holdout, expert, x, split))
  }

  lemma {:induction false} BlockStreamed<H>(tokens: seq<Token<H>>, blocks: seq<Batch<H>>, upTo: nat, o: nat, holdout: Membership, expert: nat, split: Split)
    requires blocks != [] && upTo <= |tokens| && blocks[|blocks| - 1].start <= upTo && o < upTo - blocks[|blocks| - 1].start
    requires blocks[|blocks| - 1].tokens == tokens[blocks[|blocks| - 1].start..upTo]
    ensures StreamBlock(blocks[|blocks| - 1], |blocks| - 1, holdout, expert, split)[o]
         == StreamedRow(tokens, blocks, blocks[|blocks| - 1].start + o, holdout, expert, split)
  {
    var last := blocks[|blocks| - 1];
    assert last.tokens[o] == tokens[last.start + o];
  }

  /** The scan streams the rows of the capture in order. */
  lemma {:induction false} StreamExactly<H>(tokens: seq<Token<H>>, blocks: seq<Batch<H>>, upTo: nat, holdout: Membership, expert: nat, split: Split)
    requires Blocked(tokens, blocks, upTo)
    ensures |StreamAll(blocks, holdout, expert, split)| == upTo <= |tokens|
    ensures forall x :: 0 <= x < upTo ==>
      StreamAll(blocks, holdout, expert, split)[x] == StreamedRow(tokens, blocks, x, holdout, expert, split)
    decreases |blocks|
  {
    if blocks != [] {
      var init, last := blocks[..|blocks| - 1], blocks[|blocks| - 1];
      StreamExactly(tokens, init, last.start, holdout, expert, split);
      forall x | 0 <= x < upTo
        ensures StreamAll(blocks, holdout, expert, split)[x] == StreamedRow(tokens, blocks, x, holdout, expert, split)
      {
        if x >= last.start {
          BlockStreamed(tokens, blocks, upTo, x - last.start, holdout, expert, split);
        } else {
          assert StreamAll(blocks, holdout, expert, split)[x] == StreamAll(init, holdout, expert, split)[x];
        }
      }
    }
  }

  lemma {:induction false} LocsDiffer<H>(tokens: seq<Token<H>>, blocks: seq<Batch<H>>, upTo: nat, x: nat, y: nat)
    requires Blocked(tokens, blocks, upTo) && x < y < upTo
    ensures LocAt(blocks, x) != LocAt(blocks, y) && LocAt(blocks, x).shard < |blocks|
    decreases |blocks|
  {
    if blocks != [] {
      var init, last := blocks[..|blocks| - 1], blocks[|blocks| - 1];
      if y < last.start {
        LocsDiffer(tokens, init, last.start, x, y);
      } else if x < last.start {
        ShardInRange(tokens, init, last.start, x);
      }
    }
  }

  lemma {:induction false} ShardInRange<H>(tokens: seq<Token<H>>, blocks: seq<Batch<H>>, upTo: nat, x: nat)
    requires Blocked(tokens, blocks, upTo) && x < upTo
    ensures LocAt(blocks, x).shard < |blocks|
    decreases |blocks|
  {
    if blocks != [] {
      var init, last := blocks[..|blocks| - 1], blocks[|blocks| - 1];
      if x < last.start {
        ShardInRange(tokens, init, last.start, x);
      }
    }
  }

  /** Rows below n that belong to the split. */
  function SplitIds(n: nat, holdout: Membership, expert: nat, split: Split): (r: seq<nat>)
  {
    if n == 0 then []
    else SplitIds(n - 1, holdout, expert, split) + if Keeps(holdout, expert, n - 1, split) then [n - 1] else []
  }

  lemma {:induction false} SplitIdsExactly(n: nat, holdout: Membership, expert: nat, split: Split)
    ensures forall x: nat :: x in SplitIds(n, holdout, expert, split) <==> x < n && Keeps(holdout, expert, x, split)
    ensures Ascending(SplitIds(n, holdout, expert, split))
  {
    if n > 0 {
      SplitIdsExactly(n - 1, holdout, expert, split);
      AscendingAppend(SplitIds(n - 1, holdout, expert, split), n - 1);
    }
  }

  lemma {:induction false} KeptCount(rows: seq<Fallback.Row>, holdout: Membership, expert: nat, split: Split)
    requires forall x :: 0 <= x < |rows| ==> rows[x].inSplit == Keeps(holdout, expert, x, split)
    ensures |Fallback.Kept(rows)| == |SplitIds(|rows|, holdout, expert, split)|
  {
    if rows != [] {
      KeptCount(rows[..|rows| - 1], holdout, expert, split);
    }
  }

  /** Rows of one block, up to offset n, that were selected. */
  function PickedBlock<H>(block: Batch<H>, shard: nat, locs: set<Fallback.Loc>, n: nat): seq<Row<H>>
    requires n <= |block.tokens|
  {
    if n == 0 then []
    else
      var o := n - 1;
      PickedBlock(block, shard, locs, o) + if Fallback.Loc(shard, o) in locs then [Row(block.start + o, block.tokens[o].hidden)] else []
  }

  /** Selected rows below n, in order. */
  function PickedIds<H>(blocks: seq<Batch<H>>, locs: set<Fallback.Loc>, n: nat): seq<nat> {
    if n == 0 then []
    else PickedIds(blocks, locs, n - 1) + if LocAt(blocks, n - 1) in locs then [n - 1] else []
  }

  lemma {:induction false} PickedExactly<H>(blocks: seq<Batch<H>>, locs: set<Fallback.Loc>, n: nat)
    ensures forall x: nat :: x in PickedIds(blocks, locs, n) <==> x < n && LocAt(blocks, x) in locs
    ensures Ascending(PickedIds(blocks, locs, n))
  {
    if n > 0 {
      PickedExactly(blocks, locs, n - 1);
      AscendingAppend(PickedIds(blocks, locs, n - 1), n - 1);
    }
  }

  /** Blocks behind a row do not change where it lies. */
  lemma {:induction false} PickedPrefix<H>(blocks: seq<Batch<H>>, b: nat, locs: set<Fallback.Loc>, n: nat)
    requires b < |blocks| && n <= blocks[b].start
    ensures PickedIds(blocks[..b + 1], locs, n) == PickedIds(blocks[..b], locs, n)
  {
    if n > 0 {
      PickedPrefix(blocks, b, locs, n - 1);
      assert blocks[..b + 1][..b] == blocks[..b];
    }
  }

  /** The ids picked from block b continue those picked before it. */
  lemma {:induction false} PickedInBlock<H>(blocks: seq<Batch<H>>, b: nat, locs: set<Fallback.Loc>, n: nat)
    requires b < |blocks| && n <= |blocks[b].tokens|
    ensures PickedIds(blocks[..b + 1], locs, blocks[b].start + n)
         == PickedIds(blocks[..b], locs, blocks[b].start) + Ids(PickedBlock(blocks[b], b, locs, n))
  {
    if n == 0 {
      PickedPrefix(blocks, b, locs, blocks[b].start);
    } else {
      PickedInBlock(blocks, b, locs, n - 1);
    }
  }

  method PickBlock<H>(block: Batch<H>, shard: nat, locs: set<Fallback.Loc>) returns (rows: seq<Row<H>>)
    ensures rows == PickedBlock(block, shard, locs, |block.tokens|)
  {
    rows := [];
    for o := 0 to |block.tokens|
      invariant rows == PickedBlock(block, shard, locs, o)
    {
      if Fallback.Loc(shard, o) in locs {
        rows := rows + [Row(block.start + o, block.tokens[o].hidden)];
      }
    }
  }

  /** Every row comes with the hidden state of its token. */
  ghost predicate Carries<H>(tokens: seq<Token<H>>, rows: seq<Row<H>>) {
    forall k :: 0 <= k < |rows| ==> rows[k].id < |tokens| && rows[k].hidden == tokens[rows[k].id].hidden
  }

  lemma {:induction false} PickedCarries<H>(tokens: seq<Token<H>>, block: Batch<H>, shard: nat, locs: set<Fallback.Loc>, n: nat)
    requires n <= |block.tokens| && block.start + |block.tokens| <= |tokens|
    requires block.tokens == tokens[block.start..block.start + |block.tokens|]
    ensures Carries(tokens, PickedBlock(block, shard, locs, n))
  {
    if n > 0 {
      PickedCarries(tokens, block, shard, locs, n - 1);
    }
  }

  lemma AllAppend<H>(batches: seq<seq<Row<H>>>, last: seq<Row<H>>)
    ensures All(batches + [last]) == All(batches) + Ids(last)
    ensures last == [] ==> All(batches) == All(batches) + Ids(last)
  {
    assert (batches + [last])[..|batches|] == batches;
  }

  /** What one more block adds. */
  method PickNext<H>(ghost tokens: seq<Token<H>>, blocks: seq<Batch<H>>, b: nat, locs: set<Fallback.Loc>, batches: seq<seq<Row<H>>>)
    returns (batches': seq<seq<Row<H>>>)
    requires Blocked(tokens, blocks, |tokens|) && b < |blocks|
    requires All(batches) == PickedIds(blocks[..b], locs, EndBefore(blocks, |tokens|, b))
    requires forall k :: 0 <= k < |batches| ==> Carries(tokens, batches[k])
    ensures All(batches') == PickedIds(blocks[..b + 1], locs, EndBefore(blocks, |tokens|, b + 1))
    ensures forall k :: 0 <= k < |batches'| ==> Carries(tokens, batches'[k])
  {
    BlockExtends(tokens, blocks, |tokens|, b);
    BlockedPrefix(tokens, blocks, |tokens|, b + 1);
    PickedInBlock(blocks, b, locs, |blocks[b].tokens|);
    PickedCarries(tokens, blocks[b], b, locs, |blocks[b].tokens|);
    var rows := PickBlock(blocks[b], b, locs);
    AllAppend(batches, rows);
    batches' := if rows == [] then batches else batches + [rows];
  }

  /** Block by block, the selected rows; blocks without one yield nothing. */
  method PickRows<H>(ghost tokens: seq<Token<H>>, blocks: seq<Batch<H>>, locs: set<Fallback.Loc>) returns (batches: seq<seq<Row<H>>>)
    requires Blocked(tokens, blocks, |tokens|)
    ensures All(batches) == PickedIds(blocks, locs, |tokens|)
    ensures forall k :: 0 <= k < |batches| ==> Carries(tokens, batches[k])
  {
    batches := [];
    BlockedPrefix(tokens, blocks, |tokens|, 0);
    for b := 0 to |blocks|
      invariant All(batches) == PickedIds(blocks[..b], locs, EndBefore(blocks, |tokens|, b))
      invariant forall k :: 0 <= k < |batches| ==> Carries(tokens, batches[k])
    {
      batches := PickNext(tokens, blocks, b, locs, batches);
    }
    assert blocks[..|blocks|] == blocks;
  }

  /** The smaller of the reservoir size and the number of rows. */
  function Capped(n: nat): nat {
    if n < FALLBACK_ROWS then n else FALLBACK_ROWS
  }

  /** Ascending rows of the split, as many as the reservoir holds. */
  ghost predicate FallbackOk(ids: seq<nat>, all: seq<nat>) {
    Ascending(ids) && (forall x :: x in ids ==> x in all) && |ids| == Capped(|all|)
  }

  // ---- the reservoirs ------------------------------------------------------------------

  /** What the reservoir scan gets: every row of the capture once, with its bucket and its split. */
  lemma {:induction false} ScanInput<H>(tokens: seq<Token<H>>, blocks: seq<Batch<H>>, holdout: Membership, expert: nat, split: Split)
    requires Blocked(tokens, blocks, |tokens|)
    ensures
      var streamed := StreamAll(blocks, holdout, expert, split);
      && |streamed| == |tokens| && Fallback.Weighted(streamed)
      && (forall x :: 0 <= x < |tokens| ==>
            streamed[x].loc == LocAt(blocks, x) && streamed[x].inSplit == Keeps(holdout, expert, x, split))
      && Fallback.DistinctRows(Fallback.Classified(streamed))
      && |Fallback.Kept(Fallback.Classified(streamed))| == |SplitIds(|tokens|, holdout, expert, split)|
  {
    var streamed := StreamAll(blocks, holdout, expert, split);
    StreamExactly(tokens, blocks, |tokens|, holdout, expert, split);
    ScanDistinct(tokens, blocks, streamed);
    KeptCount(Fallback.Classified(streamed), holdout, expert, split);
  }

  lemma {:induction false} ScanDistinct<H>(tokens: seq<Token<H>>, blocks: seq<Batch<H>>, streamed: seq<Fallback.Streamed>)
    requires Blocked(tokens, blocks, |tokens|) && |streamed| == |tokens| && Fallback.Weighted(streamed)
    requires forall x :: 0 <= x < |tokens| ==> streamed[x].loc == LocAt(blocks, x)
    ensures Fallback.DistinctRows(Fallback.Classified(streamed))
  {
    forall x, y | 0 <= x < y < |tokens|
      ensures streamed[x].loc != streamed[y].loc
    {
      LocsDiffer(tokens, blocks, |tokens|, x, y);
    }
  }

  function LocsOf<H>(blocks: seq<Batch<H>>, ids: seq<nat>): (locs: seq<Fallback.Loc>)
    ensures |locs| == |ids|
  {
    seq(|ids|, k requires 0 <= k < |ids| => LocAt(blocks, ids[k]))
  }

  /** y is where some row below n lies that belongs to the split. */
  ghost predicate RowOfSplit<H>(blocks: seq<Batch<H>>, n: nat, holdout: Membership, expert: nat, split: Split, y: Fallback.Loc) {
    exists x: nat :: x < n && LocAt(blocks, x) == y && Keeps(holdout, expert, x, split)
  }

  lemma {:induction false} SameRow<H>(tokens: seq<Token<H>>, blocks: seq<Batch<H>>, x: nat, z: nat)
    requires Blocked(tokens, blocks, |tokens|) && x < |tokens| && z < |tokens|
    ensures LocAt(blocks, x) == LocAt(blocks, z) <==> x == z
  {
    if x < z {
      LocsDiffer(tokens, blocks, |tokens|, x, z);
    } else if z < x {
      LocsDiffer(tokens, blocks, |tokens|, z, x);
    }
  }

  lemma {:induction false} PickedLocs<H>(tokens: seq<Token<H>>, blocks: seq<Batch<H>>, locs: set<Fallback.Loc>)
    requires Blocked(tokens, blocks, |tokens|)
    ensures Fallback.Distinct(LocsOf(blocks, PickedIds(blocks, locs, |tokens|)))
  {
    var ids := PickedIds(blocks, locs, |tokens|);
    PickedExactly(blocks, locs, |tokens|);
    forall i, j | 0 <= i < j < |ids|
      ensures LocAt(blocks, ids[i]) != LocAt(blocks, ids[j])
    {
      assert ids[i] in ids && ids[j] in ids;
      SameRow(tokens, blocks, ids[i], ids[j]);
    }
  }

  /** Selected locations and picked rows are one to one. */
  lemma {:induction false} PickedSize<H>(tokens: seq<Token<H>>, blocks: seq<Batch<H>>, locs: set<Fallback.Loc>, holdout: Membership, expert: nat, split: Split)
    requires Blocked(tokens, blocks, |tokens|)
    requires forall y :: y in locs ==> RowOfSplit(blocks, |tokens|, holdout, expert, split, y)
    ensures |PickedIds(blocks, locs, |tokens|)| == |locs|
  {
    var ids := PickedIds(blocks, locs, |tokens|);
    var picked := LocsOf(blocks, ids);
    PickedExactly(blocks, locs, |tokens|);
    PickedLocs(tokens, blocks, locs);
    Fallback.MembersCount(picked);
    forall y
      ensures y in picked <==> y in locs
    {
      if y in locs {
        var x: nat :| x < |tokens| && LocAt(blocks, x) == y && Keeps(holdout, expert, x, split);
        var k :| 0 <= k < |ids| && ids[k] == x;
        assert picked[k] == y;
      }
      if y in picked {
        var k :| 0 <= k < |picked| && picked[k] == y;
        assert ids[k] in ids;
      }
    }
    assert Fallback.Members(picked) == locs;
  }

  /** Locations of rows of the split pick rows of the split, each once. */
  lemma {:induction false} PickedOk<H>(tokens: seq<Token<H>>, blocks: seq<Batch<H>>, locs: set<Fallback.Loc>, holdout: Membership, expert: nat, split: Split)
    requires Blocked(tokens, blocks, |tokens|) && |locs| == Capped(|SplitIds(|tokens|, holdout, expert, split)|)
    requires forall y :: y in locs ==> RowOfSplit(blocks, |tokens|, holdout, expert, split, y)
    ensures FallbackOk(PickedIds(blocks, locs, |tokens|), SplitIds(|tokens|, holdout, expert, split))
  {
    var ids := PickedIds(blocks, locs, |tokens|);
    PickedSize(tokens, blocks, locs, holdout, expert, split);
    PickedExactly(blocks, locs, |tokens|);
    SplitIdsExactly(|tokens|, holdout, expert, split);
    forall x | x in ids
      ensures Keeps(holdout, expert, x, split)
    {
      var z: nat :| z < |tokens| && LocAt(blocks, z) == LocAt(blocks, x) && Keeps(holdout, expert, z, split);
      SameRow(tokens, blocks, x, z);
    }
  }

  /** The reservoirs select locations of rows of the split, as many as they can hold. */
  lemma {:induction false} ChosenOk<H>(tokens: seq<Token<H>>, blocks: seq<Batch<H>>, p: Fallback.Priority, holdout: Membership, expert: nat, split: Split,
                                       rows: seq<Fallback.Row>)
    requires Blocked(tokens, blocks, |tokens|) && |rows| == |tokens| && Fallback.Bucketed(rows) && Fallback.DistinctRows(rows)
    requires forall x :: 0 <= x < |rows| ==> rows[x].loc == LocAt(blocks, x) && rows[x].inSplit == Keeps(holdout, expert, x, split)
    ensures |Fallback.Chosen(p, rows, FALLBACK_ROWS)| == Capped(|SplitIds(|tokens|, holdout, expert, split)|)
    ensures forall y :: y in Fallback.Chosen(p, rows, FALLBACK_ROWS) ==> RowOfSplit(blocks, |tokens|, holdout, expert, split, y)
  {
    KeptCount(rows, holdout, expert, split);
    Fallback.ChosenSize(p, rows, FALLBACK_ROWS);
    Fallback.KeptMembers(rows);
    forall y | y in Fallback.Chosen(p, rows, FALLBACK_ROWS)
      ensures RowOfSplit(blocks, |tokens|, holdout, expert, split, y)
    {
      var x :| 0 <= x < |rows| && rows[x].inSplit && rows[x].loc == y;
      assert LocAt(blocks, x) == y;
    }
  }

  /** Exactly the rows whose locations are the selection over the whole capture, with their hidden states. */
  ghost predicate FromReservoirs<H>(tokens: seq<Token<H>>, blocks: seq<Batch<H>>, p: Fallback.Priority, streamed: seq<Fallback.Streamed>,
                                    locs: set<Fallback.Loc>, batches: seq<seq<Row<H>>>) {
    && Fallback.Weighted(streamed) && Fallback.IsSelected(p, Fallback.Classified(streamed), FALLBACK_ROWS, locs)
    && (forall x: nat :: x in All(batches) <==> x < |tokens| && LocAt(blocks, x) in locs)
    && forall k :: 0 <= k < |batches| ==> Carries(tokens, batches[k])
  }

  /** What the scan of one split comes to: nothing exactly without a row, else the rows of the selection. */
  ghost predicate Scanned<H>(tokens: seq<Token<H>>, blocks: seq<Batch<H>>, p: Fallback.Priority, holdout: Membership, expert: nat, split: Split,
                             batches: Option<seq<seq<Row<H>>>>) {
    && (batches.None? <==> SplitIds(|tokens|, holdout, expert, split) == [])
    && (batches.Some? ==> exists locs :: FromReservoirs(tokens, blocks, p, StreamAll(blocks, holdout, expert, split), locs, batches.value))
  }

  /** Streams the capture through the reservoirs and yields the selected rows; None is the empty reservoir. */
  method ReservoirRows<H>(tokens: seq<Token<H>>, blocks: seq<Batch<H>>, p: Fallback.Priority, holdout: Membership, expert: nat, split: Split)
    returns (batches: Option<seq<seq<Row<H>>>>)
    requires Blocked(tokens, blocks, |tokens|)
    ensures Scanned(tokens, blocks, p, holdout, expert, split, batches)
    ensures batches.Some? ==> FallbackOk(All(batches.value), SplitIds(|tokens|, holdout, expert, split))
  {
    ScanInput(tokens, blocks, holdout, expert, split);
    var streamed := StreamAll(blocks, holdout, expert, split);
    var selected := Fallback.FallbackLocations(p, streamed, FALLBACK_ROWS);
    if !selected.Selected? {
      return None;
    }
    ChosenOk(tokens, blocks, p, holdout, expert, split, Fallback.Classified(streamed));
    PickedOk(tokens, blocks, selected.locs, holdout, expert, split);
    var picked := PickRows(tokens, blocks, selected.locs);
    PickedExactly(blocks, selected.locs, |tokens|);
    assert FromReservoirs(tokens, blocks, p, streamed, selected.locs, picked);
    return Some(picked);
  }

  // ---- how many rows there are ---------------------------------------------------------

  lemma AscendingDistinct(ids: seq<nat>)
    requires Ascending(ids)
    ensures Distinct(ids)
  {
  }

  lemma {:induction false} MembersSize(ids: seq<nat>)
    requires Distinct(ids)
    ensures |Members(ids)| == |ids|
  {
    if ids != [] {
      var init, last := ids[..|ids| - 1], ids[|ids| - 1];
      MembersSize(init);
      assert last !in init;
      assert Members(ids) == Members(init) + {last};
    }
  }

  lemma SubsetSize(a: set<nat>, b: set<nat>)
    requires a <= b
    ensures |a| <= |b| && (|a| == |b| ==> a == b)
  {
    assert b == a + (b - a);
    assert |b| == |a| + |b - a|;
  }

  /** A source for one split of the capture: routed rows of the split, and as many fallback rows as the reservoir holds. */
  ghost predicate Serves<H>(backend: Backend<H>, split: Split, all: seq<nat>) {
    var routed, offered := All(backend.routed(split)), All(backend.Offered(split));
    && Distinct(all) && Distinct(routed) && Distinct(offered)
    && (forall x :: x in routed ==> x in all) && (forall x :: x in offered ==> x in all)
    && |offered| == Capped(|all|) && (backend.fallback(split).None? <==> all == [])
  }

  /**
    * Routed rows topped up with the fresh fallback ones reach any number up to the reservoir size exactly when
    * the split has that many rows; and when it has fewer, they are all of them.
    */
  lemma EnoughIff(routed: seq<nat>, offered: seq<nat>, seen: set<nat>, all: seq<nat>, need: nat)
    requires Distinct(all) && Distinct(routed) && Distinct(offered) && need <= FALLBACK_ROWS
    requires (forall x :: x in routed ==> x in all) && (forall x :: x in offered ==> x in all)
    requires |offered| == Capped(|all|) && forall x :: x in all ==> (x in seen <==> x in routed)
    ensures |routed| + |Fresh(offered, seen)| >= need <==> |all| >= need
    ensures |all| < FALLBACK_ROWS ==> |routed| + |Fresh(offered, seen)| == |all|
  {
    var extra := Fresh(offered, seen);
    FreshExactly(offered, seen);
    MembersSize(routed);
    MembersSize(offered);
    MembersSize(all);
    MembersSize(extra);
    var joined := Members(routed) + Members(extra);
    assert Members(routed) * Members(extra) == {};
    assert |joined| == |routed| + |extra|;
    SubsetSize(joined, Members(all));
    SubsetSize(Members(offered), Members(all));
    assert Members(offered) <= joined;
    SubsetSize(Members(offered), joined);
  }

  /** The fit plan succeeds exactly when the capture has enough rows of the split; otherwise the missing rows are known. */
  lemma FitPlanIff<H>(backend: Backend<H>, split: Split, all: seq<nat>, minFit: nat)
    requires Serves(backend, split, all) && minFit <= FALLBACK_ROWS
    ensures FitPlan(backend, split, minFit).Planned? <==> minFit <= |all|
    ensures FitPlan(backend, split, minFit).Refused? ==>
      FitPlan(backend, split, minFit).fault == if all == [] then EmptyReservoir else Underfilled(minFit - |all|)
  {
    var routed := All(backend.routed(split));
    EnoughIff(routed, All(backend.Offered(split)), Members(routed), all, minFit);
  }

  lemma HoldoutIff<H>(backend: Backend<H>, all: seq<nat>, excluded: seq<nat>, wanted: nat)
    requires Serves(backend, Holdout, all) && wanted <= FALLBACK_ROWS
    requires forall x :: x in excluded ==> x !in all
    ensures wanted <= |HoldoutOrder(backend, excluded)| <==> wanted <= |all|
  {
    var routed := All(backend.routed(Holdout));
    EnoughIff(routed, All(backend.Offered(Holdout)), Members(excluded) + Members(routed), all, wanted);
  }

  // ---- the two sources of a capture -------------------------------------------------------

  /** Batches of routed and fallback rows of both splits, as the iterators returned them. */
  datatype Drawn<!H> = Drawn(routed: Split -> seq<seq<Row<H>>>, fallback: Split -> Option<seq<seq<Row<H>>>>)

  /** What both iterators guarantee about one split of a capture. */
  ghost predicate Faithful<H>(tokens: seq<Token<H>>, holdout: Membership, expert: nat, drawn: Drawn<H>, split: Split)
    requires Paired(tokens)
  {
    var all := SplitIds(|tokens|, holdout, expert, split);
    && All(drawn.routed(split)) == RoutedIds(tokens, holdout, expert, split)
    && (drawn.fallback(split).None? <==> all == [])
    && (drawn.fallback(split).Some? ==> FallbackOk(All(drawn.fallback(split).value), all))
  }

  function BackendOf<H>(holdout: Membership, expert: nat, drawn: Drawn<H>): Backend<H> {
    Backend(drawn.routed, drawn.fallback, (x: nat) => holdout(expert, x))
  }

  lemma {:induction false} BatchDistinct<H>(batches: seq<seq<Row<H>>>, b: nat)
    requires Distinct(All(batches)) && b < |batches|
    ensures Distinct(Ids(batches[b]))
  {
    BatchIsNew(batches, b);
  }

  /** The repository's own iterators are a valid backend, and they serve every split. */
  lemma BackendIsValid<H>(tokens: seq<Token<H>>, holdout: Membership, expert: nat, drawn: Drawn<H>)
    requires Paired(tokens) && forall split :: Faithful(tokens, holdout, expert, drawn, split)
    ensures BackendOf(holdout, expert, drawn).Valid()
    ensures forall split :: Serves(BackendOf(holdout, expert, drawn), split, SplitIds(|tokens|, holdout, expert, split))
  {
    forall split
      ensures BackendOf(holdout, expert, drawn).SplitOk(split)
      ensures Serves(BackendOf(holdout, expert, drawn), split, SplitIds(|tokens|, holdout, expert, split))
    {
      SplitIsServed(tokens, holdout, expert, drawn, split);
    }
  }

  /** Routed rows repeat nothing and are rows of the split. */
  lemma RoutedServed<H>(tokens: seq<Token<H>>, holdout: Membership, expert: nat, split: Split)
    requires Paired(tokens)
    ensures Distinct(RoutedIds(tokens, holdout, expert, split)) && Distinct(SplitIds(|tokens|, holdout, expert, split))
    ensures forall x :: x in RoutedIds(tokens, holdout, expert, split) ==> x in SplitIds(|tokens|, holdout, expert, split)
  {
    RoutedIdsExactly(tokens, holdout, expert, split);
    SplitIdsExactly(|tokens|, holdout, expert, split);
    AscendingDistinct(RoutedIds(tokens, holdout, expert, split));
    AscendingDistinct(SplitIds(|tokens|, holdout, expert, split));
  }

  lemma {:induction false} OfferedServed<H>(backend: Backend<H>, split: Split, all: seq<nat>)
    requires backend.fallback(split).None? <==> all == []
    requires backend.fallback(split).Some? ==> FallbackOk(All(backend.fallback(split).value), all)
    ensures FallbackOk(All(backend.Offered(split)), all) && Distinct(All(backend.Offered(split)))
    ensures forall b :: 0 <= b < |backend.Offered(split)| ==> Distinct(Ids(backend.Offered(split)[b]))
  {
    AscendingDistinct(All(backend.Offered(split)));
    forall b | 0 <= b < |backend.Offered(split)|
      ensures Distinct(Ids(backend.Offered(split)[b]))
    {
      BatchDistinct(backend.Offered(split), b);
    }
  }

  lemma InSplitOnly<H>(backend: Backend<H>, tokens: seq<Token<H>>, holdout: Membership, expert: nat, split: Split, ids: seq<nat>)
    requires forall x: nat :: backend.holdout(x) == holdout(expert, x)
    requires forall x :: x in ids ==> x in SplitIds(|tokens|, holdout, expert, split)
    ensures forall k :: 0 <= k < |ids| ==> backend.InSplit(ids[k], split)
  {
    SplitIdsExactly(|tokens|, holdout, expert, split);
    forall k | 0 <= k < |ids|
      ensures backend.InSplit(ids[k], split)
    {
      assert ids[k] in ids;
    }
  }

  lemma {:induction false} SplitIsServed<H>(tokens: seq<Token<H>>, holdout: Membership, expert: nat, drawn: Drawn<H>, split: Split)
    requires Paired(tokens) && Faithful(tokens, holdout, expert, drawn, split)
    ensures BackendOf(holdout, expert, drawn).SplitOk(split)
    ensures Serves(BackendOf(holdout, expert, drawn), split, SplitIds(|tokens|, holdout, expert, split))
  {
    var backend := BackendOf(holdout, expert, drawn);
    RoutedServed(tokens, holdout, expert, split);
    OfferedServed(backend, split, SplitIds(|tokens|, holdout, expert, split));
    InSplitOnly(backend, tokens, holdout, expert, split, All(backend.routed(split)));
    InSplitOnly(backend, tokens, holdout, expert, split, All(backend.Offered(split)));
  }

  // ---- the flat fallback --------------------------------------------------------------------

  /** The first rows of the split in the given order, up to the reservoir size, then sorted; None is the empty reservoir. */
  method FlatFallback(order: seq<nat>, n: nat, holdout: Membership, expert: nat, split: Split) returns (rows: Option<seq<nat>>)
    requires Distinct(order) && forall x: nat :: x in order <==> x < n
    ensures rows.None? <==> SplitIds(n, holdout, expert, split) == []
    ensures rows.Some? ==> FirstInOrder(order, n, holdout, expert, split, rows.value)
  {
    var selected := FirstOfSplit(order, n, holdout, expert, split);
    if selected == [] {
      return None;
    }
    SplitIdsExactly(n, holdout, expert, split);
    var sorted := Sorted(selected, n);
    ghost var k: nat :| k <= |order| && Taken(order, k, holdout, expert, split, selected);
    AscendingDistinct(sorted);
    assert Taken(order, k, holdout, expert, split, sorted);
    return Some(sorted);
  }

  /** selected are the rows of the split among the first k of the order. */
  ghost predicate Taken(order: seq<nat>, k: nat, holdout: Membership, expert: nat, split: Split, selected: seq<nat>)
    requires k <= |order|
  {
    && Distinct(selected)
    && forall x :: x in selected <==> x in order[..k] && Keeps(holdout, expert, x, split)
  }

  /** Ascending, as many as the reservoir holds, and those that come first in the order. */
  ghost predicate FirstInOrder(order: seq<nat>, n: nat, holdout: Membership, expert: nat, split: Split, rows: seq<nat>) {
    && FallbackOk(rows, SplitIds(n, holdout, expert, split))
    && exists k: nat :: k <= |order| && Taken(order, k, holdout, expert, split, rows)
  }

  lemma TakenGrows(order: seq<nat>, k: nat, holdout: Membership, expert: nat, split: Split, selected: seq<nat>)
    requires Distinct(order) && k < |order| && Taken(order, k, holdout, expert, split, selected)
    ensures Taken(order, k + 1, holdout, expert, split,
                  if Keeps(holdout, expert, order[k], split) then selected + [order[k]] else selected)
  {
    assert order[..k + 1] == order[..k] + [order[k]];
    assert order[k] !in order[..k];
  }

  /** Rows of the split taken from the order are rows of the split, and all of them once the order is exhausted. */
  lemma TakenSize(order: seq<nat>, k: nat, n: nat, holdout: Membership, expert: nat, split: Split, selected: seq<nat>)
    requires Distinct(order) && (forall x: nat :: x in order <==> x < n) && k <= |order|
    requires Taken(order, k, holdout, expert, split, selected)
    ensures |selected| <= |SplitIds(n, holdout, expert, split)|
    ensures forall x :: x in selected ==> x in SplitIds(n, holdout, expert, split)
    ensures k == |order| ==> |selected| == |SplitIds(n, holdout, expert, split)|
  {
    var all := SplitIds(n, holdout, expert, split);
    SplitIdsExactly(n, holdout, expert, split);
    AscendingDistinct(all);
    MembersSize(all);
    MembersSize(selected);
    assert order[..|order|] == order;
    forall x | x in selected
      ensures x in all
    {
      assert x in order;
    }
    SubsetSize(Members(selected), Members(all));
    if k == |order| {
      assert Members(all) == Members(selected);
    }
  }

  method FirstOfSplit(order: seq<nat>, n: nat, holdout: Membership, expert: nat, split: Split) returns (selected: seq<nat>)
    requires Distinct(order) && forall x: nat :: x in order <==> x < n
    ensures Distinct(selected) && |selected| == Capped(|SplitIds(n, holdout, expert, split)|)
    ensures forall x :: x in selected ==> x in SplitIds(n, holdout, expert, split)
    ensures exists k: nat :: k <= |order| && Taken(order, k, holdout, expert, split, selected)
  {
    selected := [];
    for k := 0 to |order|
      invariant Taken(order, k, holdout, expert, split, selected) && |selected| < FALLBACK_ROWS
    {
      TakenGrows(order, k, holdout, expert, split, selected);
      if Keeps(holdout, expert, order[k], split) {
        selected := selected + [order[k]];
        if |selected| >= FALLBACK_ROWS {
          TakenSize(order, k + 1, n, holdout, expert, split, selected);
          return;
        }
      }
    }
    TakenSize(order, |order|, n, holdout, expert, split, selected);
  }

  /** sorted(selected) for distinct rows below n. */
  method Sorted(selected: seq<nat>, n: nat) returns (r: seq<nat>)
    requires Distinct(selected) && forall x :: x in selected ==> x < n
    ensures Ascending(r) && |r| == |selected| && forall x :: x in r <==> x in selected
  {
    r := [];
    for x := 0 to n
      invariant Ascending(r) && forall y :: y in r <==> y in selected && y < x
    {
      if x in selected {
        AscendingAppend(r, x);
        r := r + [x];
      }
    }
    AscendingDistinct(r);
    MembersSize(r);
    MembersSize(selected);
    assert Members(r) == Members(selected);
  }

  // ---- calibrating an expert -----------------------------------------------------------------

  /** What calibration over a capture comes to, for sizes the reservoirs can serve. */
  ghost predicate Calibrated<H>(tokens: seq<Token<H>>, holdout: Membership, expert: nat, minFit: nat, wanted: nat,
                                fit: PlanResult, down: PlanResult, held: HoldoutResult)
    requires Paired(tokens)
  {
    var fitRows, heldRows := SplitIds(|tokens|, holdout, expert, Fit), SplitIds(|tokens|, holdout, expert, Holdout);
    && down == fit
    && (fit.Planned? <==> minFit <= |fitRows|)
    && (fit.Refused? ==> fit.fault == if fitRows == [] then EmptyReservoir else Underfilled(minFit - |fitRows|))
    && (fit.Planned? ==>
          && fit.plan.routed == RoutedIds(tokens, holdout, expert, Fit)
          && (if |fit.plan.routed| >= minFit then fit.plan.fallback == [] else |fit.plan.RowIds()| == minFit)
          && Distinct(fit.plan.RowIds()) && (forall x :: x in fit.plan.RowIds() ==> x in fitRows)
          && (held.Held? <==> 0 < wanted <= |heldRows|)
          && (held.Held? ==> |held.ids| == wanted && Distinct(held.ids) && forall x :: x in held.ids ==> x in heldRows)
          && (!held.Held? ==> held.fault == if 0 < wanted && heldRows == [] then EmptyReservoir else EmptyHoldout))
  }

  /** Whatever a plan draws comes from the two sources. */
  lemma DrawnRows<H>(backend: Backend<H>, split: Split, all: seq<nat>, seen: set<nat>, n: nat)
    requires Serves(backend, split, all)
    ensures forall x :: x in All(backend.routed(split)) + Take(Fresh(All(backend.Offered(split)), seen), n) ==> x in all
    ensures forall x :: x in All(backend.routed(split)) + Fresh(All(backend.Offered(split)), seen) ==> x in all
  {
    FreshExactly(All(backend.Offered(split)), seen);
    TakeDistinct(Fresh(All(backend.Offered(split)), seen), n);
  }

  lemma {:induction false} SplitsDisjoint(n: nat, holdout: Membership, expert: nat)
    ensures forall x :: x in SplitIds(n, holdout, expert, Fit) ==> x !in SplitIds(n, holdout, expert, Holdout)
  {
    SplitIdsExactly(n, holdout, expert, Fit);
    SplitIdsExactly(n, holdout, expert, Holdout);
  }

  lemma {:induction false} FitIsExact<H>(backend: Backend<H>, all: seq<nat>, minFit: nat)
    requires backend.Valid() && Serves(backend, Fit, all) && minFit <= FALLBACK_ROWS
    ensures
      var fit := FitPlan(backend, Fit, minFit);
      && (fit.Planned? <==> minFit <= |all|)
      && (fit.Refused? ==> fit.fault == if all == [] then EmptyReservoir else Underfilled(minFit - |all|))
      && (fit.Planned? ==>
            && fit.plan.routed == All(backend.routed(Fit))
            && (if |fit.plan.routed| >= minFit then fit.plan.fallback == [] else |fit.plan.RowIds()| == minFit)
            && Distinct(fit.plan.RowIds()) && forall x :: x in fit.plan.RowIds() ==> x in all)
  {
    FitPlanIff(backend, Fit, all, minFit);
    PlanIsExact(backend, Fit, minFit);
    var routed := All(backend.routed(Fit));
    if |routed| < minFit {
      DrawnRows(backend, Fit, all, Members(routed), minFit - |routed|);
    }
  }

  lemma {:induction false} HeldIsExact<H>(backend: Backend<H>, all: seq<nat>, excluded: seq<nat>, wanted: nat)
    requires Serves(backend, Holdout, all) && wanted <= FALLBACK_ROWS && forall x :: x in excluded ==> x !in all
    ensures wanted <= |HoldoutOrder(backend, excluded)| <==> wanted <= |all|
    ensures forall x :: x in HoldoutOrder(backend, excluded) ==> x in all
    ensures wanted > |all| || wanted == 0 ==>
      HoldoutFault(backend, wanted) == if 0 < wanted && all == [] then EmptyReservoir else EmptyHoldout
  {
    HoldoutIff(backend, all, excluded, wanted);
    DrawnRows(backend, Holdout, all, Members(excluded) + Members(All(backend.routed(Holdout))), 0);
    var routed := All(backend.routed(Holdout));
    MembersSize(routed);
    MembersSize(all);
    SubsetSize(Members(routed), Members(all));
  }

  function Both<H>(fitRows: seq<seq<ExpertRow<H>>>, heldRows: seq<seq<ExpertRow<H>>>,
                   fitSpare: Option<seq<seq<Row<H>>>>, heldSpare: Option<seq<seq<Row<H>>>>): Drawn<H>
  {
    Drawn((split: Split) => if split == Fit then PlainChunks(fitRows) else PlainChunks(heldRows),
          (split: Split) => if split == Fit then fitSpare else heldSpare)
  }

  /** What one split's iterators returned. */
  ghost predicate SplitDrawn<H>(tokens: seq<Token<H>>, holdout: Membership, expert: nat, split: Split,
                                rows: seq<seq<ExpertRow<H>>>, spare: Option<seq<seq<Row<H>>>>)
    requires Paired(tokens)
  {
    && Concat(rows) == Rows(tokens, 0, holdout, expert, split)
    && (spare.None? <==> SplitIds(|tokens|, holdout, expert, split) == [])
    && (spare.Some? ==> FallbackOk(All(spare.value), SplitIds(|tokens|, holdout, expert, split)))
  }

  lemma {:induction false} BothFaithful<H>(tokens: seq<Token<H>>, holdout: Membership, expert: nat,
                                           fitRows: seq<seq<ExpertRow<H>>>, heldRows: seq<seq<ExpertRow<H>>>,
                                           fitSpare: Option<seq<seq<Row<H>>>>, heldSpare: Option<seq<seq<Row<H>>>>)
    requires Paired(tokens) && SplitDrawn(tokens, holdout, expert, Fit, fitRows, fitSpare)
    requires SplitDrawn(tokens, holdout, expert, Holdout, heldRows, heldSpare)
    ensures forall split :: Faithful(tokens, holdout, expert, Both(fitRows, heldRows, fitSpare, heldSpare), split)
  {
    AllOfChunks(fitRows);
    AllOfChunks(heldRows);
  }

  // ---- which fallback rows -------------------------------------------------------------------

  /** The smallest rows offered that are not routed anyway, in ascending order. */
  ghost predicate FirstOf(taken: seq<nat>, offered: seq<nat>, routed: seq<nat>) {
    && Ascending(taken) && (forall x :: x in taken ==> x in offered && x !in routed)
    && forall x, y :: x in taken && y in offered && y !in routed && y !in taken ==> x < y
  }

  lemma {:induction false} FreshAscending(offered: seq<nat>, seen: set<nat>)
    requires Ascending(offered)
    ensures Ascending(Fresh(offered, seen))
  {
    if offered != [] {
      var init := offered[..|offered| - 1];
      FreshAscending(init, seen);
      FreshExactly(init, seen);
      AscendingAppend(Fresh(init, seen), offered[|offered| - 1]);
    }
  }

  lemma TakeIsFirst(offered: seq<nat>, seen: set<nat>, n: nat, routed: seq<nat>)
    requires Ascending(offered) && forall x :: x in offered ==> (x in seen <==> x in routed)
    ensures FirstOf(Take(Fresh(offered, seen), n), offered, routed)
  {
    var spare := Fresh(offered, seen);
    var taken := Take(spare, n);
    FreshAscending(offered, seen);
    FreshExactly(offered, seen);
    TakeDistinct(spare, n);
    forall x, y | x in taken && y in offered && y !in routed && y !in taken
      ensures x < y
    {
      assert y in spare;
      assert spare == taken + spare[|taken|..];
    }
  }

  /** Plans name routed rows first; the rest are the first rows the fallback offers. */
  ghost predicate DrewFrom<H>(tokens: seq<Token<H>>, holdout: Membership, expert: nat, fit: PlanResult, held: HoldoutResult,
                              fitOffer: seq<nat>, heldOffer: seq<nat>)
    requires Paired(tokens)
  {
    var routed := RoutedIds(tokens, holdout, expert, Holdout);
    && (fit.Planned? ==> FirstOf(fit.plan.fallback, fitOffer, fit.plan.routed))
    && (fit.Planned? && held.Held? ==>
          && held.routedRows == (if |held.ids| < |routed| then |held.ids| else |routed|)
          && held.ids[..held.routedRows] == routed[..held.routedRows]
          && FirstOf(held.ids[held.routedRows..], heldOffer, routed))
  }

  lemma HeldIsFirst<H>(backend: Backend<H>, excluded: seq<nat>, wanted: nat, n: nat)
    requires Ascending(All(backend.Offered(Holdout))) && 0 < wanted <= |HoldoutOrder(backend, excluded)|
    requires forall x :: x in excluded ==> x !in All(backend.Offered(Holdout))
    requires n == if wanted < |All(backend.routed(Holdout))| then wanted else |All(backend.routed(Holdout))|
    ensures HoldoutOrder(backend, excluded)[..wanted][..n] == All(backend.routed(Holdout))[..n]
    ensures FirstOf(HoldoutOrder(backend, excluded)[..wanted][n..], All(backend.Offered(Holdout)), All(backend.routed(Holdout)))
  {
    var routed, offered := All(backend.routed(Holdout)), All(backend.Offered(Holdout));
    var seen := Members(excluded) + Members(routed);
    TakeIsFirst(offered, seen, wanted - n, routed);
    assert HoldoutOrder(backend, excluded)[..wanted][n..] == Take(Fresh(offered, seen), wanted - n);
  }

  function OfferedIds<H>(spare: Option<seq<seq<Row<H>>>>): seq<nat> {
    if spare.Some? then All(spare.value) else []
  }

  lemma PlansAreFirst<H>(tokens: seq<Token<H>>, holdout: Membership, expert: nat, drawn: Drawn<H>, minFit: nat, wanted: nat,
                         fit: PlanResult, held: HoldoutResult)
    requires Paired(tokens) && forall split :: Faithful(tokens, holdout, expert, drawn, split)
    requires fit.Planned? && fit == FitPlan(BackendOf(holdout, expert, drawn), Fit, minFit)
    requires forall x :: x in fit.plan.RowIds() ==> x in SplitIds(|tokens|, holdout, expert, Fit)
    requires held.Held? ==> 0 < wanted <= |HoldoutOrder(BackendOf(holdout, expert, drawn), fit.plan.RowIds())|
    requires held.Held? ==> held.ids == HoldoutOrder(BackendOf(holdout, expert, drawn), fit.plan.RowIds())[..wanted]
    requires held.Held? ==> held.routedRows == if wanted < |All(drawn.routed(Holdout))| then wanted else |All(drawn.routed(Holdout))|
    ensures DrewFrom(tokens, holdout, expert, fit, held, OfferedIds(drawn.fallback(Fit)), OfferedIds(drawn.fallback(Holdout)))
  {
    var backend := BackendOf(holdout, expert, drawn);
    assert Faithful(tokens, holdout, expert, drawn, Fit) && Faithful(tokens, holdout, expert, drawn, Holdout);
    var routed := fit.plan.routed;
    if |routed| < minFit {
      TakeIsFirst(OfferedIds(drawn.fallback(Fit)), Members(routed), minFit - |routed|, routed);
    }
    if held.Held? {
      SplitsDisjoint(|tokens|, holdout, expert);
      HeldIsFirst(backend, fit.plan.RowIds(), wanted, held.routedRows);
    }
  }

  /** Calibrates over whatever the iterators of a capture drew. */
  method CalibrateDrawn<H>(ghost tokens: seq<Token<H>>, holdout: Membership, expert: nat, drawn: Drawn<H>, minFit: nat, wanted: nat)
    returns (fit: PlanResult, down: PlanResult, held: HoldoutResult)
    requires Paired(tokens) && forall split :: Faithful(tokens, holdout, expert, drawn, split)
    requires minFit <= FALLBACK_ROWS && wanted <= FALLBACK_ROWS
    ensures Calibrated(tokens, holdout, expert, minFit, wanted, fit, down, held)
    ensures DrewFrom(tokens, holdout, expert, fit, held, OfferedIds(drawn.fallback(Fit)), OfferedIds(drawn.fallback(Holdout)))
  {
    var backend := BackendOf(holdout, expert, drawn);
    BackendIsValid(tokens, holdout, expert, drawn);
    FitIsExact(backend, SplitIds(|tokens|, holdout, expert, Fit), minFit);
    fit, down, held := Calibrate(backend, minFit, wanted);
    assert Faithful(tokens, holdout, expert, drawn, Fit);
    if fit.Planned? {
      SplitsDisjoint(|tokens|, holdout, expert);
      HeldIsExact(backend, SplitIds(|tokens|, holdout, expert, Holdout), fit.plan.RowIds(), wanted);
      PlansAreFirst(tokens, holdout, expert, drawn, minFit, wanted, fit, held);
    }
  }

  /** The default path: rows block by block, fallback rows from the reservoirs. */
  method CalibrateBatched<H(==)>(rows: BatchedRows<H>, expert: nat, p: Split -> Fallback.Priority, minFit: nat, wanted: nat)
    returns (fit: PlanResult, down: PlanResult, held: HoldoutResult)
    requires rows.Valid() && minFit <= FALLBACK_ROWS && wanted <= FALLBACK_ROWS
    modifies rows
    ensures rows.Valid() && Calibrated(rows.tokens, rows.holdout, expert, minFit, wanted, fit, down, held)
    ensures exists fitSpare, heldSpare ::
      && Scanned(rows.tokens, rows.batches, p(Fit), rows.holdout, expert, Fit, fitSpare)
      && Scanned(rows.tokens, rows.batches, p(Holdout), rows.holdout, expert, Holdout, heldSpare)
      && DrewFrom(rows.tokens, rows.holdout, expert, fit, held, OfferedIds(fitSpare), OfferedIds(heldSpare))
  {
    var fitRows := rows.Iterate(expert, Fit);
    var heldRows := rows.Iterate(expert, Holdout);
    var fitSpare := ReservoirRows(rows.tokens, rows.batches, p(Fit), rows.holdout, expert, Fit);
    var heldSpare := ReservoirRows(rows.tokens, rows.batches, p(Holdout), rows.holdout, expert, Holdout);
    BothFaithful(rows.tokens, rows.holdout, expert, fitRows, heldRows, fitSpare, heldSpare);
    fit, down, held := CalibrateDrawn(rows.tokens, rows.holdout, expert, Both(fitRows, heldRows, fitSpare, heldSpare), minFit, wanted);
  }

  /** The direct path: rows through the index, fallback rows from a seeded order of all rows. */
  method CalibrateDirect<H(==)>(rows: DirectRows<H>, expert: nat, chunk: nat, order: Split -> seq<nat>, minFit: nat, wanted: nat)
    returns (fit: PlanResult, down: PlanResult, held: HoldoutResult)
    requires rows.CacheOk() && rows.reader.Valid() && Paired(rows.reader.tokens) && expert < rows.reader.geometry.experts
    requires forall split :: Distinct(order(split)) && forall x: nat :: x in order(split) <==> x < |rows.reader.tokens|
    requires chunk > 0 && minFit <= FALLBACK_ROWS && wanted <= FALLBACK_ROWS
    modifies rows, rows.reader
    ensures rows.CacheOk() && rows.reader.Valid()
    ensures Calibrated(rows.reader.tokens, rows.holdout, expert, minFit, wanted, fit, down, held)
    ensures exists fitOffer, heldOffer ::
      && FirstInOrder(order(Fit), |rows.reader.tokens|, rows.holdout, expert, Fit, fitOffer)
      && FirstInOrder(order(Holdout), |rows.reader.tokens|, rows.holdout, expert, Holdout, heldOffer)
      && DrewFrom(rows.reader.tokens, rows.holdout, expert, fit, held, fitOffer, heldOffer)
  {
    var fitRows := rows.Iterate(expert, Fit, chunk);
    var heldRows := rows.Iterate(expert, Holdout, chunk);
    var fitSpare := DirectFallback(rows, expert, Fit, chunk, order(Fit));
    var heldSpare := DirectFallback(rows, expert, Holdout, chunk, order(Holdout));
    BothFaithful(rows.reader.tokens, rows.holdout, expert, fitRows, heldRows, fitSpare, heldSpare);
    fit, down, held := CalibrateDrawn(rows.reader.tokens, rows.holdout, expert, Both(fitRows, heldRows, fitSpare, heldSpare), minFit, wanted);
  }

  lemma GatheredIds<H>(tokens: seq<Token<H>>, index: seq<nat>, expert: nat)
    requires Paired(tokens) && forall k :: 0 <= k < |index| ==> index[k] < |tokens|
    ensures Ids(Plain(Gathered(tokens, index, expert))) == index
  {
  }

  /** The sorted fallback rows, gathered chunk by chunk. */
  method DirectFallback<H(==)>(rows: DirectRows<H>, expert: nat, split: Split, chunk: nat, order: seq<nat>)
    returns (batches: Option<seq<seq<Row<H>>>>)
    requires Paired(rows.reader.tokens) && chunk > 0
    requires Distinct(order) && forall x: nat :: x in order <==> x < |rows.reader.tokens|
    ensures batches.None? <==> SplitIds(|rows.reader.tokens|, rows.holdout, expert, split) == []
    ensures FirstInOrder(order, |rows.reader.tokens|, rows.holdout, expert, split, OfferedIds(batches))
  {
    var n := |rows.reader.tokens|;
    var selected := FlatFallback(order, n, rows.holdout, expert, split);
    if selected.None? {
      assert Taken(order, 0, rows.holdout, expert, split, []);
      return None;
    }
    SplitIdsExactly(n, rows.holdout, expert, split);
    assert forall k :: 0 <= k < |selected.value| ==> selected.value[k] in selected.value;
    var chunks := Chunks(rows.reader.tokens, selected.value, expert, chunk);
    AllOfChunks(chunks);
    GatheredIds(rows.reader.tokens, selected.value, expert);
    return Some(PlainChunks(chunks));
  }
}
