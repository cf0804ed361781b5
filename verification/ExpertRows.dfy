/** The rows of one expert and one split, read directly through the index or block by block. */
module ExpertRows {
  import opened Common
  import opened RowIndex

  datatype Split = Fit | Holdout

  /** What an iterator yields for one row: its id, its hidden row, the weight the expert got. */
  datatype ExpertRow<H> = ExpertRow(row: nat, hidden: H, weight: real)

  /** The derived membership of a row: pure in the expert and the row id. */
  type Membership = (nat, nat) -> bool

  predicate Keeps(holdout: Membership, expert: nat, row: nat, split: Split) {
    holdout(expert, row) == (split == Holdout)
  }

  /** (weights * (ids == expert)).sum() */
  function RouteWeight(ids: seq<nat>, weights: seq<real>, expert: nat): real
    requires |ids| == |weights|
  {
    if ids == [] then 0.0
    else
      var last := |ids| - 1;
      RouteWeight(ids[..last], weights[..last], expert) + if ids[last] == expert then weights[last] else 0.0
  }

  predicate Paired<H>(tokens: seq<Token<H>>) {
    forall t :: 0 <= t < |tokens| ==> |tokens[t].ids| == |tokens[t].weights|
  }

  function RowOf<H>(token: Token<H>, row: nat, expert: nat): ExpertRow<H>
    requires |token.ids| == |token.weights|
  {
    ExpertRow(row, token.hidden, RouteWeight(token.ids, token.weights, expert))
  }

  /** What both iterators mean: the routed rows of the split in ascending order; rows are numbered from base. */
  function Rows<H>(tokens: seq<Token<H>>, base: nat, holdout: Membership, expert: nat, split: Split): seq<ExpertRow<H>>
    requires Paired(tokens)
  {
    if tokens == [] then []
    else
      var last := |tokens| - 1;
      Rows(tokens[..last], base, holdout, expert, split)
        + if expert in tokens[last].ids && Keeps(holdout, expert, base + last, split) then [RowOf(tokens[last], base + last, expert)] else []
  }

  // ---- what the rows are -----------------------------------------------------------

  ghost predicate OnlySlot(ids: seq<nat>, slot: nat) {
    slot < |ids| && forall other :: 0 <= other < |ids| && ids[other] == ids[slot] ==> other == slot
  }

  /** The weight of the expert's own slot, where a token lists it once. */
  ghost predicate IsOwnWeight(weight: real, ids: seq<nat>, weights: seq<real>, expert: nat)
    requires |ids| == |weights|
  {
    && (forall slot :: 0 <= slot < |ids| && ids[slot] == expert && OnlySlot(ids, slot) ==> weight == weights[slot])
    && (expert !in ids ==> weight == 0.0)
  }

  lemma {:induction false} RouteWeightIsOwn(ids: seq<nat>, weights: seq<real>, expert: nat)
    requires |ids| == |weights|
    ensures IsOwnWeight(RouteWeight(ids, weights, expert), ids, weights, expert)
  {
    if ids != [] {
      var last := |ids| - 1;
      RouteWeightIsOwn(ids[..last], weights[..last], expert);
      forall slot | 0 <= slot < |ids| && ids[slot] == expert && OnlySlot(ids, slot)
        ensures RouteWeight(ids, weights, expert) == weights[slot]
      {
        if slot == last {
          assert expert !in ids[..last];
        } else {
          assert ids[..last][slot] == expert && OnlySlot(ids[..last], slot);
        }
      }
    }
  }

  ghost predicate IsRow<H>(r: ExpertRow<H>, tokens: seq<Token<H>>, holdout: Membership, expert: nat, split: Split)
    requires Paired(tokens)
  {
    && r.row < |tokens| && expert in tokens[r.row].ids && holdout(expert, r.row) == (split == Holdout)
    && r.hidden == tokens[r.row].hidden && IsOwnWeight(r.weight, tokens[r.row].ids, tokens[r.row].weights, expert)
  }

  /** Every token of the split that lists the expert, once and in ascending order, with its own hidden row and weight. */
  ghost predicate AreRows<H>(rows: seq<ExpertRow<H>>, tokens: seq<Token<H>>, holdout: Membership, expert: nat, split: Split)
    requires Paired(tokens)
  {
    && (forall k :: 0 <= k < |rows| ==> IsRow(rows[k], tokens, holdout, expert, split))
    && (forall i, j :: 0 <= i < j < |rows| ==> rows[i].row < rows[j].row)
    && forall t :: 0 <= t < |tokens| && expert in tokens[t].ids && holdout(expert, t) == (split == Holdout) ==> Listed(rows, t)
  }

  ghost predicate Listed<H>(rows: seq<ExpertRow<H>>, t: nat) {
    exists k :: 0 <= k < |rows| && rows[k].row == t
  }

  lemma ListedStays<H>(before: seq<ExpertRow<H>>, more: seq<ExpertRow<H>>, t: nat)
    requires Listed(before, t)
    ensures Listed(before + more, t)
  {
    var k :| 0 <= k < |before| && before[k].row == t;
    assert (before + more)[k].row == t;
  }

  /** Another token appends its row when it lists the expert and is of the split. */
  lemma RowsAppend<H>(init: seq<Token<H>>, token: Token<H>, holdout: Membership, expert: nat, split: Split)
    requires Paired(init) && |token.ids| == |token.weights|
    ensures Paired(init + [token])
    ensures Rows(init + [token], 0, holdout, expert, split) == Rows(init, 0, holdout, expert, split)
      + if expert in token.ids && Keeps(holdout, expert, |init|, split) then [RowOf(token, |init|, expert)] else []
  {
    assert (init + [token])[..|init|] == init;
  }

  lemma IsRowStays<H>(r: ExpertRow<H>, init: seq<Token<H>>, token: Token<H>, holdout: Membership, expert: nat, split: Split)
    requires Paired(init) && |token.ids| == |token.weights| && IsRow(r, init, holdout, expert, split)
    ensures Paired(init + [token]) && IsRow(r, init + [token], holdout, expert, split)
  {
    assert (init + [token])[r.row] == init[r.row];
  }

  lemma AreRowsNext<H>(rows: seq<ExpertRow<H>>, init: seq<Token<H>>, token: Token<H>, holdout: Membership, expert: nat, split: Split)
    requires Paired(init) && |token.ids| == |token.weights| && AreRows(rows, init, holdout, expert, split)
    ensures Paired(init + [token])
    ensures
      var more := if expert in token.ids && Keeps(holdout, expert, |init|, split) then [RowOf(token, |init|, expert)] else [];
      AreRows(rows + more, init + [token], holdout, expert, split)
  {
    var all := init + [token];
    var more := if expert in token.ids && Keeps(holdout, expert, |init|, split) then [RowOf(token, |init|, expert)] else [];
    RouteWeightIsOwn(token.ids, token.weights, expert);
    forall k | 0 <= k < |rows + more|
      ensures IsRow((rows + more)[k], all, holdout, expert, split) && (k < |rows| ==> rows[k].row < |init|)
    {
      if k < |rows| {
        IsRowStays(rows[k], init, token, holdout, expert, split);
      }
    }
    forall t | 0 <= t < |all| && expert in all[t].ids && holdout(expert, t) == (split == Holdout)
      ensures Listed(rows + more, t)
    {
      if t < |init| {
        assert all[t] == init[t];
        ListedStays(rows, more, t);
      } else {
        assert (rows + more)[|rows|].row == t;
      }
    }
  }

  lemma {:induction false} RowsAreRows<H>(tokens: seq<Token<H>>, holdout: Membership, expert: nat, split: Split)
    requires Paired(tokens)
    ensures AreRows(Rows(tokens, 0, holdout, expert, split), tokens, holdout, expert, split)
  {
    if tokens != [] {
      var init, last := tokens[..|tokens| - 1], tokens[|tokens| - 1];
      RowsAreRows(init, holdout, expert, split);
      AreRowsNext(Rows(init, 0, holdout, expert, split), init, last, holdout, expert, split);
      RowsAppend(init, last, holdout, expert, split);
      assert tokens == init + [last];
    }
  }

  lemma {:induction false} RowsConcat<H>(a: seq<Token<H>>, b: seq<Token<H>>, base: nat, holdout: Membership, expert: nat, split: Split)
    requires Paired(a) && Paired(b)
    ensures Paired(a + b)
    ensures Rows(a + b, base, holdout, expert, split)
         == Rows(a, base, holdout, expert, split) + Rows(b, base + |a|, holdout, expert, split)
  {
    if b == [] {
      assert a + b == a;
    } else {
      var last := |b| - 1;
      RowsConcat(a, b[..last], base, holdout, expert, split);
      assert (a + b)[..|a| + last] == a + b[..last];
    }
  }

  function Concat<T>(chunks: seq<seq<T>>): seq<T> {
    if chunks == [] then [] else Concat(chunks[..|chunks| - 1]) + chunks[|chunks| - 1]
  }

  // ---- filtering row ids -------------------------------------------------------

  function Filtered(rows: seq<nat>, holdout: Membership, expert: nat, split: Split): seq<nat> {
    if rows == [] then []
    else
      var last := rows[|rows| - 1];
      Filtered(rows[..|rows| - 1], holdout, expert, split) + if Keeps(holdout, expert, last, split) then [last] else []
  }

  lemma {:induction false} KeptOnly(rows: seq<nat>, holdout: Membership, expert: nat, split: Split)
    ensures forall r :: r in Filtered(rows, holdout, expert, split) ==> r in rows && Keeps(holdout, expert, r, split)
  {
    if rows != [] {
      KeptOnly(rows[..|rows| - 1], holdout, expert, split);
    }
  }

  /** Every row is kept for exactly one of the two splits. */
  lemma OneSplit(holdout: Membership, expert: nat, row: nat)
    ensures Keeps(holdout, expert, row, Fit) <==> !Keeps(holdout, expert, row, Holdout)
  {
  }

  lemma {:induction false} KeptAll(rows: seq<nat>, holdout: Membership, expert: nat, split: Split)
    ensures forall r :: r in rows && Keeps(holdout, expert, r, split) ==> r in Filtered(rows, holdout, expert, split)
  {
    if rows != [] {
      KeptAll(rows[..|rows| - 1], holdout, expert, split);
      assert rows == rows[..|rows| - 1] + [rows[|rows| - 1]];
    }
  }

  lemma {:induction false} SplitCounts(rows: seq<nat>, holdout: Membership, expert: nat)
    ensures |Filtered(rows, holdout, expert, Fit)| + |Filtered(rows, holdout, expert, Holdout)| == |rows|
  {
    if rows != [] {
      SplitCounts(rows[..|rows| - 1], holdout, expert);
      OneSplit(holdout, expert, rows[|rows| - 1]);
    }
  }

  /** Fit and holdout partition the routed rows. */
  lemma SplitsPartition(rows: seq<nat>, holdout: Membership, expert: nat)
    ensures forall r :: r in rows <==> r in Filtered(rows, holdout, expert, Fit) || r in Filtered(rows, holdout, expert, Holdout)
    ensures forall r :: !(r in Filtered(rows, holdout, expert, Fit) && r in Filtered(rows, holdout, expert, Holdout))
    ensures |Filtered(rows, holdout, expert, Fit)| + |Filtered(rows, holdout, expert, Holdout)| == |rows|
  {
    KeptOnly(rows, holdout, expert, Fit);
    KeptOnly(rows, holdout, expert, Holdout);
    KeptAll(rows, holdout, expert, Fit);
    KeptAll(rows, holdout, expert, Holdout);
    SplitCounts(rows, holdout, expert);
    forall r: nat
      ensures Keeps(holdout, expert, r, Fit) <==> !Keeps(holdout, expert, r, Holdout)
    {
      OneSplit(holdout, expert, r);
    }
  }

  function Gathered<H>(tokens: seq<Token<H>>, index: seq<nat>, expert: nat): (r: seq<ExpertRow<H>>)
    requires Paired(tokens) && forall k :: 0 <= k < |index| ==> index[k] < |tokens|
    ensures |r| == |index|
  {
    seq(|index|, k requires 0 <= k < |index| => RowOf(tokens[index[k]], index[k], expert))
  }

  lemma FilteredInRange<H>(tokens: seq<Token<H>>, holdout: Membership, expert: nat, split: Split)
    ensures
      var index := Filtered(Routed(tokens, expert), holdout, expert, split);
      forall k :: 0 <= k < |index| ==> index[k] < |tokens|
  {
    RoutedExactly(tokens, expert);
    KeptOnly(Routed(tokens, expert), holdout, expert, split);
    var index := Filtered(Routed(tokens, expert), holdout, expert, split);
    assert forall k :: 0 <= k < |index| ==> index[k] in index;
  }

  /** Filtering the index and gathering gives exactly the rows of the split. */
  lemma {:induction false} GatheredAreRows<H>(tokens: seq<Token<H>>, holdout: Membership, expert: nat, split: Split)
    requires Paired(tokens)
    ensures
      var index := Filtered(Routed(tokens, expert), holdout, expert, split);
      && (forall k :: 0 <= k < |index| ==> index[k] < |tokens|)
      && Gathered(tokens, index, expert) == Rows(tokens, 0, holdout, expert, split)
  {
    FilteredInRange(tokens, holdout, expert, split);
    if tokens != [] {
      var init, last := tokens[..|tokens| - 1], |tokens| - 1;
      GatheredAreRows(init, holdout, expert, split);
      FilteredInRange(init, holdout, expert, split);
      var before := Filtered(Routed(init, expert), holdout, expert, split);
      var after := Filtered(Routed(tokens, expert), holdout, expert, split);
      if expert in tokens[last].ids {
        assert Routed(tokens, expert)[..|Routed(init, expert)|] == Routed(init, expert);
      } else {
        assert Routed(tokens, expert) == Routed(init, expert);
      }
      assert after == before + if expert in tokens[last].ids && Keeps(holdout, expert, last, split) then [last] else [];
    }
  }

  // ---- the direct path -----------------------------------------------------------

  datatype Key = Key(expert: nat, split: Split)

  /** Walks the routed rows once and splits them in two. */
  method SplitRows(rows: seq<nat>, holdout: Membership, expert: nat) returns (fit: seq<nat>, held: seq<nat>)
    ensures fit == Filtered(rows, holdout, expert, Fit) && held == Filtered(rows, holdout, expert, Holdout)
  {
    fit, held := [], [];
    for k := 0 to |rows|
      invariant fit == Filtered(rows[..k], holdout, expert, Fit) && held == Filtered(rows[..k], holdout, expert, Holdout)
    {
      assert rows[..k + 1][..k] == rows[..k];
      if holdout(expert, rows[k]) {
        held := held + [rows[k]];
      } else {
        fit := fit + [rows[k]];
      }
    }
    assert rows[..|rows|] == rows;
  }

  /** Yields the selected rows chunk by chunk. */
  method Chunks<H>(tokens: seq<Token<H>>, selected: seq<nat>, expert: nat, chunk: nat) returns (chunks: seq<seq<ExpertRow<H>>>)
    requires Paired(tokens) && chunk > 0 && forall k :: 0 <= k < |selected| ==> selected[k] < |tokens|
    ensures Concat(chunks) == Gathered(tokens, selected, expert)
    ensures forall c :: 0 <= c < |chunks| ==> 0 < |chunks[c]| <= chunk
  {
    chunks := [];
    var start := 0;
    while start < |selected|
      invariant start <= |selected| && Concat(chunks) == Gathered(tokens, selected[..start], expert)
      invariant forall c :: 0 <= c < |chunks| ==> 0 < |chunks[c]| <= chunk
    {
      var stop := if |selected| - start < chunk then |selected| else start + chunk;
      var part := Gathered(tokens, selected[start..stop], expert);
      assert Gathered(tokens, selected[..stop], expert) == Gathered(tokens, selected[..start], expert) + part;
      assert (chunks + [part])[..|chunks|] == chunks;
      chunks := chunks + [part];
      start := stop;
    }
    assert selected[..start] == selected;
  }

  class DirectRows<H(==)> {
    const reader: FlatCaptureReader<H>
    const holdout: Membership
    var splitCache: map<Key, seq<nat>>

    ghost predicate CacheOk()
      reads this
    {
      forall k :: k in splitCache ==> splitCache[k] == Filtered(Routed(reader.tokens, k.expert), holdout, k.expert, k.split)
    }

    constructor (reader: FlatCaptureReader<H>, holdout: Membership)
      ensures CacheOk() && this.reader == reader && this.holdout == holdout
    {
      this.reader, this.holdout, splitCache := reader, holdout, map[];
    }

    /** One hash pass fills both halves of the cache; every later request reads it. */
    method Iterate(expert: nat, split: Split, chunk: nat) returns (chunks: seq<seq<ExpertRow<H>>>)
      requires CacheOk() && reader.Valid() && expert < reader.geometry.experts
      requires Paired(reader.tokens) && chunk > 0
      modifies this, reader
      ensures CacheOk() && reader.Valid()
      ensures Concat(chunks) == Rows(reader.tokens, 0, holdout, expert, split)
      ensures AreRows(Concat(chunks), reader.tokens, holdout, expert, split)
    {
      RowsAreRows(reader.tokens, holdout, expert, split);
      if Key(expert, split) !in splitCache {
        var rows := reader.ExpertRows(expert);
        var fit, held := SplitRows(rows.value, holdout, expert);
        splitCache := splitCache[Key(expert, Holdout) := held];
        splitCache := splitCache[Key(expert, Fit) := fit];
      }
      var selected := splitCache[Key(expert, split)];
      GatheredAreRows(reader.tokens, holdout, expert, split);
      chunks := Chunks(reader.tokens, selected, expert, chunk);
    }
  }

  // ---- the batched path ------------------------------------------------------------

  /** A block of consecutive rows. */
  datatype Batch<H> = Batch(start: nat, tokens: seq<Token<H>>)

  /** The batches are consecutive blocks that cover the first upTo rows. */
  ghost predicate Blocked<H>(tokens: seq<Token<H>>, batches: seq<Batch<H>>, upTo: nat) {
    if batches == [] then upTo == 0
    else
      var last := batches[|batches| - 1];
      && last.tokens != [] && last.start + |last.tokens| == upTo <= |tokens|
      && last.tokens == tokens[last.start..upTo]
      && Blocked(tokens, batches[..|batches| - 1], last.start)
  }

  lemma BlockedGrows<H>(tokens: seq<Token<H>>, batches: seq<Batch<H>>, begin: nat, end: nat)
    requires Blocked(tokens, batches, begin) && begin < end <= |tokens|
    ensures Blocked(tokens, batches + [Batch(begin, tokens[begin..end])], end)
  {
    assert (batches + [Batch(begin, tokens[begin..end])])[..|batches|] == batches;
  }

  /** Where the blocks before block b end. */
  function EndBefore<H>(batches: seq<Batch<H>>, upTo: nat, b: nat): nat
    requires b <= |batches|
  {
    if b == |batches| then upTo else batches[b].start
  }

  lemma {:induction false} BlockedPrefix<H>(tokens: seq<Token<H>>, batches: seq<Batch<H>>, upTo: nat, b: nat)
    requires Blocked(tokens, batches, upTo) && b <= |batches|
    ensures Blocked(tokens, batches[..b], EndBefore(batches, upTo, b))
    decreases |batches|
  {
    if b == |batches| {
      assert batches[..b] == batches;
    } else {
      var init, last := batches[..|batches| - 1], batches[|batches| - 1];
      BlockedPrefix(tokens, init, last.start, b);
      assert init[..b] == batches[..b];
      assert EndBefore(init, last.start, b) == EndBefore(batches, upTo, b);
    }
  }

  /** Block b continues where the blocks before it end. */
  lemma BlockExtends<H>(tokens: seq<Token<H>>, batches: seq<Batch<H>>, upTo: nat, b: nat)
    requires Blocked(tokens, batches, upTo) && b < |batches|
    ensures EndBefore(batches, upTo, b) == batches[b].start
    ensures batches[b].start <= EndBefore(batches, upTo, b + 1) <= |tokens|
    ensures tokens[..EndBefore(batches, upTo, b + 1)] == tokens[..batches[b].start] + batches[b].tokens
    ensures Paired(tokens) ==> Paired(batches[b].tokens)
  {
    BlockedPrefix(tokens, batches, upTo, b + 1);
    assert batches[..b + 1][..b] == batches[..b];
    assert batches[b].tokens == tokens[batches[b].start..EndBefore(batches, upTo, b + 1)];
  }

  /** Fixed-size blocks in ascending row order; an empty list is the error of an empty capture. */
  method BuildBatches<H>(tokens: seq<Token<H>>, block: nat) returns (batches: seq<Batch<H>>)
    requires block > 0
    ensures Blocked(tokens, batches, |tokens|) && (batches == [] <==> tokens == [])
    ensures forall b :: 0 <= b < |batches| ==> |batches[b].tokens| <= block
  {
    batches := [];
    var begin := 0;
    while begin < |tokens|
      invariant begin <= |tokens| && Blocked(tokens, batches, begin) && (batches == [] <==> begin == 0)
      invariant forall b :: 0 <= b < |batches| ==> |batches[b].tokens| <= block
    {
      var end := if |tokens| - begin < block then |tokens| else begin + block;
      BlockedGrows(tokens, batches, begin, end);
      batches := batches + [Batch(begin, tokens[begin..end])];
      begin := end;
    }
  }

  /** One block: selected rows, then the split on those, then the gather. */
  method SelectBlock<H>(batch: Batch<H>, holdout: Membership, expert: nat, split: Split) returns (rows: seq<ExpertRow<H>>)
    requires Paired(batch.tokens)
    ensures rows == Rows(batch.tokens, batch.start, holdout, expert, split)
  {
    rows := [];
    for k := 0 to |batch.tokens|
      invariant rows == Rows(batch.tokens[..k], batch.start, holdout, expert, split)
    {
      assert batch.tokens[..k + 1][..k] == batch.tokens[..k];
      if expert in batch.tokens[k].ids && Keeps(holdout, expert, batch.start + k, split) {
        rows := rows + [RowOf(batch.tokens[k], batch.start + k, expert)];
      }
    }
    assert batch.tokens[..|batch.tokens|] == batch.tokens;
  }

  lemma ConcatNext<T>(chunks: seq<seq<T>>, last: seq<T>)
    ensures Concat(chunks + [last]) == Concat(chunks) + last
    ensures last == [] ==> Concat(chunks) == Concat(chunks) + last
  {
    assert (chunks + [last])[..|chunks|] == chunks;
  }

  /** The rows up to the end of block b are those before it and its own. */
  lemma {:induction false} NextBlock<H>(tokens: seq<Token<H>>, batches: seq<Batch<H>>, b: nat, holdout: Membership, expert: nat, split: Split)
    requires Paired(tokens) && Blocked(tokens, batches, |tokens|) && b < |batches|
    ensures Paired(batches[b].tokens) && EndBefore(batches, |tokens|, b) <= EndBefore(batches, |tokens|, b + 1) <= |tokens|
    ensures Rows(tokens[..EndBefore(batches, |tokens|, b + 1)], 0, holdout, expert, split)
         == Rows(tokens[..EndBefore(batches, |tokens|, b)], 0, holdout, expert, split)
          + Rows(batches[b].tokens, batches[b].start, holdout, expert, split)
  {
    BlockExtends(tokens, batches, |tokens|, b);
    RowsConcat(tokens[..batches[b].start], batches[b].tokens, 0, holdout, expert, split);
  }

  class BatchedRows<H(==)> {
    const tokens: seq<Token<H>>
    const batches: seq<Batch<H>>
    const holdout: Membership
    var memo: map<Key, seq<seq<ExpertRow<H>>>>

    ghost predicate Valid()
      reads this
    {
      && Paired(tokens) && Blocked(tokens, batches, |tokens|)
      && forall k :: k in memo ==> Concat(memo[k]) == Rows(tokens, 0, holdout, k.expert, k.split)
    }

    constructor (tokens: seq<Token<H>>, batches: seq<Batch<H>>, holdout: Membership)
      requires Paired(tokens) && Blocked(tokens, batches, |tokens|)
      ensures Valid() && memo == map[] && this.tokens == tokens && this.holdout == holdout
    {
      this.tokens, this.batches, this.holdout, memo := tokens, batches, holdout, map[];
    }

    /** Blocks without a row of the split yield nothing; a second pass replays the first. */
    method Iterate(expert: nat, split: Split) returns (chunks: seq<seq<ExpertRow<H>>>)
      requires Valid()
      modifies this
      ensures Valid() && Key(expert, split) in memo && memo[Key(expert, split)] == chunks
      ensures Concat(chunks) == Rows(tokens, 0, holdout, expert, split)
      ensures AreRows(Concat(chunks), tokens, holdout, expert, split)
      ensures Key(expert, split) in old(memo) ==> chunks == old(memo)[Key(expert, split)] && memo == old(memo)
    {
      RowsAreRows(tokens, holdout, expert, split);
      var key := Key(expert, split);
      if key in memo {
        return memo[key];
      }
      chunks := Collect(expert, split);
      memo := memo[key := chunks];
    }

    method Collect(expert: nat, split: Split) returns (chunks: seq<seq<ExpertRow<H>>>)
      requires Valid()
      ensures Concat(chunks) == Rows(tokens, 0, holdout, expert, split)
      ensures forall c :: 0 <= c < |chunks| ==> chunks[c] != []
    {
      chunks := [];
      BlockedPrefix(tokens, batches, |tokens|, 0);
      for b := 0 to |batches|
        invariant EndBefore(batches, |tokens|, b) <= |tokens|
        invariant Concat(chunks) == Rows(tokens[..EndBefore(batches, |tokens|, b)], 0, holdout, expert, split)
        invariant forall c :: 0 <= c < |chunks| ==> chunks[c] != []
      {
        NextBlock(tokens, batches, b, holdout, expert, split);
        var rows := SelectBlock(batches[b], holdout, expert, split);
        ConcatNext(chunks, rows);
        if rows != [] {
          chunks := chunks + [rows];
        }
      }
      assert tokens[..|tokens|] == tokens;
    }

    /** Drops the memo of one expert, both splits. */
    method Clear(expert: nat)
      requires Valid()
      modifies this
      ensures Valid() && memo == map k | k in old(memo) && k.expert != expert :: old(memo)[k]
    {
      memo := map k | k in memo && k.expert != expert :: memo[k];
    }
  }

  /** The two paths yield the same rows in the same order, and they are the rows of the split. */
  method PathsAgree<H(==)>(direct: DirectRows<H>, batched: BatchedRows<H>, expert: nat, split: Split, chunk: nat)
    returns (a: seq<seq<ExpertRow<H>>>, b: seq<seq<ExpertRow<H>>>)
    requires direct.CacheOk() && direct.reader.Valid()
    requires batched.Valid() && batched.tokens == direct.reader.tokens && batched.holdout == direct.holdout
    requires expert < direct.reader.geometry.experts && chunk > 0
    modifies direct, direct.reader, batched
    ensures Concat(a) == Concat(b) && AreRows(Concat(a), batched.tokens, batched.holdout, expert, split)
  {
    a := direct.Iterate(expert, split, chunk);
    b := batched.Iterate(expert, split);
  }
}
