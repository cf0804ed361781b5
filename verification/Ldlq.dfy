/** Blocked LDLQ: 16-row blocks quantized bottom-up with error feedback through the factor L. */
module Ldlq {
  import opened Linear
  import opened Tiles

  type CodeGrid = seq<seq<Codes>>

  datatype Walked = Walked(rows: Matrix, codes: CodeGrid)

  /** One slice to quantize: the regularized weight, its square factor and the per-tile quantizer. */
  datatype Slice = Slice(weight: Matrix, factor: Matrix, n: nat, quantize: Quantizer) {

    ghost predicate Valid() {
      && |weight| % 16 == 0 && n % 16 == 0
      && IsMatrix(weight, |weight|, n)
      && IsMatrix(factor, |weight|, |weight|)
    }

    /** A span is a positive number of blocks and a whole number of spans covers the rows. */
    ghost predicate SpanFits(buf: nat) {
      16 <= buf && buf % 16 == 0 && |weight| % buf == 0
    }

    /** Quantized rows are given for the last |quantized| rows of the slice. */
    ghost predicate IsTail(quantized: Matrix) {
      |quantized| <= |weight| && IsMatrix(quantized, |quantized|, n)
    }

    /** Sum over rows t in [lo, hi) of L[t][r] * (weight[t][c] - quantized[t][c]). */
    function Feedback(quantized: Matrix, r: nat, c: nat, lo: nat, hi: nat): real
      requires Valid() && IsTail(quantized)
      requires |weight| - |quantized| <= lo <= hi <= |weight| && r < |weight| && c < n
      decreases hi - lo
    {
      if lo == hi then 0.0
      else
        var error := weight[lo][c] - quantized[lo - (|weight| - |quantized|)][c];
        factor[lo][r] * error + Feedback(quantized, r, c, lo + 1, hi)
    }

    /** One row of an in-place addmm: base plus row r of L[lo..hi]^T (weight - quantized)[lo..hi]. */
    function AddFeedback(base: Row, quantized: Matrix, r: nat, lo: nat, hi: nat): (row: Row)
      requires Valid() && IsTail(quantized) && |base| == n
      requires |weight| - |quantized| <= lo <= hi <= |weight| && r < |weight|
      ensures |row| == n
    {
      seq(n, c requires 0 <= c < n => base[c] + Feedback(quantized, r, c, lo, hi))
    }

    /** What the block that ends at row p must be fed: its weights plus the feedback of every later row. */
    function BlockInput(quantized: Matrix, p: nat): (rows: Matrix)
      requires Valid() && IsTail(quantized)
      requires 16 <= p && |weight| - |quantized| <= p <= |weight|
      ensures IsMatrix(rows, 16, n)
    {
      seq(16, r requires 0 <= r < 16 =>
        seq(n, c requires 0 <= c < n =>
          weight[p - 16 + r][c] + Feedback(quantized, p - 16 + r, c, p, |weight|)))
    }

    /** The walk without spans or cache: blocks |weight| / 16 - 1 down to b, each fed its block input. */
    function Ideal(b: nat): (w: Walked)
      requires Valid() && 16 * b <= |weight|
      ensures IsMatrix(w.rows, |weight| - 16 * b, n) && |w.codes| == |weight| / 16 - b
      decreases |weight| - 16 * b
    {
      if 16 * b == |weight| then Walked([], [])
      else
        var tail := Ideal(b + 1);
        var out := QuantizeTiles(quantize, GatherTiles(BlockInput(tail.rows, 16 * (b + 1)), n));
        Walked(ScatterTiles(out, n) + tail.rows, [CodesOf(out)] + tail.codes)
    }

    lemma {:induction false} FeedbackSplit(quantized: Matrix, r: nat, c: nat, lo: nat, mid: nat, hi: nat)
      requires Valid() && IsTail(quantized)
      requires |weight| - |quantized| <= lo <= mid <= hi <= |weight| && r < |weight| && c < n
      ensures Feedback(quantized, r, c, lo, hi) == Feedback(quantized, r, c, lo, mid) + Feedback(quantized, r, c, mid, hi)
      decreases mid - lo
    {
      if lo < mid {
        FeedbackSplit(quantized, r, c, lo + 1, mid, hi);
      }
    }

    /** The feedback of rows lo..hi reads the quantized rows lo..hi only. */
    lemma {:induction false} FeedbackOfTail(quantized: Matrix, tail: Matrix, r: nat, c: nat, lo: nat, hi: nat)
      requires Valid() && IsTail(quantized) && IsTail(tail)
      requires |tail| <= |quantized| && tail == quantized[|quantized| - |tail|..]
      requires |weight| - |tail| <= lo <= hi <= |weight| && r < |weight| && c < n
      ensures Feedback(quantized, r, c, lo, hi) == Feedback(tail, r, c, lo, hi)
      decreases hi - lo
    {
      if lo < hi {
        FeedbackOfTail(quantized, tail, r, c, lo + 1, hi);
      }
    }

    /** The cross-span cache of row r after every row from j on has been fed back into it. */
    ghost predicate Cached(cache: Row, quantized: Matrix, r: nat, j: nat)
      requires Valid() && IsTail(quantized)
      requires |weight| - |quantized| <= j <= |weight| && r < |weight|
    {
      |cache| == n && forall c :: 0 <= c < n ==> cache[c] == Feedback(quantized, r, c, j, |weight|)
    }

    /** The in-place compensation of a cached row completes its feedback. */
    lemma CacheGrows(cache: Row, quantized: Matrix, tail: Matrix, r: nat, p: nat, j: nat)
      requires Valid() && IsTail(quantized) && IsTail(tail)
      requires |tail| <= |quantized| && tail == quantized[|quantized| - |tail|..]
      requires |weight| - |quantized| <= p <= j == |weight| - |tail| && r < |weight|
      requires Cached(cache, tail, r, j)
      ensures Cached(AddFeedback(cache, quantized, r, p, j), quantized, r, p)
    {
      forall c | 0 <= c < n
        ensures cache[c] + Feedback(quantized, r, c, p, j) == Feedback(quantized, r, c, p, |weight|)
      {
        FeedbackSplit(quantized, r, c, p, j, |weight|);
        FeedbackOfTail(quantized, tail, r, c, j, |weight|);
      }
    }

    /** Rows p and later are done, and the cache of every earlier row knows the rows from j on. */
    ghost predicate Progress(cache: Matrix, quantized: Matrix, codes: CodeGrid, j: nat, p: nat)
      requires Valid()
    {
      && p % 16 == 0 && j % 16 == 0 && p <= j <= |weight|
      && IsMatrix(cache, |weight|, n) && IsMatrix(quantized, |weight|, n) && |codes| == |weight| / 16
      && quantized[p..] == Ideal(p / 16).rows
      && codes[p / 16..] == Ideal(p / 16).codes
      && forall r :: 0 <= r < p ==> Cached(cache[r], Ideal(j / 16).rows, r, j)
    }

    lemma Fresh(cache: Matrix, quantized: Matrix, codes: CodeGrid)
      requires Valid() && |cache| == |quantized| == |weight| && |codes| == |weight| / 16
      requires forall r :: 0 <= r < |weight| ==> cache[r] == Zeros(n) && quantized[r] == Zeros(n)
      ensures Progress(cache, quantized, codes, |weight|, |weight|)
    {
    }

    /** cache.addmm_ on rows [lo, hi): each gains the feedback of rows [start, stop). */
    ghost predicate Compensated(before: Matrix, after: Matrix, quantized: Matrix, lo: nat, hi: nat, start: nat, stop: nat)
      requires Valid() && IsMatrix(before, |weight|, n) && IsMatrix(quantized, |weight|, n)
      requires lo <= hi <= |weight| && start <= stop <= |weight|
    {
      && |after| == |before|
      && (forall r :: lo <= r < hi ==> after[r] == AddFeedback(before[r], quantized, r, start, stop))
      && (forall r :: 0 <= r < |before| && !(lo <= r < hi) ==> after[r] == before[r])
    }

    /** After the in-span compensation, weight plus cache is the block input of the span-free walk. */
    lemma FedBlock(before: Matrix, after: Matrix, quantized: Matrix, codes: CodeGrid, j: nat, p: nat, rows: Matrix)
      requires Valid() && 16 <= p && Progress(before, quantized, codes, j, p)
      requires Compensated(before, after, quantized, p - 16, p, p, j)
      requires |rows| == 16 && forall r :: 0 <= r < 16 ==> rows[r] == AddRows(weight[p - 16 + r], after[p - 16 + r])
      ensures rows == BlockInput(Ideal(p / 16).rows, p)
    {
      var tail := Ideal(p / 16).rows;
      assert 16 * (p / 16) == p;
      forall r | 0 <= r < 16
        ensures rows[r] == BlockInput(tail, p)[r]
      {
        BlockRow(before[p - 16 + r], quantized, j, p, p - 16 + r);
        FedRow(after[p - 16 + r], tail, p, r);
      }
    }

    lemma FedRow(fed: Row, tail: Matrix, p: nat, r: nat)
      requires Valid() && IsTail(tail) && |weight| - |tail| == p && r < 16 <= p && |fed| == n
      requires forall c :: 0 <= c < n ==> fed[c] == Feedback(tail, p - 16 + r, c, p, |weight|)
      ensures AddRows(weight[p - 16 + r], fed) == BlockInput(tail, p)[r]
    {
    }

    /** One entry of a compensated row, when the later part of the quantized rows is known to be the walk. */
    lemma BlockEntry(cache: Row, quantized: Matrix, tail: Matrix, later: Matrix, j: nat, p: nat, t: nat, c: nat)
      requires Valid() && IsTail(quantized) && IsTail(tail) && IsTail(later) && |quantized| == |weight|
      requires t < p <= j <= |weight| && c < n && tail == quantized[p..] && later == quantized[j..]
      requires Cached(cache, later, t, j)
      ensures AddFeedback(cache, quantized, t, p, j)[c] == Feedback(tail, t, c, p, |weight|)
    {
      CacheGrows(cache, quantized, later, t, p, j);
      FeedbackOfTail(quantized, tail, t, c, p, |weight|);
    }

    lemma BlockRow(cache: Row, quantized: Matrix, j: nat, p: nat, t: nat)
      requires Valid() && IsMatrix(quantized, |weight|, n) && p % 16 == 0 && j % 16 == 0
      requires t < p <= j <= |weight| && quantized[p..] == Ideal(p / 16).rows
      requires Cached(cache, Ideal(j / 16).rows, t, j)
      ensures forall c :: 0 <= c < n ==>
        AddFeedback(cache, quantized, t, p, j)[c] == Feedback(Ideal(p / 16).rows, t, c, p, |weight|)
    {
      var tail, later := Ideal(p / 16).rows, Ideal(j / 16).rows;
      IdealTail(p / 16, j / 16);
      assert later == quantized[j..];
      forall c | 0 <= c < n
        ensures AddFeedback(cache, quantized, t, p, j)[c] == Feedback(tail, t, c, p, |weight|)
      {
        BlockEntry(cache, quantized, tail, later, j, p, t, c);
      }
    }

    /** Later blocks are settled before earlier ones: the walk to b extends the walk to d. */
    lemma {:induction false} IdealTail(b: nat, d: nat)
      requires Valid() && b <= d && 16 * d <= |weight|
      ensures Ideal(b).rows[16 * (d - b)..] == Ideal(d).rows
      ensures Ideal(b).codes[d - b..] == Ideal(d).codes
      decreases d - b
    {
      if b < d {
        IdealTail(b + 1, d);
        var w, tail := Ideal(b), Ideal(b + 1);
        assert w.rows[16..] == tail.rows && w.codes[1..] == tail.codes;
        assert w.rows[16 * (d - b)..] == w.rows[16..][16 * (d - b - 1)..];
        assert w.codes[d - b..] == w.codes[1..][d - b - 1..];
      }
    }

    /** Storing a quantized block settles sixteen more rows. */
    lemma BlockStored(cache: Matrix, quantized: Matrix, codes: CodeGrid, j: nat, p: nat, out: seq<Quantized>, quantized': Matrix, codes': CodeGrid)
      requires Valid() && 16 <= p && p % 16 == 0 && j % 16 == 0 && p <= j <= |weight|
      requires IsMatrix(cache, |weight|, n) && IsMatrix(quantized, |weight|, n) && |codes| == |weight| / 16
      requires quantized[p..] == Ideal(p / 16).rows && codes[p / 16..] == Ideal(p / 16).codes
      requires forall r :: 0 <= r < p - 16 ==> Cached(cache[r], Ideal(j / 16).rows, r, j)
      requires out == QuantizeTiles(quantize, GatherTiles(BlockInput(Ideal(p / 16).rows, p), n))
      requires quantized' == quantized[..p - 16] + ScatterTiles(out, n) + quantized[p..]
      requires codes' == codes[..p / 16 - 1] + [CodesOf(out)] + codes[p / 16..]
      ensures Progress(cache, quantized', codes', j, p - 16)
    {
      var b := p / 16 - 1;
      assert 16 * (b + 1) == p && (p - 16) / 16 == b;
      assert quantized'[p - 16..] == ScatterTiles(out, n) + quantized[p..];
      assert codes'[b..] == [CodesOf(out)] + codes[p / 16..];
    }

    /** The end-of-span addmm brings the cache of every earlier row up to date. */
    lemma SpanStored(before: Matrix, after: Matrix, quantized: Matrix, codes: CodeGrid, j: nat, i: nat)
      requires Valid() && Progress(before, quantized, codes, j, i)
      requires Compensated(before, after, quantized, 0, |weight|, i, j)
      ensures Progress(after, quantized, codes, i, i)
    {
      IdealTail(i / 16, j / 16);
      forall r | 0 <= r < i
        ensures Cached(after[r], Ideal(i / 16).rows, r, i)
      {
        BlockRow(before[r], quantized, j, i, r);
      }
    }

    // ---- the result, without the walk --------------------------------------

    /** Column t of L below row p. */
    function FactorBelow(p: nat, t: nat): (column: Row)
      requires Valid() && p <= |weight| && t < |weight|
      ensures |column| == |weight| - p && forall i :: 0 <= i < |column| ==> column[i] == factor[p + i][t]
    {
      seq(|weight| - p, i requires 0 <= i < |weight| - p => factor[p + i][t])
    }

    /** Column c of weight - quantized below row p. */
    function ErrorBelow(quantized: Matrix, p: nat, c: nat): (column: Row)
      requires Valid() && IsMatrix(quantized, |weight|, n) && p <= |weight| && c < n
      ensures |column| == |weight| - p && forall i :: 0 <= i < |column| ==> column[i] == weight[p + i][c] - quantized[p + i][c]
    {
      seq(|weight| - p, i requires 0 <= i < |weight| - p => weight[p + i][c] - quantized[p + i][c])
    }

    /** The 16 rows that end at row p as they must be fed: the weights plus L^T times the errors below. */
    ghost predicate IsFed(quantized: Matrix, p: nat, fed: Matrix)
      requires Valid() && IsMatrix(quantized, |weight|, n) && 16 <= p <= |weight|
    {
      && IsMatrix(fed, 16, n)
      && forall r, c :: 0 <= r < 16 && 0 <= c < n ==>
           fed[r][c] == weight[p - 16 + r][c] + Dot(FactorBelow(p, p - 16 + r), ErrorBelow(quantized, p, c), |weight| - p)
    }

    /** Tile t of the fed rows went through the quantizer into the rows that end at row p, and its codes are kept. */
    ghost predicate TileKept(quantized: Matrix, codes: CodeGrid, p: nat, fed: Matrix, t: nat, tile: Tile)
      requires IsMatrix(quantized, |weight|, n) && 16 <= p <= |weight| && |codes| == |weight| / 16
      requires IsMatrix(fed, 16, n) && t < n / 16
    {
      && (forall v :: 0 <= v < 256 ==> tile[v] == fed[TensorCoreRow(v)][16 * t + TensorCoreColumn(v)])
      && (forall v :: 0 <= v < 256 ==>
            quantized[p - 16 + TensorCoreRow(v)][16 * t + TensorCoreColumn(v)] == quantize(tile).values[v])
      && |codes[p / 16 - 1]| == n / 16 && codes[p / 16 - 1][t] == quantize(tile).codes
    }

    ghost predicate TileIsResult(quantized: Matrix, codes: CodeGrid, p: nat, fed: Matrix, t: nat)
      requires IsMatrix(quantized, |weight|, n) && 16 <= p <= |weight| && |codes| == |weight| / 16
      requires IsMatrix(fed, 16, n) && t < n / 16
    {
      exists tile :: TileKept(quantized, codes, p, fed, t, tile)
    }

    ghost predicate BlockIsResult(quantized: Matrix, codes: CodeGrid, b: nat)
      requires Valid() && IsMatrix(quantized, |weight|, n) && b < |weight| / 16 && |codes| == |weight| / 16
    {
      var p := 16 * b + 16;
      exists fed :: IsFed(quantized, p, fed) && forall t :: 0 <= t < n / 16 ==> TileIsResult(quantized, codes, p, fed, t)
    }

    /** Every block of the result is the quantization of its weights plus the feedback of all rows below it. */
    ghost predicate IsResult(quantized: Matrix, codes: CodeGrid) {
      && Valid() && IsMatrix(quantized, |weight|, n) && |codes| == |weight| / 16
      && forall b :: 0 <= b < |weight| / 16 ==> BlockIsResult(quantized, codes, b)
    }

    /** The recursive sum is the inner product of the two columns. */
    lemma {:induction false} FeedbackIsDot(quantized: Matrix, tail: Matrix, r: nat, c: nat, p: nat, m: nat)
      requires Valid() && IsMatrix(quantized, |weight|, n) && p + m <= |weight| && r < |weight| && c < n
      requires tail == quantized[p..]
      ensures IsTail(tail)
      ensures Feedback(tail, r, c, p, p + m) == Dot(FactorBelow(p, r), ErrorBelow(quantized, p, c), m)
    {
      if m > 0 {
        FeedbackIsDot(quantized, tail, r, c, p, m - 1);
        FeedbackSplit(tail, r, c, p, p + m - 1, p + m);
        assert tail[m - 1] == quantized[p + m - 1];
      }
    }

    lemma {:induction false} InputIsFed(quantized: Matrix, p: nat)
      requires Valid() && IsMatrix(quantized, |weight|, n) && 16 <= p <= |weight|
      ensures IsTail(quantized[p..]) && IsFed(quantized, p, BlockInput(quantized[p..], p))
    {
      var fed := BlockInput(quantized[p..], p);
      forall r, c | 0 <= r < 16 && 0 <= c < n
        ensures fed[r][c] == weight[p - 16 + r][c] + Dot(FactorBelow(p, p - 16 + r), ErrorBelow(quantized, p, c), |weight| - p)
      {
        FeedbackIsDot(quantized, quantized[p..], p - 16 + r, c, p, |weight| - p);
      }
    }

    lemma {:induction false} TileIsKept(quantized: Matrix, codes: CodeGrid, p: nat, fed: Matrix, t: nat)
      requires IsMatrix(quantized, |weight|, n) && 16 <= p <= |weight| && |codes| == |weight| / 16 && n % 16 == 0
      requires IsMatrix(fed, 16, n) && t < n / 16
      requires quantized[p - 16..p] == ScatterTiles(QuantizeTiles(quantize, GatherTiles(fed, n)), n)
      requires codes[p / 16 - 1] == CodesOf(QuantizeTiles(quantize, GatherTiles(fed, n)))
      ensures TileKept(quantized, codes, p, fed, t, GatherTile(fed, n, t))
    {
      var out := QuantizeTiles(quantize, GatherTiles(fed, n));
      forall v | 0 <= v < 256
        ensures quantized[p - 16 + TensorCoreRow(v)][16 * t + TensorCoreColumn(v)] == quantize(GatherTile(fed, n, t)).values[v]
      {
        PlaceOfPosition(v);
        var r, c := TensorCoreRow(v), 16 * t + TensorCoreColumn(v);
        assert c / 16 == t && c % 16 == TensorCoreColumn(v);
        assert quantized[p - 16..p][r] == quantized[p - 16 + r];
      }
    }

    lemma {:induction false} BlockOfInput(quantized: Matrix, codes: CodeGrid, b: nat)
      requires Valid() && IsMatrix(quantized, |weight|, n) && b < |weight| / 16 && |codes| == |weight| / 16
      requires
        var p := 16 * b + 16;
        var out := QuantizeTiles(quantize, GatherTiles(BlockInput(quantized[p..], p), n));
        quantized[p - 16..p] == ScatterTiles(out, n) && codes[b] == CodesOf(out)
      ensures BlockIsResult(quantized, codes, b)
    {
      var p := 16 * b + 16;
      InputIsFed(quantized, p);
      var fed := BlockInput(quantized[p..], p);
      forall t | 0 <= t < n / 16
        ensures TileIsResult(quantized, codes, p, fed, t)
      {
        TileIsKept(quantized, codes, p, fed, t);
      }
    }

    /** Block b of the walk lies where it was put. */
    lemma {:induction false} BlockOfWalk(b: nat)
      requires Valid() && b < |weight| / 16
      ensures
        var p := 16 * b + 16;
        var out := QuantizeTiles(quantize, GatherTiles(BlockInput(Ideal(0).rows[p..], p), n));
        Ideal(0).rows[p - 16..p] == ScatterTiles(out, n) && Ideal(0).codes[b] == CodesOf(out)
    {
      IdealTail(0, b);
      IdealTail(0, b + 1);
      var rows, codes, w, p := Ideal(0).rows, Ideal(0).codes, Ideal(b), 16 * b + 16;
      assert rows[p..] == Ideal(b + 1).rows && rows[p - 16..] == w.rows && codes[b..] == w.codes;
      assert rows[p - 16..p] == w.rows[..16] && codes[b] == w.codes[0];
    }

    /** The walk gives exactly such a result. */
    lemma {:induction false} WalkIsResult()
      requires Valid()
      ensures IsResult(Ideal(0).rows, Ideal(0).codes)
    {
      forall b: nat | b < |weight| / 16
        ensures BlockIsResult(Ideal(0).rows, Ideal(0).codes, b)
      {
        BlockOfWalk(b);
        BlockOfInput(Ideal(0).rows, Ideal(0).codes, b);
      }
    }
  }

  function AddRows(a: Row, b: Row): (sum: Row)
    requires |a| == |b|
    ensures |sum| == |a|
  {
    seq(|a|, c requires 0 <= c < |a| => a[c] + b[c])
  }

  lemma MulAtLeast(d: nat, k: nat)
    requires 1 <= k
    ensures d <= d * k
  {
    if 1 < k {
      MulAtLeast(d, k - 1);
      assert d * k == d * (k - 1) + d;
    }
  }

  lemma QuotientUnique(d: nat, q1: int, r1: nat, q2: int, r2: nat)
    requires r1 < d && r2 < d && d * q1 + r1 == d * q2 + r2
    ensures q1 == q2 && r1 == r2
  {
    assert d * (q2 - q1) == d * q2 - d * q1;
    assert d * (q1 - q2) == d * q1 - d * q2;
    if q1 < q2 {
      MulAtLeast(d, q2 - q1);
    } else if q2 < q1 {
      MulAtLeast(d, q1 - q2);
    }
  }

  lemma WholeSpans(j: nat, buf: nat)
    requires 0 < buf && 0 < j && j % buf == 0
    ensures buf <= j && (j - buf) % buf == 0
  {
    var q, q', r' := j / buf, (j - buf) / buf, (j - buf) % buf;
    assert j == buf * q && j - buf == buf * q' + r';
    assert buf * (q - 1) == buf * q - buf;
    QuotientUnique(buf, q - 1, 0, q', r');
  }

  /** Rows [lo, hi) of the cache gain L[start..stop]^T times the error rows [start, stop), in place. */
  method AddMm(s: Slice, cache: array<Row>, weightQ: array<Row>, lo: nat, hi: nat, start: nat, stop: nat)
    requires s.Valid() && cache != weightQ
    requires IsMatrix(cache[..], |s.weight|, s.n) && IsMatrix(weightQ[..], |s.weight|, s.n)
    requires lo <= hi <= |s.weight| && start <= stop <= |s.weight|
    modifies cache
    ensures IsMatrix(cache[..], |s.weight|, s.n)
    ensures s.Compensated(old(cache[..]), cache[..], weightQ[..], lo, hi, start, stop)
  {
    ghost var before, quantized := cache[..], weightQ[..];
    forall r | lo <= r < hi {
      cache[r] := s.AddFeedback(cache[r], weightQ[..], r, start, stop);
    }
    assert weightQ[..] == quantized;
    assert forall r :: lo <= r < hi ==> cache[..][r] == s.AddFeedback(before[r], quantized, r, start, stop);
  }

  /** Input tiles of the block that ends at row p, taken from the weights and the compensated cache. */
  method BlockTiles(s: Slice, cache: array<Row>, p: nat) returns (rows: Matrix, tiles: seq<Tile>)
    requires s.Valid() && 16 <= p <= |s.weight| && IsMatrix(cache[..], |s.weight|, s.n)
    ensures |rows| == 16 && forall r :: 0 <= r < 16 ==> rows[r] == AddRows(s.weight[p - 16 + r], cache[p - 16 + r])
    ensures IsMatrix(rows, 16, s.n) && tiles == GatherTiles(rows, s.n)
  {
    rows := [];
    for r := 0 to 16
      invariant |rows| == r
      invariant forall k :: 0 <= k < r ==> rows[k] == AddRows(s.weight[p - 16 + k], cache[p - 16 + k])
    {
      assert |cache[..][p - 16 + r]| == s.n;
      rows := rows + [AddRows(s.weight[p - 16 + r], cache[p - 16 + r])];
    }
    tiles := GatherTiles(rows, s.n);
  }

  /** Writes one quantized block into rows [p - 16, p) and its codes into block row p / 16 - 1. */
  method StoreBlock(s: Slice, weightQ: array<Row>, encoded: array<seq<Codes>>, p: nat, out: seq<Quantized>)
    requires s.Valid() && 16 <= p <= |s.weight| && p % 16 == 0 && |out| == s.n / 16
    requires IsMatrix(weightQ[..], |s.weight|, s.n) && encoded.Length == |s.weight| / 16
    modifies weightQ, encoded
    ensures weightQ[..] == old(weightQ[..p - 16]) + ScatterTiles(out, s.n) + old(weightQ[p..])
    ensures encoded[..] == old(encoded[..p / 16 - 1]) + [CodesOf(out)] + old(encoded[p / 16..])
    ensures IsMatrix(weightQ[..], |s.weight|, s.n)
  {
    var rows := ScatterTiles(out, s.n);
    forall r | p - 16 <= r < p {
      weightQ[r] := rows[r - (p - 16)];
    }
    encoded[p / 16 - 1] := CodesOf(out);
  }

  /** Compensate, quantize and store the block of the span [.., j) that ends at row p. */
  method QuantizeBlock(s: Slice, cache: array<Row>, weightQ: array<Row>, encoded: array<seq<Codes>>, j: nat, p: nat)
    requires s.Valid() && 16 <= p && cache != weightQ
    requires s.Progress(cache[..], weightQ[..], encoded[..], j, p)
    modifies cache, weightQ, encoded
    ensures s.Progress(cache[..], weightQ[..], encoded[..], j, p - 16)
  {
    ghost var before, quantized, codes := cache[..], weightQ[..], encoded[..];
    AddMm(s, cache, weightQ, p - 16, p, p, j);
    var rows, tiles := BlockTiles(s, cache, p);
    s.FedBlock(before, cache[..], quantized, codes, j, p, rows);
    var out := QuantizeTiles(s.quantize, tiles);
    StoreBlock(s, weightQ, encoded, p, out);
    s.BlockStored(cache[..], quantized, codes, j, p, out, weightQ[..], encoded[..]);
  }

  /** Cross-span feedback of the settled span [i, j) into the cache of the whole matrix. */
  method FeedBackSpan(s: Slice, cache: array<Row>, weightQ: array<Row>, encoded: array<seq<Codes>>, j: nat, i: nat)
    requires s.Valid() && cache != weightQ
    requires s.Progress(cache[..], weightQ[..], encoded[..], j, i)
    modifies cache
    ensures s.Progress(cache[..], weightQ[..], encoded[..], i, i)
  {
    ghost var before := cache[..];
    AddMm(s, cache, weightQ, 0, |s.weight|, i, j);
    s.SpanStored(before, cache[..], weightQ[..], encoded[..], j, i);
  }

  /** The span that ends at row j: its blocks from the last to the first, then the cross-span addmm. */
  method QuantizeSpan(s: Slice, cache: array<Row>, weightQ: array<Row>, encoded: array<seq<Codes>>, j: nat, buf: nat)
    requires s.Valid() && buf % 16 == 0 && 16 <= buf <= j && cache != weightQ
    requires s.Progress(cache[..], weightQ[..], encoded[..], j, j)
    modifies cache, weightQ, encoded
    ensures s.Progress(cache[..], weightQ[..], encoded[..], j - buf, j - buf)
  {
    var i: nat := j - buf;
    var p := j;
    while i < p
      invariant i <= p <= j && (p - i) % 16 == 0
      invariant s.Progress(cache[..], weightQ[..], encoded[..], j, p)
    {
      QuantizeBlock(s, cache, weightQ, encoded, j, p);
      p := p - 16;
    }
    FeedBackSpan(s, cache, weightQ, encoded, j, i);
  }

  /** ldlq over all spans, from the last to the first. */
  method Ldlq(s: Slice, buf: nat) returns (weightQ: array<Row>, encoded: array<seq<Codes>>)
    requires s.Valid() && s.SpanFits(buf)
    ensures weightQ[..] == s.Ideal(0).rows && encoded[..] == s.Ideal(0).codes
    ensures s.IsResult(weightQ[..], encoded[..])
  {
    var k := |s.weight|;
    var cache := new Row[k](_ => Zeros(s.n));
    weightQ := new Row[k](_ => Zeros(s.n));
    encoded := new seq<Codes>[k / 16](_ => []);
    s.Fresh(cache[..], weightQ[..], encoded[..]);
    var j: nat := k;
    while 0 < j
      invariant j % buf == 0
      invariant s.Progress(cache[..], weightQ[..], encoded[..], j, j)
    {
      WholeSpans(j, buf);
      QuantizeSpan(s, cache, weightQ, encoded, j, buf);
      j := j - buf;
    }
    s.WalkIsResult();
  }
}
