/** The search as a resumable bracket walk, and many walks answered by one quantizer call per wave. */
module GoldenPool {
  import opened GoldenSection
  import opened Linear
  import opened Orders
  import opened Pooling
  import opened Tiles

  /** Where the walk is suspended: which candidate it has yielded. */
  datatype Phase = First | Second | Left | Right | Closed

  datatype Walk = Walk(phase: Phase, a: real, b: real, x1: real, x2: real, f1: real, f2: real)

  function Begin(g: real): Walk {
    Walk(First, LOW, HIGH, Inner(g, LOW, HIGH), Outer(g, LOW, HIGH), 0.0, 0.0)
  }

  function Candidate(w: Walk): real {
    if w.phase == First || w.phase == Left then w.x1 else w.x2
  }

  /** The loop head: close, or narrow and yield the one new candidate. */
  function Resume(g: real, w: Walk): Walk {
    if Abs(w.b - w.a) > TOLERANCE then
      if w.f1 < w.f2 then
        Walk(Left, w.a, w.x2, Inner(g, w.a, w.x2), w.x1, w.f1, w.f1)
      else
        Walk(Right, w.x1, w.b, w.x2, Outer(g, w.x1, w.b), w.f2, w.f2)
    else
      w.(phase := Closed)
  }

  /** Receives the error of the yielded candidate and runs to the next yield. */
  function Send(g: real, w: Walk, v: real): Walk
    requires w.phase != Closed
  {
    match w.phase
    case First => w.(f1 := v, phase := Second)
    case Second => Resume(g, w.(f2 := v))
    case Left => Resume(g, w.(f1 := v))
    case Right => Resume(g, w.(f2 := v))
    case Closed => w
  }

  // ---- any errors at all -----------------------------------------------------

  /** What n sends fix whatever they carried: the width of the bracket and the place of both points. */
  ghost predicate Shaped(g: real, n: nat, w: Walk) {
    && w.b - w.a == Width(g, if n < 2 then 0 else n - 1 - n / 13)
    && w.x1 == Inner(g, w.a, w.b) && w.x2 == Outer(g, w.a, w.b)
    && (if n == 0 then w.phase == First
        else if n == 1 then w.phase == Second
        else if n < 13 then w.phase == Left || w.phase == Right
        else w.phase == Closed)
  }

  lemma ShapedGrows(g: real, n: nat, w: Walk, v: real)
    requires Golden(g) && Shaped(g, n, w) && n < 13
    ensures w.phase != Closed && Shaped(g, n + 1, Send(g, w, v))
  {
    if n > 0 {
      var i := if n == 1 then 0 else n - 1;
      OpenIff(g, i);
      WidthShrinks(g, i, i);
      KeepLeft(g, w.a, w.b);
      KeepRight(g, w.a, w.b);
      InteriorOrdered(g, w.a, w.b);
    }
  }

  /** The walk after it was sent vs. */
  function Feed(g: real, vs: seq<real>): Walk {
    if vs == [] then Begin(g)
    else
      var w := Feed(g, vs[..|vs| - 1]);
      if w.phase == Closed then w else Send(g, w, vs[|vs| - 1])
  }

  /** Every walk makes exactly 13 evaluations, whatever errors it is told. */
  lemma {:induction false} ClosesAfter13(g: real, vs: seq<real>)
    requires Golden(g) && |vs| <= 13
    ensures Shaped(g, |vs|, Feed(g, vs)) && (Feed(g, vs).phase == Closed <==> |vs| == 13)
  {
    if vs != [] {
      ClosesAfter13(g, vs[..|vs| - 1]);
      ShapedGrows(g, |vs| - 1, Feed(g, vs[..|vs| - 1]), vs[|vs| - 1]);
    }
  }

  // ---- errors of one slice ---------------------------------------------------

  /** The walk after n sends of the error of its own candidate. */
  ghost predicate At(g: real, err: real -> real, n: nat, w: Walk) {
    && Shaped(g, n, w) && n <= 13
    && (w.phase != First && w.phase != Left ==> w.f1 == err(w.x1))
    && (w.phase == Left || w.phase == Closed ==> w.f2 == err(w.x2))
    && Ideal(g, err, if n < 2 then 0 else n - 1 - n / 13) == Bracket(w.a, w.b)
  }

  lemma AtGrows(g: real, err: real -> real, n: nat, w: Walk)
    requires Golden(g) && At(g, err, n, w) && n < 13
    ensures w.phase != Closed && At(g, err, n + 1, Send(g, w, err(Candidate(w))))
  {
    ShapedGrows(g, n, w, err(Candidate(w)));
    if n > 0 {
      var i := if n == 1 then 0 else n - 1;
      OpenIff(g, i);
      WidthShrinks(g, i, i);
      assert Ideal(g, err, i + 1) == Narrow(g, err, Bracket(w.a, w.b));
      KeepLeft(g, w.a, w.b);
      KeepRight(g, w.a, w.b);
    }
  }

  lemma CandidatePositive(g: real, err: real -> real, n: nat, w: Walk)
    requires Golden(g) && At(g, err, n, w)
    ensures LOW < Candidate(w) < HIGH
  {
    var i := if n < 2 then 0 else n - 1 - n / 13;
    IdealWidth(g, err, i);
    InteriorOrdered(g, w.a, w.b);
  }

  // ---- the measured error ----------------------------------------------------

  function ScaledTile(t: Tile, scale: real): Tile {
    seq(256, p requires 0 <= p < 256 => t[p] * scale)
  }

  function ScaledTiles(tiles: seq<Tile>, scale: real): (r: seq<Tile>)
    ensures |r| == |tiles|
  {
    seq(|tiles|, i requires 0 <= i < |tiles| => ScaledTile(tiles[i], scale))
  }

  function SquaredError(t: Tile, answer: Tile, scale: real, m: nat): real
    requires scale != 0.0 && m <= 256
  {
    if m == 0 then 0.0
    else
      var e := answer[m - 1] / scale - t[m - 1];
      SquaredError(t, answer, scale, m - 1) + e * e
  }

  function TotalError(tiles: seq<Tile>, answers: seq<Quantized>, scale: real, m: nat): real
    requires scale != 0.0 && m <= |tiles| && |answers| == |tiles|
  {
    if m == 0 then 0.0
    else TotalError(tiles, answers, scale, m - 1) + SquaredError(tiles[m - 1], answers[m - 1].values, scale, 256)
  }

  /** ((q / scale - tiles) ** 2).mean() */
  function Mse(tiles: seq<Tile>, answers: seq<Quantized>, scale: real): real
    requires scale != 0.0 && tiles != [] && |answers| == |tiles|
  {
    TotalError(tiles, answers, scale, |tiles|) / (256 * |tiles|) as real
  }

  /** test_scale of one slice: its sampled tiles through a quantizer call of their own. */
  function TestScale(q: Quantizer, tiles: seq<Tile>): real -> real
    requires tiles != []
  {
    scale => if scale == 0.0 then 0.0 else Mse(tiles, QuantizeTiles(q, ScaledTiles(tiles, scale)), scale)
  }

  ghost predicate IsScaled(scaled: Tile, t: Tile, scale: real) {
    forall p :: 0 <= p < 256 ==> scaled[p] == t[p] * scale
  }

  lemma ScaledIs(scaled: Tile, t: Tile, scale: real)
    requires IsScaled(scaled, t, scale)
    ensures scaled == ScaledTile(t, scale)
  {
    var r := ScaledTile(t, scale);
    forall p | 0 <= p < 256
      ensures scaled[p] == r[p]
    {
    }
  }

  /** e[from..from + 256] are the errors of one tile: the answer over the scale less the entry. */
  ghost predicate AreErrors(e: Row, from: nat, answer: Tile, scale: real, t: Tile)
    requires scale != 0.0 && from + 256 <= |e|
  {
    forall p :: 0 <= p < 256 ==> e[from + p] == answer[p] / scale - t[p]
  }

  lemma {:induction false} SquaresAreDot(e: Row, from: nat, answer: Tile, scale: real, t: Tile, m: nat)
    requires scale != 0.0 && from + 256 <= |e| && AreErrors(e, from, answer, scale, t) && m <= 256
    ensures Dot(e, e, from + m) == Dot(e, e, from) + SquaredError(t, answer, scale, m)
  {
    if m > 0 {
      SquaresAreDot(e, from, answer, scale, t, m - 1);
      assert e[from + (m - 1)] == answer[m - 1] / scale - t[m - 1];
    }
  }

  lemma {:induction false} TotalIsDot(tiles: seq<Tile>, answers: seq<Quantized>, scale: real, e: Row, m: nat)
    requires scale != 0.0 && m <= |tiles| && |answers| == |tiles| && |e| == 256 * |tiles|
    requires forall i :: 0 <= i < |tiles| ==> AreErrors(e, 256 * i, answers[i].values, scale, tiles[i])
    ensures TotalError(tiles, answers, scale, m) == Dot(e, e, 256 * m)
  {
    if m > 0 {
      TotalIsDot(tiles, answers, scale, e, m - 1);
      SquaresAreDot(e, 256 * (m - 1), answers[m - 1].values, scale, tiles[m - 1], 256);
    }
  }

  /** The measured error is the mean square of what the quantizer does to the scaled tiles, seen at the old scale. */
  lemma TestScaleIsMean(q: Quantizer, tiles: seq<Tile>, scaled: seq<Tile>, scale: real, e: Row)
    requires scale != 0.0 && tiles != [] && |scaled| == |tiles| && |e| == 256 * |tiles|
    requires forall i :: 0 <= i < |tiles| ==> IsScaled(scaled[i], tiles[i], scale)
    requires forall i :: 0 <= i < |tiles| ==> AreErrors(e, 256 * i, q(scaled[i]).values, scale, tiles[i])
    ensures TestScale(q, tiles)(scale) == Dot(e, e, |e|) / |e| as real
  {
    forall i | 0 <= i < |tiles|
      ensures scaled[i] == ScaledTiles(tiles, scale)[i]
    {
      ScaledIs(scaled[i], tiles[i], scale);
    }
    assert scaled == ScaledTiles(tiles, scale);
    TotalIsDot(tiles, QuantizeTiles(q, scaled), scale, e, |tiles|);
  }

  // ---- the pool ----------------------------------------------------------------

  ghost predicate AllAt(g: real, q: Quantizer, samples: seq<seq<Tile>>, n: nat, walks: seq<Walk>)
    requires forall s :: 0 <= s < |samples| ==> samples[s] != []
  {
    |walks| == |samples| && forall s :: 0 <= s < |samples| ==> At(g, TestScale(q, samples[s]), n, walks[s])
  }

  /** Every active search contributes its tiles times its candidate. */
  method Gather(samples: seq<seq<Tile>>, walks: seq<Walk>, active: seq<nat>) returns (parts: seq<seq<Tile>>)
    requires |walks| == |samples| && Indices(active, |walks|)
    ensures |parts| == |active|
    ensures forall k :: 0 <= k < |active| ==> parts[k] == ScaledTiles(samples[active[k]], Candidate(walks[active[k]]))
  {
    parts := [];
    for k := 0 to |active|
      invariant |parts| == k
      invariant forall i :: 0 <= i < k ==> parts[i] == ScaledTiles(samples[active[i]], Candidate(walks[active[i]]))
    {
      parts := parts + [ScaledTiles(samples[active[k]], Candidate(walks[active[k]]))];
    }
  }

  /** Each search's error on its own rows of the pooled answer; off runs through the whole batch. */
  method Measure(q: Quantizer, samples: seq<seq<Tile>>, walks: seq<Walk>, active: seq<nat>, parts: seq<seq<Tile>>, out: seq<Quantized>)
    returns (mses: seq<real>, off: nat)
    requires |walks| == |samples| && Indices(active, |walks|) && |parts| == |active|
    requires forall s :: 0 <= s < |samples| ==> samples[s] != [] && Candidate(walks[s]) > 0.0
    requires forall k :: 0 <= k < |active| ==> parts[k] == ScaledTiles(samples[active[k]], Candidate(walks[active[k]]))
    requires out == QuantizeTiles(q, Batch(parts, |parts|))
    ensures off == |out| && |mses| == |active|
    ensures forall k :: 0 <= k < |active| ==> mses[k] == TestScale(q, samples[active[k]])(Candidate(walks[active[k]]))
  {
    ghost var offs := PooledAnswer(parts, |parts|, q);
    mses, off := [], 0;
    for k := 0 to |active|
      invariant |mses| == k && off == offs[k]
      invariant forall i :: 0 <= i < k ==> mses[i] == TestScale(q, samples[active[i]])(Candidate(walks[active[i]]))
    {
      var m := |parts[k]|;
      assert PartAt(parts, q, out, offs, k);
      mses := mses + [Mse(samples[active[k]], out[off..off + m], Candidate(walks[active[k]]))];
      off := off + m;
    }
  }

  lemma SentAll(g: real, q: Quantizer, samples: seq<seq<Tile>>, n: nat, walks: seq<Walk>, mses: seq<real>) returns (sent: seq<Walk>)
    requires Golden(g) && n < 13 && forall s :: 0 <= s < |samples| ==> samples[s] != []
    requires AllAt(g, q, samples, n, walks) && |mses| == |samples|
    requires forall s :: 0 <= s < |samples| ==> mses[s] == TestScale(q, samples[s])(Candidate(walks[s]))
    ensures |sent| == |samples| && AllAt(g, q, samples, n + 1, sent)
    ensures forall s :: 0 <= s < |samples| ==> walks[s].phase != Closed && sent[s] == Send(g, walks[s], mses[s])
    ensures forall s :: 0 <= s < |samples| ==> (sent[s].phase == Closed <==> n + 1 == 13)
  {
    forall s | 0 <= s < |samples|
      ensures walks[s].phase != Closed && At(g, TestScale(q, samples[s]), n + 1, Send(g, walks[s], mses[s]))
    {
      AtGrows(g, TestScale(q, samples[s]), n, walks[s]);
    }
    sent := seq(|samples|, s requires 0 <= s < |samples| => Send(g, walks[s], mses[s]));
  }

  /** Sends every active search its error; searches whose bracket closes leave the pool. */
  method SendAll(g: real, q: Quantizer, samples: seq<seq<Tile>>, ghost n: nat, walks: seq<Walk>, active: seq<nat>, mses: seq<real>)
    returns (walks': seq<Walk>, next: seq<nat>)
    requires Golden(g) && n < 13 && forall s :: 0 <= s < |samples| ==> samples[s] != []
    requires AllAt(g, q, samples, n, walks) && active == Range(|samples|) && |mses| == |active|
    requires forall s :: 0 <= s < |samples| ==> mses[s] == TestScale(q, samples[s])(Candidate(walks[s]))
    ensures AllAt(g, q, samples, n + 1, walks') && next == if n + 1 < 13 then Range(|samples|) else []
  {
    ghost var sent := SentAll(g, q, samples, n, walks, mses);
    walks', next := walks, [];
    for k := 0 to |active|
      invariant |walks'| == |walks| && next == if n + 1 < 13 then Range(k) else []
      invariant forall i :: 0 <= i < |samples| ==> walks'[i] == if i < k then sent[i] else walks[i]
    {
      var s := active[k];
      walks' := walks'[s := Send(g, walks'[s], mses[k])];
      assert Range(k + 1) == Range(k) + [k];
      if walks'[s].phase != Closed {
        next := next + [s];
      }
    }
    assert walks' == sent;
  }

  /** One pooled evaluation wave. */
  method Wave(g: real, q: Quantizer, samples: seq<seq<Tile>>, ghost n: nat, walks: seq<Walk>, active: seq<nat>)
    returns (walks': seq<Walk>, next: seq<nat>)
    requires Golden(g) && n < 13 && forall s :: 0 <= s < |samples| ==> samples[s] != []
    requires AllAt(g, q, samples, n, walks) && active == Range(|samples|)
    ensures AllAt(g, q, samples, n + 1, walks') && next == if n + 1 < 13 then Range(|samples|) else []
  {
    forall s | 0 <= s < |samples|
      ensures Candidate(walks[s]) > 0.0
    {
      CandidatePositive(g, TestScale(q, samples[s]), n, walks[s]);
    }
    var parts := Gather(samples, walks, active);
    var out := QuantizeTiles(q, Batch(parts, |parts|));
    var mses, off := Measure(q, samples, walks, active, parts, out);
    assert off == |out|;
    walks', next := SendAll(g, q, samples, n, walks, active, mses);
  }

  function Middle(w: Walk): real {
    (w.a + w.b) / 2.0
  }

  function MiddleError(w: Walk): real {
    (w.f1 + w.f2) / 2.0
  }

  /** A closed walk holds the textbook answer and its reported error. */
  lemma ClosedWalk(g: real, err: real -> real, w: Walk, i: nat)
    requires At(g, err, 13, w) && i == 11
    ensures Middle(w) == Answer(Ideal(g, err, i)) && MiddleError(w) == Reported(g, err, Ideal(g, err, i))
  {
    assert Ideal(g, err, i) == Bracket(w.a, w.b);
  }

  lemma AllAnswered(g: real, q: Quantizer, samples: seq<seq<Tile>>, walks: seq<Walk>, i: nat)
    requires i == 11 && forall s :: 0 <= s < |samples| ==> samples[s] != []
    requires AllAt(g, q, samples, 13, walks)
    ensures forall s :: 0 <= s < |samples| ==> Found(g, TestScale(q, samples[s]), Middle(walks[s]), MiddleError(walks[s]))
  {
    forall s | 0 <= s < |samples|
      ensures Found(g, TestScale(q, samples[s]), Middle(walks[s]), MiddleError(walks[s]))
    {
      IdealIsFound(g, TestScale(q, samples[s]), i);
      ClosedWalk(g, TestScale(q, samples[s]), walks[s], i);
    }
  }

  /** All waves over the sampled tiles of the slices: every walk ends closed after 13 of them. */
  method Waves(g: real, q: Quantizer, samples: seq<seq<Tile>>) returns (walks: seq<Walk>, waves: nat)
    requires Golden(g) && forall s :: 0 <= s < |samples| ==> samples[s] != []
    ensures |walks| == |samples| && (samples != [] ==> AllAt(g, q, samples, 13, walks))
    ensures waves == if samples == [] then 0 else 13
  {
    walks := seq(|samples|, _ => Begin(g));
    var active := Range(|samples|);
    waves := 0;
    forall s | 0 <= s < |samples|
      ensures At(g, TestScale(q, samples[s]), 0, walks[s])
    {
    }
    while active != []
      invariant waves <= 13 && (samples == [] ==> waves == 0)
      invariant AllAt(g, q, samples, waves, walks) && active == if waves < 13 then Range(|samples|) else []
      decreases 13 - waves
    {
      walks, active := Wave(g, q, samples, waves, walks, active);
      waves := waves + 1;
    }
  }

  /** A weight of rows x columns tiles, at least one of each. */
  datatype Weight = Weight(matrix: Matrix, rows: nat, columns: nat) {
    predicate Valid() {
      rows > 0 && columns > 0 && IsMatrix(matrix, 16 * rows, 16 * columns)
    }

    function Longer(): nat {
      if rows < columns then columns else rows
    }
  }

  /** The tile of block row i that lies `right` blocks right of column i, both wrapped round. */
  function TileAt(w: Weight, i: nat, right: nat): Tile
    requires w.Valid()
  {
    var k := i % w.rows * 16;
    BlockInside(i % w.rows, w.rows);
    GatherTile(w.matrix[k..k + 16], 16 * w.columns, (i + right) % w.columns)
  }

  /** Three tiles of every diagonal step. */
  function SampledUpTo(w: Weight, i: nat): (tiles: seq<Tile>)
    requires w.Valid()
    ensures |tiles| == 3 * i
  {
    if i == 0 then [] else SampledUpTo(w, i - 1) + [TileAt(w, i - 1, 0), TileAt(w, i - 1, 1), TileAt(w, i - 1, 2)]
  }

  function Sampled(w: Weight): (tiles: seq<Tile>)
    requires w.Valid()
    ensures tiles != [] && |tiles| == 3 * if w.rows < w.columns then w.columns else w.rows
  {
    SampledUpTo(w, w.Longer())
  }

  lemma GatheredEntry(m: Matrix, n: nat, k: nat, t: nat, p: nat)
    requires IsMatrix(m, |m|, n) && n % 16 == 0 && k + 16 <= |m| && t < n / 16 && p < 256
    ensures GatherTile(m[k..k + 16], n, t)[p] == m[k + TensorCoreRow(p)][16 * t + TensorCoreColumn(p)]
  {
  }

  /** Which tile the sample holds at 3 i + right. */
  lemma {:induction false} SampledAt(w: Weight, steps: nat, i: nat, right: nat)
    requires w.Valid() && i < steps && right < 3
    ensures SampledUpTo(w, steps)[3 * i + right] == TileAt(w, i, right)
  {
    if i < steps - 1 {
      SampledAt(w, steps - 1, i, right);
    }
  }

  /** Entry p of the tile `right` blocks right of step i: both block coordinates wrap round. */
  lemma TileAtEntry(w: Weight, i: nat, right: nat, p: nat, row: nat, column: nat)
    requires w.Valid() && p < 256 && row == i % w.rows && column == (i + right) % w.columns
    ensures row * 16 + 16 <= |w.matrix| && 16 * column + 16 <= 16 * w.columns
    ensures TileAt(w, i, right)[p] == w.matrix[row * 16 + TensorCoreRow(p)][16 * column + TensorCoreColumn(p)]
  {
    BlockInside(row, w.rows);
    BlockInside(column, w.columns);
    GatheredEntry(w.matrix, 16 * w.columns, row * 16, column, p);
  }

  lemma BlockInside(b: nat, count: nat)
    requires b < count
    ensures b * 16 + 16 <= 16 * count
  {
  }

  /** The tiles both searches measure. */
  method SampleTiles(w: Weight) returns (tiles: seq<Tile>)
    requires w.Valid()
    ensures tiles == Sampled(w)
  {
    tiles := [];
    for i := 0 to w.Longer()
      invariant tiles == SampledUpTo(w, i)
    {
      ghost var before := tiles;
      for right := 0 to 3
        invariant tiles == before + [TileAt(w, i, 0), TileAt(w, i, 1), TileAt(w, i, 2)][..right]
      {
        tiles := tiles + [TileAt(w, i, right)];
      }
    }
  }

  /** How often a search narrows its bracket. */
  function Narrowings(): (n: nat)
    ensures n == 11
  {
    11
  }

  /** What the sequential search answers for one weight. */
  ghost predicate Sequential(g: real, q: Quantizer, w: Weight, scale: real, error: real)
    requires w.Valid()
  {
    Found(g, TestScale(q, Sampled(w)), scale, error)
  }

  /** The sequential search over one weight. */
  method GssAlone(g: real, q: Quantizer, w: Weight) returns (scale: real, error: real)
    requires Golden(g) && w.Valid()
    ensures Sequential(g, q, w, scale, error)
  {
    var tiles := SampleTiles(w);
    var evaluations;
    scale, error, evaluations := Search(g, TestScale(q, tiles));
  }

  /** The pooled search gives every slice the scale and the error of its own sequential search, in 13 waves. */
  method GssLockstep(g: real, q: Quantizer, weights: seq<Weight>) returns (scales: seq<real>, errors: seq<real>, waves: nat)
    requires Golden(g) && forall s :: 0 <= s < |weights| ==> weights[s].Valid()
    ensures |scales| == |errors| == |weights|
    ensures forall s :: 0 <= s < |weights| ==> Sequential(g, q, weights[s], scales[s], errors[s])
    ensures waves == if weights == [] then 0 else 13
  {
    var samples: seq<seq<Tile>> := [];
    for s := 0 to |weights|
      invariant |samples| == s && forall k :: 0 <= k < s ==> samples[k] == Sampled(weights[k])
    {
      var tiles := SampleTiles(weights[s]);
      samples := samples + [tiles];
    }
    var walks;
    walks, waves := Waves(g, q, samples);
    if samples != [] {
      AllAnswered(g, q, samples, walks, Narrowings());
    }
    scales := seq(|walks|, s requires 0 <= s < |walks| => Middle(walks[s]));
    errors := seq(|walks|, s requires 0 <= s < |walks| => MiddleError(walks[s]));
  }
}
