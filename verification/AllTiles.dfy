/** Independent quantization of all tiles in one batch, and where LDLQ reduces to it. */
module AllTiles {
  import opened Tiles
  import opened Ldlq

  ghost predicate ZeroFactor(s: Slice)
    requires s.Valid()
  {
    forall t, r :: 0 <= t < |s.weight| && 0 <= r < |s.weight| ==> s.factor[t][r] == 0.0
  }

  /** The tiles of block rows b and later, block row by block row. */
  function TilesFrom(s: Slice, b: nat): (tiles: seq<Tile>)
    requires s.Valid() && 16 * b <= |s.weight|
    decreases |s.weight| - 16 * b
  {
    if 16 * b == |s.weight| then []
    else GatherTiles(s.weight[16 * b..16 * (b + 1)], s.n) + TilesFrom(s, b + 1)
  }

  /** Cuts a batch answer back into block rows. */
  function Unbatch(s: Slice, out: seq<Quantized>, b: nat): (w: Walked)
    requires s.Valid() && 16 * b <= |s.weight| && |out| == |TilesFrom(s, b)|
    decreases |s.weight| - 16 * b
  {
    if 16 * b == |s.weight| then Walked([], [])
    else
      var m := s.n / 16;
      var rest := Unbatch(s, out[m..], b + 1);
      Walked(ScatterTiles(out[..m], s.n) + rest.rows, [CodesOf(out[..m])] + rest.codes)
  }

  /** trellis_quant_all_tiles: one batched quantizer call over the whole weight. */
  function QuantizeAllTiles(s: Slice): Walked
    requires s.Valid()
  {
    Unbatch(s, QuantizeTiles(s.quantize, TilesFrom(s, 0)), 0)
  }

  lemma {:induction false} NoFeedback(s: Slice, quantized: Matrix, r: nat, c: nat, lo: nat, hi: nat)
    requires s.Valid() && s.IsTail(quantized) && ZeroFactor(s)
    requires |s.weight| - |quantized| <= lo <= hi <= |s.weight| && r < |s.weight| && c < s.n
    ensures s.Feedback(quantized, r, c, lo, hi) == 0.0
    decreases hi - lo
  {
    if lo < hi {
      NoFeedback(s, quantized, r, c, lo + 1, hi);
    }
  }

  lemma PlainBlockInput(s: Slice, quantized: Matrix, p: nat)
    requires s.Valid() && s.IsTail(quantized) && ZeroFactor(s)
    requires 16 <= p && |s.weight| - |quantized| <= p <= |s.weight|
    ensures s.BlockInput(quantized, p) == s.weight[p - 16..p]
  {
    var rows := s.BlockInput(quantized, p);
    forall r | 0 <= r < 16
      ensures rows[r] == s.weight[p - 16..p][r]
    {
      forall c | 0 <= c < s.n
        ensures rows[r][c] == s.weight[p - 16 + r][c]
      {
        NoFeedback(s, quantized, p - 16 + r, c, p, |s.weight|);
      }
    }
  }

  lemma {:induction false} UnbatchIsIdeal(s: Slice, b: nat)
    requires s.Valid() && ZeroFactor(s) && 16 * b <= |s.weight|
    ensures s.Ideal(b) == Unbatch(s, QuantizeTiles(s.quantize, TilesFrom(s, b)), b)
    decreases |s.weight| - 16 * b
  {
    if 16 * b < |s.weight| {
      var tail, m := s.Ideal(b + 1), s.n / 16;
      PlainBlockInput(s, tail.rows, 16 * (b + 1));
      var head := GatherTiles(s.weight[16 * b..16 * (b + 1)], s.n);
      var out := QuantizeTiles(s.quantize, TilesFrom(s, b));
      QuantizeTilesConcat(s.quantize, head, TilesFrom(s, b + 1));
      assert out[..m] == QuantizeTiles(s.quantize, head);
      assert out[m..] == QuantizeTiles(s.quantize, TilesFrom(s, b + 1));
      UnbatchIsIdeal(s, b + 1);
    }
  }

  /** With L = 0 the walk, for any span, is the independent quantization of all tiles. */
  lemma ZeroFactorIsAllTiles(s: Slice)
    requires s.Valid() && ZeroFactor(s)
    ensures s.Ideal(0) == QuantizeAllTiles(s)
  {
    UnbatchIsIdeal(s, 0);
  }

  lemma ExactBlockInput(s: Slice, quantized: Matrix, p: nat)
    requires s.Valid() && s.IsTail(quantized) && quantized == s.weight[|s.weight| - |quantized|..]
    requires 16 <= p && |s.weight| - |quantized| <= p <= |s.weight|
    ensures s.BlockInput(quantized, p) == s.weight[p - 16..p]
  {
    var rows := s.BlockInput(quantized, p);
    forall r | 0 <= r < 16
      ensures rows[r] == s.weight[p - 16..p][r]
    {
      forall c | 0 <= c < s.n
        ensures rows[r][c] == s.weight[p - 16 + r][c]
      {
        NoErrorNoFeedback(s, quantized, p - 16 + r, c, p, |s.weight|);
      }
    }
  }

  /** A quantizer without error leaves the weights as they are, whatever the factor. */
  lemma {:induction false} ExactQuantizerKeepsWeights(s: Slice, b: nat)
    requires s.Valid() && 16 * b <= |s.weight|
    requires forall tile: Tile :: s.quantize(tile).values == tile
    ensures s.Ideal(b).rows == s.weight[16 * b..]
    decreases |s.weight| - 16 * b
  {
    if 16 * b < |s.weight| {
      ExactQuantizerKeepsWeights(s, b + 1);
      var p := 16 * (b + 1);
      ExactBlockInput(s, s.Ideal(b + 1).rows, p);
      ScatterUndoesGather(s.quantize, s.weight[p - 16..p], s.n);
    }
  }

  lemma {:induction false} NoErrorNoFeedback(s: Slice, quantized: Matrix, r: nat, c: nat, lo: nat, hi: nat)
    requires s.Valid() && s.IsTail(quantized) && quantized == s.weight[|s.weight| - |quantized|..]
    requires |s.weight| - |quantized| <= lo <= hi <= |s.weight| && r < |s.weight| && c < s.n
    ensures s.Feedback(quantized, r, c, lo, hi) == 0.0
    decreases hi - lo
  {
    if lo < hi {
      NoErrorNoFeedback(s, quantized, r, c, lo + 1, hi);
    }
  }
}
