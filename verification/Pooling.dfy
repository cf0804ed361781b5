/** Many callers' tiles in one quantizer call: who gets which rows of the answer. */
module Pooling {
  import opened Tiles

  /** The first k parts in one batch. */
  function Batch<T>(parts: seq<seq<T>>, k: nat): seq<T>
    requires k <= |parts|
  {
    if k == 0 then [] else Batch(parts, k - 1) + parts[k - 1]
  }

  /** Where each of the first m parts starts in a batch; its rows of the pooled answer are its own answer. */
  ghost predicate Offsets(parts: seq<seq<Tile>>, m: nat, q: Quantizer, out: seq<Quantized>, offs: seq<nat>)
    requires m <= |parts|
  {
    && |offs| == m + 1 && offs[0] == 0 && offs[m] == |out|
    && forall k {:trigger PartAt(parts, q, out, offs, k)} :: 0 <= k < m ==> PartAt(parts, q, out, offs, k)
  }

  /** Part k follows the parts before it and finds its own answer there. */
  ghost predicate PartAt(parts: seq<seq<Tile>>, q: Quantizer, out: seq<Quantized>, offs: seq<nat>, k: nat)
    requires k < |parts| && k + 1 < |offs|
  {
    && offs[k + 1] == offs[k] + |parts[k]| <= |out|
    && out[offs[k]..offs[k] + |parts[k]|] == QuantizeTiles(q, parts[k])
  }

  lemma {:induction false} PooledAnswer(parts: seq<seq<Tile>>, m: nat, q: Quantizer) returns (offs: seq<nat>)
    requires m <= |parts|
    ensures Offsets(parts, m, q, QuantizeTiles(q, Batch(parts, m)), offs)
  {
    if m == 0 {
      offs := [0];
    } else {
      var before := PooledAnswer(parts, m - 1, q);
      var head, part := QuantizeTiles(q, Batch(parts, m - 1)), QuantizeTiles(q, parts[m - 1]);
      QuantizeTilesConcat(q, Batch(parts, m - 1), parts[m - 1]);
      offs := before + [|head| + |part|];
      OffsetsGrow(parts, m, q, head, part, before);
    }
  }

  lemma OffsetsGrow(parts: seq<seq<Tile>>, m: nat, q: Quantizer, head: seq<Quantized>, part: seq<Quantized>, before: seq<nat>)
    requires 0 < m <= |parts| && part == QuantizeTiles(q, parts[m - 1])
    requires Offsets(parts, m - 1, q, head, before)
    ensures Offsets(parts, m, q, head + part, before + [|head| + |part|])
  {
    var out, offs := head + part, before + [|head| + |part|];
    forall k | 0 <= k < m
      ensures PartAt(parts, q, out, offs, k)
    {
      if k < m - 1 {
        assert PartAt(parts, q, head, before, k);
        assert out[offs[k]..offs[k + 1]] == head[before[k]..before[k + 1]];
      } else {
        assert out[|head|..] == part;
      }
    }
  }
}
