/** Baking a channel order into an expert's three weights. */
module Permutation {
  import opened Common
  import opened Linear
  import opened Orders
  import opened Tiles

  /** HF weights [out, in]: gate and up are channels x width, down is outputs x channels. */
  datatype Expert = Expert(gate: Matrix, up: Matrix, down: Matrix)

  ghost predicate Shaped(e: Expert, channels: nat, width: nat, outputs: nat) {
    IsMatrix(e.gate, channels, width) && IsMatrix(e.up, channels, width) && IsMatrix(e.down, outputs, channels)
  }

  function Select<T>(s: seq<T>, index: seq<nat>): (r: seq<T>)
    requires Indices(index, |s|)
    ensures |r| == |index| && forall i :: 0 <= i < |index| ==> r[i] == s[index[i]]
  {
    seq(|index|, i requires 0 <= i < |index| => s[index[i]])
  }

  function SelectColumns(m: Matrix, columns: nat, index: seq<nat>): (r: Matrix)
    requires IsMatrix(m, |m|, columns) && Indices(index, columns)
    ensures IsMatrix(r, |m|, |index|) && forall o :: 0 <= o < |m| ==> r[o] == Select(m[o], index)
  {
    seq(|m|, o requires 0 <= o < |m| => Select(m[o], index))
  }

  function Permute(e: Expert, perm: seq<nat>): (r: Expert)
    requires |e.gate| == |e.up| && IsMatrix(e.down, |e.down|, |e.gate|) && Indices(perm, |e.gate|)
  {
    Expert(Select(e.gate, perm), Select(e.up, perm), SelectColumns(e.down, |e.gate|, perm))
  }

  /** New channel k is old channel perm[k]: a row of gate and of up, an entry of every row of down. */
  ghost predicate IsPermuted(r: Expert, e: Expert, channels: nat, width: nat, perm: seq<nat>)
    requires Shaped(e, channels, width, |e.down|) && Bijection(perm, channels)
  {
    && Shaped(r, channels, width, |e.down|)
    && (forall k :: 0 <= k < channels ==> r.gate[k] == e.gate[perm[k]] && r.up[k] == e.up[perm[k]])
    && (forall o, k :: 0 <= o < |e.down| && 0 <= k < channels ==> r.down[o][k] == e.down[o][perm[k]])
  }

  /** The permuted expert, or None where the source raises: no bijection, or shapes that do not meet. */
  function PermuteExpert(e: Expert, channels: nat, width: nat, upChannels: nat, upWidth: nat, inputs: nat, perm: seq<nat>): (r: Option<Expert>)
    requires IsMatrix(e.gate, channels, width) && IsMatrix(e.up, upChannels, upWidth) && IsMatrix(e.down, |e.down|, inputs)
    ensures r.Some? <==> Bijection(perm, channels) && upChannels == channels && upWidth == width && inputs == channels
    ensures r.Some? ==> IsPermuted(r.value, e, channels, width, perm)
  {
    ValidatesIffBijection(perm, channels);
    if !Validates(perm, channels) || upChannels != channels || upWidth != width || inputs != channels then None
    else Some(Permute(e, perm))
  }

  // ---- the inverse ---------------------------------------------------------

  ghost predicate Inverts(inverse: seq<nat>, perm: seq<nat>)
    requires Indices(perm, |inverse|)
  {
    |inverse| == |perm| && forall i :: 0 <= i < |perm| ==> inverse[perm[i]] == i
  }

  /** inverse[old] = new for every new coordinate; None where validation raises. */
  method Inverse(perm: seq<nat>) returns (inverse: Option<seq<nat>>)
    ensures inverse.None? <==> !Bijection(perm, |perm|)
    ensures inverse.Some? ==> |inverse.value| == |perm| && Inverts(inverse.value, perm)
  {
    ValidatesIffBijection(perm, |perm|);
    if !Validates(perm, |perm|) {
      return None;
    }
    var slots := new nat[|perm|](_ => 0);
    for new_ := 0 to |perm|
      invariant forall i :: 0 <= i < new_ ==> slots[perm[i]] == i
    {
      slots[perm[new_]] := new_;
    }
    return Some(slots[..]);
  }

  /** An order and its inverse undo each other both ways, and the inverse is an order too. */
  lemma InverseBothWays(perm: seq<nat>, inverse: seq<nat>)
    requires Bijection(perm, |perm|) && |inverse| == |perm| && Inverts(inverse, perm)
    ensures Bijection(inverse, |perm|)
    ensures forall x :: 0 <= x < |perm| ==> perm[inverse[x]] == x
  {
    forall x | 0 <= x < |perm|
      ensures inverse[x] < |perm| && perm[inverse[x]] == x
    {
      assert x in perm;
    }
    forall x | 0 <= x < |perm|
      ensures x in inverse
    {
      assert inverse[perm[x]] == x;
    }
  }

  /** Permuting by the inverse restores all three weights. */
  lemma InverseRestoresWeights(e: Expert, channels: nat, width: nat, perm: seq<nat>, inverse: seq<nat>, baked: Expert)
    requires Shaped(e, channels, width, |e.down|) && Bijection(perm, channels)
    requires |inverse| == channels && Inverts(inverse, perm)
    requires PermuteExpert(e, channels, width, channels, width, channels, perm) == Some(baked)
    ensures PermuteExpert(baked, channels, width, channels, width, channels, inverse) == Some(e)
  {
    InverseBothWays(perm, inverse);
    assert IsPermuted(baked, e, channels, width, perm);
    var back := PermuteExpert(baked, channels, width, channels, width, channels, inverse).value;
    assert IsPermuted(back, baked, channels, width, inverse);
    assert back.gate == e.gate && back.up == e.up;
    forall o | 0 <= o < |e.down|
      ensures back.down[o] == e.down[o]
    {
      assert |back.down[o]| == channels;
    }
    assert back.down == e.down && back == e;
  }

  // ---- the expert function -------------------------------------------------

  /** act(x . gate) * (x . up), channel by channel. */
  ghost predicate IsHidden(h: Row, e: Expert, channels: nat, x: Row, act: real -> real)
    requires IsMatrix(e.gate, channels, |x|) && IsMatrix(e.up, channels, |x|)
  {
    |h| == channels && forall k :: 0 <= k < channels ==> h[k] == act(Dot(x, e.gate[k], |x|)) * Dot(x, e.up[k], |x|)
  }

  function Products(a: Row, b: Row): (p: Row)
    requires |a| == |b|
    ensures |p| == |a|
  {
    seq(|a|, i requires 0 <= i < |a| => a[i] * b[i])
  }

  lemma {:induction false} DotIsTotal(a: Row, b: Row, index: seq<nat>, m: nat)
    requires |a| == |b| && Indices(index, |a|) && m <= |index|
    ensures Dot(Select(a, index), Select(b, index), m) == Total(Products(a, b), index[..m])
  {
    if m > 0 {
      DotIsTotal(a, b, index, m - 1);
      assert index[..m][..m - 1] == index[..m - 1];
    }
  }

  /** Permuting both factors alike keeps their inner product. */
  lemma DotOfPermuted(a: Row, b: Row, perm: seq<nat>)
    requires |a| == |b| && Bijection(perm, |a|)
    ensures Dot(Select(a, perm), Select(b, perm), |a|) == Dot(a, b, |a|)
  {
    var all := Range(|a|);
    RangeIsBijection(|a|);
    BijectionsReorder(perm, all, |a|);
    DotIsTotal(a, b, perm, |a|);
    DotIsTotal(a, b, all, |a|);
    assert perm[..|a|] == perm && all[..|a|] == all;
    assert Select(a, all) == a && Select(b, all) == b;
    TotalOfReorder(Products(a, b), perm, all);
  }

  /**
    * Whatever the pointwise activation: the hidden row of the baked expert is that of the expert in the new
    * order, and its output, the hidden row against each row of down, is the same.
    */
  lemma BakingKeepsFunction(e: Expert, baked: Expert, channels: nat, perm: seq<nat>, x: Row, act: real -> real, h: Row, h': Row)
    requires Shaped(e, channels, |x|, |e.down|)
    requires PermuteExpert(e, channels, |x|, channels, |x|, channels, perm) == Some(baked)
    requires IsHidden(h, e, channels, x, act) && IsHidden(h', baked, channels, x, act)
    ensures forall k :: 0 <= k < channels ==> h'[k] == h[perm[k]]
    ensures forall o :: 0 <= o < |e.down| ==> Dot(h', baked.down[o], channels) == Dot(h, e.down[o], channels)
  {
    assert IsPermuted(baked, e, channels, |x|, perm);
    forall k | 0 <= k < channels
      ensures h'[k] == h[perm[k]]
    {
      assert baked.gate[k] == e.gate[perm[k]] && baked.up[k] == e.up[perm[k]];
    }
    assert h' == Select(h, perm);
    forall o | 0 <= o < |e.down|
      ensures Dot(h', baked.down[o], channels) == Dot(h, e.down[o], channels)
    {
      assert |baked.down[o]| == channels;
      assert baked.down[o] == Select(e.down[o], perm);
      DotOfPermuted(h, e.down[o], perm);
    }
  }
}
