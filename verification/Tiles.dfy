/** Row blocks, 16x16 tiles and the tensor-core lane order of the trellis quantizer. */
module Tiles {

  type Row = seq<real>
  type Matrix = seq<Row>

  /** A flattened 16x16 tile, the unit the quantizer kernel works on. */
  type Tile = t: seq<real> | |t| == 256 witness seq(256, _ => 0.0)

  type Codes = seq<int>

  datatype Quantized = Quantized(values: Tile, codes: Codes)

  /** One kernel block: a result that depends on the tile's own 256 values only. */
  type Quantizer = Tile -> Quantized

  predicate IsMatrix(m: Matrix, rows: nat, cols: nat) {
    |m| == rows && forall r :: 0 <= r < rows ==> |m[r]| == cols
  }

  function Zeros(n: nat): Row {
    seq(n, _ => 0.0)
  }

  /** A batched kernel call is the map of the per-tile function. */
  function QuantizeTiles(q: Quantizer, tiles: seq<Tile>): seq<Quantized> {
    seq(|tiles|, k requires 0 <= k < |tiles| => q(tiles[k]))
  }

  /** Row of the 16x16 tile that place p of the tensor-core order holds: lane p / 8, slot p % 8. */
  function TensorCoreRow(p: nat): (row: nat)
    requires p < 256
    ensures row < 16
  {
    p / 8 % 4 * 2 + p % 2 + if p % 4 < 2 then 0 else 8
  }

  function TensorCoreColumn(p: nat): (column: nat)
    requires p < 256
    ensures column < 16
  {
    p / 32 + if p % 8 < 4 then 0 else 8
  }

  /** Place that holds (row, column): argsort of the tensor-core order. */
  function TensorCorePlace(row: nat, column: nat): (p: nat)
    requires row < 16 && column < 16
    ensures p < 256
  {
    var lane := 4 * (if column < 8 then column else column - 8) + (if row < 8 then row else row - 8) / 2;
    8 * lane + row % 2 + (if row < 8 then 0 else 2) + if column < 8 then 0 else 4
  }

  /** The tensor-core order lists every (row, column) exactly once, and argsort inverts it. */
  lemma TensorCoreOrderBijective(p: nat, row: nat, column: nat)
    requires p < 256 && row < 16 && column < 16
    ensures TensorCorePlace(TensorCoreRow(p), TensorCoreColumn(p)) == p
    ensures TensorCoreRow(TensorCorePlace(row, column)) == row
    ensures TensorCoreColumn(TensorCorePlace(row, column)) == column
  {
    PlaceOfPosition(p);
    PositionOfPlace(row, column);
  }

  lemma PlaceOfPosition(p: nat)
    requires p < 256
    ensures TensorCorePlace(TensorCoreRow(p), TensorCoreColumn(p)) == p
  {
    var a, b, right, low, odd := Digits(p);
    RowOfDigits(a, b, right, low, odd);
    ColumnOfDigits(a, b, right, low, odd);
    PlaceOfDigits(a, b, right, low, odd);
  }

  lemma Digits(p: nat) returns (a: nat, b: nat, right: nat, low: nat, odd: nat)
    requires p < 256
    ensures a < 8 && b < 4 && right < 2 && low < 2 && odd < 2
    ensures p == 32 * a + 8 * b + 4 * right + 2 * low + odd
  {
    var lane, slot := p / 8, p % 8;
    a, b := lane / 4, lane % 4;
    right := if slot < 4 then 0 else 1;
    low, odd := (slot - 4 * right) / 2, slot % 2;
  }

  lemma ColumnOfDigits(a: nat, b: nat, right: nat, low: nat, odd: nat)
    requires a < 8 && b < 4 && right < 2 && low < 2 && odd < 2
    ensures TensorCoreColumn(32 * a + 8 * b + 4 * right + 2 * low + odd) == a + 8 * right
  {
    var p := 32 * a + 8 * b + 4 * right + 2 * low + odd;
    assert p / 32 == a && p % 8 == 4 * right + 2 * low + odd;
  }

  lemma PlaceOfDigits(a: nat, b: nat, right: nat, low: nat, odd: nat)
    requires a < 8 && b < 4 && right < 2 && low < 2 && odd < 2
    ensures TensorCorePlace(2 * b + odd + 8 * low, a + 8 * right) == 32 * a + 8 * b + 4 * right + 2 * low + odd
  {
    assert (2 * b + odd) / 2 == b && (2 * b + odd + 8 * low) % 2 == odd;
  }

  lemma RowOfDigits(a: nat, b: nat, right: nat, low: nat, odd: nat)
    requires a < 8 && b < 4 && right < 2 && low < 2 && odd < 2
    ensures TensorCoreRow(32 * a + 8 * b + 4 * right + 2 * low + odd) == 2 * b + odd + 8 * low
  {
    var p := 32 * a + 8 * b + 4 * right + 2 * low + odd;
    assert p / 8 == 4 * a + b && p % 2 == odd && p % 4 == 2 * low + odd;
  }

  lemma PositionOfPlace(row: nat, column: nat)
    requires row < 16 && column < 16
    ensures TensorCoreRow(TensorCorePlace(row, column)) == row
    ensures TensorCoreColumn(TensorCorePlace(row, column)) == column
  {
    var low, right := if row < 8 then 0 else 1, if column < 8 then 0 else 1;
    var a, b, odd := column - 8 * right, (row - 8 * low) / 2, row % 2;
    assert row == 2 * b + odd + 8 * low;
    PlaceOfDigits(a, b, right, low, odd);
    RowOfDigits(a, b, right, low, odd);
    ColumnOfDigits(a, b, right, low, odd);
  }

  /** Place by place, the flat index of the tile entry it holds. */
  ghost predicate IsOrder(order: seq<nat>) {
    |order| == 256 && forall p :: 0 <= p < 256 ==> order[p] == 16 * TensorCoreRow(p) + TensorCoreColumn(p)
  }

  /** Place v of lane t, as an offset from the lane's first entry. */
  function Offset(v: nat): nat {
    (if v % 4 == 0 then 0 else if v % 4 == 1 then 16 else if v % 4 == 2 then 128 else 144) + if v < 4 then 0 else 8
  }

  lemma LaneEntry(order: seq<nat>, t: nat, v: nat, first: nat)
    requires IsOrder(order) && t < 32 && v < 8 && first == t % 4 * 32 + t / 4
    ensures order[8 * t + v] == first + Offset(v)
  {
    var p := 8 * t + v;
    assert p / 8 == t && p % 8 == v && p / 32 == t / 4 && p % 4 == v % 4 && p % 2 == v % 2;
  }

  /** The eight entries of a lane whose first one is given. */
  function Lane(first: nat): (lane: seq<nat>)
    ensures |lane| == 8 && forall v :: 0 <= v < 8 ==> lane[v] == first + Offset(v)
  {
    [first, first + 16, first + 128, first + 144, first + 8, first + 24, first + 136, first + 152]
  }

  lemma LaneOfOrder(order: seq<nat>, t: nat, first: nat)
    requires IsOrder(order) && t < 32 && first == t % 4 * 32 + t / 4
    ensures order[8 * t..8 * t + 8] == Lane(first)
  {
    forall v: nat | v < 8
      ensures order[8 * t..8 * t + 8][v] == Lane(first)[v]
    {
      LaneEntry(order, t, v, first);
    }
  }

  /** tensor_core_perm: four rows and two columns for each of the 32 lanes. */
  method TensorCorePerm() returns (perm: array<nat>)
    ensures IsOrder(perm[..])
  {
    ghost var order := seq(256, p requires 0 <= p < 256 => 16 * TensorCoreRow(p) + TensorCoreColumn(p));
    perm := new nat[256](_ => 0);
    for t := 0 to 32
      invariant perm[..8 * t] == order[..8 * t]
    {
      WriteLane(perm, t);
      LaneOfOrder(order, t, t % 4 * 32 + t / 4);
      assert order[..8 * (t + 1)] == order[..8 * t] + order[8 * t..8 * t + 8];
    }
    assert perm[..] == perm[..8 * 32];
  }

  method WriteLane(perm: array<nat>, t: nat)
    requires perm.Length == 256 && t < 32
    modifies perm
    ensures perm[..8 * (t + 1)] == old(perm[..8 * t]) + Lane(t % 4 * 32 + t / 4)
  {
    var r0 := t % 4 * 2;
    var r1, r2, r3 := r0 + 1, r0 + 8, r0 + 9;
    var c0 := t / 4;
    var c1 := c0 + 8;
    WriteFour(perm, t * 8, r0 * 16 + c0, r1 * 16 + c0, r2 * 16 + c0, r3 * 16 + c0);
    WriteFour(perm, t * 8 + 4, r0 * 16 + c1, r1 * 16 + c1, r2 * 16 + c1, r3 * 16 + c1);
  }

  method WriteFour(perm: array<nat>, at: nat, a: nat, b: nat, c: nat, d: nat)
    requires at + 4 <= perm.Length
    modifies perm
    ensures perm[..at + 4] == old(perm[..at]) + [a, b, c, d]
  {
    perm[at], perm[at + 1], perm[at + 2], perm[at + 3] := a, b, c, d;
  }

  /** Cuts a 16-row block into tiles, each in tensor-core order. */
  function GatherTiles(rows: Matrix, n: nat): (tiles: seq<Tile>)
    requires IsMatrix(rows, 16, n) && n % 16 == 0
    ensures |tiles| == n / 16
  {
    seq(n / 16, t requires 0 <= t < n / 16 => GatherTile(rows, n, t))
  }

  function GatherTile(rows: Matrix, n: nat, t: nat): Tile
    requires IsMatrix(rows, 16, n) && n % 16 == 0 && t < n / 16
  {
    seq(256, p requires 0 <= p < 256 => rows[TensorCoreRow(p)][16 * t + TensorCoreColumn(p)])
  }

  /** Puts quantized tiles back as a 16-row block. */
  function ScatterTiles(tiles: seq<Quantized>, n: nat): (rows: Matrix)
    requires n % 16 == 0 && |tiles| == n / 16
    ensures IsMatrix(rows, 16, n)
  {
    seq(16, r requires 0 <= r < 16 =>
      seq(n, c requires 0 <= c < n => tiles[c / 16].values[TensorCorePlace(r, c % 16)]))
  }

  function CodesOf(tiles: seq<Quantized>): (codes: seq<Codes>)
    ensures |codes| == |tiles|
  {
    seq(|tiles|, t requires 0 <= t < |tiles| => tiles[t].codes)
  }

  /** Gather and scatter undo each other: a quantizer that returns its tile returns the block. */
  lemma ScatterUndoesGather(q: Quantizer, rows: Matrix, n: nat)
    requires IsMatrix(rows, 16, n) && n % 16 == 0
    requires forall tile: Tile :: q(tile).values == tile
    ensures ScatterTiles(QuantizeTiles(q, GatherTiles(rows, n)), n) == rows
  {
    var out := ScatterTiles(QuantizeTiles(q, GatherTiles(rows, n)), n);
    forall r | 0 <= r < 16
      ensures out[r] == rows[r]
    {
      forall c | 0 <= c < n
        ensures out[r][c] == rows[r][c]
      {
        ScatteredEntry(q, rows, n, r, c);
      }
    }
  }

  lemma ScatteredEntry(q: Quantizer, rows: Matrix, n: nat, r: nat, c: nat)
    requires IsMatrix(rows, 16, n) && n % 16 == 0 && r < 16 && c < n
    requires forall tile: Tile :: q(tile).values == tile
    ensures ScatterTiles(QuantizeTiles(q, GatherTiles(rows, n)), n)[r][c] == rows[r][c]
  {
    assert QuantizeTiles(q, GatherTiles(rows, n))[c / 16].values == GatherTile(rows, n, c / 16);
    PositionOfPlace(r, c % 16);
  }

  /** A pooled call answers every part as a call of its own would. */
  lemma QuantizeTilesConcat(q: Quantizer, a: seq<Tile>, b: seq<Tile>)
    ensures QuantizeTiles(q, a + b) == QuantizeTiles(q, a) + QuantizeTiles(q, b)
  {
  }
}
