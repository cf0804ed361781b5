/** The Hadamard transform applied block by block to the rows or the columns of a weight. */
module Blockwise {
  import opened Common
  import opened Hadamard
  import opened Linear
  import opened Tiles

  /** A finished part of length s followed by the untouched rest grows by one block of length d. */
  lemma Splice<T>(part: seq<T>, done: seq<T>, m: seq<T>, s: nat, d: nat)
    requires |done| == s && s + d <= |m| && part == done + m[s..]
    ensures m[..s + d][..s] == m[..s] && m[..s + d][s..] == m[s..s + d]
    ensures |part| == |m| && part[..s] == done && part[s..s + d] == m[s..s + d] && part[s + d..] == m[s + d..]
  {
  }

  // ---- right: every row, block by block ------------------------------------

  /** One row seen as count blocks, each transformed. */
  function RightRow(k: nat, c: real, row: Row, count: nat): (r: Row)
    requires |row| == Blocks(count, Pow2(k))
    ensures |r| == |row|
  {
    if count == 0 then []
    else
      var s := Blocks(count - 1, Pow2(k));
      RightRow(k, c, row[..s], count - 1) + Transform(k, c, row[s..])
  }

  /** The batched form: x.view(k, -1, d) @ had. */
  function ApplyRight(k: nat, c: real, m: Matrix, count: nat): (r: Matrix)
    requires IsMatrix(m, |m|, Blocks(count, Pow2(k)))
    ensures IsMatrix(r, |m|, Blocks(count, Pow2(k)))
  {
    seq(|m|, i requires 0 <= i < |m| => RightRow(k, c, m[i], count))
  }

  /** Entry j of block b is row j of the matrix against that block. */
  ghost predicate IsRightRow(k: nat, c: real, row: Row, count: nat, turned: Row)
    requires |row| == Blocks(count, Pow2(k))
  {
    |turned| == |row| && forall b, j, h :: 0 <= b < count && 0 <= j < Pow2(k) && IsHadamardRow(h, k, c, j) ==>
      IsDotAt(turned, Blocks(b, Pow2(k)) + j, h, row, Blocks(b, Pow2(k)))
  }

  /** v[at] is h against x[from..from + |h|]. */
  ghost predicate IsDotAt(v: Row, at: nat, h: Row, x: Row, from: nat) {
    at < |v| && from + |h| <= |x| && v[at] == Dot(h, x[from..from + |h|], |h|)
  }

  lemma DotAtAppend(v: Row, more: Row, at: nat, h: Row, x: Row, rest: Row, from: nat)
    requires IsDotAt(v, at, h, x, from)
    ensures IsDotAt(v + more, at, h, x + rest, from)
  {
    assert (x + rest)[from..from + |h|] == x[from..from + |h|];
  }

  lemma DotAtLast(k: nat, c: real, v: Row, x: Row, last: Row, j: nat, h: Row)
    requires |v| == |x| && |last| == Pow2(k) && j < |last| && IsHadamardRow(h, k, c, j)
    ensures IsDotAt(v + Transform(k, c, last), |v| + j, h, x + last, |x|)
  {
    TransformEntry(k, c, last, j, h);
    assert (x + last)[|x|..|x| + |h|] == last;
  }

  lemma EarlierBlock(k: nat, count: nat, b: nat, row: Row)
    requires |row| == Blocks(count, Pow2(k)) && b < count
    ensures Blocks(count - 1, Pow2(k)) + Pow2(k) == |row| && (b < count - 1 ==> Blocks(b, Pow2(k)) <= Blocks(count - 1, Pow2(k)))
  {
    BlockFits(b, count, Pow2(k));
    if b < count - 1 {
      BlockFits(b, count - 1, Pow2(k));
    }
  }

  lemma {:induction false} RightRowEntry(k: nat, c: real, row: Row, count: nat, b: nat, j: nat, h: Row)
    requires |row| == Blocks(count, Pow2(k)) && b < count && j < Pow2(k) && IsHadamardRow(h, k, c, j)
    ensures IsDotAt(RightRow(k, c, row, count), Blocks(b, Pow2(k)) + j, h, row, Blocks(b, Pow2(k)))
  {
    EarlierBlock(k, count, b, row);
    var s, from := Blocks(count - 1, Pow2(k)), Blocks(b, Pow2(k));
    var x, last := row[..s], row[s..];
    var v, w := RightRow(k, c, x, count - 1), Transform(k, c, last);
    if b == count - 1 {
      DotAtLast(k, c, v, x, last, j, h);
    } else {
      RightRowEntry(k, c, x, count - 1, b, j, h);
      DotAtAppend(v, w, from + j, h, x, last, from);
    }
    assert x + last == row && RightRow(k, c, row, count) == v + w;
  }

  ghost predicate IsRight(k: nat, c: real, m: Matrix, count: nat, turned: Matrix)
    requires IsMatrix(m, |m|, Blocks(count, Pow2(k)))
  {
    |turned| == |m| && forall i :: 0 <= i < |m| ==> IsRightRow(k, c, m[i], count, turned[i])
  }

  lemma ApplyRightIs(k: nat, c: real, m: Matrix, count: nat)
    requires IsMatrix(m, |m|, Blocks(count, Pow2(k)))
    ensures IsRight(k, c, m, count, ApplyRight(k, c, m, count))
  {
    forall i | 0 <= i < |m|
      ensures IsRightRow(k, c, m[i], count, ApplyRight(k, c, m, count)[i])
    {
      forall b, j, h | 0 <= b < count && 0 <= j < Pow2(k) && IsHadamardRow(h, k, c, j)
        ensures IsDotAt(RightRow(k, c, m[i], count), Blocks(b, Pow2(k)) + j, h, m[i], Blocks(b, Pow2(k)))
      {
        RightRowEntry(k, c, m[i], count, b, j, h);
      }
    }
  }

  lemma {:induction false} RightRowTwice(k: nat, c: real, row: Row, count: nat)
    requires |row| == Blocks(count, Pow2(k)) && Normalizes(c, k)
    ensures RightRow(k, c, RightRow(k, c, row, count), count) == row
  {
    if count > 0 {
      var s := Blocks(count - 1, Pow2(k));
      RightRowTwice(k, c, row[..s], count - 1);
      TransformTwice(k, c, row[s..]);
      var once := RightRow(k, c, row, count);
      assert once[..s] == RightRow(k, c, row[..s], count - 1) && once[s..] == Transform(k, c, row[s..]);
    }
  }

  lemma RightTwice(k: nat, c: real, m: Matrix, count: nat)
    requires IsMatrix(m, |m|, Blocks(count, Pow2(k))) && Normalizes(c, k)
    ensures ApplyRight(k, c, ApplyRight(k, c, m, count), count) == m
  {
    forall i | 0 <= i < |m|
      ensures ApplyRight(k, c, ApplyRight(k, c, m, count), count)[i] == m[i]
    {
      RightRowTwice(k, c, m[i], count);
    }
  }

  /** A row whose first i blocks are transformed. */
  function PartRow(k: nat, c: real, row: Row, count: nat, i: nat): (r: Row)
    requires |row| == Blocks(count, Pow2(k)) && i <= count
    ensures |r| == |row|
  {
    PrefixFits(i, count, Pow2(k));
    var s := Blocks(i, Pow2(k));
    RightRow(k, c, row[..s], i) + row[s..]
  }

  lemma PrefixFits(i: nat, count: nat, size: nat)
    requires i <= count
    ensures Blocks(i, size) <= Blocks(count, size)
  {
    if i < count {
      BlockFits(i, count, size);
    }
  }

  /** Transforming block i in place extends the transformed part by one block. */
  lemma PartRowGrows(k: nat, c: real, row: Row, count: nat, i: nat)
    requires |row| == Blocks(count, Pow2(k)) && i < count
    ensures Blocks(i, Pow2(k)) + Pow2(k) <= |row|
    ensures
      var s, part := Blocks(i, Pow2(k)), PartRow(k, c, row, count, i);
      PartRow(k, c, row, count, i + 1) == part[..s] + Transform(k, c, part[s..s + Pow2(k)]) + part[s + Pow2(k)..]
  {
    BlockFits(i, count, Pow2(k));
    var d, s := Pow2(k), Blocks(i, Pow2(k));
    Splice(PartRow(k, c, row, count, i), RightRow(k, c, row[..s], i), row, s, d);
  }

  /** Transforming column block i of a row whose earlier blocks are done. */
  lemma RowStored(k: nat, c: real, row: Row, count: nat, i: nat, now: Row, after: Row)
    requires |row| == Blocks(count, Pow2(k)) && i < count && now == PartRow(k, c, row, count, i)
    requires Blocks(i, Pow2(k)) + Pow2(k) <= |now|
    requires
      var s := Blocks(i, Pow2(k));
      after == now[..s] + Transform(k, c, now[s..s + Pow2(k)]) + now[s + Pow2(k)..]
    ensures after == PartRow(k, c, row, count, i + 1)
  {
    PartRowGrows(k, c, row, count, i);
  }

  /** x[r, s:s+d] = x[r, s:s+d] @ had */
  method TransformRowPart(k: nat, c: real, x: array<Row>, ghost before: Row, count: nat, i: nat, r: nat)
    requires |before| == Blocks(count, Pow2(k)) && i < count && r < x.Length && x[r] == PartRow(k, c, before, count, i)
    modifies x
    ensures x[r] == PartRow(k, c, before, count, i + 1)
    ensures forall q :: 0 <= q < x.Length && q != r ==> x[q] == old(x[q])
  {
    var d, s := Pow2(k), Blocks(i, Pow2(k));
    BlockFits(i, count, d);
    var now := x[r];
    var after := now[..s] + Transform(k, c, now[s..s + d]) + now[s + d..];
    RowStored(k, c, before, count, i, now, after);
    x[r] := after;
  }

  /** x[:, s:s+d] = x[:, s:s+d] @ had */
  method TransformColumns(k: nat, c: real, x: array<Row>, ghost before: Matrix, count: nat, i: nat)
    requires |before| == x.Length && IsMatrix(before, x.Length, Blocks(count, Pow2(k))) && i < count
    requires forall r :: 0 <= r < x.Length ==> x[r] == PartRow(k, c, before[r], count, i)
    modifies x
    ensures forall r :: 0 <= r < x.Length ==> x[r] == PartRow(k, c, before[r], count, i + 1)
  {
    for r := 0 to x.Length
      invariant forall q :: 0 <= q < r ==> x[q] == PartRow(k, c, before[q], count, i + 1)
      invariant forall q :: r <= q < x.Length ==> x[q] == PartRow(k, c, before[q], count, i)
    {
      TransformRowPart(k, c, x, before[r], count, i, r);
    }
  }

  /** The in-place loop over column blocks computes the batched form. */
  method BlockwiseRight(k: nat, c: real, x: array<Row>, count: nat)
    requires IsMatrix(x[..], x.Length, Blocks(count, Pow2(k)))
    modifies x
    ensures x[..] == ApplyRight(k, c, old(x[..]), count) && IsRight(k, c, old(x[..]), count, x[..])
  {
    ghost var before := x[..];
    for i := 0 to count
      invariant forall r :: 0 <= r < x.Length ==> x[r] == PartRow(k, c, before[r], count, i)
    {
      TransformColumns(k, c, x, before, count, i);
    }
    forall r | 0 <= r < x.Length
      ensures x[r] == RightRow(k, c, before[r], count)
    {
      assert before[r][..|before[r]|] == before[r];
    }
    assert x[..] == ApplyRight(k, c, before, count);
    ApplyRightIs(k, c, before, count);
  }

  // ---- left: every column, block by block ----------------------------------

  /** had @ rows for one block of rows. */
  function LeftBlock(k: nat, c: real, rows: Matrix, n: nat): (r: Matrix)
    requires IsMatrix(rows, Pow2(k), n)
    ensures IsMatrix(r, Pow2(k), n)
  {
    seq(Pow2(k), i requires 0 <= i < Pow2(k) => seq(n, t requires 0 <= t < n => Transform(k, c, Column(rows, t))[i]))
  }

  /** The batched form: had @ x.view(-1, d, n). */
  function ApplyLeft(k: nat, c: real, m: Matrix, count: nat, n: nat): (r: Matrix)
    requires IsMatrix(m, Blocks(count, Pow2(k)), n)
    ensures IsMatrix(r, |m|, n)
  {
    if count == 0 then []
    else
      var s := Blocks(count - 1, Pow2(k));
      ApplyLeft(k, c, m[..s], count - 1, n) + LeftBlock(k, c, m[s..], n)
  }

  /** Entry (j, t) of row block b is row j of the matrix against column t of that block. */
  ghost predicate IsLeft(k: nat, c: real, m: Matrix, count: nat, n: nat, turned: Matrix)
    requires IsMatrix(m, Blocks(count, Pow2(k)), n)
  {
    IsMatrix(turned, |m|, n) && forall b, j, t, h :: 0 <= b < count && 0 <= j < Pow2(k) && 0 <= t < n && IsHadamardRow(h, k, c, j) ==>
      IsDotAt(Column(turned, t), Blocks(b, Pow2(k)) + j, h, Column(m, t), Blocks(b, Pow2(k)))
  }

  lemma ColumnAppend(a: Matrix, b: Matrix, n: nat, t: nat)
    requires IsMatrix(a, |a|, n) && IsMatrix(b, |b|, n) && t < n
    ensures IsMatrix(a + b, |a| + |b|, n) && Column(a + b, t) == Column(a, t) + Column(b, t)
  {
  }

  lemma LeftBlockColumn(k: nat, c: real, rows: Matrix, n: nat, t: nat)
    requires IsMatrix(rows, Pow2(k), n) && t < n
    ensures Column(LeftBlock(k, c, rows, n), t) == Transform(k, c, Column(rows, t))
  {
  }

  /** Column by column the left transform is the right one. */
  lemma {:induction false} LeftColumn(k: nat, c: real, m: Matrix, count: nat, n: nat, t: nat)
    requires IsMatrix(m, Blocks(count, Pow2(k)), n) && t < n
    ensures Column(ApplyLeft(k, c, m, count, n), t) == RightRow(k, c, Column(m, t), count)
  {
    if count > 0 {
      var s := Blocks(count - 1, Pow2(k));
      LeftColumn(k, c, m[..s], count - 1, n, t);
      ColumnAppend(ApplyLeft(k, c, m[..s], count - 1, n), LeftBlock(k, c, m[s..], n), n, t);
      LeftBlockColumn(k, c, m[s..], n, t);
      assert Column(m, t)[..s] == Column(m[..s], t) && Column(m, t)[s..] == Column(m[s..], t);
    }
  }

  lemma ApplyLeftIs(k: nat, c: real, m: Matrix, count: nat, n: nat)
    requires IsMatrix(m, Blocks(count, Pow2(k)), n)
    ensures IsLeft(k, c, m, count, n, ApplyLeft(k, c, m, count, n))
  {
    forall b, j, t, h | 0 <= b < count && 0 <= j < Pow2(k) && 0 <= t < n && IsHadamardRow(h, k, c, j)
      ensures IsDotAt(Column(ApplyLeft(k, c, m, count, n), t), Blocks(b, Pow2(k)) + j, h, Column(m, t), Blocks(b, Pow2(k)))
    {
      LeftColumn(k, c, m, count, n, t);
      RightRowEntry(k, c, Column(m, t), count, b, j, h);
    }
  }

  lemma LeftBlockTwice(k: nat, c: real, rows: Matrix, n: nat)
    requires IsMatrix(rows, Pow2(k), n) && Normalizes(c, k)
    ensures LeftBlock(k, c, LeftBlock(k, c, rows, n), n) == rows
  {
    var once := LeftBlock(k, c, rows, n);
    forall i | 0 <= i < Pow2(k)
      ensures LeftBlock(k, c, once, n)[i] == rows[i]
    {
      forall t | 0 <= t < n
        ensures LeftBlock(k, c, once, n)[i][t] == rows[i][t]
      {
        assert Column(once, t) == Transform(k, c, Column(rows, t));
        TransformTwice(k, c, Column(rows, t));
      }
    }
  }

  lemma {:induction false} LeftTwice(k: nat, c: real, m: Matrix, count: nat, n: nat)
    requires IsMatrix(m, Blocks(count, Pow2(k)), n) && Normalizes(c, k)
    ensures ApplyLeft(k, c, ApplyLeft(k, c, m, count, n), count, n) == m
  {
    if count > 0 {
      var s := Blocks(count - 1, Pow2(k));
      LeftTwice(k, c, m[..s], count - 1, n);
      LeftBlockTwice(k, c, m[s..], n);
      var once := ApplyLeft(k, c, m, count, n);
      assert once[..s] == ApplyLeft(k, c, m[..s], count - 1, n) && once[s..] == LeftBlock(k, c, m[s..], n);
    }
  }

  function ScaleAll(g: real, m: Matrix): (r: Matrix)
    ensures |r| == |m| && forall i :: 0 <= i < |m| ==> |r[i]| == |m[i]|
  {
    seq(|m|, i requires 0 <= i < |m| => Scaled(g, m[i]))
  }

  lemma LeftEntryScaled(k: nat, c: real, g: real, rows: Matrix, n: nat, i: nat, t: nat)
    requires IsMatrix(rows, Pow2(k), n) && i < Pow2(k) && t < n
    ensures LeftBlock(k, c, ScaleAll(g, rows), n)[i][t] == g * LeftBlock(k, c, rows, n)[i][t]
  {
    forall q | 0 <= q < Pow2(k)
      ensures Column(ScaleAll(g, rows), t)[q] == Scaled(g, Column(rows, t))[q]
    {
      var v := rows[q][t];
      assert ScaleAll(g, rows)[q][t] == g * v && Column(rows, t)[q] == v;
    }
    assert Column(ScaleAll(g, rows), t) == Scaled(g, Column(rows, t));
    TransformScaled(k, c, g, Column(rows, t));
  }

  lemma LeftBlockScaled(k: nat, c: real, g: real, rows: Matrix, n: nat)
    requires IsMatrix(rows, Pow2(k), n)
    ensures LeftBlock(k, c, ScaleAll(g, rows), n) == ScaleAll(g, LeftBlock(k, c, rows, n))
  {
    forall i, t | 0 <= i < Pow2(k) && 0 <= t < n
      ensures LeftBlock(k, c, ScaleAll(g, rows), n)[i][t] == ScaleAll(g, LeftBlock(k, c, rows, n))[i][t]
    {
      LeftEntryScaled(k, c, g, rows, n, i, t);
    }
    SameMatrix(LeftBlock(k, c, ScaleAll(g, rows), n), ScaleAll(g, LeftBlock(k, c, rows, n)), n);
  }

  lemma SameMatrix(a: Matrix, b: Matrix, n: nat)
    requires IsMatrix(a, |a|, n) && IsMatrix(b, |a|, n)
    requires forall i, t :: 0 <= i < |a| && 0 <= t < n ==> a[i][t] == b[i][t]
    ensures a == b
  {
    forall i | 0 <= i < |a|
      ensures a[i] == b[i]
    {
    }
  }

  lemma {:induction false} LeftScaled(k: nat, c: real, g: real, m: Matrix, count: nat, n: nat)
    requires IsMatrix(m, Blocks(count, Pow2(k)), n)
    ensures ApplyLeft(k, c, ScaleAll(g, m), count, n) == ScaleAll(g, ApplyLeft(k, c, m, count, n))
  {
    if count > 0 {
      var s := Blocks(count - 1, Pow2(k));
      LeftScaled(k, c, g, m[..s], count - 1, n);
      LeftBlockScaled(k, c, g, m[s..], n);
      assert ScaleAll(g, m)[..s] == ScaleAll(g, m[..s]) && ScaleAll(g, m)[s..] == ScaleAll(g, m[s..]);
    }
  }

  /** A matrix whose first i row blocks are transformed. */
  function PartLeft(k: nat, c: real, m: Matrix, count: nat, n: nat, i: nat): (r: Matrix)
    requires IsMatrix(m, Blocks(count, Pow2(k)), n) && i <= count
    ensures IsMatrix(r, |m|, n)
  {
    PrefixFits(i, count, Pow2(k));
    var s := Blocks(i, Pow2(k));
    ApplyLeft(k, c, m[..s], i, n) + m[s..]
  }

  lemma PartLeftGrows(k: nat, c: real, m: Matrix, count: nat, n: nat, i: nat)
    requires IsMatrix(m, Blocks(count, Pow2(k)), n) && i < count
    ensures Blocks(i, Pow2(k)) + Pow2(k) <= |m|
    ensures
      var s, part := Blocks(i, Pow2(k)), PartLeft(k, c, m, count, n, i);
      PartLeft(k, c, m, count, n, i + 1) == part[..s] + LeftBlock(k, c, part[s..s + Pow2(k)], n) + part[s + Pow2(k)..]
  {
    BlockFits(i, count, Pow2(k));
    var d, s := Pow2(k), Blocks(i, Pow2(k));
    Splice(PartLeft(k, c, m, count, n, i), ApplyLeft(k, c, m[..s], i, n), m, s, d);
  }

  /** x[s:s+d, :] = block */
  method StoreRows(x: array<Row>, s: nat, block: Matrix)
    requires s + |block| <= x.Length
    modifies x
    ensures x[..] == old(x[..])[..s] + block + old(x[..])[s + |block|..]
  {
    forall r | 0 <= r < |block| {
      x[s + r] := block[r];
    }
  }

  /** Storing the transformed block transforms one more block of the part done so far. */
  lemma StoredIsPart(k: nat, c: real, before: Matrix, count: nat, n: nat, i: nat, now: Matrix, after: Matrix)
    requires IsMatrix(before, Blocks(count, Pow2(k)), n) && i < count && now == PartLeft(k, c, before, count, n, i)
    requires Blocks(i, Pow2(k)) + Pow2(k) <= |now|
    requires
      var s := Blocks(i, Pow2(k));
      after == now[..s] + LeftBlock(k, c, now[s..s + Pow2(k)], n) + now[s + Pow2(k)..]
    ensures after == PartLeft(k, c, before, count, n, i + 1)
  {
    PartLeftGrows(k, c, before, count, n, i);
  }

  method TransformRows(k: nat, c: real, x: array<Row>, ghost before: Matrix, count: nat, n: nat, i: nat)
    requires IsMatrix(before, Blocks(count, Pow2(k)), n) && i < count
    requires x[..] == PartLeft(k, c, before, count, n, i)
    modifies x
    ensures x[..] == PartLeft(k, c, before, count, n, i + 1)
  {
    BlockFits(i, count, Pow2(k));
    var d, s := Pow2(k), Blocks(i, Pow2(k));
    var now := x[..];
    var block := LeftBlock(k, c, now[s..s + d], n);
    StoreRows(x, s, block);
    StoredIsPart(k, c, before, count, n, i, now, x[..]);
  }

  /** The in-place loop over row blocks computes the batched form. */
  method BlockwiseLeft(k: nat, c: real, x: array<Row>, count: nat, n: nat)
    requires IsMatrix(x[..], Blocks(count, Pow2(k)), n)
    modifies x
    ensures x[..] == ApplyLeft(k, c, old(x[..]), count, n) && IsLeft(k, c, old(x[..]), count, n, x[..])
  {
    ghost var before := x[..];
    for i := 0 to count
      invariant x[..] == PartLeft(k, c, before, count, n, i)
    {
      TransformRows(k, c, x, before, count, n, i);
    }
    assert before[..|before|] == before;
    ApplyLeftIs(k, c, before, count, n);
  }
}
