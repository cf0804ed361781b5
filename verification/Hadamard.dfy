/** Sylvester-Hadamard matrices and the blockwise transforms of the weight. */
module Hadamard {
  import opened Common
  import opened Linear
  import opened Tiles

  /** Entry (i, j) of the Sylvester matrix of size 2^k: three copies of the half size and one negated. */
  function Entry(k: nat, i: nat, j: nat): real
    requires i < Pow2(k) && j < Pow2(k)
  {
    if k == 0 then 1.0
    else
      var d := Pow2(k - 1);
      if i < d then
        if j < d then Entry(k - 1, i, j) else Entry(k - 1, i, j - d)
      else
        if j < d then Entry(k - 1, i - d, j) else -Entry(k - 1, i - d, j - d)
  }

  /** Whether two indices share an odd number of binary ones. */
  function SharesOdd(i: nat, j: nat): bool {
    if i == 0 || j == 0 then false else (i % 2 == 1 && j % 2 == 1) != SharesOdd(i / 2, j / 2)
  }

  /** A further top digit counts when both indices have it. */
  lemma {:induction false} TopDigit(k: nat, i: nat, j: nat)
    requires i < Pow2(k) && j < Pow2(k)
    ensures SharesOdd(i + Pow2(k), j) == SharesOdd(i, j + Pow2(k)) == SharesOdd(i, j)
    ensures SharesOdd(i + Pow2(k), j + Pow2(k)) != SharesOdd(i, j)
  {
    if k == 0 {
      assert !SharesOdd(0, 0);
    } else {
      var d := Pow2(k - 1);
      TopDigit(k - 1, i / 2, j / 2);
      assert (i + Pow2(k)) / 2 == i / 2 + d && (j + Pow2(k)) / 2 == j / 2 + d;
    }
  }

  /** The closed form: the sign counts the binary ones shared by row and column. */
  lemma {:induction false} EntrySign(k: nat, i: nat, j: nat)
    requires i < Pow2(k) && j < Pow2(k)
    ensures Entry(k, i, j) == if SharesOdd(i, j) then -1.0 else 1.0
  {
    if k > 0 {
      var d := Pow2(k - 1);
      var i', j' := if i < d then i else i - d, if j < d then j else j - d;
      EntrySign(k - 1, i', j');
      TopDigit(k - 1, i', j');
    }
  }

  /** The doubling loop. */
  method Sylvester(n: nat, ghost k: nat) returns (h: array2<real>)
    requires n == Pow2(k)
    ensures h.Length0 == h.Length1 == n
    ensures forall i, j :: 0 <= i < n && 0 <= j < n ==> h[i, j] == if SharesOdd(i, j) then -1.0 else 1.0
  {
    h := new real[1, 1]((_, _) => 1.0);
    ghost var e := 0;
    while h.Length0 < n
      invariant h.Length0 == h.Length1 == Pow2(e) && e <= k
      invariant forall i, j :: 0 <= i < Pow2(e) && 0 <= j < Pow2(e) ==> h[i, j] == Entry(e, i, j)
      decreases k - e
    {
      if e == k {
        assert false;
      }
      var half := h;
      h := Double(half);
      assert Doubles(half, h);
      e := e + 1;
      Pow2Grows(e, k);
    }
    Pow2Injective(e, k);
    forall i, j | 0 <= i < n && 0 <= j < n
      ensures h[i, j] == if SharesOdd(i, j) then -1.0 else 1.0
    {
      EntrySign(k, i, j);
    }
  }

  lemma {:induction false} Pow2Grows(a: nat, b: nat)
    ensures a <= b ==> Pow2(a) <= Pow2(b)
    ensures a < b ==> Pow2(a) < Pow2(b)
    decreases b
  {
    if a < b {
      Pow2Grows(a, b - 1);
    }
  }

  lemma Pow2Injective(a: nat, b: nat)
    requires Pow2(b) <= Pow2(a) && a <= b
    ensures a == b
  {
    Pow2Grows(a, b);
  }

  /** Three copies of the half size, and one negated. */
  ghost predicate Doubles(h: array2<real>, s: array2<real>)
    reads h, s
  {
    var d := h.Length0;
    && h.Length1 == d && s.Length0 == s.Length1 == 2 * d
    && forall i, j :: 0 <= i < 2 * d && 0 <= j < 2 * d ==>
         s[i, j] == if i < d then h[i, if j < d then j else j - d] else if j < d then h[i - d, j] else -h[i - d, j - d]
  }

  method Double(h: array2<real>) returns (s: array2<real>)
    requires h.Length0 == h.Length1
    ensures fresh(s) && Doubles(h, s)
  {
    var d := h.Length0;
    s := new real[2 * d, 2 * d];
    WriteQuadrant(s, h, 0, 0, false);
    WriteQuadrant(s, h, 0, d, false);
    WriteQuadrant(s, h, d, 0, false);
    WriteQuadrant(s, h, d, d, true);
  }

  /** s[row:row + d, column:column + d] = h, or -h */
  method WriteQuadrant(s: array2<real>, h: array2<real>, row: nat, column: nat, negated: bool)
    requires s != h && row + h.Length0 <= s.Length0 && column + h.Length1 <= s.Length1
    modifies s
    ensures forall i, j :: 0 <= i < s.Length0 && 0 <= j < s.Length1 ==>
      s[i, j] == if row <= i < row + h.Length0 && column <= j < column + h.Length1
                 then (if negated then -h[i - row, j - column] else h[i - row, j - column]) else old(s[i, j])
  {
    forall i, j | row <= i < row + h.Length0 && column <= j < column + h.Length1 {
      s[i, j] := if negated then -h[i - row, j - column] else h[i - row, j - column];
    }
  }

  lemma {:induction false} EntrySymmetric(k: nat, i: nat, j: nat)
    requires i < Pow2(k) && j < Pow2(k)
    ensures Entry(k, i, j) == Entry(k, j, i)
  {
    if k > 0 {
      var d := Pow2(k - 1);
      EntrySymmetric(k - 1, if i < d then i else i - d, if j < d then j else j - d);
    }
  }

  // ---- rows are orthogonal ------------------------------------------------

  function RowOf(k: nat, i: nat): (r: Row)
    requires i < Pow2(k)
    ensures |r| == Pow2(k)
  {
    seq(Pow2(k), j requires 0 <= j < Pow2(k) => Entry(k, i, j))
  }

  function Half(k: nat, i: nat): (r: nat)
    requires k > 0 && i < Pow2(k)
    ensures r < Pow2(k - 1)
  {
    if i < Pow2(k - 1) then i else i - Pow2(k - 1)
  }

  function Sign(k: nat, i: nat): real
    requires k > 0
  {
    if i < Pow2(k - 1) then 1.0 else -1.0
  }

  /** A row is a row of the half-size matrix followed by the same row, negated in the lower half. */
  lemma RowHalves(k: nat, i: nat)
    requires k > 0 && i < Pow2(k)
    ensures RowOf(k, i) == RowOf(k - 1, Half(k, i)) + Scaled(Sign(k, i), RowOf(k - 1, Half(k, i)))
  {
  }

  lemma RowsSplit(k: nat, i: nat, j: nat, inner: real)
    requires k > 0 && i < Pow2(k) && j < Pow2(k)
    requires inner == Dot(RowOf(k - 1, Half(k, i)), RowOf(k - 1, Half(k, j)), Pow2(k - 1))
    ensures Dot(RowOf(k, i), RowOf(k, j), Pow2(k)) == if (i < Pow2(k - 1)) == (j < Pow2(k - 1)) then inner + inner else 0.0
  {
    RowHalves(k, i);
    RowHalves(k, j);
    var e := if j < Pow2(k - 1) then inner else -inner;
    var f := if i < Pow2(k - 1) then e else -e;
    DotOfHalves(RowOf(k - 1, Half(k, i)), RowOf(k - 1, Half(k, j)), Sign(k, i), Sign(k, j), inner, e, f);
  }

  /** H H^T = n I. */
  lemma {:induction false} RowsOrthogonal(k: nat, i: nat, j: nat)
    requires i < Pow2(k) && j < Pow2(k)
    ensures Dot(RowOf(k, i), RowOf(k, j), Pow2(k)) == if i == j then Pow2(k) as real else 0.0
  {
    if k == 0 {
      assert Dot(RowOf(0, 0), RowOf(0, 0), 1) == Dot(RowOf(0, 0), RowOf(0, 0), 0) + 1.0;
    } else {
      RowsOrthogonal(k - 1, Half(k, i), Half(k, j));
      RowsSplit(k, i, j, if Half(k, i) == Half(k, j) then Pow2(k - 1) as real else 0.0);
    }
  }

  // ---- the transform of one block ------------------------------------------

  /** get_hadamard_dt: the matrix times a scale, 1 / sqrt(n) where the source applies it. */
  function ScaledMatrix(k: nat, c: real): (m: Matrix)
    ensures IsMatrix(m, Pow2(k), Pow2(k))
  {
    seq(Pow2(k), i requires 0 <= i < Pow2(k) => Scaled(c, RowOf(k, i)))
  }

  /** c is 1 / sqrt(2^k) up to its sign. */
  ghost predicate Normalizes(c: real, k: nat) {
    c * (c * Pow2(k) as real) == 1.0
  }

  /** Row i of the matrix times c. */
  ghost predicate IsHadamardRow(h: Row, k: nat, c: real, i: nat) {
    |h| == Pow2(k) && forall t :: 0 <= t < |h| ==> h[t] == if SharesOdd(i, t) then -c else c
  }

  lemma ScaledRowIs(k: nat, c: real, i: nat)
    requires i < Pow2(k)
    ensures IsHadamardRow(ScaledMatrix(k, c)[i], k, c, i)
  {
    var h := ScaledMatrix(k, c)[i];
    forall t | 0 <= t < |h|
      ensures h[t] == if SharesOdd(i, t) then -c else c
    {
      EntrySign(k, i, t);
    }
  }

  lemma TransformEntry(k: nat, c: real, x: Row, i: nat, h: Row)
    requires |x| == Pow2(k) && i < Pow2(k) && IsHadamardRow(h, k, c, i)
    ensures Transform(k, c, x)[i] == Dot(h, x, |x|)
  {
    ScaledRowIs(k, c, i);
    assert h == ScaledMatrix(k, c)[i];
  }

  function Transform(k: nat, c: real, x: Row): (y: Row)
    requires |x| == Pow2(k)
    ensures |y| == |x|
  {
    Times(ScaledMatrix(k, c), x)
  }

  lemma ScaledSymmetric(a: Row, b: Row, c: real, i: nat, t: nat)
    requires t < |a| && i < |b| && a[t] == b[i]
    ensures Scaled(c, a)[t] == Scaled(c, b)[i]
  {
  }

  lemma ScaledColumns(k: nat, c: real, t: nat)
    requires t < Pow2(k)
    ensures Column(ScaledMatrix(k, c), t) == ScaledMatrix(k, c)[t]
  {
    forall i | 0 <= i < Pow2(k)
      ensures Column(ScaledMatrix(k, c), t)[i] == ScaledMatrix(k, c)[t][i]
    {
      EntrySymmetric(k, i, t);
      ScaledSymmetric(RowOf(k, i), RowOf(k, t), c, i, t);
    }
  }

  lemma ScaledRows(k: nat, c: real, i: nat, t: nat)
    requires i < Pow2(k) && t < Pow2(k) && Normalizes(c, k)
    ensures Dot(ScaledMatrix(k, c)[i], ScaledMatrix(k, c)[t], Pow2(k)) == if i == t then 1.0 else 0.0
  {
    RowsOrthogonal(k, i, t);
    var d := if i == t then Pow2(k) as real else 0.0;
    var e := c * d;
    DotBothScaled(c, RowOf(k, i), c, RowOf(k, t), Pow2(k), d, e, c * e);
  }

  /** The normalized transform is its own inverse. */
  lemma TransformTwice(k: nat, c: real, x: Row)
    requires |x| == Pow2(k) && Normalizes(c, k)
    ensures Transform(k, c, Transform(k, c, x)) == x
  {
    var n, m := Pow2(k), ScaledMatrix(k, c);
    forall i | 0 <= i < n
      ensures Dot(m[i], Times(m, x), n) == x[i]
    {
      DotThrough(m[i], m, x, n);
      forall t | 0 <= t < n
        ensures Through(m[i], m, n, n)[t] == if t == i then 1.0 else 0.0
      {
        ThroughEntry(m[i], m, n, n, t);
        ScaledColumns(k, c, t);
        ScaledRows(k, c, i, t);
      }
      DotUnit(Through(m[i], m, n, n), x, i, n);
    }
  }

  lemma TransformScaledAt(k: nat, c: real, g: real, x: Row, i: nat, d: real, r: real)
    requires |x| == Pow2(k) && i < |x| && d == Transform(k, c, x)[i] && r == g * d
    ensures Transform(k, c, Scaled(g, x))[i] == r
  {
    DotScaledRight(ScaledMatrix(k, c)[i], g, x, |x|, d, r);
  }

  lemma TransformScaled(k: nat, c: real, g: real, x: Row)
    requires |x| == Pow2(k)
    ensures Transform(k, c, Scaled(g, x)) == Scaled(g, Transform(k, c, x))
  {
    var y := Transform(k, c, x);
    forall i | 0 <= i < |x|
      ensures Transform(k, c, Scaled(g, x))[i] == Scaled(g, y)[i]
    {
      TransformScaledAt(k, c, g, x, i, y[i], Scaled(g, y)[i]);
    }
  }
}
