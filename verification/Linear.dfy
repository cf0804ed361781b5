/** Inner products over exact reals. */
module Linear {
  import opened Tiles

  /** Inner product of the first m entries. */
  function Dot(a: Row, b: Row, m: nat): real
    requires m <= |a| && m <= |b|
  {
    if m == 0 then 0.0 else Dot(a, b, m - 1) + a[m - 1] * b[m - 1]
  }

  function Scaled(s: real, a: Row): (r: Row)
    ensures |r| == |a|
  {
    seq(|a|, i requires 0 <= i < |a| => s * a[i])
  }

  function Column(m: Matrix, t: nat): (c: Row)
    requires forall i :: 0 <= i < |m| ==> t < |m[i]|
    ensures |c| == |m|
  {
    seq(|m|, i requires 0 <= i < |m| => m[i][t])
  }

  /** The product of a matrix and a column vector. */
  function Times(m: Matrix, x: Row): (y: Row)
    requires IsMatrix(m, |m|, |x|)
    ensures |y| == |m|
  {
    seq(|m|, i requires 0 <= i < |m| => Dot(m[i], x, |x|))
  }

  lemma {:induction false} DotScaled(s: real, a: Row, b: Row, m: nat, d: real, r: real)
    requires m <= |a| && m <= |b| && d == Dot(a, b, m) && r == s * d
    ensures Dot(Scaled(s, a), b, m) == r
  {
    if m > 0 {
      var d' := Dot(a, b, m - 1);
      var r' := s * d';
      DotScaled(s, a, b, m - 1, d', r');
      Distribute(s, d', a[m - 1], b[m - 1]);
    }
  }

  lemma {:induction false} DotScaledRight(a: Row, s: real, b: Row, m: nat, d: real, r: real)
    requires m <= |a| && m <= |b| && d == Dot(a, b, m) && r == s * d
    ensures Dot(a, Scaled(s, b), m) == r
  {
    if m > 0 {
      var d' := Dot(a, b, m - 1);
      var r' := s * d';
      DotScaledRight(a, s, b, m - 1, d', r');
      Distribute(s, d', a[m - 1], b[m - 1]);
    }
  }

  lemma Distribute(s: real, d: real, x: real, y: real)
    ensures s * (d + x * y) == s * d + (s * x) * y == s * d + x * (s * y)
  {
  }

  lemma {:induction false} DotZero(a: Row, b: Row, m: nat)
    requires m <= |a| && m <= |b| && forall i :: 0 <= i < m ==> a[i] == 0.0
    ensures Dot(a, b, m) == 0.0
  {
    if m > 0 {
      DotZero(a, b, m - 1);
    }
  }

  function AddScaled(u: Row, s: real, v: Row): (w: Row)
    requires |u| == |v|
    ensures |w| == |u|
  {
    seq(|u|, i requires 0 <= i < |u| => u[i] + s * v[i])
  }

  lemma {:induction false} DotSum(u: Row, s: real, v: Row, b: Row, m: nat, d: real)
    requires |u| == |v| && m <= |u| && m <= |b| && d == Dot(v, b, m)
    ensures Dot(AddScaled(u, s, v), b, m) == Dot(u, b, m) + s * d
  {
    if m > 0 {
      var d' := Dot(v, b, m - 1);
      DotSum(u, s, v, b, m - 1, d');
      var x, y, z := u[m - 1], v[m - 1], b[m - 1];
      assert (x + s * y) * z == x * z + s * (y * z);
      Distribute(s, d', y, z);
    }
  }

  /** Row vector times the first m rows of a matrix. */
  function Through(a: Row, k: Matrix, n: nat, m: nat): (r: Row)
    requires m <= |a| && m <= |k| && IsMatrix(k, |k|, n)
    ensures |r| == n
  {
    if m == 0 then Zeros(n) else AddScaled(Through(a, k, n, m - 1), a[m - 1], k[m - 1])
  }

  lemma {:induction false} ThroughEntry(a: Row, k: Matrix, n: nat, m: nat, t: nat)
    requires m <= |a| && m <= |k| && IsMatrix(k, |k|, n) && t < n
    ensures Through(a, k, n, m)[t] == Dot(a, Column(k, t), m)
  {
    if m > 0 {
      ThroughEntry(a, k, n, m - 1, t);
    }
  }

  lemma DotTimes(a: Row, k: Matrix, x: Row, m: nat, d: real)
    requires IsMatrix(k, |k|, |x|) && m < |a| && m < |k| && d == Dot(k[m], x, |x|)
    ensures Dot(a, Times(k, x), m + 1) == Dot(a, Times(k, x), m) + a[m] * d
  {
  }

  /** a . (K x) == (a K) . x */
  lemma {:induction false} DotThrough(a: Row, k: Matrix, x: Row, m: nat)
    requires IsMatrix(k, |k|, |x|) && m <= |a| && m <= |k|
    ensures Dot(a, Times(k, x), m) == Dot(Through(a, k, |x|, m), x, |x|)
  {
    if m == 0 {
      DotZero(Through(a, k, |x|, 0), x, |x|);
    } else {
      DotThrough(a, k, x, m - 1);
      var d := Dot(k[m - 1], x, |x|);
      DotTimes(a, k, x, m - 1, d);
      DotSum(Through(a, k, |x|, m - 1), a[m - 1], k[m - 1], x, |x|, d);
    }
  }

  /** A row that is 1 at i and 0 elsewhere picks entry i. */
  lemma {:induction false} DotUnit(a: Row, x: Row, i: nat, m: nat)
    requires m <= |a| && m <= |x|
    requires forall t :: 0 <= t < m ==> a[t] == if t == i then 1.0 else 0.0
    ensures Dot(a, x, m) == if i < m then x[i] else 0.0
  {
    if m > 0 {
      DotUnit(a, x, i, m - 1);
    }
  }

  lemma {:induction false} DotConcat(a: Row, b: Row, p: Row, q: Row, m: nat)
    requires |a| == |b| && |p| == |q| && m <= |p|
    ensures Dot(a + p, b + q, |a| + m) == Dot(a, b, |a|) + Dot(p, q, m)
  {
    if m > 0 {
      DotConcat(a, b, p, q, m - 1);
    } else {
      DotPrefix(a, b, p, q, |a|);
    }
  }

  lemma {:induction false} DotPrefix(a: Row, b: Row, p: Row, q: Row, m: nat)
    requires |a| == |b| && |p| == |q| && m <= |a|
    ensures Dot(a + p, b + q, m) == Dot(a, b, m)
  {
    if m > 0 {
      DotPrefix(a, b, p, q, m - 1);
    }
  }

  lemma DotOfHalves(p: Row, q: Row, s: real, t: real, d: real, e: real, f: real)
    requires |p| == |q| && d == Dot(p, q, |p|) && e == t * d && f == s * e
    ensures Dot(p + Scaled(s, p), q + Scaled(t, q), |p| + |p|) == d + f
  {
    DotConcat(p, q, Scaled(s, p), Scaled(t, q), |p|);
    DotBothScaled(s, p, t, q, |p|, d, e, f);
  }

  lemma DotBothScaled(s: real, a: Row, t: real, b: Row, m: nat, d: real, e: real, f: real)
    requires m <= |a| && m <= |b| && d == Dot(a, b, m) && e == t * d && f == s * e
    ensures Dot(Scaled(s, a), Scaled(t, b), m) == f
  {
    DotScaledRight(a, t, b, m, d, e);
    DotScaled(s, a, Scaled(t, b), m, e, f);
  }
}
