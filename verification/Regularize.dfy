/** Regularizing a weight before quantization, and the decode that undoes it. */
module Regularize {
  import opened Blockwise
  import opened Common
  import GoldenPool
  import GoldenSection
  import opened Hadamard
  import opened Linear
  import opened Tiles

  const TINY: real := 1e-30
  const FILL: real := 0.1
  const NUDGE: real := 1e-10
  const CODEBOOK_SCALE: real := 1.24371088

  /** Columnwise and rowwise scaling. */
  function ColumnsTimes(m: Matrix, s: Row): (r: Matrix)
    requires IsMatrix(m, |m|, |s|)
    ensures IsMatrix(r, |m|, |s|)
  {
    seq(|m|, i requires 0 <= i < |m| => seq(|s|, j requires 0 <= j < |s| => m[i][j] * s[j]))
  }

  function ColumnsOver(m: Matrix, s: Row): (r: Matrix)
    requires IsMatrix(m, |m|, |s|) && NoZero(s)
    ensures IsMatrix(r, |m|, |s|)
  {
    seq(|m|, i requires 0 <= i < |m| => seq(|s|, j requires 0 <= j < |s| => m[i][j] / s[j]))
  }

  function RowsTimes(m: Matrix, n: nat, s: Row): (r: Matrix)
    requires IsMatrix(m, |s|, n)
    ensures IsMatrix(r, |s|, n)
  {
    seq(|s|, i requires 0 <= i < |s| => seq(n, j requires 0 <= j < n => m[i][j] * s[i]))
  }

  function RowsOver(m: Matrix, n: nat, s: Row): (r: Matrix)
    requires IsMatrix(m, |s|, n) && NoZero(s)
    ensures IsMatrix(r, |s|, n)
  {
    seq(|s|, i requires 0 <= i < |s| => seq(n, j requires 0 <= j < n => m[i][j] / s[i]))
  }

  predicate NoZero(s: Row) {
    forall i :: 0 <= i < |s| ==> s[i] != 0.0
  }

  function Abs(x: real): real {
    if x < 0.0 then -x else x
  }

  // ---- scales --------------------------------------------------------------

  /** A square root on the nonnegative reals. */
  ghost predicate IsRoot(root: real -> real) {
    forall v: real :: 0.0 <= v ==> 0.0 <= root(v) && root(v) * root(v) == v
  }

  function Rms(root: real -> real, x: Row): real
    requires x != []
  {
    root(Dot(x, x, |x|) / |x| as real)
  }

  lemma {:induction false} SquaresNonnegative(x: Row, m: nat)
    requires m <= |x|
    ensures 0.0 <= Dot(x, x, m)
  {
    if m > 0 {
      SquaresNonnegative(x, m - 1);
      SquareNonnegative(x[m - 1]);
    }
  }

  lemma SquareNonnegative(v: real)
    ensures 0.0 <= v * v
  {
  }

  lemma QuotientNonnegative(a: real, b: real)
    requires 0.0 <= a && 0.0 < b
    ensures 0.0 <= a / b
  {
  }

  lemma RmsNonnegative(root: real -> real, x: Row)
    requires IsRoot(root) && x != []
    ensures 0.0 <= Rms(root, x)
  {
    SquaresNonnegative(x, |x|);
    QuotientNonnegative(Dot(x, x, |x|), |x| as real);
  }

  /** block_rms of one channel: squares summed in pieces of at most blocksize, then one root. */
  method BlockRms(root: real -> real, x: Row, blocksize: nat) returns (r: real)
    requires x != [] && blocksize > 0
    ensures r == Rms(root, x)
  {
    var sq, done := 0.0, 0;
    while done < |x|
      invariant done <= |x| && sq == Dot(x, x, done)
    {
      var stop := if |x| - done < blocksize then |x| else done + blocksize;
      var block := x[done..stop];
      Piece(x, done, stop - done);
      sq := sq + Dot(block, block, |block|);
      done := stop;
    }
    r := root(sq / |x| as real);
  }

  lemma {:induction false} Piece(x: Row, done: nat, m: nat)
    requires done + m <= |x|
    ensures Dot(x, x, done + m) == Dot(x, x, done) + Dot(x[done..done + m], x[done..done + m], m)
  {
    if m > 0 {
      Piece(x, done, m - 1);
      var short := x[done..done + m - 1];
      assert x[done..done + m] == short + [x[done + m - 1]];
      DotPrefix(short, short, [x[done + m - 1]], [x[done + m - 1]], m - 1);
    }
  }

  function ColumnRms(root: real -> real, m: Matrix, n: nat): (s: Row)
    requires IsMatrix(m, |m|, n) && m != []
    ensures |s| == n
  {
    seq(n, j requires 0 <= j < n => Rms(root, Column(m, j)))
  }

  function RowRms(root: real -> real, m: Matrix, n: nat): (s: Row)
    requires IsMatrix(m, |m|, n) && n > 0
    ensures |s| == |m|
  {
    seq(|m|, i requires 0 <= i < |m| => Rms(root, m[i]))
  }

  function Sum(s: Row): real {
    if s == [] then 0.0 else Sum(s[..|s| - 1]) + s[|s| - 1]
  }

  function Mean(s: Row): real
    requires s != []
  {
    Sum(s) / |s| as real
  }

  /** Channel scales relative to their mean, unless the whole weight is (near) zero. */
  function Relative(s: Row): (r: Row)
    requires s != []
    ensures |r| == |s|
  {
    if Mean(s) > TINY then seq(|s|, j requires 0 <= j < |s| => s[j] / Mean(s)) else s
  }

  predicate IsTiny(x: real) {
    Abs(x) < TINY
  }

  function Filled(s: Row): (r: Row)
    ensures |r| == |s|
  {
    seq(|s|, j requires 0 <= j < |s| => if IsTiny(s[j]) then FILL else s[j])
  }

  /** Entries of sv whose channel is (near) zero are zeroed. */
  function Masked(sv: Row, scales: Row): (r: Row)
    requires |sv| == |scales|
    ensures |r| == |sv|
  {
    seq(|sv|, j requires 0 <= j < |sv| => if IsTiny(scales[j]) then 0.0 else sv[j])
  }

  /** sv * scales + 1e-10 */
  function Signed(sv: Row, scales: Row): (r: Row)
    requires |sv| == |scales|
    ensures |r| == |sv|
  {
    seq(|sv|, j requires 0 <= j < |sv| => sv[j] * scales[j] + NUDGE)
  }

  /** su * scales / (-CODEBOOK_SCALE) + 1e-10 */
  function SignedIn(su: Row, scales: Row): (r: Row)
    requires |su| == |scales|
    ensures |r| == |su|
  {
    seq(|su|, i requires 0 <= i < |su| => su[i] * scales[i] / -CODEBOOK_SCALE + NUDGE)
  }

  function Over(s: Row, g: real): (r: Row)
    requires g != 0.0
    ensures |r| == |s|
  {
    seq(|s|, i requires 0 <= i < |s| => s[i] / g)
  }

  // ---- the out-scale decision ----------------------------------------------

  /** force: the caller's setting; skew: share of the largest 2% of the H diagonal, when there is an H. */
  datatype Settings = Settings(force: Option<bool>, skew: Option<real>, fallback: bool)

  function ApplyOutScales(s: Settings, zeros: bool): (apply: bool)
    ensures zeros && s.force.Some? ==> apply
    ensures !zeros && s.force.Some? ==> apply == s.force.value
    ensures s.force.None? && s.fallback ==> !apply
    ensures s.force.None? && !s.fallback ==> apply == (s.skew.None? || s.skew.value < 0.15)
  {
    var chosen :=
      if !s.fallback && s.skew.Some? then
        if s.force.None? then s.skew.value < 0.15 else s.force.value
      else
        if s.force.None? then true else s.force.value;
    var kept := if s.fallback then s.force == Some(true) else chosen;
    if zeros && s.force.Some? then true else kept
  }

  // ---- the whole transformation --------------------------------------------

  /** Powers and normalizing scales of the two transforms, block counts, the root and the scale search. */
  datatype Frame = Frame(k: nat, c: real, down: nat, across: nat, root: real -> real, search: Matrix -> real) {
    ghost predicate Valid() {
      Normalizes(c, k) && down > 0 && across > 0 && IsRoot(root)
    }

    function Height(): nat {
      Blocks(down, Pow2(k))
    }

    function Width(): nat {
      Blocks(across, Pow2(k))
    }
  }

  datatype Regularized = Regularized(applied: bool, weight: Matrix, scale: real, su: Row, sv: Row)

  /** The divisor of every output channel. */
  function OutDivisor(f: Frame, weight: Matrix, sv: Row, s: Settings): (r: Row)
    requires IsMatrix(weight, f.Height(), f.Width()) && |sv| == f.Width() && weight != [] && sv != []
    ensures |r| == |sv|
  {
    var scales := ColumnRms(f.root, weight, |sv|);
    if ApplyOutScales(s, Mean(scales) <= TINY) then Signed(sv, Filled(Relative(scales))) else sv
  }

  /** The weight after the column divisors and the right transform. */
  function Turned(f: Frame, weight: Matrix, divisor: Row): (r: Matrix)
    requires IsMatrix(weight, f.Height(), f.Width()) && |divisor| == f.Width() && NoZero(divisor)
    ensures IsMatrix(r, f.Height(), f.Width())
  {
    ApplyRight(f.k, f.c, ColumnsOver(weight, divisor), f.across)
  }

  /** The divisor of every input channel. */
  function InDivisor(f: Frame, turned: Matrix, su: Row): (r: Row)
    requires IsMatrix(turned, f.Height(), f.Width()) && |su| == f.Height() && f.Width() > 0
    ensures |r| == |su|
  {
    SignedIn(su, Filled(RowRms(f.root, turned, f.Width())))
  }

  /** No division by zero on the way. */
  ghost predicate Divides(f: Frame, weight: Matrix, su: Row, sv: Row, s: Settings)
    requires IsMatrix(weight, f.Height(), f.Width()) && |su| == f.Height() && |sv| == f.Width() && weight != [] && sv != []
  {
    var out := OutDivisor(f, weight, sv, s);
    && NoZero(out)
    && var turned := Turned(f, weight, out);
       var into := InDivisor(f, turned, su);
       && NoZero(into)
       && f.search(ApplyLeft(f.k, f.c, RowsOver(turned, f.Width(), into), f.down, f.Width())) != 0.0
  }

  /** wq = had_l(weight) * su; had_r(wq) * sv */
  function Decode(f: Frame, r: Regularized): (w: Matrix)
    requires IsMatrix(r.weight, f.Height(), f.Width()) && |r.su| == f.Height() && |r.sv| == f.Width()
    ensures IsMatrix(w, f.Height(), f.Width())
  {
    var left := ApplyLeft(f.k, f.c, r.weight, f.down, f.Width());
    ColumnsTimes(ApplyRight(f.k, f.c, RowsTimes(left, f.Width(), r.su), f.across), r.sv)
  }

  /** The weight with its (near) zero channels replaced by zeros. */
  function Cleared(f: Frame, weight: Matrix): (w: Matrix)
    requires IsMatrix(weight, f.Height(), f.Width()) && weight != [] && f.Width() > 0
    ensures IsMatrix(w, f.Height(), f.Width())
  {
    var scales := Relative(ColumnRms(f.root, weight, f.Width()));
    seq(|weight|, i requires 0 <= i < |weight| =>
      seq(f.Width(), j requires 0 <= j < f.Width() => if IsTiny(scales[j]) then 0.0 else weight[i][j]))
  }

  lemma MultiplyBack(x: real, d: real)
    requires d != 0.0
    ensures x / d * d == x
  {
  }

  lemma ScaleCancels(x: real, d: real, g: real)
    requires d != 0.0 && g != 0.0
    ensures g * (x / d) * (d / g) == x
  {
    var q, r := x / d, d / g;
    assert q * d == x && r * g == d;
    assert g * q * r == q * (r * g);
  }

  /** Scaling by g, then by the input divisor over g, undoes the division by it. */
  lemma RowsBack(m: Matrix, n: nat, into: Row, g: real)
    requires IsMatrix(m, |into|, n) && NoZero(into) && g != 0.0
    ensures RowsTimes(ScaleAll(g, RowsOver(m, n, into)), n, Over(into, g)) == m
  {
    var back := RowsTimes(ScaleAll(g, RowsOver(m, n, into)), n, Over(into, g));
    forall i, j | 0 <= i < |into| && 0 <= j < n
      ensures back[i][j] == m[i][j]
    {
      var x, d := m[i][j], into[i];
      assert RowsOver(m, n, into)[i][j] == x / d;
      assert ScaleAll(g, RowsOver(m, n, into))[i][j] == g * (x / d);
      ScaleCancels(x, d, g);
    }
    SameMatrix(back, m, n);
  }

  lemma ColumnsBack(m: Matrix, out: Row, scales: Row, cleared: Matrix)
    requires IsMatrix(m, |m|, |out|) && NoZero(out) && |scales| == |out| && IsMatrix(cleared, |m|, |out|)
    requires forall i, j :: 0 <= i < |m| && 0 <= j < |out| ==> cleared[i][j] == if IsTiny(scales[j]) then 0.0 else m[i][j]
    ensures ColumnsTimes(ColumnsOver(m, out), Masked(out, scales)) == cleared
  {
    var back := ColumnsTimes(ColumnsOver(m, out), Masked(out, scales));
    forall i, j | 0 <= i < |m| && 0 <= j < |out|
      ensures back[i][j] == cleared[i][j]
    {
      MultiplyBack(m[i][j], out[j]);
    }
    SameMatrix(back, cleared, |out|);
  }

  /** The left and right transforms of the decode meet those of the regularization. */
  lemma DecodeUndoes(f: Frame, weight: Matrix, out: Row, scales: Row, into: Row, g: real, applied: bool)
    requires f.Valid() && IsMatrix(weight, f.Height(), f.Width()) && weight != [] && f.Width() > 0
    requires |out| == f.Width() && NoZero(out) && |into| == f.Height() && NoZero(into) && g != 0.0
    requires scales == Relative(ColumnRms(f.root, weight, f.Width()))
    ensures
      var left := ApplyLeft(f.k, f.c, RowsOver(Turned(f, weight, out), f.Width(), into), f.down, f.Width());
      Decode(f, Regularized(applied, ScaleAll(g, left), g, Over(into, g), Masked(out, scales))) == Cleared(f, weight)
  {
    var n := f.Width();
    var turned := Turned(f, weight, out);
    var over := RowsOver(turned, n, into);
    LeftScaled(f.k, f.c, g, ApplyLeft(f.k, f.c, over, f.down, n), f.down, n);
    LeftTwice(f.k, f.c, over, f.down, n);
    RowsBack(turned, n, into, g);
    RightTwice(f.k, f.c, ColumnsOver(weight, out), f.across);
    ColumnsBack(weight, out, scales, Cleared(f, weight));
  }

  // ---- the method ----------------------------------------------------------

  method MeasureColumns(root: real -> real, m: Matrix, n: nat) returns (s: Row)
    requires IsMatrix(m, |m|, n) && m != []
    ensures s == ColumnRms(root, m, n)
  {
    s := [];
    for j := 0 to n
      invariant |s| == j && forall i :: 0 <= i < j ==> s[i] == Rms(root, Column(m, i))
    {
      var scale := BlockRms(root, Column(m, j), 32);
      s := s + [scale];
    }
  }

  method MeasureRows(root: real -> real, m: Matrix, n: nat) returns (s: Row)
    requires IsMatrix(m, |m|, n) && n > 0
    ensures s == RowRms(root, m, n)
  {
    s := [];
    for i := 0 to |m|
      invariant |s| == i && forall q :: 0 <= q < i ==> s[q] == Rms(root, m[q])
    {
      var scale := BlockRms(root, m[i], 32);
      s := s + [scale];
    }
  }

  /** x[:] = m */
  method StoreAll(x: array<Row>, m: Matrix)
    requires |m| == x.Length
    modifies x
    ensures x[..] == m
  {
    forall r | 0 <= r < x.Length {
      x[r] := m[r];
    }
  }

  /** The column half: out scales, their application, the zeroed channels, the right transform. */
  method ScaleOut(f: Frame, x: array<Row>, sv: Row, s: Settings) returns (applied: bool, zeros: bool, divisor: Row, masked: Row, ok: bool)
    requires f.Valid() && IsMatrix(x[..], f.Height(), f.Width()) && |sv| == f.Width() && x.Length > 0 && sv != []
    modifies x
    ensures divisor == OutDivisor(f, old(x[..]), sv, s) && ok == NoZero(divisor)
    ensures applied == ApplyOutScales(s, zeros) && zeros == (Mean(ColumnRms(f.root, old(x[..]), |sv|)) <= TINY)
    ensures masked == Masked(divisor, Relative(ColumnRms(f.root, old(x[..]), |sv|)))
    ensures ok ==> x[..] == Turned(f, old(x[..]), divisor)
  {
    var before := x[..];
    var scales := MeasureColumns(f.root, before, |sv|);
    zeros := Mean(scales) <= TINY;
    scales := Relative(scales);
    applied := ApplyOutScales(s, zeros);
    divisor := if applied then Signed(sv, Filled(scales)) else sv;
    masked := Masked(divisor, scales);
    ok := NoZero(divisor);
    if ok {
      StoreAll(x, ColumnsOver(before, divisor));
      BlockwiseRight(f.k, f.c, x, f.across);
    }
  }

  /** The row half: in scales, the left transform, the searched global scale. */
  method ScaleIn(f: Frame, x: array<Row>, su: Row) returns (into: Row, g: real, ok: bool)
    requires f.Valid() && IsMatrix(x[..], f.Height(), f.Width()) && |su| == f.Height() && f.Width() > 0
    modifies x
    ensures into == InDivisor(f, old(x[..]), su)
    ensures ok <==>
      (NoZero(into) && f.search(ApplyLeft(f.k, f.c, RowsOver(old(x[..]), f.Width(), into), f.down, f.Width())) != 0.0)
    ensures ok ==>
      var left := ApplyLeft(f.k, f.c, RowsOver(old(x[..]), f.Width(), into), f.down, f.Width());
      g == f.search(left) && x[..] == ScaleAll(g, left)
  {
    var before := x[..];
    var scales := MeasureRows(f.root, before, f.Width());
    into := SignedIn(su, Filled(scales));
    g, ok := 0.0, false;
    if NoZero(into) {
      StoreAll(x, RowsOver(before, f.Width(), into));
      BlockwiseLeft(f.k, f.c, x, f.down, f.Width());
      g := f.search(x[..]);
      ok := g != 0.0;
      StoreAll(x, ScaleAll(g, x[..]));
    }
  }

  /**
    * Regularizes x in place. None stands for a division by zero on the way; otherwise decoding what is
    * returned gives the weight back with its (near) zero channels cleared.
    */
  method Regularize(f: Frame, x: array<Row>, su: Row, sv: Row, s: Settings) returns (r: Option<Regularized>)
    requires f.Valid() && IsMatrix(x[..], f.Height(), f.Width()) && x.Length > 0 && sv != []
    requires |su| == f.Height() && |sv| == f.Width()
    modifies x
    ensures r.Some? <==> Divides(f, old(x[..]), su, sv, s)
    ensures r.Some? ==> r.value.weight == x[..] && IsMatrix(x[..], f.Height(), f.Width())
    ensures r.Some? ==> |r.value.su| == f.Height() && |r.value.sv| == f.Width()
    ensures r.Some? ==> r.value.applied == ApplyOutScales(s, Mean(ColumnRms(f.root, old(x[..]), f.Width())) <= TINY)
    ensures r.Some? ==> IsRegularized(f, old(x[..]), su, sv, s, r.value)
    ensures r.Some? ==> Decode(f, r.value) == Cleared(f, old(x[..]))
  {
    ghost var weight := x[..];
    var applied, zeros, divisor, masked, ok := ScaleOut(f, x, sv, s);
    if !ok {
      return None;
    }
    var into, g, fine := ScaleIn(f, x, su);
    if !fine {
      return None;
    }
    DecodeUndoes(f, weight, divisor, Relative(ColumnRms(f.root, weight, f.Width())), into, g, applied);
    ghost var out, inner := TraceOut(f, weight, sv, s), TraceIn(f, Turned(f, weight, divisor), su);
    OutInNumbers(f, weight, sv, s, out, applied, masked);
    InInNumbers(f, out.turned, su, inner, g, x[..], Over(into, g));
    return Some(Regularized(applied, x[..], g, Over(into, g), masked));
  }

  // ---- the result in numbers -------------------------------------------------

  /** The root mean square of a channel. */
  ghost predicate IsRms(r: real, x: Row) {
    x != [] && 0.0 <= r && r * r == Dot(x, x, |x|) / |x| as real
  }

  ghost predicate IsMean(mean: real, s: Row) {
    s != [] && exists ones: Row :: |ones| == |s| && (forall i :: 0 <= i < |s| ==> ones[i] == 1.0) && mean == Dot(s, ones, |s|) / |s| as real
  }

  ghost predicate IsRelative(r: real, scale: real, mean: real) {
    if mean > 1e-30 then r == scale / mean else r == scale
  }

  /** A scale below 1e-30 in absolute value counts as 0.1. */
  ghost predicate IsOut(d: real, sign: real, scale: real, applied: bool) {
    d == if !applied then sign else if -1e-30 < scale < 1e-30 then sign * 0.1 + 1e-10 else sign * scale + 1e-10
  }

  ghost predicate IsInto(d: real, sign: real, scale: real) {
    d == (if -1e-30 < scale < 1e-30 then sign * 0.1 else sign * scale) / -1.24371088 + 1e-10
  }

  ghost predicate IsQuotient(q: real, x: real, d: real) {
    d != 0.0 && q == x / d
  }

  ghost predicate IsProduct(r: real, x: real, y: real) {
    r == x * y
  }

  /** What the column half computes: channel scales, their mean, relative scales, divisors, divided and turned weight. */
  datatype OutTrace = OutTrace(scales: Row, mean: real, relative: Row, divisor: Row, over: Matrix, turned: Matrix)

  ghost predicate OutHalf(f: Frame, w: Matrix, sv: Row, s: Settings, t: OutTrace, applied: bool, masked: Row)
    requires IsMatrix(w, f.Height(), f.Width()) && |sv| == f.Width()
  {
    var n := f.Width();
    && |t.scales| == |t.relative| == |t.divisor| == |masked| == n
    && (forall j :: 0 <= j < n ==> IsRms(t.scales[j], Column(w, j))) && IsMean(t.mean, t.scales)
    && (forall j :: 0 <= j < n ==> IsRelative(t.relative[j], t.scales[j], t.mean))
    && applied == ApplyOutScales(s, t.mean <= 1e-30)
    && (forall j :: 0 <= j < n ==> IsOut(t.divisor[j], sv[j], t.relative[j], applied))
    && (forall j :: 0 <= j < n ==> masked[j] == if -1e-30 < t.relative[j] < 1e-30 then 0.0 else t.divisor[j])
    && IsMatrix(t.over, |w|, n) && (forall i, j :: 0 <= i < |w| && 0 <= j < n ==> IsQuotient(t.over[i][j], w[i][j], t.divisor[j]))
    && IsMatrix(t.turned, |w|, n) && IsRight(f.k, f.c, t.over, f.across, t.turned)
  }

  /** What the row half computes: channel scales of the turned weight, divisors, divided and turned weight. */
  datatype InTrace = InTrace(scales: Row, divisor: Row, over: Matrix, left: Matrix)

  ghost predicate InHalf(f: Frame, turned: Matrix, su: Row, t: InTrace, scale: real, weight: Matrix, inner: Row)
    requires IsMatrix(turned, f.Height(), f.Width()) && |su| == f.Height()
  {
    var m, n := f.Height(), f.Width();
    && |t.scales| == |t.divisor| == |inner| == m
    && (forall i :: 0 <= i < m ==> IsRms(t.scales[i], turned[i]))
    && (forall i :: 0 <= i < m ==> IsInto(t.divisor[i], su[i], t.scales[i]))
    && IsMatrix(t.over, m, n) && (forall i, j :: 0 <= i < m && 0 <= j < n ==> IsQuotient(t.over[i][j], turned[i][j], t.divisor[i]))
    && IsMatrix(t.left, m, n) && IsLeft(f.k, f.c, t.over, f.down, n, t.left)
    && scale == f.search(t.left)
    && IsMatrix(weight, m, n) && (forall i, j :: 0 <= i < m && 0 <= j < n ==> IsProduct(weight[i][j], scale, t.left[i][j]))
    && (forall i :: 0 <= i < m ==> IsQuotient(inner[i], t.divisor[i], scale))
  }

  /** Both halves, one after the other. */
  ghost predicate IsRegularized(f: Frame, w: Matrix, su: Row, sv: Row, s: Settings, r: Regularized)
    requires IsMatrix(w, f.Height(), f.Width()) && |su| == f.Height() && |sv| == f.Width()
  {
    exists out, into :: OutHalf(f, w, sv, s, out, r.applied, r.sv) && InHalf(f, out.turned, su, into, r.scale, r.weight, r.su)
  }

  lemma RmsIs(root: real -> real, x: Row)
    requires IsRoot(root) && x != []
    ensures IsRms(Rms(root, x), x)
  {
    SquaresNonnegative(x, |x|);
    QuotientNonnegative(Dot(x, x, |x|), |x| as real);
  }

  lemma {:induction false} SumIsDot(s: Row, ones: Row, m: nat)
    requires m <= |s| == |ones| && forall i :: 0 <= i < |s| ==> ones[i] == 1.0
    ensures Sum(s[..m]) == Dot(s, ones, m)
  {
    if m > 0 {
      SumIsDot(s, ones, m - 1);
      assert s[..m][..m - 1] == s[..m - 1];
    }
  }

  lemma MeanIs(s: Row)
    requires s != []
    ensures IsMean(Mean(s), s)
  {
    var ones: Row := seq(|s|, _ => 1.0);
    SumIsDot(s, ones, |s|);
    assert s[..|s|] == s;
  }

  lemma RelativeIs(s: Row, j: nat)
    requires j < |s|
    ensures IsRelative(Relative(s)[j], s[j], Mean(s))
  {
  }

  function TraceOut(f: Frame, w: Matrix, sv: Row, s: Settings): (t: OutTrace)
    requires IsMatrix(w, f.Height(), f.Width()) && |sv| == f.Width() && w != [] && sv != []
    requires NoZero(OutDivisor(f, w, sv, s))
  {
    var scales, divisor := ColumnRms(f.root, w, |sv|), OutDivisor(f, w, sv, s);
    OutTrace(scales, Mean(scales), Relative(scales), divisor, ColumnsOver(w, divisor), Turned(f, w, divisor))
  }

  lemma ScalesAre(f: Frame, w: Matrix, n: nat, scales: Row)
    requires f.Valid() && IsMatrix(w, |w|, n) && w != [] && scales == ColumnRms(f.root, w, n)
    ensures forall j :: 0 <= j < n ==> IsRms(scales[j], Column(w, j))
  {
    forall j | 0 <= j < n
      ensures IsRms(scales[j], Column(w, j))
    {
      RmsIs(f.root, Column(w, j));
    }
  }

  lemma DivisorsAre(sv: Row, scales: Row, applied: bool, divisor: Row)
    requires |sv| == |scales| && divisor == if applied then Signed(sv, Filled(scales)) else sv
    ensures forall j :: 0 <= j < |sv| ==> IsOut(divisor[j], sv[j], scales[j], applied)
  {
    forall j | 0 <= j < |sv|
      ensures IsOut(divisor[j], sv[j], scales[j], applied)
    {
      if applied {
        assert divisor[j] == sv[j] * Filled(scales)[j] + NUDGE;
      }
    }
  }

  lemma ColumnsOverIs(w: Matrix, divisor: Row)
    requires IsMatrix(w, |w|, |divisor|) && NoZero(divisor)
    ensures forall i, j :: 0 <= i < |w| && 0 <= j < |divisor| ==> IsQuotient(ColumnsOver(w, divisor)[i][j], w[i][j], divisor[j])
  {
  }

  lemma OutInNumbers(f: Frame, w: Matrix, sv: Row, s: Settings, t: OutTrace, applied: bool, masked: Row)
    requires f.Valid() && IsMatrix(w, f.Height(), f.Width()) && |sv| == f.Width() && w != [] && sv != []
    requires NoZero(OutDivisor(f, w, sv, s)) && t == TraceOut(f, w, sv, s)
    requires applied == ApplyOutScales(s, t.mean <= TINY) && masked == Masked(t.divisor, t.relative)
    ensures OutHalf(f, w, sv, s, t, applied, masked)
  {
    MeanIs(t.scales);
    ScalesAre(f, w, |sv|, t.scales);
    forall j | 0 <= j < |sv|
      ensures IsRelative(t.relative[j], t.scales[j], t.mean)
    {
      RelativeIs(t.scales, j);
    }
    DivisorsAre(sv, t.relative, applied, t.divisor);
    ColumnsOverIs(w, t.divisor);
    ApplyRightIs(f.k, f.c, t.over, f.across);
  }

  function TraceIn(f: Frame, turned: Matrix, su: Row): (t: InTrace)
    requires IsMatrix(turned, f.Height(), f.Width()) && |su| == f.Height() && f.Width() > 0
    requires NoZero(InDivisor(f, turned, su))
  {
    var divisor := InDivisor(f, turned, su);
    var over := RowsOver(turned, f.Width(), divisor);
    InTrace(RowRms(f.root, turned, f.Width()), divisor, over, ApplyLeft(f.k, f.c, over, f.down, f.Width()))
  }

  lemma InInNumbers(f: Frame, turned: Matrix, su: Row, t: InTrace, scale: real, weight: Matrix, inner: Row)
    requires f.Valid() && IsMatrix(turned, f.Height(), f.Width()) && |su| == f.Height() && f.Width() > 0
    requires NoZero(InDivisor(f, turned, su)) && t == TraceIn(f, turned, su)
    requires scale == f.search(t.left) != 0.0 && weight == ScaleAll(scale, t.left) && inner == Over(t.divisor, scale)
    ensures InHalf(f, turned, su, t, scale, weight, inner)
  {
    forall i | 0 <= i < |su|
      ensures IsRms(t.scales[i], turned[i])
    {
      RmsIs(f.root, turned[i]);
    }
    forall i | 0 <= i < |su|
      ensures IsInto(t.divisor[i], su[i], t.scales[i])
    {
    }
    ApplyLeftIs(f.k, f.c, t.over, f.down, f.Width());
    RowsOverIs(turned, f.Width(), t.divisor);
    ScaledIs(scale, t.left, f.Width(), weight);
  }

  lemma RowsOverIs(m: Matrix, n: nat, divisor: Row)
    requires IsMatrix(m, |divisor|, n) && NoZero(divisor)
    ensures forall i, j :: 0 <= i < |divisor| && 0 <= j < n ==> IsQuotient(RowsOver(m, n, divisor)[i][j], m[i][j], divisor[i])
  {
  }

  lemma ScaledIs(scale: real, left: Matrix, n: nat, weight: Matrix)
    requires IsMatrix(left, |left|, n) && weight == ScaleAll(scale, left)
    ensures IsMatrix(weight, |left|, n) && forall i, j :: 0 <= i < |left| && 0 <= j < n ==> IsProduct(weight[i][j], scale, left[i][j])
  {
    forall i, j | 0 <= i < |left| && 0 <= j < n
      ensures IsProduct(weight[i][j], scale, left[i][j])
    {
      assert weight[i] == Scaled(scale, left[i]);
    }
  }

  // ---- when the round trip is exact, and when it divides by zero ------------

  /** Clearing changes nothing exactly when every (near) zero channel is zero throughout. */
  lemma ClearedIsExact(f: Frame, weight: Matrix)
    requires IsMatrix(weight, f.Height(), f.Width()) && weight != [] && f.Width() > 0
    ensures Cleared(f, weight) == weight <==>
      (forall i, j :: 0 <= i < |weight| && 0 <= j < f.Width() && IsTiny(Relative(ColumnRms(f.root, weight, f.Width()))[j]) ==>
        weight[i][j] == 0.0)
  {
    if forall i, j :: 0 <= i < |weight| && 0 <= j < f.Width() && IsTiny(Relative(ColumnRms(f.root, weight, f.Width()))[j]) ==>
        weight[i][j] == 0.0 {
      SameMatrix(Cleared(f, weight), weight, f.Width());
    }
    if Cleared(f, weight) == weight {
      forall i, j | 0 <= i < |weight| && 0 <= j < f.Width() && IsTiny(Relative(ColumnRms(f.root, weight, f.Width()))[j])
        ensures weight[i][j] == 0.0
      {
        assert Cleared(f, weight)[i][j] == 0.0;
      }
    }
  }

  /** Sign draws: every entry is +1 or -1. */
  predicate Signs(s: Row) {
    forall i :: 0 <= i < |s| ==> s[i] == 1.0 || s[i] == -1.0
  }

  lemma FilledNonnegative(scales: Row, j: nat)
    requires scales != [] && j < |scales| && 0.0 <= scales[j]
    ensures 0.0 <= Filled(Relative(scales))[j]
  {
    if Mean(scales) > TINY {
      QuotientNonnegative(scales[j], Mean(scales));
    }
  }

  /** With sign draws a column divisor is zero only through the nudge: sign -1 on an applied scale of exactly 1e-10. */
  lemma OutDivisorNoZeroIff(f: Frame, weight: Matrix, sv: Row, s: Settings)
    requires f.Valid() && IsMatrix(weight, f.Height(), f.Width()) && |sv| == f.Width()
    requires weight != [] && sv != [] && Signs(sv)
    ensures
      var scales := ColumnRms(f.root, weight, |sv|);
      var applied := ApplyOutScales(s, Mean(scales) <= TINY);
      NoZero(OutDivisor(f, weight, sv, s)) <==>
      (forall j :: 0 <= j < |sv| ==> !(applied && sv[j] == -1.0 && Filled(Relative(scales))[j] == NUDGE))
  {
    var scales := ColumnRms(f.root, weight, |sv|);
    var filled := Filled(Relative(scales));
    forall j | 0 <= j < |sv|
      ensures Signed(sv, filled)[j] == 0.0 <==> (sv[j] == -1.0 && filled[j] == NUDGE)
    {
      RmsNonnegative(f.root, Column(weight, j));
      FilledNonnegative(scales, j);
    }
  }

  /** A row divisor is zero only for sign +1 on a scale of exactly CODEBOOK_SCALE * 1e-10. */
  lemma InDivisorNoZeroIff(f: Frame, turned: Matrix, su: Row)
    requires f.Valid() && IsMatrix(turned, f.Height(), f.Width()) && |su| == f.Height() && f.Width() > 0 && Signs(su)
    ensures NoZero(InDivisor(f, turned, su)) <==>
      forall i :: 0 <= i < |su| ==> !(su[i] == 1.0 && Filled(RowRms(f.root, turned, f.Width()))[i] == CODEBOOK_SCALE * NUDGE)
  {
    var scales := RowRms(f.root, turned, f.Width());
    forall i | 0 <= i < |su|
      ensures InDivisor(f, turned, su)[i] == 0.0 <==> su[i] == 1.0 && Filled(scales)[i] == CODEBOOK_SCALE * NUDGE
    {
      RmsNonnegative(f.root, turned[i]);
      InDivisorZero(su[i], Filled(scales)[i]);
    }
  }

  lemma InDivisorZero(sign: real, scale: real)
    requires (sign == 1.0 || sign == -1.0) && 0.0 <= scale
    ensures sign * scale / -CODEBOOK_SCALE + NUDGE == 0.0 <==> sign == 1.0 && scale == CODEBOOK_SCALE * NUDGE
  {
  }

  /** A column divisor is zero: sign -1 on an applied scale of exactly 1e-10. */
  ghost predicate ColumnMeets(f: Frame, weight: Matrix, sv: Row, s: Settings)
    requires IsMatrix(weight, f.Height(), f.Width()) && |sv| == f.Width() && weight != [] && sv != []
  {
    var scales := ColumnRms(f.root, weight, |sv|);
    && ApplyOutScales(s, Mean(scales) <= TINY)
    && exists j :: 0 <= j < |sv| && sv[j] == -1.0 && Filled(Relative(scales))[j] == NUDGE
  }

  /** A row divisor is zero: sign +1 on a scale of exactly CODEBOOK_SCALE * 1e-10. */
  ghost predicate RowMeets(f: Frame, turned: Matrix, su: Row)
    requires IsMatrix(turned, f.Height(), f.Width()) && |su| == f.Height() && f.Width() > 0
  {
    exists i :: 0 <= i < |su| && su[i] == 1.0 && Filled(RowRms(f.root, turned, f.Width()))[i] == CODEBOOK_SCALE * NUDGE
  }

  /** The global scale is what the golden-section search answers for the transformed weight. */
  ghost predicate SearchesGolden(f: Frame, g: real, q: Quantizer, rows: nat, columns: nat) {
    && GoldenSection.Golden(g) && rows > 0 && columns > 0 && f.Height() == 16 * rows && f.Width() == 16 * columns
    && forall m :: IsMatrix(m, f.Height(), f.Width()) ==>
         exists error :: GoldenPool.Sequential(g, q, GoldenPool.Weight(m, rows, columns), f.search(m), error)
  }

  /** The searched scale lies strictly between 0.1 and 1.9, so nothing is divided by zero there. */
  lemma SearchedScaleNonzero(f: Frame, g: real, q: Quantizer, rows: nat, columns: nat, m: Matrix)
    requires SearchesGolden(f, g, q, rows, columns) && IsMatrix(m, f.Height(), f.Width())
    ensures 0.1 < f.search(m) < 1.9
  {
    var w := GoldenPool.Weight(m, rows, columns);
    var error :| GoldenPool.Sequential(g, q, w, f.search(m), error);
    GoldenSection.FoundIsPositive(g, GoldenPool.TestScale(q, GoldenPool.Sampled(w)), f.search(m), error);
  }

  /**
    * With sign draws and the golden-section search the regularization goes through exactly when no sign meets
    * the one scale value that cancels the nudge, first over the columns, then over the rows of the turned weight.
    */
  lemma DividesIff(f: Frame, g: real, q: Quantizer, rows: nat, columns: nat, weight: Matrix, su: Row, sv: Row, s: Settings)
    requires f.Valid() && SearchesGolden(f, g, q, rows, columns) && Signs(su) && Signs(sv)
    requires IsMatrix(weight, f.Height(), f.Width()) && |su| == f.Height() && |sv| == f.Width() && weight != [] && sv != []
    ensures NoZero(OutDivisor(f, weight, sv, s)) <==> !ColumnMeets(f, weight, sv, s)
    ensures Divides(f, weight, su, sv, s) <==>
      NoZero(OutDivisor(f, weight, sv, s)) && !RowMeets(f, Turned(f, weight, OutDivisor(f, weight, sv, s)), su)
  {
    OutDivisorNoZeroIff(f, weight, sv, s);
    var out := OutDivisor(f, weight, sv, s);
    if NoZero(out) {
      var turned := Turned(f, weight, out);
      var into := InDivisor(f, turned, su);
      InDivisorNoZeroIff(f, turned, su);
      if NoZero(into) {
        SearchedScaleNonzero(f, g, q, rows, columns,
                             ApplyLeft(f.k, f.c, RowsOver(turned, f.Width(), into), f.down, f.Width()));
      }
    }
  }
}
