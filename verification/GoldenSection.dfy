/** Golden-section search for the global scale, alone and pooled over many slices. */
module GoldenSection {
  const LOW: real := 0.1
  const HIGH: real := 1.9
  const TOLERANCE: real := 0.01

  /** Multiplying w by g twice, when g^2 = 3g - 1. */
  predicate GoldenAt(g: real, w: real) {
    g * (g * w) == 3.0 * (g * w) - w
  }

  /** g is 2 - phi: the root below 1/2 of g^2 = 3g - 1, stated by what it does to every length. */
  ghost predicate Golden(g: real) {
    0.0 < g < 0.5 && forall w {:trigger GoldenAt(g, w)} :: GoldenAt(g, w)
  }

  /** The equation of the golden section and its effect on lengths are the same thing. */
  lemma GoldenIffSquare(g: real)
    ensures Golden(g) <==> 0.0 < g < 0.5 && g * g == 3.0 * g - 1.0
  {
    assert GoldenAt(g, 1.0) <==> g * g == 3.0 * g - 1.0;
    if g * g == 3.0 * g - 1.0 {
      forall w
        ensures GoldenAt(g, w)
      {
        assert g * (g * w) == (g * g) * w;
        assert (3.0 * g - 1.0) * w == 3.0 * (g * w) - w;
      }
    }
  }

  function Inner(g: real, a: real, b: real): real {
    a + g * (b - a)
  }

  function Outer(g: real, a: real, b: real): real {
    b - g * (b - a)
  }

  /** The reused point, in the coordinates of the old bracket of width w. */
  lemma Reuse(g: real, w: real)
    requires Golden(g)
    ensures (w - g * w) - g * (w - g * w) == g * w
  {
    assert GoldenAt(g, w);
    assert g * (w - g * w) == g * w - g * (g * w);
  }

  /** Keeping [a, x2]: the old inner point is the outer point of what is kept. */
  lemma KeepLeft(g: real, a: real, b: real)
    requires Golden(g)
    ensures Outer(g, a, Outer(g, a, b)) == Inner(g, a, b)
  {
    var w := b - a;
    Reuse(g, w);
    assert Outer(g, a, b) - a == w - g * w;
  }

  /** Keeping [x1, b]: the old outer point is the inner point of what is kept. */
  lemma KeepRight(g: real, a: real, b: real)
    requires Golden(g)
    ensures Inner(g, Inner(g, a, b), b) == Outer(g, a, b)
  {
    var w := b - a;
    Reuse(g, w);
    assert b - Inner(g, a, b) == w - g * w;
  }

  /** g lies in the lower half: all that the order of the points needs. */
  predicate Share(g: real) {
    0.0 < g < 0.5
  }

  lemma ShareOf(g: real, w: real, p: real)
    requires Share(g) && 0.0 < w && p == g * w
    ensures 0.0 < p && p + p < w
  {
    Positive(g, w);
    Rest(g, 0.5 - g, w, p);
  }

  lemma Rest(g: real, d: real, w: real, p: real)
    requires 0.0 < d && g + d == 0.5 && 0.0 < w && p == g * w
    ensures p + p < w
  {
    Positive(d, w);
    assert (g + d) * w == p + d * w;
  }

  lemma Positive(x: real, y: real)
    requires 0.0 < x && 0.0 < y
    ensures 0.0 < x * y
  {
  }

  lemma InteriorOrdered(g: real, a: real, b: real)
    requires Share(g) && a < b
    ensures a < Inner(g, a, b) < Outer(g, a, b) < b
    ensures Outer(g, a, b) - a == b - Inner(g, a, b) == Shrunk(g, b - a)
  {
    var p := g * (b - a);
    ShareOf(g, b - a, p);
    assert Inner(g, a, b) == a + p && Outer(g, a, b) == b - p && Shrunk(g, b - a) == b - a - p;
  }

  /** (1 - g) * w */
  function Shrunk(g: real, w: real): real {
    w - g * w
  }

  // ---- widths --------------------------------------------------------------

  function Width(g: real, i: nat): real {
    if i == 0 then HIGH - LOW else Shrunk(g, Width(g, i - 1))
  }

  /** (1 - g)^2 = g, so every power of 1 - g is linear in it. */
  lemma WidthStep(g: real, i: nat, p: real, q: real)
    requires Golden(g) && Width(g, i) == p + q * (1.0 - g)
    ensures Width(g, i + 1) == q + (p - q) * (1.0 - g)
  {
    var r, w := 1.0 - g, Width(g, i);
    PowerStep(g, p, q, w);
  }

  lemma PowerStep(g: real, p: real, q: real, w: real)
    requires Golden(g) && w == p + q * (1.0 - g)
    ensures Shrunk(g, w) == q + (p - q) * (1.0 - g)
  {
    var r := 1.0 - g;
    assert GoldenAt(g, 1.0);
    assert r * r == 1.0 - r;
    assert w - g * w == r * w;
    assert r * (p + q * r) == p * r + q * (r * r);
  }

  lemma WidthAt10(g: real)
    requires Golden(g)
    ensures Width(g, 10) == 1.8 * 34.0 - 1.8 * 55.0 * (1.0 - g)
    ensures Width(g, 11) == 1.8 * 89.0 * (1.0 - g) - 1.8 * 55.0
  {
    var u := 1.8;
    WidthStep(g, 0, u, 0.0);
    WidthStep(g, 1, 0.0, u);
    WidthStep(g, 2, u, -u);
    WidthStep(g, 3, -u, 2.0 * u);
    WidthStep(g, 4, 2.0 * u, -3.0 * u);
    WidthStep(g, 5, -3.0 * u, 5.0 * u);
    WidthStep(g, 6, 5.0 * u, -8.0 * u);
    WidthStep(g, 7, -8.0 * u, 13.0 * u);
    WidthStep(g, 8, 13.0 * u, -21.0 * u);
    WidthStep(g, 9, -21.0 * u, 34.0 * u);
    WidthStep(g, 10, 34.0 * u, -55.0 * u);
  }

  lemma RatioBound(g: real)
    requires Golden(g)
    ensures 1.0 - g < 0.618036
  {
    var r := 1.0 - g;
    assert GoldenAt(g, 1.0);
    assert r * r == 1.0 - r;
    assert (r - 0.618036) * (r + 1.618036) == r * r + r - 0.618036 * 1.618036;
    NegativeFactor(r - 0.618036, r + 1.618036);
  }

  lemma NegativeFactor(x: real, y: real)
    requires x * y < 0.0 < y
    ensures x < 0.0
  {
  }

  lemma {:induction false} WidthShrinks(g: real, i: nat, k: nat)
    requires Share(g) && i <= k
    ensures 0.0 < Width(g, k) <= Width(g, i)
    decreases k
  {
    if k > 0 {
      WidthShrinks(g, if i < k then i else k - 1, k - 1);
      var w := Width(g, k - 1);
      var p := g * w;
      ShareOf(g, w, p);
      assert Width(g, k) == w - p;
    }
  }

  /** The bracket is open after i halvings exactly when i <= 10. */
  lemma {:induction false} OpenIff(g: real, i: nat)
    requires Golden(g)
    ensures Width(g, i) > TOLERANCE <==> i <= 10
  {
    WidthAt10(g);
    RatioBound(g);
    if i <= 10 {
      WidthShrinks(g, i, 10);
    } else {
      WidthShrinks(g, 11, i);
    }
  }

  // ---- the textbook search -------------------------------------------------

  datatype Bracket = Bracket(a: real, b: real)

  /** One step that computes and measures both interior points afresh. */
  function Narrow(g: real, err: real -> real, k: Bracket): Bracket {
    if err(Inner(g, k.a, k.b)) < err(Outer(g, k.a, k.b)) then Bracket(k.a, Outer(g, k.a, k.b))
    else Bracket(Inner(g, k.a, k.b), k.b)
  }

  function Ideal(g: real, err: real -> real, i: nat): Bracket {
    if i == 0 then Bracket(LOW, HIGH) else Narrow(g, err, Ideal(g, err, i - 1))
  }

  lemma {:induction false} IdealWidth(g: real, err: real -> real, i: nat)
    requires Share(g)
    ensures Ideal(g, err, i).b - Ideal(g, err, i).a == Width(g, i)
    ensures LOW <= Ideal(g, err, i).a < Ideal(g, err, i).b <= HIGH
  {
    if i > 0 {
      IdealWidth(g, err, i - 1);
      var k := Ideal(g, err, i - 1);
      InteriorOrdered(g, k.a, k.b);
    }
  }

  /** The error falls from x to y when both are left of m, and rises when both are right of it. */
  predicate Slopes(err: real -> real, m: real, x: real, y: real) {
    LOW <= x < y <= HIGH ==> (y <= m ==> err(x) > err(y)) && (m <= x ==> err(x) < err(y))
  }

  /** Strictly falling up to m, strictly rising from it. */
  ghost predicate Unimodal(err: real -> real, m: real) {
    LOW <= m <= HIGH && forall x, y :: Slopes(err, m, x, y)
  }

  /** The smaller of two measurements tells on which side the minimizer is not. */
  lemma Compare(err: real -> real, m: real, x: real, y: real)
    requires Unimodal(err, m) && LOW <= x < y <= HIGH
    ensures if err(x) < err(y) then m <= y else x <= m
  {
    assert Slopes(err, m, x, y);
  }

  lemma NarrowKeepsMinimizer(g: real, err: real -> real, m: real, k: Bracket)
    requires Share(g) && Unimodal(err, m) && LOW <= k.a < k.b <= HIGH && k.a <= m <= k.b
    ensures Narrow(g, err, k).a <= m <= Narrow(g, err, k).b
  {
    InteriorOrdered(g, k.a, k.b);
    Compare(err, m, Inner(g, k.a, k.b), Outer(g, k.a, k.b));
  }

  lemma {:induction false} MinimizerStays(g: real, err: real -> real, m: real, i: nat, k: Bracket)
    requires Share(g) && Unimodal(err, m) && k == Ideal(g, err, i)
    ensures k.a <= m <= k.b
  {
    if i > 0 {
      var before := Ideal(g, err, i - 1);
      MinimizerStays(g, err, m, i - 1, before);
      IdealWidth(g, err, i - 1);
      NarrowKeepsMinimizer(g, err, m, before);
      assert k == Narrow(g, err, before);
    }
  }

  /** The scale a search answers with, and the error it reports. */
  function Answer(k: Bracket): real {
    (k.a + k.b) / 2.0
  }

  function Reported(g: real, err: real -> real, k: Bracket): real {
    (err(Inner(g, k.a, k.b)) + err(Outer(g, k.a, k.b))) / 2.0
  }

  /** For a strictly unimodal error the answer is within half the tolerance of the minimizer. */
  lemma AnswerIsClose(g: real, err: real -> real, m: real)
    requires Golden(g) && Unimodal(err, m)
    ensures -0.005 <= Answer(Ideal(g, err, 11)) - m <= 0.005
  {
    MinimizerStays(g, err, m, 11, Ideal(g, err, 11));
    IdealWidth(g, err, 11);
    OpenIff(g, 11);
  }

  /** Whatever the error, the answer is a scale one can divide by. */
  lemma AnswerIsPositive(g: real, err: real -> real)
    requires Golden(g)
    ensures 0.1 < Answer(Ideal(g, err, 11)) < 1.9
  {
    IdealWidth(g, err, 11);
  }

  // ---- the search in numbers ------------------------------------------------

  /** One step: both interior points are measured and the side of the smaller error is kept, the right one on a tie. */
  ghost predicate Follows(g: real, err: real -> real, k: Bracket, next: Bracket) {
    var x1, x2 := k.a + g * (k.b - k.a), k.b - g * (k.b - k.a);
    next == if err(x1) < err(x2) then Bracket(k.a, x2) else Bracket(x1, k.b)
  }

  ghost predicate IsRun(g: real, err: real -> real, ks: seq<Bracket>) {
    && ks != [] && ks[0] == Bracket(0.1, 1.9)
    && forall i :: 0 < i < |ks| ==> Follows(g, err, ks[i - 1], ks[i])
  }

  /** The middle of a bracket, and the mean of the errors at its interior points. */
  ghost predicate Reads(g: real, err: real -> real, k: Bracket, scale: real, error: real) {
    scale == (k.a + k.b) / 2.0 && error == (err(k.a + g * (k.b - k.a)) + err(k.b - g * (k.b - k.a))) / 2.0
  }

  /** What eleven steps from [0.1, 1.9] come to. */
  ghost predicate Found(g: real, err: real -> real, scale: real, error: real) {
    exists ks :: IsRun(g, err, ks) && |ks| == 12 && Reads(g, err, ks[11], scale, error)
  }

  lemma IdealFollows(g: real, err: real -> real, i: nat)
    ensures Follows(g, err, Ideal(g, err, i), Ideal(g, err, i + 1))
  {
  }

  lemma FollowsOne(g: real, err: real -> real, k: Bracket, a: Bracket, b: Bracket)
    requires Follows(g, err, k, a) && Follows(g, err, k, b)
    ensures a == b
  {
  }

  lemma IdealIsRun(g: real, err: real -> real, n: nat) returns (ks: seq<Bracket>)
    ensures |ks| == n + 1 && IsRun(g, err, ks) && ks[n] == Ideal(g, err, n)
  {
    ks := seq(n + 1, i requires 0 <= i <= n => Ideal(g, err, i));
    forall i | 0 < i < |ks|
      ensures Follows(g, err, ks[i - 1], ks[i])
    {
      IdealFollows(g, err, i - 1);
    }
  }

  lemma ReadsOf(g: real, err: real -> real, k: Bracket)
    ensures Reads(g, err, k, Answer(k), Reported(g, err, k))
  {
    var x1, x2 := k.a + g * (k.b - k.a), k.b - g * (k.b - k.a);
    assert Inner(g, k.a, k.b) == x1 && Outer(g, k.a, k.b) == x2;
    var error := (err(x1) + err(x2)) / 2.0;
    assert Reported(g, err, k) == error;
  }

  lemma IdealIsFound(g: real, err: real -> real, i: nat)
    requires i == 11
    ensures Found(g, err, Answer(Ideal(g, err, i)), Reported(g, err, Ideal(g, err, i)))
  {
    var ks := IdealIsRun(g, err, i);
    ReadsOf(g, err, ks[i]);
    assert IsRun(g, err, ks) && |ks| == 12 && Reads(g, err, ks[11], Answer(ks[i]), Reported(g, err, ks[i]));
  }

  /** There is one such run. */
  lemma {:induction false} RunIsIdeal(g: real, err: real -> real, ks: seq<Bracket>, i: nat)
    requires IsRun(g, err, ks) && i < |ks|
    ensures ks[i] == Ideal(g, err, i)
  {
    if i > 0 {
      RunIsIdeal(g, err, ks, i - 1);
      IdealFollows(g, err, i - 1);
      FollowsOne(g, err, ks[i - 1], ks[i], Ideal(g, err, i));
    }
  }

  /** Whatever the error, what a search finds can be divided by. */
  lemma FoundIsPositive(g: real, err: real -> real, scale: real, error: real)
    requires Golden(g) && Found(g, err, scale, error)
    ensures 0.1 < scale < 1.9
  {
    var ks :| IsRun(g, err, ks) && |ks| == 12 && Reads(g, err, ks[11], scale, error);
    var i := 11;
    RunIsIdeal(g, err, ks, i);
    IdealWidth(g, err, i);
  }

  // ---- the sequential search ------------------------------------------------

  /** The points and errors a search holds when it has measured both interior points of its i-th bracket. */
  ghost predicate Measured(g: real, err: real -> real, i: nat, a: real, b: real, x1: real, x2: real, f1: real, f2: real) {
    && Ideal(g, err, i) == Bracket(a, b)
    && x1 == Inner(g, a, b) && x2 == Outer(g, a, b) && f1 == err(x1) && f2 == err(x2)
  }

  lemma MeasuredWidth(g: real, err: real -> real, i: nat, a: real, b: real, x1: real, x2: real, f1: real, f2: real)
    requires Golden(g) && Measured(g, err, i, a, b, x1, x2, f1, f2)
    ensures a < b && (b - a > TOLERANCE <==> i <= 10)
  {
    IdealWidth(g, err, i);
    OpenIff(g, i);
  }

  lemma LeftMeasured(g: real, err: real -> real, i: nat, a: real, b: real, x1: real, x2: real, f1: real, f2: real)
    requires Golden(g) && Measured(g, err, i, a, b, x1, x2, f1, f2) && f1 < f2
    ensures Measured(g, err, i + 1, a, x2, Inner(g, a, x2), x1, err(Inner(g, a, x2)), f1)
  {
    KeepLeft(g, a, b);
  }

  lemma RightMeasured(g: real, err: real -> real, i: nat, a: real, b: real, x1: real, x2: real, f1: real, f2: real)
    requires Golden(g) && Measured(g, err, i, a, b, x1, x2, f1, f2) && !(f1 < f2)
    ensures Measured(g, err, i + 1, x1, b, x2, Outer(g, x1, b), f2, err(Outer(g, x1, b)))
  {
    KeepRight(g, a, b);
  }

  /** One new evaluation per step; the other interior point and its error are reused. */
  method Search(g: real, err: real -> real) returns (scale: real, error: real, evaluations: nat)
    requires Golden(g)
    ensures evaluations == 13
    ensures scale == Answer(Ideal(g, err, 11)) && error == Reported(g, err, Ideal(g, err, 11))
    ensures Found(g, err, scale, error)
  {
    var a, b := LOW, HIGH;
    var x1, x2 := Inner(g, a, b), Outer(g, a, b);
    var f1, f2 := err(x1), err(x2);
    evaluations := 2;
    ghost var i := 0;
    while Abs(b - a) > TOLERANCE
      invariant i <= 11 && evaluations == i + 2
      invariant Measured(g, err, i, a, b, x1, x2, f1, f2)
      decreases 11 - i
    {
      MeasuredWidth(g, err, i, a, b, x1, x2, f1, f2);
      if f1 < f2 {
        LeftMeasured(g, err, i, a, b, x1, x2, f1, f2);
        b, x2, f2 := x2, x1, f1;
        x1 := Inner(g, a, b);
        f1 := err(x1);
      } else {
        RightMeasured(g, err, i, a, b, x1, x2, f1, f2);
        a, x1, f1 := x1, x2, f2;
        x2 := Outer(g, a, b);
        f2 := err(x2);
      }
      evaluations := evaluations + 1;
      i := i + 1;
    }
    MeasuredWidth(g, err, i, a, b, x1, x2, f1, f2);
    IdealIsFound(g, err, i);
    scale, error := (a + b) / 2.0, (f1 + f2) / 2.0;
  }

  function Abs(x: real): real {
    if x < 0.0 then -x else x
  }
}
