/** Router weights folded exactly into integer units of 2^-149 through a bounded float64 histogram. */
module MassFold {
  import opened Common

  const FRACTION: nat := 0x80_0000           // 2^23
  const MANTISSA: nat := 0x100_0000          // 2^24
  const EXACT: nat := 0x20_0000_0000_0000    // 2^53
  const LIMIT: nat := 0x4000_0000_0000_0000  // 2^62
  const HALF64: nat := 0x8000_0000_0000_0000 // 2^63

  /** One routed slot of a row: the expert and the bits of its float32 weight. */
  datatype Entry = Entry(expert: nat, bits: nat)

  // ---- float32 bits (section 3.4 of IEEE 754-2019) ---------------------------

  function Fraction(bits: nat): (f: nat)
    ensures f < FRACTION
  {
    bits % FRACTION
  }

  function Exponent(bits: nat): (e: nat)
    ensures e < 256
  {
    bits / FRACTION % 256
  }

  predicate Negative(bits: nat) {
    bits / 0x8000_0000 != 0
  }

  predicate Finite(bits: nat) {
    Exponent(bits) != 255
  }

  function Mantissa(bits: nat): (m: nat)
    ensures m < MANTISSA && (m >= FRACTION <==> Exponent(bits) > 0)
  {
    if Exponent(bits) > 0 then FRACTION + Fraction(bits) else Fraction(bits)
  }

  function Shift(bits: nat): (s: nat)
    ensures s < 255
  {
    if Exponent(bits) > 0 then Exponent(bits) - 1 else 0
  }

  /** The weight in units of 2^-149. */
  function Units(bits: nat): nat {
    Mantissa(bits) * Pow2(Shift(bits))
  }

  /** 2^k */
  function Scale(k: int): real
    decreases if k < 0 then -k else k
  {
    if k == 0 then 1.0 else if k > 0 then 2.0 * Scale(k - 1) else Scale(k + 1) / 2.0
  }

  /** The value of a nonnegative finite float32. */
  function FloatValue(bits: nat): real {
    if Exponent(bits) == 0 then Fraction(bits) as real / FRACTION as real * Scale(-126)
    else (1.0 + Fraction(bits) as real / FRACTION as real) * Scale(Exponent(bits) - 127)
  }

  lemma {:induction false} ScaleSum(k: int, n: nat, x: real, p: real, r: real)
    requires x == Scale(k) && p == Scale(n) && r == p * x
    ensures Scale(k + n) == r
  {
    if n > 0 {
      var q := Scale(n - 1);
      var half := q * x;
      ScaleSum(k, n - 1, x, q, half);
      assert Scale(k + (n - 1) + 1) == 2.0 * Scale(k + (n - 1));
      Twice(q, x);
    }
  }

  lemma Twice(p: real, x: real)
    ensures 2.0 * (p * x) == (2.0 * p) * x
  {
  }

  lemma {:induction false} ScaleIsPow2(n: nat)
    ensures Scale(n) == Pow2(n) as real
  {
    if n > 0 {
      ScaleIsPow2(n - 1);
    }
  }

  lemma Pow2Of23()
    ensures Pow2(23) == FRACTION
  {
    assert Pow2(10) == 1024;
    assert Pow2(20) == 1024 * 1024 by {
      assert Pow2(15) == 32768;
    }
  }

  lemma Combine(m: real, p: real, unit: real, x: real, y: real)
    requires x == p * unit && y == FRACTION as real * x
    ensures m / FRACTION as real * y == (m * p) * unit
  {
    assert m / FRACTION as real * y == m * x;
  }

  /** The power of two the fraction of a weight is scaled by, in terms of its shift. */
  lemma ScaleOfShift(unitPower: int, s: nat, n: nat, p: real, f: real, unit: real, x: real, y: real)
    requires p == Scale(s) && f == Scale(n) && unit == Scale(unitPower) && x == p * unit && y == f * x
    ensures Scale(unitPower + s + n) == y
  {
    ScaleSum(unitPower, s, unit, p, x);
    ScaleSum(unitPower + s, n, x, f, y);
  }

  lemma FractionScale(n: nat)
    requires n == 23
    ensures Scale(n) == FRACTION as real
  {
    Pow2Of23();
    ScaleIsPow2(n);
  }

  lemma UnitsReal(bits: nat, m: real, p: real)
    requires m == Mantissa(bits) as real && p == Pow2(Shift(bits)) as real
    ensures Units(bits) as real == m * p
  {
    RealProduct(Mantissa(bits), Pow2(Shift(bits)));
  }

  lemma RealProduct(a: nat, b: nat)
    ensures (a * b) as real == a as real * b as real
  {
  }

  lemma FloatByShift(bits: nat, m: real, y: real)
    requires m == Mantissa(bits) as real && y == Scale(Shift(bits) - 126)
    ensures FloatValue(bits) == m / FRACTION as real * y
  {
    if Exponent(bits) > 0 {
      assert 1.0 + Fraction(bits) as real / FRACTION as real == m / FRACTION as real;
    }
  }

  lemma UnitsAt(bits: nat, unitPower: int, n: nat, unit: real, m: real, p: real)
    requires unitPower == -149 && n == 23 && unit == Scale(unitPower)
    requires m == Mantissa(bits) as real && p == Pow2(Shift(bits)) as real
    ensures FloatValue(bits) == (m * p) * unit
  {
    FractionScale(n);
    ScaleIsPow2(Shift(bits));
    var x := p * unit;
    var y := FRACTION as real * x;
    ScaleOfShift(unitPower, Shift(bits), n, p, FRACTION as real, unit, x, y);
    FloatByShift(bits, m, y);
    Combine(m, p, unit, x, y);
  }

  /** Every nonnegative finite float32 is exactly its integer number of units. */
  lemma UnitsAreExact(bits: nat)
    requires !Negative(bits) && Finite(bits)
    ensures FloatValue(bits) == Units(bits) as real * Scale(-149)
  {
    var m, p := Mantissa(bits) as real, Pow2(Shift(bits)) as real;
    var unit := Scale(-149);
    UnitsAt(bits, -149, 23, unit, m, p);
    UnitsReal(bits, m, p);
  }

  // ---- the fields against the integer --------------------------------------------

  /** The two fields of a nonnegative pattern spell it out again. */
  lemma FieldsSpellBits(bits: nat)
    requires bits < 0x8000_0000
    ensures !Negative(bits) && bits == Exponent(bits) * 0x80_0000 + Fraction(bits)
    ensures Exponent(bits) < 256 && Fraction(bits) < 0x80_0000
    ensures Finite(bits) <==> bits < 0x7F80_0000
  {
    assert bits / 0x80_0000 < 256;
  }

  /** And any two fields in range are the fields of the pattern they spell. */
  lemma FieldsOfPattern(exponent: nat, fraction: nat)
    requires exponent < 256 && fraction < 0x80_0000
    ensures Exponent(exponent * 0x80_0000 + fraction) == exponent && Fraction(exponent * 0x80_0000 + fraction) == fraction
  {
    var bits := exponent * 0x80_0000 + fraction;
    assert bits / 0x80_0000 == exponent;
  }

  /** The value of a pattern from its fields: subnormal below the first exponent, one implicit bit above. */
  lemma ValueOfPattern(exponent: nat, fraction: nat)
    requires exponent < 255 && fraction < 0x80_0000
    ensures FloatValue(exponent * 0x80_0000 + fraction) ==
      if exponent == 0 then fraction as real / 8388608.0 * Scale(-126)
      else (1.0 + fraction as real / 8388608.0) * Scale(exponent - 127)
  {
    FieldsOfPattern(exponent, fraction);
  }

  /** 0x3F800000 is one. */
  lemma PatternOfOne()
    ensures FloatValue(0x3F80_0000) == 1.0
  {
    FieldsOfPattern(127, 0);
    assert 127 * 0x80_0000 + 0 == 0x3F80_0000;
  }

  /** The next pattern is worth more, across the fraction and across the exponent. */
  lemma NextUnits(bits: nat)
    requires bits + 1 < 0x7F80_0000
    ensures Units(bits) < Units(bits + 1)
  {
    FieldsSpellBits(bits);
    var e, f := Exponent(bits), Fraction(bits);
    if f + 1 < 0x80_0000 {
      FieldsOfPattern(e, f + 1);
      MoreUnits(Mantissa(bits), Mantissa(bits + 1), Pow2(Shift(bits)));
    } else {
      FieldsOfPattern(e + 1, 0);
      if e > 0 {
        var p := Pow2(e - 1);
        assert Pow2(e) == 2 * p;
        MoreUnits(Mantissa(bits), 2 * FRACTION, p);
        assert FRACTION * (2 * p) == (2 * FRACTION) * p;
      }
    }
  }

  lemma MoreUnits(a: nat, b: nat, p: nat)
    requires a < b && p > 0
    ensures a * p < b * p
  {
    assert b * p == a * p + (b - a) * p;
  }

  lemma {:induction false} UnitsIncrease(a: nat, b: nat)
    requires a < b < 0x7F80_0000
    ensures Units(a) < Units(b)
    decreases b - a
  {
    NextUnits(b - 1);
    if a < b - 1 {
      UnitsIncrease(a, b - 1);
    }
  }

  lemma {:induction false} ScalePositive(k: int)
    ensures Scale(k) > 0.0
    decreases if k < 0 then -k else k
  {
    if k > 0 {
      ScalePositive(k - 1);
    } else if k < 0 {
      ScalePositive(k + 1);
    }
  }

  // ---- exact sums --------------------------------------------------------------

  function Entries(rows: seq<seq<Entry>>): seq<Entry> {
    if rows == [] then [] else Entries(rows[..|rows| - 1]) + rows[|rows| - 1]
  }

  /** The exact mass of one expert in units, one weight after the other. */
  function ExactMass(entries: seq<Entry>, expert: nat): nat {
    if entries == [] then 0
    else
      var last := entries[|entries| - 1];
      ExactMass(entries[..|entries| - 1], expert) + if last.expert == expert then Units(last.bits) else 0
  }

  function RoutedCount(entries: seq<Entry>, expert: nat): nat {
    if entries == [] then 0
    else RoutedCount(entries[..|entries| - 1], expert) + if entries[|entries| - 1].expert == expert then 1 else 0
  }

  /** The real sum of the weights routed to one expert. */
  function RealMass(entries: seq<Entry>, expert: nat): real {
    if entries == [] then 0.0
    else
      var last := entries[|entries| - 1];
      RealMass(entries[..|entries| - 1], expert) + if last.expert == expert then FloatValue(last.bits) else 0.0
  }

  /** unit, n times. */
  function Multiple(n: nat, unit: real): real {
    if n == 0 then 0.0 else Multiple(n - 1, unit) + unit
  }

  lemma {:induction false} MultipleIsProduct(n: nat, unit: real)
    ensures Multiple(n, unit) == n as real * unit
  {
    if n > 0 {
      MultipleIsProduct(n - 1, unit);
      var before := (n - 1) as real;
      assert (before + 1.0) * unit == before * unit + unit;
    }
  }

  lemma {:induction false} MultipleSum(a: nat, b: nat, unit: real)
    ensures Multiple(a + b, unit) == Multiple(a, unit) + Multiple(b, unit)
  {
    if b > 0 {
      MultipleSum(a, b - 1, unit);
      assert a + b - 1 == a + (b - 1);
    }
  }

  /** Every nonnegative finite float32 is its number of such units; 2^-149 is the only one. */
  ghost predicate Measures(unit: real) {
    forall bits :: !Negative(bits) && Finite(bits) ==> FloatValue(bits) == Multiple(Units(bits), unit)
  }

  /** mass is that many units. */
  ghost predicate InUnits(units: nat, mass: real) {
    exists unit :: Measures(unit) && mass == Multiple(units, unit)
  }

  lemma {:induction false} MassInUnit(entries: seq<Entry>, expert: nat, experts: nat, unit: real)
    requires Clean(entries, experts) && Measures(unit)
    ensures RealMass(entries, expert) == Multiple(ExactMass(entries, expert), unit)
  {
    if entries != [] {
      var init, last := entries[..|entries| - 1], entries[|entries| - 1];
      MassInUnit(init, expert, experts, unit);
      if last.expert == expert {
        MultipleSum(ExactMass(init, expert), Units(last.bits), unit);
      }
    }
  }

  lemma UnitMeasures() returns (unit: real)
    ensures Measures(unit) && unit == Scale(-149) > 0.0
  {
    unit := Scale(-149);
    forall bits | !Negative(bits) && Finite(bits)
      ensures FloatValue(bits) == Multiple(Units(bits), unit)
    {
      UnitsAreExact(bits);
      MultipleIsProduct(Units(bits), unit);
    }
    ScalePositive(-149);
  }

  lemma {:induction false} MultipleIncreases(a: nat, b: nat, unit: real)
    requires a < b && unit > 0.0
    ensures Multiple(a, unit) < Multiple(b, unit)
    decreases b
  {
    if a < b - 1 {
      MultipleIncreases(a, b - 1, unit);
    }
  }

  /** The value increases strictly with the pattern over all nonnegative finite float32. */
  lemma ValueIncreases(a: nat, b: nat)
    requires a < b < 0x7F80_0000
    ensures FloatValue(a) < FloatValue(b)
  {
    FieldsSpellBits(a);
    FieldsSpellBits(b);
    UnitsIncrease(a, b);
    var unit := UnitMeasures();
    MultipleIncreases(Units(a), Units(b), unit);
  }

  /** The integer mass is the real sum of the weights in units of 2^-149. */
  lemma MassIsRealSum(entries: seq<Entry>, expert: nat, experts: nat)
    requires Clean(entries, experts)
    ensures InUnits(ExactMass(entries, expert), RealMass(entries, expert))
  {
    var unit := UnitMeasures();
    MassInUnit(entries, expert, experts, unit);
  }

  /** Places of the expert's entries. */
  function PlacesOf(entries: seq<Entry>, expert: nat): (places: set<nat>)
    ensures forall k :: k in places <==> 0 <= k < |entries| && entries[k].expert == expert
  {
    set k | 0 <= k < |entries| && entries[k].expert == expert
  }

  /** The routed count is the number of entries of the expert. */
  lemma {:induction false} CountIsSize(entries: seq<Entry>, expert: nat)
    ensures RoutedCount(entries, expert) == |PlacesOf(entries, expert)|
  {
    if entries != [] {
      var last := |entries| - 1;
      var before := PlacesOf(entries[..last], expert);
      CountIsSize(entries[..last], expert);
      if entries[last].expert == expert {
        assert PlacesOf(entries, expert) == before + {last};
      } else {
        assert PlacesOf(entries, expert) == before;
      }
    }
  }

  /** Position of an entry's histogram bin: 256 shifts for each expert. */
  function Key(entry: Entry): nat {
    entry.expert * 256 + Shift(entry.bits)
  }

  /** What one histogram bin must hold. */
  function BinSum(entries: seq<Entry>, key: nat): nat {
    if entries == [] then 0
    else
      var last := entries[|entries| - 1];
      BinSum(entries[..|entries| - 1], key) + if Key(last) == key then Mantissa(last.bits) else 0
  }

  lemma {:induction false} EntriesConcat(a: seq<seq<Entry>>, b: seq<seq<Entry>>)
    ensures Entries(a + b) == Entries(a) + Entries(b)
  {
    if b == [] {
      assert a + b == a;
    } else {
      EntriesConcat(a, b[..|b| - 1]);
      assert (a + b)[..|a + b| - 1] == a + b[..|b| - 1];
    }
  }

  lemma {:induction false} BinsConcat(a: seq<Entry>, b: seq<Entry>, key: nat)
    ensures BinSum(a + b, key) == BinSum(a, key) + BinSum(b, key)
  {
    if b == [] {
      assert a + b == a;
    } else {
      BinsConcat(a, b[..|b| - 1], key);
      assert (a + b)[..|a + b| - 1] == a + b[..|b| - 1];
    }
  }

  lemma {:induction false} CountsConcat(a: seq<Entry>, b: seq<Entry>, expert: nat)
    ensures RoutedCount(a + b, expert) == RoutedCount(a, expert) + RoutedCount(b, expert)
  {
    if b == [] {
      assert a + b == a;
    } else {
      CountsConcat(a, b[..|b| - 1], expert);
      assert (a + b)[..|a + b| - 1] == a + b[..|b| - 1];
    }
  }

  lemma {:induction false} BinBound(entries: seq<Entry>, key: nat)
    ensures BinSum(entries, key) <= |entries| * (MANTISSA - 1)
  {
    if entries != [] {
      BinBound(entries[..|entries| - 1], key);
    }
  }

  /** Sum of the first n bins of an expert, each shifted into place. */
  function Folded(entries: seq<Entry>, expert: nat, n: nat): nat {
    if n == 0 then 0 else Folded(entries, expert, n - 1) + BinSum(entries, expert * 256 + (n - 1)) * Pow2(n - 1)
  }

  lemma FoldedBin(sum: nat, m: nat, p: nat)
    ensures (sum + m) * p == sum * p + m * p
  {
  }

  lemma {:induction false} FoldedGrows(entries: seq<Entry>, last: Entry, expert: nat, n: nat)
    requires n <= 256
    ensures Folded(entries + [last], expert, n) == Folded(entries, expert, n)
      + if last.expert == expert && Shift(last.bits) < n then Units(last.bits) else 0
  {
    if n > 0 {
      FoldedGrows(entries, last, expert, n - 1);
      assert (entries + [last])[..|entries|] == entries;
      assert Key(last) == expert * 256 + (n - 1) <==> last.expert == expert && Shift(last.bits) == n - 1;
      FoldedBin(BinSum(entries, expert * 256 + (n - 1)), Mantissa(last.bits), Pow2(n - 1));
    }
  }

  lemma {:induction false} FoldedNothing(expert: nat, n: nat)
    ensures Folded([], expert, n) == 0
  {
    if n > 0 {
      FoldedNothing(expert, n - 1);
    }
  }

  /** The per-bin sums, shifted once at the end, add up to the exact mass. */
  lemma {:induction false} FoldIsExact(entries: seq<Entry>, expert: nat)
    ensures Folded(entries, expert, 256) == ExactMass(entries, expert)
  {
    if entries == [] {
      FoldedNothing(expert, 256);
    } else {
      var init, last := entries[..|entries| - 1], entries[|entries| - 1];
      FoldIsExact(init, expert);
      FoldedGrows(init, last, expert, 256);
      assert init + [last] == entries;
    }
  }

  // ---- the vectorized fold -------------------------------------------------------

  datatype Fault = NoFault | BadWindow | BadChunk | ChunkTooLarge | NegativeWeight | NotFinite | BadExpert | LostExactness | Overflow

  datatype Outcome = Folding(units: seq<nat>, counts: seq<nat>) | Failed(fault: Fault)

  predicate RoundsExactly(round: real -> real, v: nat) {
    round(v as real) == v as real
  }

  /** float64 rounding keeps the integers a double holds exactly; larger ones may go anywhere. */
  ghost predicate ExactBelow(round: real -> real) {
    forall v: nat :: v <= EXACT ==> RoundsExactly(round, v)
  }

  predicate Clean(entries: seq<Entry>, experts: nat) {
    forall k :: 0 <= k < |entries| ==> !Negative(entries[k].bits) && Finite(entries[k].bits) && entries[k].expert < experts
  }

  /** int64 addition wraps. */
  function Wrap64(x: int): int {
    (x + HALF64) % (2 * HALF64) - HALF64
  }

  lemma NoWrap(x: int)
    requires 0 <= x < HALF64
    ensures Wrap64(x) == x
  {
  }

  /** The array checks of one chunk, in the source's order. */
  method CheckChunk(chunk: seq<Entry>, experts: nat) returns (fault: Fault)
    ensures fault == NoFault <==> Clean(chunk, experts)
    ensures fault == NegativeWeight <==> exists k :: 0 <= k < |chunk| && Negative(chunk[k].bits)
    ensures fault in {NoFault, NegativeWeight, NotFinite, BadExpert}
  {
    var negative, infinite, foreign := false, false, false;
    for k := 0 to |chunk|
      invariant negative <==> exists i :: 0 <= i < k && Negative(chunk[i].bits)
      invariant infinite <==> exists i :: 0 <= i < k && !Finite(chunk[i].bits)
      invariant foreign <==> exists i :: 0 <= i < k && chunk[i].expert >= experts
    {
      negative := negative || Negative(chunk[k].bits);
      infinite := infinite || !Finite(chunk[k].bits);
      foreign := foreign || chunk[k].expert >= experts;
    }
    fault := if negative then NegativeWeight else if infinite then NotFinite else if foreign then BadExpert else NoFault;
  }

  /** np.bincount with float64 weights: exact, because no bin of one chunk reaches 2^53. */
  method BinCount(round: real -> real, chunk: seq<Entry>, experts: nat) returns (totals: array<real>)
    requires ExactBelow(round) && Clean(chunk, experts) && |chunk| * MANTISSA < EXACT
    ensures fresh(totals) && totals.Length == experts * 256
    ensures forall key :: 0 <= key < totals.Length ==> totals[key] == BinSum(chunk, key) as real
  {
    totals := new real[experts * 256](_ => 0.0);
    for k := 0 to |chunk|
      invariant forall key :: 0 <= key < totals.Length ==> totals[key] == BinSum(chunk[..k], key) as real
    {
      ghost var done := chunk[..k + 1];
      assert done[..k] == chunk[..k] && done[k] == chunk[k];
      var key := Key(chunk[k]);
      BinBound(done, key);
      assert RoundsExactly(round, BinSum(done, key));
      var sum := totals[key] + Mantissa(chunk[k].bits) as real;
      assert sum == BinSum(done, key) as real;
      totals[key] := round(sum);
    }
    assert chunk[..|chunk|] == chunk;
  }

  /** The integrality check on the histogram, which never fires. */
  method IsIntegral(totals: array<real>) returns (integral: bool)
    ensures integral <==> forall key :: 0 <= key < totals.Length ==> totals[key] == totals[key].Floor as real
  {
    integral := true;
    for key := 0 to totals.Length
      invariant integral <==> forall k :: 0 <= k < key ==> totals[k] == totals[k].Floor as real
    {
      integral := integral && totals[key] == totals[key].Floor as real;
    }
  }

  /** shifted += totals in int64: no bin wraps as long as it was below 2^62 before. */
  method AddBins(shifted: array<int>, totals: array<real>, ghost entries: seq<Entry>, ghost chunk: seq<Entry>)
    requires shifted.Length == totals.Length && |chunk| * MANTISSA < EXACT
    requires forall key :: 0 <= key < shifted.Length ==> shifted[key] == BinSum(entries, key) < LIMIT
    requires forall key :: 0 <= key < shifted.Length ==> totals[key] == BinSum(chunk, key) as real
    modifies shifted
    ensures forall key :: 0 <= key < shifted.Length ==> shifted[key] == BinSum(entries + chunk, key)
  {
    for key := 0 to shifted.Length
      invariant forall k :: 0 <= k < key ==> shifted[k] == BinSum(entries + chunk, k)
      invariant forall k :: key <= k < shifted.Length ==> shifted[k] == BinSum(entries, k)
    {
      BinBound(chunk, key);
      BinsConcat(entries, chunk, key);
      var sum := shifted[key] + totals[key].Floor;
      assert sum == BinSum(entries + chunk, key);
      NoWrap(sum);
      shifted[key] := Wrap64(sum);
    }
  }

  method AddCounts(counts: array<nat>, ghost entries: seq<Entry>, chunk: seq<Entry>)
    requires Clean(chunk, counts.Length)
    requires forall e :: 0 <= e < counts.Length ==> counts[e] == RoutedCount(entries, e)
    modifies counts
    ensures forall e :: 0 <= e < counts.Length ==> counts[e] == RoutedCount(entries + chunk, e)
  {
    assert entries + chunk[..0] == entries;
    for k := 0 to |chunk|
      invariant forall e :: 0 <= e < counts.Length ==> counts[e] == RoutedCount(entries + chunk[..k], e)
    {
      assert (entries + chunk[..k + 1])[..|entries| + k] == entries + chunk[..k];
      counts[chunk[k].expert] := counts[chunk[k].expert] + 1;
    }
    assert chunk[..|chunk|] == chunk;
  }

  method Overflows(shifted: array<int>) returns (over: bool)
    ensures over <==> exists key :: 0 <= key < shifted.Length && shifted[key] >= LIMIT
  {
    over := false;
    for key := 0 to shifted.Length
      invariant over <==> exists k :: 0 <= k < key && shifted[k] >= LIMIT
    {
      over := over || shifted[key] >= LIMIT;
    }
  }

  /** Bins and counts hold the exact sums of the entries so far. */
  ghost predicate Holding(shifted: array<int>, counts: array<nat>, entries: seq<Entry>)
    reads shifted, counts
  {
    && (forall key :: 0 <= key < shifted.Length ==> shifted[key] == BinSum(entries, key))
    && (forall e :: 0 <= e < counts.Length ==> counts[e] == RoutedCount(entries, e))
  }

  ghost predicate Fits(entries: seq<Entry>, bins: nat) {
    forall key :: 0 <= key < bins ==> BinSum(entries, key) < LIMIT
  }

  /** One chunk: checks, histogram, int64 fold, overflow check. */
  method FoldChunk(round: real -> real, chunk: seq<Entry>, shifted: array<int>, counts: array<nat>, ghost entries: seq<Entry>)
    returns (fault: Fault)
    requires ExactBelow(round) && |chunk| * MANTISSA < EXACT && shifted.Length == counts.Length * 256
    requires Holding(shifted, counts, entries) && Fits(entries, shifted.Length)
    modifies shifted, counts
    ensures fault == NoFault <==> Clean(chunk, counts.Length) && Fits(entries + chunk, shifted.Length)
    ensures fault == NoFault ==> Holding(shifted, counts, entries + chunk)
    ensures fault in {NoFault, NegativeWeight, NotFinite, BadExpert, Overflow}
  {
    fault := CheckChunk(chunk, counts.Length);
    if fault != NoFault {
      return;
    }
    var totals := BinCount(round, chunk, counts.Length);
    var integral := IsIntegral(totals);
    if !integral {
      return LostExactness;
    }
    AddBins(shifted, totals, entries, chunk);
    AddCounts(counts, entries, chunk);
    var over := Overflows(shifted);
    if over {
      return Overflow;
    }
  }

  /** One expert's bins, each shifted into place, over unbounded integers. */
  method UnitsOfExpert(shifted: array<int>, expert: nat, ghost entries: seq<Entry>) returns (total: nat)
    requires (expert + 1) * 256 <= shifted.Length
    requires forall key :: 0 <= key < shifted.Length ==> shifted[key] == BinSum(entries, key)
    ensures total == ExactMass(entries, expert)
  {
    total := 0;
    for position := 0 to 256
      invariant total == Folded(entries, expert, position)
    {
      if shifted[expert * 256 + position] != 0 {
        total := total + shifted[expert * 256 + position] * Pow2(position);
      }
    }
    FoldIsExact(entries, expert);
  }

  // ---- the whole fold --------------------------------------------------------------

  predicate AllRows(rows: seq<seq<Entry>>, topK: nat) {
    forall r :: 0 <= r < |rows| ==> |rows[r]| == topK
  }

  lemma {:induction false} EntriesCount(rows: seq<seq<Entry>>, topK: nat)
    requires AllRows(rows, topK)
    ensures |Entries(rows)| == |rows| * topK
  {
    if rows != [] {
      EntriesCount(rows[..|rows| - 1], topK);
      assert |rows| * topK == (|rows| - 1) * topK + topK;
    }
  }

  /** What the fold accepts: a property of the rows, once the chunk is positive and passes the guard. */
  ghost predicate Accepts(rows: seq<seq<Entry>>, topK: nat, experts: nat, first: int, last: int, chunk: int) {
    && 0 <= first <= last <= |rows|
    && chunk > 0 && chunk * topK * MANTISSA < EXACT
    && Accepted(rows, first, last, experts, experts * 256)
  }

  lemma ChunkIsSmall(rows: seq<seq<Entry>>, topK: nat, begin: nat, end: nat, chunk: nat)
    requires AllRows(rows, topK) && begin <= end <= |rows| && end - begin <= chunk && chunk * topK * MANTISSA < EXACT
    ensures |Entries(rows[begin..end])| * MANTISSA < EXACT
  {
    EntriesCount(rows[begin..end], topK);
    MulMonotone(end - begin, chunk, topK);
  }

  lemma {:induction false} MulMonotone(a: nat, b: nat, c: nat)
    requires a <= b
    ensures a * c <= b * c
  {
    assert b * c == a * c + (b - a) * c;
  }

  /** Chunks already folded followed by the next one. */
  lemma NextChunk(rows: seq<seq<Entry>>, first: nat, begin: nat, end: nat)
    requires first <= begin <= end <= |rows|
    ensures Entries(rows[first..end]) == Entries(rows[first..begin]) + Entries(rows[begin..end])
  {
    assert rows[first..end] == rows[first..begin] + rows[begin..end];
    EntriesConcat(rows[first..begin], rows[begin..end]);
  }

  /** A prefix that is refused makes the whole refused. */
  lemma PrefixRefuses(rows: seq<seq<Entry>>, first: nat, end: nat, last: nat, experts: nat)
    requires first <= end <= last <= |rows|
    ensures Clean(Entries(rows[first..last]), experts) ==> Clean(Entries(rows[first..end]), experts)
    ensures Fits(Entries(rows[first..last]), experts * 256) ==> Fits(Entries(rows[first..end]), experts * 256)
  {
    NextChunk(rows, first, end, last);
    var head, tail := Entries(rows[first..end]), Entries(rows[end..last]);
    forall k | 0 <= k < |head|
      ensures (head + tail)[k] == head[k]
    {
    }
    forall key: nat
      ensures BinSum(head, key) <= BinSum(head + tail, key)
    {
      BinsConcat(head, tail, key);
    }
  }

  lemma CleanConcat(a: seq<Entry>, b: seq<Entry>, experts: nat)
    ensures Clean(a + b, experts) <==> Clean(a, experts) && Clean(b, experts)
  {
    if Clean(a + b, experts) {
      assert forall k :: 0 <= k < |a| ==> (a + b)[k] == a[k];
      assert forall k :: 0 <= k < |b| ==> (a + b)[|a| + k] == b[k];
    }
  }

  /** The rows first..end are clean, fit, and are what the bins hold. */
  ghost predicate FoldedTo(rows: seq<seq<Entry>>, first: nat, end: nat, shifted: array<int>, counts: array<nat>)
    requires first <= end <= |rows|
    reads shifted, counts
  {
    && Holding(shifted, counts, Entries(rows[first..end]))
    && Accepted(rows, first, end, counts.Length, shifted.Length)
  }

  ghost predicate Accepted(rows: seq<seq<Entry>>, first: nat, end: nat, experts: nat, bins: nat)
    requires first <= end <= |rows|
  {
    Clean(Entries(rows[first..end]), experts) && Fits(Entries(rows[first..end]), bins)
  }

  lemma AcceptedNext(rows: seq<seq<Entry>>, first: nat, begin: nat, end: nat, last: nat, experts: nat)
    requires first <= begin <= end <= last <= |rows| && Accepted(rows, first, begin, experts, experts * 256)
    ensures Entries(rows[first..end]) == Entries(rows[first..begin]) + Entries(rows[begin..end])
    ensures Accepted(rows, first, end, experts, experts * 256) <==>
      Clean(Entries(rows[begin..end]), experts) && Fits(Entries(rows[first..end]), experts * 256)
    ensures Accepted(rows, first, last, experts, experts * 256) ==> Accepted(rows, first, end, experts, experts * 256)
  {
    NextChunk(rows, first, begin, end);
    PrefixRefuses(rows, first, end, last, experts);
    CleanConcat(Entries(rows[first..begin]), Entries(rows[begin..end]), experts);
  }

  method FoldNext(round: real -> real, rows: seq<seq<Entry>>, topK: nat, ghost first: nat, begin: nat, end: nat, ghost last: nat,
                  chunk: nat, shifted: array<int>, counts: array<nat>) returns (fault: Fault)
    requires ExactBelow(round) && AllRows(rows, topK) && first <= begin <= end <= last <= |rows| && end - begin <= chunk
    requires chunk * topK * MANTISSA < EXACT && shifted.Length == counts.Length * 256
    requires FoldedTo(rows, first, begin, shifted, counts)
    modifies shifted, counts
    ensures fault == NoFault ==> FoldedTo(rows, first, end, shifted, counts)
    ensures fault != NoFault ==> !Accepted(rows, first, last, counts.Length, shifted.Length)
    ensures fault in {NoFault, NegativeWeight, NotFinite, BadExpert, Overflow}
  {
    ChunkIsSmall(rows, topK, begin, end, chunk);
    AcceptedNext(rows, first, begin, end, last, counts.Length);
    ghost var before, after := Entries(rows[first..begin]), Entries(rows[first..end]);
    var next := Entries(rows[begin..end]);
    assert after == before + next;
    fault := FoldChunk(round, next, shifted, counts, before);
  }

  /** Runs the chunks; it stops with a fault exactly when the whole window is not clean or does not fit. */
  method FoldChunks(round: real -> real, rows: seq<seq<Entry>>, topK: nat, first: nat, last: nat, chunk: nat,
                    shifted: array<int>, counts: array<nat>) returns (fault: Fault)
    requires ExactBelow(round) && AllRows(rows, topK) && first <= last <= |rows|
    requires chunk > 0 && chunk * topK * MANTISSA < EXACT && shifted.Length == counts.Length * 256
    requires FoldedTo(rows, first, first, shifted, counts)
    modifies shifted, counts
    ensures fault == NoFault <==> Accepted(rows, first, last, counts.Length, shifted.Length)
    ensures fault == NoFault ==> FoldedTo(rows, first, last, shifted, counts)
    ensures fault in {NoFault, NegativeWeight, NotFinite, BadExpert, Overflow}
  {
    fault := NoFault;
    var begin := first;
    while begin < last
      invariant first <= begin <= last && fault == NoFault && FoldedTo(rows, first, begin, shifted, counts)
      decreases last - begin
    {
      var end := if begin + chunk < last then begin + chunk else last;
      fault := FoldNext(round, rows, topK, first, begin, end, last, chunk, shifted, counts);
      if fault != NoFault {
        return;
      }
      begin := end;
    }
  }

  /** The units of every expert, in order. */
  method AllUnits(shifted: array<int>, experts: nat, ghost entries: seq<Entry>) returns (units: seq<nat>)
    requires shifted.Length == experts * 256
    requires forall key :: 0 <= key < shifted.Length ==> shifted[key] == BinSum(entries, key)
    ensures |units| == experts && forall e :: 0 <= e < experts ==> units[e] == ExactMass(entries, e)
  {
    units := [];
    for e := 0 to experts
      invariant |units| == e && forall i :: 0 <= i < e ==> units[i] == ExactMass(entries, i)
    {
      var total := UnitsOfExpert(shifted, e, entries);
      units := units + [total];
    }
  }

  /** The result is the exact per-expert sum and count, for every chunk the guard lets through. */
  method ExactMassUnits(round: real -> real, rows: seq<seq<Entry>>, topK: nat, experts: nat, first: int, last: int, chunk: int)
    returns (r: Outcome)
    requires ExactBelow(round) && AllRows(rows, topK)
    ensures r.Folding? <==> Accepts(rows, topK, experts, first, last, chunk)
    ensures r.Folding? ==> |r.units| == |r.counts| == experts
    ensures r.Folding? ==> forall e :: 0 <= e < experts ==>
      r.units[e] == ExactMass(Entries(rows[first..last]), e) && r.counts[e] == RoutedCount(Entries(rows[first..last]), e)
    ensures r.Folding? ==> forall e :: 0 <= e < experts ==>
      InUnits(r.units[e], RealMass(Entries(rows[first..last]), e))
    ensures r != Failed(LostExactness)
  {
    if !(0 <= first <= last <= |rows|) {
      return Failed(BadWindow);
    }
    if chunk <= 0 {
      return Failed(BadChunk);
    }
    if chunk * topK * MANTISSA >= EXACT {
      return Failed(ChunkTooLarge);
    }
    var shifted := new int[experts * 256](_ => 0);
    var counts := new nat[experts](_ => 0);
    assert rows[first..first] == [];
    var fault := FoldChunks(round, rows, topK, first, last, chunk, shifted, counts);
    if fault != NoFault {
      return Failed(fault);
    }
    ghost var entries := Entries(rows[first..last]);
    var units := AllUnits(shifted, experts, entries);
    forall e | 0 <= e < experts
      ensures InUnits(units[e], RealMass(entries, e))
    {
      MassIsRealSum(entries, e, experts);
    }
    return Folding(units, counts[..]);
  }

  /** No mass is lost or invented: the experts' masses add up to the mass of all entries. */
  lemma {:induction false} MassConserved(entries: seq<Entry>, experts: nat)
    requires Clean(entries, experts)
    ensures TotalMass(entries, experts) == AllMass(entries)
  {
    if entries == [] {
      NoMass(experts);
    } else {
      var init, last := entries[..|entries| - 1], entries[|entries| - 1];
      MassConserved(init, experts);
      TotalGrows(init, last, experts);
      assert init + [last] == entries;
    }
  }

  function TotalMass(entries: seq<Entry>, experts: nat): nat {
    if experts == 0 then 0 else TotalMass(entries, experts - 1) + ExactMass(entries, experts - 1)
  }

  function AllMass(entries: seq<Entry>): nat {
    if entries == [] then 0 else AllMass(entries[..|entries| - 1]) + Units(entries[|entries| - 1].bits)
  }

  lemma {:induction false} NoMass(experts: nat)
    ensures TotalMass([], experts) == 0
  {
    if experts > 0 {
      NoMass(experts - 1);
    }
  }

  lemma {:induction false} TotalGrows(entries: seq<Entry>, last: Entry, experts: nat)
    ensures TotalMass(entries + [last], experts) == TotalMass(entries, experts)
      + if last.expert < experts then Units(last.bits) else 0
  {
    if experts > 0 {
      TotalGrows(entries, last, experts - 1);
      assert (entries + [last])[..|entries|] == entries;
    }
  }
}
