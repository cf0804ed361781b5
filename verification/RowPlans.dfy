/** Which rows calibrate an expert: the fit plan, the same plan again for the down projection, the holdout. */
module RowPlans {
  import opened Common
  import opened ExpertRows

  datatype Row<H> = Row(id: nat, hidden: H)

  datatype Fault = Fine | DuplicateWithin | DuplicateAcross(id: nat) | Underfilled(missing: nat) | PlansDiffer | EmptyHoldout | EmptyReservoir

  /**
    * Two deterministic sources of row batches per split: routed rows and cold-fallback rows. None is the error
    * the fallback raises when it has no row at all.
    */
  datatype Backend<!H> = Backend(routed: Split -> seq<seq<Row<H>>>, fallback: Split -> Option<seq<seq<Row<H>>>>, holdout: nat -> bool) {

    ghost predicate InSplit(id: nat, split: Split) {
      holdout(id) == (split == Holdout)
    }

    /** Routed rows come once; no batch repeats a row; both sources keep to the split. */
    ghost predicate Valid() {
      forall split :: SplitOk(split)
    }

    ghost predicate SplitOk(split: Split) {
      && Distinct(All(routed(split)))
      && (forall b :: 0 <= b < |Offered(split)| ==> Distinct(Ids(Offered(split)[b])))
      && (forall k :: 0 <= k < |All(routed(split))| ==> InSplit(All(routed(split))[k], split))
      && (forall k :: 0 <= k < |All(Offered(split))| ==> InSplit(All(Offered(split))[k], split))
    }

    /** The fallback batches there are. */
    function Offered(split: Split): seq<seq<Row<H>>> {
      if fallback(split).Some? then fallback(split).value else []
    }
  }

  predicate Distinct(ids: seq<nat>) {
    forall i, j :: 0 <= i < j < |ids| ==> ids[i] != ids[j]
  }

  function Ids<H>(rows: seq<Row<H>>): (r: seq<nat>)
    ensures |r| == |rows|
  {
    seq(|rows|, k requires 0 <= k < |rows| => rows[k].id)
  }

  function All<H>(batches: seq<seq<Row<H>>>): seq<nat> {
    if batches == [] then [] else All(batches[..|batches| - 1]) + Ids(batches[|batches| - 1])
  }

  lemma {:induction false} AllConcat<H>(a: seq<seq<Row<H>>>, b: seq<seq<Row<H>>>)
    ensures All(a + b) == All(a) + All(b)
  {
    if b == [] {
      assert a + b == a;
    } else {
      var init := b[..|b| - 1];
      AllConcat(a, init);
      var whole := a + b;
      assert whole[..|whole| - 1] == a + init && whole[|whole| - 1] == b[|b| - 1];
      assert (All(a) + All(init)) + Ids(b[|b| - 1]) == All(a) + All(b);
    }
  }

  /** First occurrences of ids outside seen, in order. */
  function Fresh(ids: seq<nat>, seen: set<nat>): seq<nat> {
    if ids == [] then []
    else
      var before, last := Fresh(ids[..|ids| - 1], seen), ids[|ids| - 1];
      if last in seen || last in before then before else before + [last]
  }

  lemma {:induction false} FreshExactly(ids: seq<nat>, seen: set<nat>)
    ensures Distinct(Fresh(ids, seen)) && forall x :: x in Fresh(ids, seen) <==> x in ids && x !in seen
  {
    if ids != [] {
      FreshExactly(ids[..|ids| - 1], seen);
      assert ids == ids[..|ids| - 1] + [ids[|ids| - 1]];
    }
  }

  lemma {:induction false} FreshPrefix(a: seq<nat>, b: seq<nat>, seen: set<nat>)
    ensures Fresh(a, seen) <= Fresh(a + b, seen)
  {
    if b == [] {
      assert a + b == a;
    } else {
      FreshPrefix(a, b[..|b| - 1], seen);
      assert (a + b)[..|a + b| - 1] == a + b[..|b| - 1];
    }
  }

  /** Distinct ids that were never seen are all fresh. */
  lemma {:induction false} FreshOfNew(ids: seq<nat>, seen: set<nat>)
    requires Distinct(ids) && NoneIn(ids, seen)
    ensures Fresh(ids, seen) == ids
  {
    if ids != [] {
      FreshOfNew(ids[..|ids| - 1], seen);
      assert ids == ids[..|ids| - 1] + [ids[|ids| - 1]];
    }
  }

  function Members(ids: seq<nat>): (r: set<nat>)
    ensures forall x :: x in r <==> x in ids
  {
    set k | 0 <= k < |ids| :: ids[k]
  }

  predicate NoneIn(ids: seq<nat>, seen: set<nat>) {
    forall k :: 0 <= k < |ids| ==> ids[k] !in seen
  }

  // ---- selecting new rows ------------------------------------------------------

  /** One more id of a list without repeats: fresh exactly when it was not seen. */
  lemma NextId(ids: seq<nat>, k: nat, seen: set<nat>)
    requires Distinct(ids) && k < |ids|
    ensures Fresh(ids[..k + 1], seen) == if ids[k] in seen then Fresh(ids[..k], seen) else Fresh(ids[..k], seen) + [ids[k]]
    ensures NoneIn(ids[..k + 1], seen) <==> NoneIn(ids[..k], seen) && ids[k] !in seen
    ensures ids[k] in seen + Members(Fresh(ids[..k], seen)) <==> ids[k] in seen
    ensures NoneIn(ids, seen) ==> ids[k] !in seen
  {
    FreshExactly(ids[..k], seen);
    assert ids[..k + 1][..k] == ids[..k] && ids[..k + 1][k] == ids[k];
    assert ids[k] !in ids[..k];
    if NoneIn(ids[..k + 1], seen) {
      assert forall i :: 0 <= i < k ==> ids[..k + 1][i] == ids[..k][i];
    }
    if NoneIn(ids[..k], seen) && ids[k] !in seen {
      assert forall i :: 0 <= i < k ==> ids[..k + 1][i] == ids[..k][i];
    }
  }

  /** A batch against the ids seen so far: the rows kept and their ids, aligned; seen grows by those ids. */
  method SelectNewRows<H>(rows: seq<Row<H>>, seen: set<nat>, skipSeen: bool)
    returns (hidden: seq<H>, accepted: seq<nat>, seen': set<nat>, fault: Fault)
    ensures fault == Fine <==> Distinct(Ids(rows)) && (skipSeen || NoneIn(Ids(rows), seen))
    ensures fault == Fine ==> accepted == Fresh(Ids(rows), seen) && seen' == seen + Members(accepted)
    ensures |hidden| == |accepted|
    ensures forall k :: 0 <= k < |accepted| ==> Row(accepted[k], hidden[k]) in rows
  {
    hidden, accepted, seen', fault := [], [], seen, Fine;
    if !Distinct(Ids(rows)) {
      return [], [], seen, DuplicateWithin;
    }
    for k := 0 to |rows|
      invariant fault == Fine && |hidden| == |accepted|
      invariant accepted == Fresh(Ids(rows)[..k], seen) && seen' == seen + Members(accepted)
      invariant forall i :: 0 <= i < |accepted| ==> Row(accepted[i], hidden[i]) in rows
      invariant skipSeen || NoneIn(Ids(rows)[..k], seen)
    {
      NextId(Ids(rows), k, seen);
      var duplicate := rows[k].id in seen';
      if duplicate && !skipSeen {
        return [], [], seen, DuplicateAcross(rows[k].id);
      }
      if !duplicate {
        hidden, accepted := hidden + [rows[k].hidden], accepted + [rows[k].id];
        seen' := seen' + {rows[k].id};
      }
    }
    assert Ids(rows)[..|rows|] == Ids(rows);
  }

  // ---- routed rows -----------------------------------------------------------------

  /** Every routed row once: with a split backend neither duplicate error can fire. */
  method TakeRouted<H>(batches: seq<seq<Row<H>>>) returns (ids: seq<nat>, fault: Fault)
    requires Distinct(All(batches))
    ensures fault == Fine && ids == All(batches)
  {
    var seen: set<nat> := {};
    ids, fault := [], Fine;
    for b := 0 to |batches|
      invariant fault == Fine && ids == All(batches[..b]) && seen == Members(ids)
    {
      BatchIsNew(batches, b);
      FreshOfNew(Ids(batches[b]), seen);
      var hidden, accepted;
      hidden, accepted, seen, fault := SelectNewRows(batches[b], seen, false);
      if fault != Fine {
        return;
      }
      ids := ids + accepted;
    }
    assert batches[..|batches|] == batches;
  }

  lemma AllNext<H>(batches: seq<seq<Row<H>>>, b: nat)
    requires b < |batches|
    ensures All(batches[..b + 1]) == All(batches[..b]) + Ids(batches[b])
  {
    var upTo := batches[..b + 1];
    assert upTo[..b] == batches[..b] && upTo[b] == batches[b];
  }

  lemma AllSplit<H>(batches: seq<seq<Row<H>>>, b: nat)
    requires b < |batches|
    ensures All(batches) == All(batches[..b + 1]) + All(batches[b + 1..])
  {
    var head, tail := batches[..b + 1], batches[b + 1..];
    assert batches == head + tail;
    AllConcat(head, tail);
  }

  lemma DistinctMiddle(a: seq<nat>, m: seq<nat>, c: seq<nat>)
    requires Distinct(a + m + c)
    ensures Distinct(m) && NoneIn(m, Members(a))
  {
    var all := a + m + c;
    forall i, j | 0 <= i < j < |m|
      ensures m[i] != m[j]
    {
      assert all[|a| + i] == m[i] && all[|a| + j] == m[j];
    }
    forall i, k | 0 <= i < |a| && 0 <= k < |m|
      ensures a[i] != m[k]
    {
      assert all[i] == a[i] && all[|a| + k] == m[k];
    }
  }

  /** Without repeats overall, a batch repeats nothing and nothing before it. */
  lemma BatchIsNew<H>(batches: seq<seq<Row<H>>>, b: nat)
    requires Distinct(All(batches)) && b < |batches|
    ensures Distinct(Ids(batches[b])) && NoneIn(Ids(batches[b]), Members(All(batches[..b])))
    ensures All(batches[..b + 1]) == All(batches[..b]) + Ids(batches[b])
  {
    AllNext(batches, b);
    AllSplit(batches, b);
    DistinctMiddle(All(batches[..b]), Ids(batches[b]), All(batches[b + 1..]));
  }

  // ---- fallback rows ---------------------------------------------------------------

  function Take(ids: seq<nat>, n: nat): (r: seq<nat>)
    ensures |r| == if n < |ids| then n else |ids|
  {
    if n < |ids| then ids[..n] else ids
  }

  lemma {:induction false} FreshSplits(a: seq<nat>, b: seq<nat>, seen: set<nat>)
    ensures Fresh(a + b, seen) == Fresh(a, seen) + Fresh(b, seen + Members(Fresh(a, seen)))
  {
    if b == [] {
      assert a + b == a;
    } else {
      FreshSplits(a, b[..|b| - 1], seen);
      assert (a + b)[..|a + b| - 1] == a + b[..|b| - 1];
    }
  }

  lemma TakeMore(a: seq<nat>, b: seq<nat>, n: nat)
    ensures Take(a + b, n) == if n <= |a| then Take(a, n) else a + Take(b, n - |a|)
  {
  }

  lemma TakeOfPrefix(a: seq<nat>, b: seq<nat>, n: nat)
    requires a <= b && n <= |a|
    ensures Take(b, n) == Take(a, n)
  {
  }

  /** Stopping early changes nothing: enough fresh rows were found already. */
  lemma StopEarly<H>(batches: seq<seq<Row<H>>>, k: nat, seen: set<nat>, need: nat)
    requires k <= |batches| && need <= |Fresh(All(batches[..k]), seen)|
    ensures Take(Fresh(All(batches), seen), need) == Take(Fresh(All(batches[..k]), seen), need)
  {
    assert batches == batches[..k] + batches[k..];
    AllConcat(batches[..k], batches[k..]);
    FreshPrefix(All(batches[..k]), All(batches[k..]), seen);
    TakeOfPrefix(Fresh(All(batches[..k]), seen), Fresh(All(batches), seen), need);
  }

  /** One more fallback batch while rows are missing: `before` are the fresh rows so far, all of them taken. */
  method TopUpNext<H>(batch: seq<Row<H>>, ghost ids: seq<nat>, ghost seen: set<nat>, known: set<nat>, ghost need: nat, missing: nat)
    returns (kept: seq<nat>, known': set<nat>, fault: Fault)
    requires Distinct(Ids(batch)) && known == seen + Members(Fresh(ids, seen))
    requires missing > 0 && missing == need - |Fresh(ids, seen)|
    ensures fault == Fine && Take(Fresh(ids + Ids(batch), seen), need) == Fresh(ids, seen) + kept
    ensures |kept| <= missing && known' == seen + Members(Fresh(ids + Ids(batch), seen))
    ensures |kept| < missing ==> Fresh(ids + Ids(batch), seen) == Fresh(ids, seen) + kept
  {
    FreshSplits(ids, Ids(batch), seen);
    var hidden, accepted;
    hidden, accepted, known', fault := SelectNewRows(batch, known, true);
    TakeMore(Fresh(ids, seen), accepted, need);
    kept := if missing < |accepted| then accepted[..missing] else accepted;
  }

  /** Tops up with the first `need` fallback rows not seen yet, batch by batch, stopping early. */
  method TopUp<H>(batches: seq<seq<Row<H>>>, seen: set<nat>, need: nat) returns (chosen: seq<nat>, missing: nat, fault: Fault)
    requires forall b :: 0 <= b < |batches| ==> Distinct(Ids(batches[b]))
    ensures fault == Fine && chosen == Take(Fresh(All(batches), seen), need) && missing == need - |chosen|
  {
    chosen, missing, fault := [], need, Fine;
    var known := seen;
    for k := 0 to |batches|
      invariant fault == Fine && missing == need - |chosen|
      invariant chosen == Take(Fresh(All(batches[..k]), seen), need)
      invariant missing > 0 ==> chosen == Fresh(All(batches[..k]), seen) && known == seen + Members(chosen)
    {
      if missing == 0 {
        StopEarly(batches, k, seen, need);
        return;
      }
      AllNext(batches, k);
      var kept;
      kept, known, fault := TopUpNext(batches[k], All(batches[..k]), seen, known, need, missing);
      chosen := chosen + kept;
      missing := missing - |kept|;
    }
    assert batches[..|batches|] == batches;
  }

  // ---- the fit plan ------------------------------------------------------------------

  /** routed: all routed rows; fallback: the top-up, empty when the routed rows suffice. */
  datatype Plan = Plan(routed: seq<nat>, fallback: seq<nat>) {
    function RowIds(): seq<nat> {
      routed + fallback
    }
  }

  datatype PlanResult = Planned(plan: Plan) | Refused(fault: Fault)

  /** Fallback rows a fit plan may draw on: the split's fallback without the routed rows. */
  function Spare<H>(backend: Backend<H>, split: Split): seq<nat> {
    Fresh(All(backend.Offered(split)), Members(All(backend.routed(split))))
  }

  /** The plan both covariances must come to, or the underfill. */
  function FitPlan<H>(backend: Backend<H>, split: Split, minFit: nat): PlanResult {
    var routed, spare := All(backend.routed(split)), Spare(backend, split);
    if |routed| >= minFit then Planned(Plan(routed, []))
    else if backend.fallback(split).None? then Refused(EmptyReservoir)
    else if |routed| + |spare| < minFit then Refused(Underfilled(minFit - |routed| - |spare|))
    else Planned(Plan(routed, Take(spare, minFit - |routed|)))
  }

  /** Row planning of one covariance: routed rows, topped up to min_fit_rows when there are too few. */
  method PlanRows<H>(backend: Backend<H>, split: Split, minFit: nat) returns (r: PlanResult)
    requires backend.Valid()
    ensures r == FitPlan(backend, split, minFit)
  {
    assert backend.SplitOk(split);
    var routed, fault := TakeRouted(backend.routed(split));
    if fault != Fine {
      return Refused(fault);
    }
    if |routed| >= minFit {
      return Planned(Plan(routed, []));
    }
    if backend.fallback(split).None? {
      return Refused(EmptyReservoir);
    }
    var chosen, missing, topFault := TopUp(backend.Offered(split), Members(routed), minFit - |routed|);
    if topFault != Fine {
      return Refused(topFault);
    }
    if missing > 0 {
      return Refused(Underfilled(missing));
    }
    return Planned(Plan(routed, chosen));
  }

  lemma TakeDistinct(ids: seq<nat>, n: nat)
    requires Distinct(ids)
    ensures Distinct(Take(ids, n)) && forall x :: x in Take(ids, n) ==> x in ids
  {
  }

  lemma AllInSplit<H>(backend: Backend<H>, ids: seq<nat>, split: Split)
    requires forall k :: 0 <= k < |ids| ==> backend.InSplit(ids[k], split)
    ensures forall x :: x in ids ==> backend.InSplit(x, split)
  {
  }

  /** Routed rows with spare ones behind them repeat nothing and keep to the split. */
  lemma ToppedUpRows<H>(backend: Backend<H>, split: Split, n: nat)
    requires backend.Valid()
    ensures
      var ids := All(backend.routed(split)) + Take(Spare(backend, split), n);
      Distinct(ids) && forall x :: x in ids ==> backend.InSplit(x, split)
  {
    assert backend.SplitOk(split);
    var routed, offered := All(backend.routed(split)), All(backend.Offered(split));
    FreshExactly(offered, Members(routed));
    TakeDistinct(Spare(backend, split), n);
    JoinDistinct(routed, Take(Spare(backend, split), n));
    AllInSplit(backend, routed, split);
    AllInSplit(backend, offered, split);
  }

  /**
    * A successful plan is all routed rows, or exactly minFit rows containing them; its rows are distinct and
    * of the split. It is refused exactly when routed and spare rows together are fewer than minFit.
    */
  lemma PlanIsExact<H>(backend: Backend<H>, split: Split, minFit: nat)
    requires backend.Valid()
    ensures FitPlan(backend, split, minFit).Refused? <==>
      |All(backend.routed(split))| + |Spare(backend, split)| < minFit
    ensures FitPlan(backend, split, minFit).Planned? ==>
      var plan := FitPlan(backend, split, minFit).plan;
      && plan.routed == All(backend.routed(split))
      && (if |plan.routed| >= minFit then plan.fallback == []
          else |plan.RowIds()| == minFit && plan.fallback == Spare(backend, split)[..minFit - |plan.routed|])
      && Distinct(plan.RowIds())
      && forall x :: x in plan.RowIds() ==> backend.InSplit(x, split)
  {
    var routed := All(backend.routed(split));
    assert Take(Spare(backend, split), 0) == [];
    ToppedUpRows(backend, split, if |routed| < minFit then minFit - |routed| else 0);
  }

  lemma JoinDistinct(a: seq<nat>, b: seq<nat>)
    requires Distinct(a) && Distinct(b) && forall x :: x in b ==> x !in a
    ensures Distinct(a + b)
  {
    forall i, j | 0 <= i < j < |a + b|
      ensures (a + b)[i] != (a + b)[j]
    {
      assert j >= |a| ==> b[j - |a|] in b;
    }
  }

  // ---- the down projection ------------------------------------------------------------

  predicate SameRows(a: seq<nat>, b: seq<nat>) {
    multiset(a) == multiset(b)
  }

  /** The down covariance plans its rows again and compares the sorted ids with the gate/up plan. */
  method DownPlan<H>(backend: Backend<H>, minFit: nat, expected: seq<nat>) returns (r: PlanResult)
    requires backend.Valid()
    ensures r == match FitPlan(backend, Fit, minFit)
                 case Refused(fault) => Refused(fault)
                 case Planned(plan) => if SameRows(plan.RowIds(), expected) then Planned(plan) else Refused(PlansDiffer)
  {
    r := PlanRows(backend, Fit, minFit);
    if r.Planned? && !SameRows(r.plan.RowIds(), expected) {
      return Refused(PlansDiffer);
    }
  }

  // ---- the holdout ----------------------------------------------------------------------

  datatype HoldoutResult = Held(ids: seq<nat>, routedRows: nat, fallbackRows: nat) | NotHeld(fault: Fault)

  /** The holdout rows in drawing order: routed ones, then the spare fallback ones. */
  function HoldoutOrder<H>(backend: Backend<H>, excluded: seq<nat>): seq<nat> {
    var routed := All(backend.routed(Holdout));
    routed + Fresh(All(backend.Offered(Holdout)), Members(excluded) + Members(routed))
  }

  /** Routed holdout rows until enough; none of them is excluded, so the duplicate error cannot fire. */
  method TakeHoldout<H>(batches: seq<seq<Row<H>>>, excluded: set<nat>, wanted: nat)
    returns (ids: seq<nat>, seen: set<nat>, remaining: nat, fault: Fault)
    requires Distinct(All(batches)) && NoneIn(All(batches), excluded)
    ensures fault == Fine && ids == Take(All(batches), wanted) && remaining == wanted - |ids|
    ensures remaining > 0 ==> seen == excluded + Members(All(batches))
  {
    ids, seen, remaining, fault := [], excluded, wanted, Fine;
    for b := 0 to |batches|
      invariant fault == Fine && remaining == wanted - |ids| && ids == Take(All(batches[..b]), wanted)
      invariant remaining > 0 ==> ids == All(batches[..b]) && seen == excluded + Members(ids)
    {
      AllNext(batches, b);
      AllSplit(batches, b);
      if remaining == 0 {
        TakeOfPrefix(All(batches[..b]), All(batches), wanted);
        return;
      }
      BatchIsNew(batches, b);
      NoneInMiddle(All(batches[..b]), Ids(batches[b]), All(batches[b + 1..]), excluded);
      ids, seen, remaining, fault := HoldoutNext(batches[b], All(batches[..b]), seen, wanted);
    }
    assert batches[..|batches|] == batches;
  }

  lemma NoneInMiddle(before: seq<nat>, mine: seq<nat>, rest: seq<nat>, excluded: set<nat>)
    requires NoneIn(before + mine + rest, excluded) && NoneIn(mine, Members(before))
    ensures NoneIn(mine, excluded + Members(before))
  {
    forall k | 0 <= k < |mine|
      ensures mine[k] !in excluded
    {
      assert (before + mine + rest)[|before| + k] == mine[k];
    }
  }

  method HoldoutNext<H>(batch: seq<Row<H>>, ids: seq<nat>, seen: set<nat>, wanted: nat)
    returns (ids': seq<nat>, seen': set<nat>, remaining: nat, fault: Fault)
    requires Distinct(Ids(batch)) && NoneIn(Ids(batch), seen) && |ids| < wanted
    ensures fault == Fine && ids' == Take(ids + Ids(batch), wanted) && remaining == wanted - |ids'|
    ensures seen' == seen + Members(Ids(batch))
    ensures remaining > 0 ==> ids' == ids + Ids(batch)
  {
    FreshOfNew(Ids(batch), seen);
    var hidden, accepted;
    hidden, accepted, seen', fault := SelectNewRows(batch, seen, false);
    TakeMore(ids, accepted, wanted);
    ids' := ids + if wanted - |ids| < |accepted| then accepted[..wanted - |ids|] else accepted;
    remaining := wanted - |ids'|;
  }

  /** The fallback's own error when it is asked and has nothing, else the empty holdout. */
  function HoldoutFault<H>(backend: Backend<H>, wanted: nat): Fault {
    if |All(backend.routed(Holdout))| < wanted && backend.fallback(Holdout).None? then EmptyReservoir else EmptyHoldout
  }

  /** The holdout is the first `wanted` rows of its drawing order; without rows, or wanting none, it raises. */
  method DrawHoldout<H>(backend: Backend<H>, excluded: seq<nat>, wanted: nat) returns (r: HoldoutResult)
    requires backend.Valid() && forall k :: 0 <= k < |excluded| ==> backend.InSplit(excluded[k], Fit)
    ensures r.Held? <==> 0 < wanted <= |HoldoutOrder(backend, excluded)|
    ensures r.Held? ==> r.ids == HoldoutOrder(backend, excluded)[..wanted] && r.routedRows + r.fallbackRows == wanted
    ensures r.Held? ==> r.routedRows == if wanted < |All(backend.routed(Holdout))| then wanted else |All(backend.routed(Holdout))|
    ensures !r.Held? ==> r == NotHeld(HoldoutFault(backend, wanted))
  {
    assert backend.SplitOk(Holdout);
    var routedBatches := backend.routed(Holdout);
    assert NoneIn(All(routedBatches), Members(excluded));
    var ids, seen, remaining, fault := TakeHoldout(routedBatches, Members(excluded), wanted);
    if fault != Fine {
      return NotHeld(fault);
    }
    var routedRows := |ids|;
    var chosen: seq<nat> := [];
    ghost var spare := Fresh(All(backend.Offered(Holdout)), Members(excluded) + Members(All(routedBatches)));
    TakeMore(All(routedBatches), spare, wanted);
    if remaining > 0 {
      if backend.fallback(Holdout).None? {
        return NotHeld(EmptyReservoir);
      }
      chosen, remaining, fault := TopUp(backend.Offered(Holdout), seen, remaining);
      if fault != Fine {
        return NotHeld(fault);
      }
    }
    if wanted == 0 || remaining > 0 {
      return NotHeld(EmptyHoldout);
    }
    return Held(ids + chosen, routedRows, |chosen|);
  }

  lemma HoldoutOrderExact<H>(backend: Backend<H>, excluded: seq<nat>)
    requires backend.Valid() && forall k :: 0 <= k < |excluded| ==> backend.InSplit(excluded[k], Fit)
    ensures Distinct(HoldoutOrder(backend, excluded))
    ensures forall x :: x in HoldoutOrder(backend, excluded) ==> backend.InSplit(x, Holdout) && x !in excluded
  {
    assert backend.SplitOk(Holdout);
    var routed := All(backend.routed(Holdout));
    var spare := Fresh(All(backend.Offered(Holdout)), Members(excluded) + Members(routed));
    FreshExactly(All(backend.Offered(Holdout)), Members(excluded) + Members(routed));
    JoinDistinct(routed, spare);
    forall x | x in routed + spare
      ensures backend.InSplit(x, Holdout) && x !in excluded
    {
    }
  }

  /** What one expert's calibration draws: the fit plan, the same plan for the down projection, the holdout. */
  method Calibrate<H>(backend: Backend<H>, minFit: nat, wanted: nat) returns (fit: PlanResult, down: PlanResult, held: HoldoutResult)
    requires backend.Valid()
    ensures fit == FitPlan(backend, Fit, minFit) && down == fit
    ensures fit.Refused? ==> fit.fault.Underfilled? || fit.fault == EmptyReservoir
    ensures fit.Planned? ==> (held.Held? <==> 0 < wanted <= |HoldoutOrder(backend, fit.plan.RowIds())|)
    ensures fit.Planned? && held.Held? ==> held.ids == HoldoutOrder(backend, fit.plan.RowIds())[..wanted] && Distinct(held.ids)
    ensures fit.Planned? && held.Held? ==> forall x :: x in held.ids ==> backend.InSplit(x, Holdout) && x !in fit.plan.RowIds()
    ensures fit.Planned? && held.Held? ==>
      held.routedRows == if wanted < |All(backend.routed(Holdout))| then wanted else |All(backend.routed(Holdout))|
    ensures fit.Planned? && !held.Held? ==> held == NotHeld(HoldoutFault(backend, wanted))
  {
    PlanIsExact(backend, Fit, minFit);
    fit := PlanRows(backend, Fit, minFit);
    held := NotHeld(EmptyHoldout);
    if fit.Refused? {
      down := fit;
      return;
    }
    var ids := fit.plan.RowIds();
    down := DownPlan(backend, minFit, ids);
    assert forall k :: 0 <= k < |ids| ==> ids[k] in ids;
    HoldoutOrderExact(backend, ids);
    held := DrawHoldout(backend, ids, wanted);
    if held.Held? {
      var order := HoldoutOrder(backend, ids);
      assert forall k :: 0 <= k < wanted ==> held.ids[k] == order[k];
    }
  }
}
