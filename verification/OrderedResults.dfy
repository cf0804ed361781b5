/** Prompts dealt round-robin over single-thread units, results handed back in prompt order. */
module OrderedResults {
  import opened Common

  /** i modulo n, for the round-robin dealing. */
  function Unit(i: nat, n: nat): (w: nat)
    requires n > 0
    ensures w < n
  {
    i % n
  }

  lemma Unique(q: nat, p: nat, r: nat, s: nat, n: nat)
    requires r < n && s < n && q * n + r == p * n + s
    ensures q == p && r == s
  {
    if q < p {
      assert p * n == q * n + (p - q) * n;
      AtLeast(p - q, n);
    } else if p < q {
      assert q * n == p * n + (q - p) * n;
      AtLeast(q - p, n);
    }
  }

  lemma AtLeast(k: nat, n: nat)
    requires k > 0
    ensures k * n >= n
  {
    assert k * n == n + (k - 1) * n;
  }

  lemma UnitOf(q: nat, r: nat, n: nat)
    requires r < n
    ensures Unit(q * n + r, n) == r
  {
    var i := q * n + r;
    assert i == i / n * n + i % n;
    Unique(i / n, q, i % n, r, n);
  }

  lemma UnitPeriodic(i: nat, n: nat)
    requires n > 0
    ensures Unit(i + n, n) == Unit(i, n)
  {
    assert i == i / n * n + i % n;
    assert i + n == (i / n + 1) * n + i % n;
    UnitOf(i / n + 1, i % n, n);
  }

  lemma UnitSmall(i: nat, n: nat)
    requires i < n
    ensures Unit(i, n) == i
  {
    UnitOf(0, i, n);
  }

  /** Prompts fewer than n apart go to different units. */
  lemma UnitsDiffer(i: nat, j: nat, n: nat)
    requires 0 < j - i < n
    ensures Unit(i, n) != Unit(j, n)
  {
    assert i == i / n * n + i % n && j == j / n * n + j % n;
    if i % n == j % n {
      assert (j / n - i / n) * n == j - i;
      if j / n > i / n {
        AtLeast(j / n - i / n, n);
      }
    }
  }

  /** Unit w holds one of the next |pending| prompts, and one that is dealt to it. */
  ghost predicate HoldsOwn(pending: seq<Option<nat>>, w: nat, i: nat, total: nat)
    requires w < |pending| && pending[w].Some?
  {
    var j := pending[w].value;
    i <= j < i + |pending| && j < total && Unit(j, |pending|) == w
  }

  /** One single-thread executor per unit; busy counts its futures that have no result yet. */
  class Units<!R> {
    const n: nat
    const forward: (nat, nat) -> R
    var pending: seq<Option<nat>>
    ghost var busy: seq<nat>

    ghost predicate Valid()
      reads this
    {
      |pending| == |busy| == n > 0 && forall w :: 0 <= w < n ==> busy[w] == (if pending[w].Some? then 1 else 0)
    }

    constructor (n: nat, forward: (nat, nat) -> R)
      requires n > 0
      ensures Valid() && this.n == n && this.forward == forward && forall w :: 0 <= w < n ==> pending[w] == None
    {
      this.n, this.forward := n, forward;
      pending, busy := seq(n, _ => None), seq(n, _ => 0);
    }

    /** A submission needs an idle unit: a busy one could interleave two prompts on one tap. */
    method Submit(w: nat, prompt: nat)
      requires Valid() && w < n && busy[w] == 0
      modifies this
      ensures Valid() && pending == old(pending)[w := Some(prompt)]
    {
      pending := pending[w := Some(prompt)];
      busy := busy[w := busy[w] + 1];
    }

    /** future.result(): the unit is idle again. */
    method Await(w: nat) returns (result: Option<R>)
      requires Valid() && w < n
      modifies this
      ensures Valid() && pending == old(pending)[w := None]
      ensures result == if old(pending)[w].Some? then Some(forward(w, old(pending)[w].value)) else None
    {
      result := None;
      if pending[w].Some? {
        result := Some(forward(w, pending[w].value));
        busy := busy[w := busy[w] - 1];
        pending := pending[w := None];
      }
      assert pending == old(pending)[w := None];
    }

    /** Before result i: each of the next n prompts is with its own unit, and nothing else is. */
    ghost predicate Dealt(i: nat, total: nat)
      requires Valid()
      reads this
    {
      && (forall j :: i <= j < i + n && j < total ==> pending[Unit(j, n)] == Some(j))
      && (forall w :: 0 <= w < n && pending[w].Some? ==> HoldsOwn(pending, w, i, total))
    }
  }

  /** The first round: prompt k to unit k. */
  method Deal<R>(units: Units<R>, total: nat)
    requires units.Valid() && forall w :: 0 <= w < units.n ==> units.pending[w] == None
    modifies units
    ensures units.Valid() && units.Dealt(0, total)
  {
    var first := if total < units.n then total else units.n;
    for k := 0 to first
      invariant units.Valid()
      invariant forall w :: 0 <= w < units.n ==> units.pending[w] == if w < k then Some(w) else None
    {
      units.Submit(k, k);
    }
    forall j | 0 <= j < units.n && j < total
      ensures Unit(j, units.n) == j
    {
      UnitSmall(j, units.n);
    }
  }

  /** Taking result i and dealing prompt i + n to the same unit. */
  lemma DealtNext<R>(units: Units<R>, before: seq<Option<nat>>, i: nat, total: nat)
    requires units.Valid() && i < total && |before| == units.n
    requires forall j :: i <= j < i + units.n && j < total ==> before[Unit(j, units.n)] == Some(j)
    requires forall w :: 0 <= w < units.n && before[w].Some? ==> HoldsOwn(before, w, i, total)
    requires units.pending == before[Unit(i, units.n) := if i + units.n < total then Some(i + units.n) else None]
    ensures units.Dealt(i + 1, total)
  {
    var n := units.n;
    UnitPeriodic(i, n);
    forall j | i + 1 <= j < i + 1 + n && j < total
      ensures units.pending[Unit(j, n)] == Some(j)
    {
      if j < i + n {
        UnitsDiffer(i, j, n);
      }
    }
    forall w | 0 <= w < n && units.pending[w].Some?
      ensures HoldsOwn(units.pending, w, i + 1, total)
    {
      UnitPeriodic(i, n);
      assert w != Unit(i, n) ==> before[w].value != i;
    }
  }

  /** Every prompt's result once, in order, from its own unit; no prompt is ever lost. */
  method Ordered<R>(units: Units<R>, total: nat) returns (results: seq<R>, lost: bool)
    requires units.Valid() && units.Dealt(0, total)
    modifies units
    ensures !lost && |results| == total && units.Valid()
    ensures forall i :: 0 <= i < total ==> results[i] == units.forward(Unit(i, units.n), i)
    ensures forall w :: 0 <= w < units.n ==> units.pending[w] == None
  {
    results, lost := [], false;
    for i := 0 to total
      invariant units.Valid() && units.Dealt(i, total) && !lost && |results| == i
      invariant forall k :: 0 <= k < i ==> results[k] == units.forward(Unit(k, units.n), k)
    {
      ghost var before := units.pending;
      var worker := Unit(i, units.n);
      var result := units.Await(worker);
      if result.None? {
        return results, true;
      }
      if i + units.n < total {
        units.Submit(worker, i + units.n);
      }
      assert units.pending == before[worker := if i + units.n < total then Some(i + units.n) else None];
      DealtNext(units, before, i, total);
      results := results + [result.value];
    }
  }
}
