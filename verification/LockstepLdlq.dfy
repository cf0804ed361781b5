/** LDLQ as a stepped machine, and many such machines pooled into one quantizer call per step. */
module LockstepLdlq {
  import opened Tiles
  import opened Ldlq
  import opened Pooling

  /** One slice's walk: prepare() yields the tiles of the next block, commit() takes their answer. */
  class LDLQWalk {
    const slice: Slice
    const buf: nat
    const cache: array<Row>
    const weightQ: array<Row>
    const encoded: array<seq<Codes>>
    var j: nat
    var bj: nat
    var done: bool

    ghost function Repr(): set<object> {
      {this, cache, weightQ, encoded}
    }

    /** Last row (exclusive) of the next block. */
    function Front(): int
      reads this
    {
      j + bj - buf
    }

    ghost predicate Shape()
      reads this
    {
      && slice.Valid() && slice.SpanFits(buf) && cache != weightQ
      && (done <==> j == 0)
      && (!done ==> buf <= j && j % buf == 0 && 16 <= bj <= buf && bj % 16 == 0)
    }

    /** Between two steps: everything from the front on is what the span-free walk gives. */
    ghost predicate Valid()
      reads Repr()
    {
      && Shape()
      && 0 <= Front() && (done <==> Front() == 0)
      && slice.Progress(cache[..], weightQ[..], encoded[..], j, Front())
    }

    /** Between prepare() and commit(): the block before the front is compensated and was given as tiles. */
    ghost predicate Awaits(tiles: seq<Tile>)
      reads Repr()
    {
      && Shape() && !done && 16 <= Front() && j <= |slice.weight| && j % 16 == 0 && Front() % 16 == 0
      && IsMatrix(cache[..], |slice.weight|, slice.n) && IsMatrix(weightQ[..], |slice.weight|, slice.n)
      && encoded.Length == |slice.weight| / 16
      && weightQ[Front()..] == slice.Ideal(Front() / 16).rows
      && encoded[Front() / 16..] == slice.Ideal(Front() / 16).codes
      && (forall r :: 0 <= r < Front() - 16 ==> slice.Cached(cache[r], slice.Ideal(j / 16).rows, r, j))
      && tiles == NextTiles()
    }

    /** What the context receives when the walk is done: the result of the sequential ldlq. */
    ghost predicate AsSequential()
      reads Repr()
    {
      && slice.Valid() && weightQ[..] == slice.Ideal(0).rows && encoded[..] == slice.Ideal(0).codes
      && slice.IsResult(weightQ[..], encoded[..])
    }

    lemma DoneAsSequential()
      requires Valid() && done
      ensures AsSequential()
    {
      slice.WalkIsResult();
    }

    /** The tiles the span-free walk feeds the quantizer for the next block. */
    ghost function NextTiles(): (tiles: seq<Tile>)
      requires slice.Valid() && 16 <= Front() <= |slice.weight| && Front() % 16 == 0
      reads this
      ensures |tiles| == slice.n / 16
    {
      GatherTiles(slice.BlockInput(slice.Ideal(Front() / 16).rows, Front()), slice.n)
    }

    constructor (s: Slice, b: nat)
      requires s.Valid() && s.SpanFits(b) && 0 < |s.weight|
      ensures Valid() && !done && slice == s && fresh(Repr())
    {
      slice, buf := s, b;
      cache := new Row[|s.weight|](_ => Zeros(s.n));
      weightQ := new Row[|s.weight|](_ => Zeros(s.n));
      encoded := new seq<Codes>[|s.weight| / 16](_ => []);
      j, bj, done := |s.weight|, b, false;
      new;
      WholeSpans(j, buf);
      slice.Fresh(cache[..], weightQ[..], encoded[..]);
    }

    method Prepare() returns (tiles: seq<Tile>)
      requires Valid() && !done
      modifies cache
      ensures Awaits(tiles)
    {
      var p := Front();
      ghost var before := cache[..];
      AddMm(slice, cache, weightQ, p - 16, p, p, j);
      var rows;
      rows, tiles := BlockTiles(slice, cache, p);
      slice.FedBlock(before, cache[..], weightQ[..], encoded[..], j, p, rows);
    }

    /** Stores the quantized block: one more block is settled, the walk itself has not moved on. */
    method Settle(ghost tiles: seq<Tile>, out: seq<Quantized>)
      requires Awaits(tiles) && out == QuantizeTiles(slice.quantize, tiles)
      modifies weightQ, encoded
      ensures slice.Progress(cache[..], weightQ[..], encoded[..], j, Front() - 16)
    {
      var p := Front();
      ghost var quantized, codes := weightQ[..], encoded[..];
      StoreBlock(slice, weightQ, encoded, p, out);
      slice.BlockStored(cache[..], quantized, codes, j, p, out, weightQ[..], encoded[..]);
    }

    method Commit(ghost tiles: seq<Tile>, out: seq<Quantized>)
      requires Awaits(tiles) && out == QuantizeTiles(slice.quantize, tiles)
      modifies Repr()
      ensures Valid() && Front() == old(Front()) - 16
    {
      Settle(tiles, out);
      bj := bj - 16;
      CloseSpan();
    }

    /** Within a span, possibly past its first block. */
    ghost predicate InSpan()
      reads Repr()
    {
      && slice.Valid() && slice.SpanFits(buf) && cache != weightQ && !done
      && buf <= j && j % buf == 0 && bj <= buf && bj % 16 == 0
      && slice.Progress(cache[..], weightQ[..], encoded[..], j, Front())
    }

    /** At the end of a span: cross-span feedback, then on to the span before, if there is one. */
    method CloseSpan()
      requires InSpan()
      modifies this, cache
      ensures Valid() && Front() == old(Front())
    {
      if bj == 0 {
        WholeSpans(j, buf);
        FeedBackSpan(slice, cache, weightQ, encoded, j, j - buf);
        StartSpan();
      }
    }

    /** The walk stands at the end of the span before, which knows all later rows. */
    method StartSpan()
      requires slice.Valid() && slice.SpanFits(buf) && cache != weightQ && buf <= j && (j - buf) % buf == 0 && bj == 0
      requires slice.Progress(cache[..], weightQ[..], encoded[..], j - buf, j - buf)
      modifies this
      ensures Valid() && Front() == old(Front())
    {
      j := j - buf;
      bj := buf;
      done := j == 0;
      NextSpan();
    }

    lemma NextSpan()
      requires slice.SpanFits(buf) && j % buf == 0 && (done <==> j == 0) && bj == buf
      ensures !done ==> buf <= j
      ensures Front() == j
    {
      if !done {
        WholeSpans(j, buf);
      }
    }
  }

  ghost function Footprint(ws: seq<LDLQWalk>): set<object> {
    set w, o | w in ws && o in w.Repr() :: o
  }

  ghost predicate Distinct(ws: seq<LDLQWalk>) {
    forall i, k :: 0 <= i < k < |ws| ==> ws[i] != ws[k]
  }

  /** Different walks share no storage. */
  ghost predicate Separate(ws: seq<LDLQWalk>) {
    && Distinct(ws)
    && forall u, v :: u in ws && v in ws && u != v ==> u.Repr() !! v.Repr()
  }

  /** Prepares the next walk; the other walks keep what they have. */
  method PrepareNext(active: seq<LDLQWalk>, parts: seq<seq<Tile>>, ghost fronts: seq<int>) returns (parts': seq<seq<Tile>>)
    requires Separate(active) && |parts| < |active| == |fronts|
    requires forall i :: 0 <= i < |parts| ==> active[i].Awaits(parts[i])
    requires forall i :: |parts| <= i < |active| ==> active[i].Valid() && !active[i].done
    requires forall i :: 0 <= i < |active| ==> active[i].Front() == fronts[i]
    modifies Footprint(active)
    ensures |parts'| == |parts| + 1
    ensures forall i :: 0 <= i < |parts'| ==> active[i].Awaits(parts'[i])
    ensures forall i :: |parts'| <= i < |active| ==> active[i].Valid() && !active[i].done
    ensures forall i :: 0 <= i < |active| ==> active[i].Front() == fronts[i]
  {
    var w := active[|parts|];
    forall i | 0 <= i < |active| && i != |parts|
      ensures w.cache !in active[i].Repr()
    {
      assert active[i] in active && w in active && active[i] != w;
      assert w.cache in w.Repr();
    }
    assert w in active && w.cache in w.Repr();
    var tiles := w.Prepare();
    parts' := parts + [tiles];
  }

  method PrepareAll(active: seq<LDLQWalk>, ghost fronts: seq<int>) returns (parts: seq<seq<Tile>>)
    requires Separate(active) && |active| == |fronts|
    requires forall i :: 0 <= i < |active| ==> active[i].Valid() && !active[i].done
    requires forall i :: 0 <= i < |active| ==> active[i].Front() == fronts[i]
    modifies Footprint(active)
    ensures |parts| == |active|
    ensures forall i :: 0 <= i < |active| ==> active[i].Awaits(parts[i])
    ensures forall i :: 0 <= i < |active| ==> active[i].Front() == fronts[i]
  {
    parts := [];
    while |parts| < |active|
      invariant |parts| <= |active|
      invariant forall i :: 0 <= i < |parts| ==> active[i].Awaits(parts[i])
      invariant forall i :: |parts| <= i < |active| ==> active[i].Valid() && !active[i].done
      invariant forall i :: 0 <= i < |active| ==> active[i].Front() == fronts[i]
    {
      parts := PrepareNext(active, parts, fronts);
    }
  }

  /** Commits walk k; the walks after it still wait for their answers. */
  method CommitNext(active: seq<LDLQWalk>, parts: seq<seq<Tile>>, k: nat, out: seq<Quantized>)
    requires Separate(active) && k < |parts| == |active|
    requires forall i :: 0 <= i < k ==> active[i].Valid()
    requires forall i :: k <= i < |active| ==> active[i].Awaits(parts[i])
    requires out == QuantizeTiles(active[k].slice.quantize, parts[k])
    modifies active[k].Repr()
    ensures active[k].Valid()
    ensures forall i :: 0 <= i < k ==> active[i].Valid()
    ensures forall i :: k < i < |active| ==> active[i].Awaits(parts[i])
    ensures forall i :: 0 <= i < |active| ==>
      active[i].Front() == old(active[i].Front()) - if i == k then 16 else 0
  {
    var w := active[k];
    forall i | 0 <= i < |active| && i != k
      ensures w.Repr() !! active[i].Repr()
    {
      assert active[i] in active && w in active && active[i] != w;
    }
    w.Commit(parts[k], out);
  }

  /** kept[k] lists those of the first k walks whose fronts leave more than the block just committed. */
  ghost predicate Kept(ws: seq<LDLQWalk>, fronts: seq<int>, kept: seq<seq<LDLQWalk>>)
    requires |ws| == |fronts|
  {
    && |kept| == |ws| + 1 && kept[0] == []
    && forall k {:trigger KeptAt(ws, fronts, kept, k)} :: 0 <= k < |ws| ==> KeptAt(ws, fronts, kept, k)
  }

  ghost predicate KeptAt(ws: seq<LDLQWalk>, fronts: seq<int>, kept: seq<seq<LDLQWalk>>, k: nat)
    requires k < |ws| == |fronts| && |kept| == |ws| + 1
  {
    kept[k + 1] == kept[k] + if fronts[k] != 16 then [ws[k]] else []
  }

  lemma {:induction false} KeptMembers(ws: seq<LDLQWalk>, fronts: seq<int>, kept: seq<seq<LDLQWalk>>, k: nat)
    requires k <= |ws| == |fronts| && Distinct(ws) && Kept(ws, fronts, kept)
    ensures Distinct(kept[k]) && |kept[k]| <= k
    ensures forall w :: w in kept[k] ==> w in ws[..k]
    ensures forall i :: 0 <= i < k ==> (ws[i] in kept[k] <==> fronts[i] != 16)
  {
    if k != 0 {
      KeptMembers(ws, fronts, kept, k - 1);
      assert KeptAt(ws, fronts, kept, k - 1);
      assert ws[k - 1] !in ws[..k - 1];
      assert ws[..k] == ws[..k - 1] + [ws[k - 1]];
    }
  }

  lemma {:induction false} KeptExists(ws: seq<LDLQWalk>, fronts: seq<int>) returns (kept: seq<seq<LDLQWalk>>)
    requires |ws| == |fronts|
    ensures Kept(ws, fronts, kept)
  {
    if ws == [] {
      kept := [[]];
    } else {
      var last := |ws| - 1;
      var head := KeptExists(ws[..last], fronts[..last]);
      kept := head + [head[last] + if fronts[last] != 16 then [ws[last]] else []];
      forall k | 0 <= k < |ws|
        ensures KeptAt(ws, fronts, kept, k)
      {
        assert k < last ==> KeptAt(ws[..last], fronts[..last], head, k);
      }
    }
  }

  /** Walk i while the first k walks have their answers: committed, or still waiting for its own. */
  ghost predicate Stage(active: seq<LDLQWalk>, parts: seq<seq<Tile>>, fronts: seq<int>, k: nat, i: nat)
    requires i < |active| == |parts| == |fronts|
    reads active[i].Repr()
  {
    && (if i < k then active[i].Valid() else active[i].Awaits(parts[i]))
    && active[i].Front() == fronts[i] - if i < k then 16 else 0
  }

  ghost predicate Staged(active: seq<LDLQWalk>, parts: seq<seq<Tile>>, fronts: seq<int>, k: nat)
    requires |active| == |parts| == |fronts|
    reads active, Footprint(active)
  {
    forall i {:trigger Stage(active, parts, fronts, k, i)} :: 0 <= i < |active| ==> Stage(active, parts, fronts, k, i)
  }

  lemma OpenStages(active: seq<LDLQWalk>, parts: seq<seq<Tile>>, fronts: seq<int>, k: nat)
    requires |active| == |parts| == |fronts| && Staged(active, parts, fronts, k)
    ensures forall i :: 0 <= i < |active| && i < k ==> active[i].Valid()
    ensures forall i :: k <= i < |active| ==> active[i].Awaits(parts[i])
    ensures forall i :: 0 <= i < |active| ==> active[i].Front() == fronts[i] - if i < k then 16 else 0
  {
    forall i | 0 <= i < |active|
      ensures i < k ==> active[i].Valid()
      ensures i >= k ==> active[i].Awaits(parts[i])
      ensures active[i].Front() == fronts[i] - if i < k then 16 else 0
    {
      assert Stage(active, parts, fronts, k, i);
    }
  }

  lemma CloseStages(active: seq<LDLQWalk>, parts: seq<seq<Tile>>, fronts: seq<int>, k: nat)
    requires |active| == |parts| == |fronts|
    requires forall i :: 0 <= i < |active| && i < k ==> active[i].Valid()
    requires forall i :: k <= i < |active| ==> active[i].Awaits(parts[i])
    requires forall i :: 0 <= i < |active| ==> active[i].Front() == fronts[i] - if i < k then 16 else 0
    ensures Staged(active, parts, fronts, k)
  {
  }

  /** Gives walk k its rows of the pooled answer and keeps it in the pool unless it is done. */
  method CommitPart(active: seq<LDLQWalk>, parts: seq<seq<Tile>>, k: nat, q: Quantizer, out: seq<Quantized>, off: nat,
                    next: seq<LDLQWalk>, ghost fronts: seq<int>, ghost offs: seq<nat>, ghost kept: seq<seq<LDLQWalk>>)
    returns (off': nat, next': seq<LDLQWalk>)
    requires Separate(active) && k < |parts| == |active| == |fronts|
    requires Staged(active, parts, fronts, k)
    requires active[k].slice.quantize == q && Offsets(parts, |parts|, q, out, offs) && Kept(active, fronts, kept)
    requires off == offs[k] && next == kept[k]
    modifies Footprint(active)
    ensures Staged(active, parts, fronts, k + 1)
    ensures off' == offs[k + 1] && next' == kept[k + 1]
  {
    assert active[k] in active && active[k].Repr() <= Footprint(active);
    assert PartAt(parts, q, out, offs, k) && KeptAt(active, fronts, kept, k);
    OpenStages(active, parts, fronts, k);
    CommitNext(active, parts, k, out[off..off + |parts[k]|]);
    CloseStages(active, parts, fronts, k + 1);
    off' := off + |parts[k]|;
    next' := if active[k].done then next else next + [active[k]];
  }

  /** Scatters the pooled answer; off runs through the whole batch. */
  method CommitAll(active: seq<LDLQWalk>, parts: seq<seq<Tile>>, q: Quantizer, out: seq<Quantized>, ghost fronts: seq<int>,
                   ghost offs: seq<nat>, ghost kept: seq<seq<LDLQWalk>>)
    returns (next: seq<LDLQWalk>, off: nat)
    requires Separate(active) && |parts| == |active| == |fronts|
    requires Staged(active, parts, fronts, 0) && forall i :: 0 <= i < |active| ==> active[i].slice.quantize == q
    requires Offsets(parts, |parts|, q, out, offs) && Kept(active, fronts, kept)
    modifies Footprint(active)
    ensures off == |out|
    ensures Staged(active, parts, fronts, |active|)
    ensures next == kept[|active|]
  {
    next, off := [], 0;
    for k := 0 to |active|
      invariant off == offs[k] && next == kept[k]
      invariant Staged(active, parts, fronts, k)
    {
      off, next := CommitPart(active, parts, k, q, out, off, next, fronts, offs, kept);
    }
  }

  ghost function Fronts(ws: seq<LDLQWalk>): (fronts: seq<int>)
    reads ws
    ensures |fronts| == |ws| && forall i :: 0 <= i < |ws| ==> fronts[i] == ws[i].Front()
  {
    seq(|ws|, i requires 0 <= i < |ws| reads ws => ws[i].Front())
  }

  ghost function Sum(xs: seq<int>): int {
    if xs == [] then 0 else xs[0] + Sum(xs[1..])
  }

  lemma {:induction false} SumDrops(before: seq<int>, after: seq<int>)
    requires |before| == |after| && forall i :: 0 <= i < |before| ==> 0 <= after[i] <= before[i]
    ensures 0 <= Sum(after) <= Sum(before)
    ensures (exists i :: 0 <= i < |before| && after[i] < before[i]) ==> Sum(after) < Sum(before)
  {
    if before != [] {
      SumDrops(before[1..], after[1..]);
      forall i | 0 <= i < |before| && after[i] < before[i]
        ensures Sum(after) < Sum(before)
      {
        if i > 0 {
          assert after[1..][i - 1] < before[1..][i - 1];
        }
      }
    }
  }

  /** One step of the pool: gather every active walk's tiles, one quantizer call, scatter. */
  method Step(active: seq<LDLQWalk>, q: Quantizer) returns (next: seq<LDLQWalk>)
    requires Separate(active)
    requires forall w :: w in active ==> w.Valid() && !w.done && w.slice.quantize == q
    modifies Footprint(active)
    ensures forall w :: w in active ==> w.Valid() && w.Front() == old(w.Front()) - 16
    ensures Distinct(next) && |next| <= |active| && forall w :: w in next <==> w in active && !w.done
  {
    ghost var fronts := Fronts(active);
    var parts := PrepareAll(active, fronts);
    var out := QuantizeTiles(q, Batch(parts, |parts|));
    ghost var offs := PooledAnswer(parts, |parts|, q);
    ghost var kept := KeptExists(active, fronts);
    KeptMembers(active, fronts, kept, |active|);
    var off;
    CloseStages(active, parts, fronts, 0);
    next, off := CommitAll(active, parts, q, out, fronts, offs, kept);
    assert off == |out|;
    OpenStages(active, parts, fronts, |active|);
  }

  /** A step of the pool leaves the walks outside it alone. */
  method StepAmong(walks: seq<LDLQWalk>, active: seq<LDLQWalk>, q: Quantizer) returns (next: seq<LDLQWalk>)
    requires Separate(walks) && Distinct(active) && forall w :: w in active ==> w in walks
    requires forall w :: w in walks ==> w.Valid() && w.slice.quantize == q
    requires forall w :: w in active ==> !w.done
    modifies Footprint(active)
    ensures forall w :: w in walks ==> w.Valid() && 0 <= w.Front() <= old(w.Front())
    ensures forall w :: w in walks && w !in active ==> w.done == old(w.done)
    ensures forall w :: w in active ==> w.Front() < old(w.Front())
    ensures Distinct(next) && |next| <= |active| && forall w :: w in next <==> w in active && !w.done
  {
    forall w | w in walks && w !in active
      ensures w.Repr() !! Footprint(active)
    {
    }
    next := Step(active, q);
  }

  /** Every walk is settled or waits in exactly one place of the pool. */
  ghost predicate Pool(walks: seq<LDLQWalk>, pool: seq<LDLQWalk>, q: Quantizer)
    reads Footprint(walks)
  {
    && Separate(walks) && Distinct(pool)
    && (forall w :: w in pool ==> w in walks)
    && (forall w :: w in walks ==> w.Valid() && w.slice.quantize == q && (w.done <==> w !in pool))
  }

  /** One pooled step keeps the pool's invariant and settles rows. */
  method Advance(walks: seq<LDLQWalk>, active: seq<LDLQWalk>, pending: seq<LDLQWalk>, q: Quantizer) returns (next: seq<LDLQWalk>)
    requires Pool(walks, active + pending, q) && active != []
    modifies Footprint(walks)
    ensures Pool(walks, next + pending, q) && |next| <= |active|
    ensures 0 <= Sum(Fronts(walks)) < old(Sum(Fronts(walks)))
  {
    ghost var before := Fronts(walks);
    DistinctParts(active, pending);
    FootprintOfPart(walks, active);
    next := StepAmong(walks, active, q);
    DistinctConcat(next, pending);
    RowsSettled(walks, active[0], before);
  }

  lemma FootprintOfPart(walks: seq<LDLQWalk>, active: seq<LDLQWalk>)
    requires forall w :: w in active ==> w in walks
    ensures Footprint(active) <= Footprint(walks)
  {
  }

  lemma RowsSettled(walks: seq<LDLQWalk>, u: LDLQWalk, before: seq<int>)
    requires u in walks && |before| == |walks|
    requires forall i :: 0 <= i < |walks| ==> 0 <= walks[i].Front() <= before[i] && (walks[i] == u ==> u.Front() < before[i])
    ensures 0 <= Sum(Fronts(walks)) < Sum(before)
  {
    SumDrops(before, Fronts(walks));
    var i :| 0 <= i < |walks| && walks[i] == u;
    assert Fronts(walks)[i] < before[i];
  }

  lemma DistinctConcat(next: seq<LDLQWalk>, pending: seq<LDLQWalk>)
    requires Distinct(next) && Distinct(pending) && forall w :: w in next ==> w !in pending
    ensures Distinct(next + pending) && forall w :: w in next + pending <==> w in next || w in pending
  {
    forall i, k | 0 <= i < k < |next + pending|
      ensures (next + pending)[i] != (next + pending)[k]
    {
      if i < |next| <= k {
        assert next[i] in next && pending[k - |next|] in pending;
      }
    }
  }

  lemma DistinctParts(active: seq<LDLQWalk>, pending: seq<LDLQWalk>)
    requires Distinct(active + pending)
    ensures Distinct(active) && Distinct(pending)
    ensures forall w :: w in active ==> w !in pending
    ensures forall w :: w in active + pending <==> w in active || w in pending
  {
    var pool := active + pending;
    forall i, k | 0 <= i < k < |active|
      ensures active[i] != active[k]
    {
      assert pool[i] != pool[k];
    }
    forall i, k | 0 <= i < k < |pending|
      ensures pending[i] != pending[k]
    {
      assert pool[|active| + i] != pool[|active| + k];
    }
    forall i, k | 0 <= i < |active| && 0 <= k < |pending|
      ensures active[i] != pending[k]
    {
      assert pool[i] != pool[|active| + k];
    }
  }

  lemma EmptyPool(walks: seq<LDLQWalk>, q: Quantizer)
    requires Pool(walks, [], q)
    ensures forall w :: w in walks ==> w.done && w.AsSequential()
  {
    forall w | w in walks
      ensures w.done && w.AsSequential()
    {
      w.DoneAsSequential();
    }
  }

  lemma FullPool(walks: seq<LDLQWalk>, q: Quantizer)
    requires Separate(walks) && forall w :: w in walks ==> w.Valid() && !w.done && w.slice.quantize == q
    ensures Pool(walks, [] + walks, q)
  {
    assert [] + walks == walks;
  }

  /** Moves waiting walks into the pool while there is room. */
  method Refill(active: seq<LDLQWalk>, pending: seq<LDLQWalk>, nMax: nat) returns (active': seq<LDLQWalk>, pending': seq<LDLQWalk>)
    requires |active| <= nMax
    ensures active' + pending' == active + pending
    ensures |active'| <= nMax && (|active'| == nMax || pending' == [])
  {
    active', pending' := active, pending;
    while pending' != [] && |active'| < nMax
      invariant active' + pending' == active + pending && |active'| <= nMax
    {
      active', pending' := active' + [pending'[0]], pending'[1..];
    }
  }

  /** One turn of the pool: refill, then one pooled step. */
  method Turn(walks: seq<LDLQWalk>, active: seq<LDLQWalk>, pending: seq<LDLQWalk>, nMax: nat, q: Quantizer)
    returns (active': seq<LDLQWalk>, pending': seq<LDLQWalk>)
    requires 1 <= nMax && |active| <= nMax && active + pending != []
    requires Pool(walks, active + pending, q)
    modifies Footprint(walks)
    ensures Pool(walks, active' + pending', q) && |active'| <= nMax
    ensures 0 <= Sum(Fronts(walks)) < old(Sum(Fronts(walks)))
  {
    active', pending' := Refill(active, pending, nMax);
    active' := Advance(walks, active', pending', q);
  }

  /** lockstep_ldlq: walks of mixed geometry, at most nMax at a time, end as their own sequential ldlq does. */
  method Lockstep(walks: seq<LDLQWalk>, nMax: nat, q: Quantizer)
    requires 1 <= nMax && Separate(walks)
    requires forall w :: w in walks ==> w.Valid() && !w.done && w.slice.quantize == q
    modifies Footprint(walks)
    ensures forall w :: w in walks ==> w.done && w.AsSequential()
  {
    var active, pending := [], walks;
    FullPool(walks, q);
    while pending != [] || active != []
      invariant Pool(walks, active + pending, q) && |active| <= nMax
      decreases Sum(Fronts(walks))
    {
      active, pending := Turn(walks, active, pending, nMax, q);
    }
    EmptyPool(walks, q);
  }
}
