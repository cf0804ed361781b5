/** The flat capture: appended token rows, and the index from experts to the rows routed to them. */
module RowIndex {
  import opened Common

  /** One captured token: its routed experts, their weights, its hidden row. */
  datatype Token<H> = Token(ids: seq<nat>, weights: seq<real>, hidden: H)

  /** A flat position of the [tokens, top_k] id table, in row-major order. */
  datatype Pos = Pos(token: nat, slot: nat)

  datatype Geometry = Geometry(topK: nat, experts: nat)

  predicate Repeats(ids: seq<nat>) {
    exists i, j :: 0 <= i < j < |ids| && ids[i] == ids[j]
  }

  predicate Shaped<H>(g: Geometry, t: Token<H>) {
    |t.ids| == |t.weights| == g.topK
  }

  predicate InRange<H>(g: Geometry, t: Token<H>) {
    forall k :: 0 <= k < |t.ids| ==> t.ids[k] < g.experts
  }

  predicate TokenOk<H>(g: Geometry, t: Token<H>) {
    Shaped(g, t) && InRange(g, t) && !Repeats(t.ids)
  }

  predicate TokensOk<H>(g: Geometry, tokens: seq<Token<H>>) {
    forall t :: 0 <= t < |tokens| ==> TokenOk(g, tokens[t])
  }

  // ---- the rows of one expert ------------------------------------------------

  /** What the index must answer: the tokens routed to an expert, ascending. */
  function Routed<H>(tokens: seq<Token<H>>, expert: nat): (r: seq<nat>) {
    if tokens == [] then []
    else
      var last := |tokens| - 1;
      Routed(tokens[..last], expert) + if expert in tokens[last].ids then [last] else []
  }

  lemma {:induction false} RoutedExactly<H>(tokens: seq<Token<H>>, expert: nat)
    ensures forall t: nat :: t in Routed(tokens, expert) <==> t < |tokens| && expert in tokens[t].ids
    ensures forall i, j :: 0 <= i < j < |Routed(tokens, expert)| ==> Routed(tokens, expert)[i] < Routed(tokens, expert)[j]
  {
    if tokens != [] {
      var init := tokens[..|tokens| - 1];
      RoutedExactly(init, expert);
      assert forall i :: 0 <= i < |Routed(init, expert)| ==> Routed(init, expert)[i] in Routed(init, expert);
    }
  }

  // ---- positions ---------------------------------------------------------------

  /** Slots of one token that hold the expert, ascending. */
  function Slots(ids: seq<nat>, expert: nat, token: nat): seq<Pos> {
    if ids == [] then []
    else
      var last := |ids| - 1;
      Slots(ids[..last], expert, token) + if ids[last] == expert then [Pos(token, last)] else []
  }

  /** Flat positions that hold the expert, ascending. */
  function Positions<H>(tokens: seq<Token<H>>, expert: nat): seq<Pos> {
    if tokens == [] then []
    else
      var last := |tokens| - 1;
      Positions(tokens[..last], expert) + Slots(tokens[last].ids, expert, last)
  }

  function TokensOf(positions: seq<Pos>): (r: seq<nat>)
    ensures |r| == |positions|
  {
    seq(|positions|, k requires 0 <= k < |positions| => positions[k].token)
  }

  lemma {:induction false} SlotsOfAbsent(ids: seq<nat>, expert: nat, token: nat)
    requires expert !in ids
    ensures Slots(ids, expert, token) == []
  {
    if ids != [] {
      SlotsOfAbsent(ids[..|ids| - 1], expert, token);
    }
  }

  lemma LastIsNew(ids: seq<nat>)
    requires ids != [] && !Repeats(ids)
    ensures !Repeats(ids[..|ids| - 1]) && ids[|ids| - 1] !in ids[..|ids| - 1]
  {
    var init, last := ids[..|ids| - 1], |ids| - 1;
    forall i, j | 0 <= i < j < |init|
      ensures init[i] != init[j]
    {
      assert ids[i] != ids[j];
    }
    assert forall k :: 0 <= k < last ==> init[k] == ids[k] && ids[k] != ids[last];
  }

  /** A token without repeated ids holds an expert in one slot or none. */
  lemma {:induction false} OneSlot(ids: seq<nat>, expert: nat, token: nat)
    requires !Repeats(ids)
    ensures TokensOf(Slots(ids, expert, token)) == if expert in ids then [token] else []
  {
    if ids != [] {
      var init, last := ids[..|ids| - 1], |ids| - 1;
      LastIsNew(ids);
      if ids[last] == expert {
        SlotsOfAbsent(init, expert, token);
      } else {
        OneSlot(init, expert, token);
        assert ids == init + [ids[last]];
      }
    }
  }

  /** The tokens of an expert's positions are exactly the ascending tokens routed to it. */
  lemma {:induction false} PositionsAreRouted<H>(tokens: seq<Token<H>>, expert: nat)
    requires forall t :: 0 <= t < |tokens| ==> !Repeats(tokens[t].ids)
    ensures TokensOf(Positions(tokens, expert)) == Routed(tokens, expert)
  {
    if tokens != [] {
      var last := |tokens| - 1;
      PositionsAreRouted(tokens[..last], expert);
      OneSlot(tokens[last].ids, expert, last);
      var a, b := Positions(tokens[..last], expert), Slots(tokens[last].ids, expert, last);
      assert TokensOf(a + b) == TokensOf(a) + TokensOf(b);
    }
  }

  // ---- the stable argsort -------------------------------------------------------

  predicate Within<H>(tokens: seq<Token<H>>, p: Pos) {
    p.token < |tokens| && p.slot < |tokens[p.token].ids|
  }

  function IdAt<H>(tokens: seq<Token<H>>, p: Pos): nat
    requires Within(tokens, p)
  {
    tokens[p.token].ids[p.slot]
  }

  predicate Earlier(a: Pos, b: Pos) {
    a.token < b.token || (a.token == b.token && a.slot < b.slot)
  }

  /** Stable order: by id, equal ids by position. */
  ghost predicate Before<H>(tokens: seq<Token<H>>, a: Pos, b: Pos) {
    Within(tokens, a) && Within(tokens, b)
    && (IdAt(tokens, a) < IdAt(tokens, b) || (IdAt(tokens, a) == IdAt(tokens, b) && Earlier(a, b)))
  }

  /** np.argsort(flat, kind="stable"): every position once, in stable order. */
  ghost predicate StableOrder<H>(tokens: seq<Token<H>>, order: seq<Pos>) {
    && (forall p :: p in order <==> Within(tokens, p))
    && (forall i, j :: 0 <= i < j < |order| ==> Before(tokens, order[i], order[j]))
  }

  /** Positions grouped by expert, experts 0 to n - 1. */
  function Grouped<H>(tokens: seq<Token<H>>, n: nat): seq<Pos> {
    if n == 0 then [] else Grouped(tokens, n - 1) + Positions(tokens, n - 1)
  }

  lemma {:induction false} SlotsExactly(ids: seq<nat>, expert: nat, token: nat)
    ensures forall p :: p in Slots(ids, expert, token) <==> p.token == token && p.slot < |ids| && ids[p.slot] == expert
    ensures forall i, j :: 0 <= i < j < |Slots(ids, expert, token)| ==> Earlier(Slots(ids, expert, token)[i], Slots(ids, expert, token)[j])
  {
    if ids != [] {
      var init := ids[..|ids| - 1];
      SlotsExactly(init, expert, token);
      var s := Slots(init, expert, token);
      assert forall i :: 0 <= i < |s| ==> s[i] in s;
    }
  }

  lemma {:induction false} PositionsExactly<H>(tokens: seq<Token<H>>, expert: nat)
    ensures forall p :: p in Positions(tokens, expert) <==> Within(tokens, p) && IdAt(tokens, p) == expert
    ensures forall i, j :: 0 <= i < j < |Positions(tokens, expert)| ==>
      Earlier(Positions(tokens, expert)[i], Positions(tokens, expert)[j])
  {
    if tokens != [] {
      var init, last := tokens[..|tokens| - 1], |tokens| - 1;
      PositionsExactly(init, expert);
      SlotsExactly(tokens[last].ids, expert, last);
      var a, b := Positions(init, expert), Slots(tokens[last].ids, expert, last);
      assert forall i :: 0 <= i < |a| ==> a[i] in a;
      assert forall i :: 0 <= i < |b| ==> b[i] in b;
    }
  }

  lemma {:induction false} GroupedExactly<H>(tokens: seq<Token<H>>, n: nat)
    ensures forall p :: p in Grouped(tokens, n) <==> Within(tokens, p) && IdAt(tokens, p) < n
    ensures forall i, j :: 0 <= i < j < |Grouped(tokens, n)| ==> Before(tokens, Grouped(tokens, n)[i], Grouped(tokens, n)[j])
  {
    if n > 0 {
      GroupedExactly(tokens, n - 1);
      PositionsExactly(tokens, n - 1);
      var a, b := Grouped(tokens, n - 1), Positions(tokens, n - 1);
      assert forall i :: 0 <= i < |a| ==> a[i] in a;
      assert forall i :: 0 <= i < |b| ==> b[i] in b;
    }
  }

  lemma EmptyIff(s: seq<Pos>)
    ensures s == [] <==> forall p :: p !in s
  {
    if s != [] {
      assert s[0] in s;
    }
  }

  /** Two orders strictly ascending in the stable order with the same positions are the same. */
  lemma {:induction false} OrderUnique<H>(tokens: seq<Token<H>>, a: seq<Pos>, b: seq<Pos>)
    requires forall i, j :: 0 <= i < j < |a| ==> Before(tokens, a[i], a[j])
    requires forall i, j :: 0 <= i < j < |b| ==> Before(tokens, b[i], b[j])
    requires forall p :: p in a <==> p in b
    ensures a == b
  {
    if a == [] {
      EmptyIff(b);
    } else {
      assert a[0] in b && b != [] && b[0] in a;
      assert a[0] == b[0];
      forall p
        ensures p in a[1..] <==> p in b[1..]
      {
        assert p in a <==> p == a[0] || p in a[1..];
        assert p in b <==> p == b[0] || p in b[1..];
      }
      OrderUnique(tokens, a[1..], b[1..]);
      assert a == [a[0]] + a[1..] && b == [b[0]] + b[1..];
    }
  }

  /** Start of an expert's segment: how many positions hold a smaller id. */
  function Start(counts: seq<nat>, n: nat): nat
    requires n <= |counts|
  {
    if n == 0 then 0 else Start(counts, n - 1) + counts[n - 1]
  }

  lemma {:induction false} GroupedStarts<H>(tokens: seq<Token<H>>, counts: seq<nat>, n: nat)
    requires n <= |counts| && forall e :: 0 <= e < |counts| ==> counts[e] == |Positions(tokens, e)|
    ensures |Grouped(tokens, n)| == Start(counts, n)
  {
    if n > 0 {
      GroupedStarts(tokens, counts, n - 1);
    }
  }

  lemma {:induction false} GroupedSegment<H>(tokens: seq<Token<H>>, counts: seq<nat>, expert: nat, n: nat)
    requires expert < n <= |counts| && forall e :: 0 <= e < |counts| ==> counts[e] == |Positions(tokens, e)|
    ensures Start(counts, expert) <= Start(counts, expert + 1) <= Start(counts, n) == |Grouped(tokens, n)|
    ensures Grouped(tokens, n)[Start(counts, expert)..Start(counts, expert + 1)] == Positions(tokens, expert)
    decreases n
  {
    GroupedStarts(tokens, counts, n);
    GroupedStarts(tokens, counts, n - 1);
    if expert + 1 < n {
      GroupedSegment(tokens, counts, expert, n - 1);
    }
  }

  /** The segment of a stable argsort between two cumulative counts is the expert's positions, in order. */
  lemma SegmentIsPositions<H>(g: Geometry, tokens: seq<Token<H>>, order: seq<Pos>, counts: seq<nat>, expert: nat)
    requires TokensOk(g, tokens) && StableOrder(tokens, order) && |counts| == g.experts && expert < g.experts
    requires forall e :: 0 <= e < g.experts ==> counts[e] == |Positions(tokens, e)|
    ensures Start(counts, expert) <= Start(counts, expert + 1) <= |order|
    ensures TokensOf(order[Start(counts, expert)..Start(counts, expert + 1)]) == Routed(tokens, expert)
  {
    GroupedExactly(tokens, g.experts);
    OrderUnique(tokens, order, Grouped(tokens, g.experts));
    GroupedSegment(tokens, counts, expert, g.experts);
    PositionsAreRouted(tokens, expert);
  }

  /** A stable argsort exists: the grouped positions are one, and by uniqueness the only one. */
  lemma StableOrderExists<H>(g: Geometry, tokens: seq<Token<H>>)
    requires TokensOk(g, tokens)
    ensures StableOrder(tokens, Grouped(tokens, g.experts))
  {
    GroupedExactly(tokens, g.experts);
    forall p | Within(tokens, p)
      ensures IdAt(tokens, p) < g.experts
    {
      assert TokenOk(g, tokens[p.token]);
    }
  }

  // ---- writing ---------------------------------------------------------------------

  datatype WriteFault = Written | AlreadyClosed | BadShape | ExpertOutside | DuplicateExpert | AlreadyFinalized | EmptyCapture
                      | CountDrift | SizeDrift

  /** Sizes in bytes of one stored row: bfloat16 hidden values, uint8 ids, float32 weights. */
  datatype RowBytes = RowBytes(x: nat, ids: nat, weights: nat)

  /** Routed slots over all experts below n. */
  function Sum(counts: seq<nat>, n: nat): nat
    requires n <= |counts|
  {
    Start(counts, n)
  }

  function PositionsTotal<H>(tokens: seq<Token<H>>, n: nat): nat {
    if n == 0 then 0 else PositionsTotal(tokens, n - 1) + |Positions(tokens, n - 1)|
  }

  lemma {:induction false} TotalOfCounts<H>(tokens: seq<Token<H>>, counts: seq<nat>, n: nat)
    requires n <= |counts| && forall e :: 0 <= e < |counts| ==> counts[e] == |Positions(tokens, e)|
    ensures Sum(counts, n) == PositionsTotal(tokens, n)
  {
    if n > 0 {
      TotalOfCounts(tokens, counts, n - 1);
    }
  }

  function SlotsTotal(ids: seq<nat>, token: nat, n: nat): nat {
    if n == 0 then 0 else SlotsTotal(ids, token, n - 1) + |Slots(ids, n - 1, token)|
  }

  lemma {:induction false} NoSlots(token: nat, n: nat)
    ensures SlotsTotal([], token, n) == 0
  {
    if n > 0 {
      NoSlots(token, n - 1);
    }
  }

  lemma {:induction false} SlotsTotalGrows(ids: seq<nat>, id: nat, token: nat, n: nat)
    ensures SlotsTotal(ids + [id], token, n) == SlotsTotal(ids, token, n) + if id < n then 1 else 0
  {
    if n > 0 {
      SlotsTotalGrows(ids, id, token, n - 1);
      assert (ids + [id])[..|ids|] == ids;
    }
  }

  /** Every slot of a token is counted for exactly one expert. */
  lemma {:induction false} SlotsTotalIsTopK(ids: seq<nat>, token: nat, n: nat)
    requires forall k :: 0 <= k < |ids| ==> ids[k] < n
    ensures SlotsTotal(ids, token, n) == |ids|
  {
    if ids == [] {
      NoSlots(token, n);
    } else {
      SlotsTotalIsTopK(ids[..|ids| - 1], token, n);
      SlotsTotalGrows(ids[..|ids| - 1], ids[|ids| - 1], token, n);
      assert ids[..|ids| - 1] + [ids[|ids| - 1]] == ids;
    }
  }

  lemma {:induction false} PositionsTotalGrows<H>(tokens: seq<Token<H>>, t: Token<H>, n: nat)
    ensures PositionsTotal(tokens + [t], n) == PositionsTotal(tokens, n) + SlotsTotal(t.ids, |tokens|, n)
  {
    if n > 0 {
      PositionsTotalGrows(tokens, t, n - 1);
      assert (tokens + [t])[..|tokens|] == tokens;
    }
  }

  lemma {:induction false} NoPositions<H>(n: nat)
    ensures PositionsTotal<H>([], n) == 0
  {
    if n > 0 {
      NoPositions<H>(n - 1);
    }
  }

  /** The routed counts add up to top_k per token. */
  lemma {:induction false} PositionsTotalIsAll<H>(g: Geometry, tokens: seq<Token<H>>)
    requires TokensOk(g, tokens)
    ensures PositionsTotal(tokens, g.experts) == Blocks(|tokens|, g.topK)
  {
    if tokens == [] {
      NoPositions<H>(g.experts);
    } else {
      var init, last := tokens[..|tokens| - 1], tokens[|tokens| - 1];
      PositionsTotalIsAll(g, init);
      assert TokenOk(g, tokens[|tokens| - 1]);
      SlotsTotalIsTopK(last.ids, |init|, g.experts);
      PositionsTotalGrows(init, last, g.experts);
      assert init + [last] == tokens;
    }
  }

  class FlatCaptureWriter<H(==)> {
    const geometry: Geometry
    const rowBytes: RowBytes
    var tokens: seq<Token<H>>
    var counts: seq<nat>
    var bytes: RowBytes
    var closed: bool
    var finalized: bool

    ghost predicate Valid()
      reads this
    {
      && TokensOk(geometry, tokens) && |counts| == geometry.experts && (finalized ==> closed)
      && (forall e :: 0 <= e < geometry.experts ==> counts[e] == |Positions(tokens, e)|)
      && bytes == RowBytes(Blocks(|tokens|, rowBytes.x), Blocks(|tokens|, rowBytes.ids), Blocks(|tokens|, rowBytes.weights))
    }

    constructor (geometry: Geometry, rowBytes: RowBytes)
      ensures Valid() && tokens == [] && !closed && this.geometry == geometry && this.rowBytes == rowBytes
    {
      this.geometry, this.rowBytes := geometry, rowBytes;
      tokens, counts, bytes := [], seq(geometry.experts, _ => 0), RowBytes(0, 0, 0);
      closed, finalized := false, false;
    }

    /** Adds one token's slots to the routed counts. */
    method CountToken(t: Token<H>)
      requires Valid() && TokenOk(geometry, t)
      modifies this
      ensures Valid() && tokens == old(tokens) + [t] && closed == old(closed) && finalized == old(finalized)
    {
      ghost var at := |tokens|;
      ghost var before := counts;
      for k := 0 to |t.ids|
        invariant |counts| == geometry.experts && tokens == old(tokens) && bytes == old(bytes)
        invariant closed == old(closed) && finalized == old(finalized)
        invariant forall e :: 0 <= e < geometry.experts ==> counts[e] == before[e] + |Slots(t.ids[..k], e, at)|
      {
        assert t.ids[..k + 1][..k] == t.ids[..k];
        counts := counts[t.ids[k] := counts[t.ids[k]] + 1];
      }
      assert t.ids[..|t.ids|] == t.ids;
      assert (tokens + [t])[..at] == tokens;
      tokens := tokens + [t];
      bytes := RowBytes(bytes.x + rowBytes.x, bytes.ids + rowBytes.ids, bytes.weights + rowBytes.weights);
    }

    /** Shapes of all rows first, then the id range of all rows, then repeated ids. */
    method Check(rows: seq<Token<H>>) returns (fault: WriteFault)
      ensures fault == BadShape <==> exists t :: 0 <= t < |rows| && !Shaped(geometry, rows[t])
      ensures fault == ExpertOutside <==>
        (forall t :: 0 <= t < |rows| ==> Shaped(geometry, rows[t])) && exists t :: 0 <= t < |rows| && !InRange(geometry, rows[t])
      ensures fault == DuplicateExpert <==>
        (forall t :: 0 <= t < |rows| ==> Shaped(geometry, rows[t]) && InRange(geometry, rows[t]))
        && exists t :: 0 <= t < |rows| && Repeats(rows[t].ids)
      ensures fault == Written <==> TokensOk(geometry, rows)
      ensures fault in {Written, BadShape, ExpertOutside, DuplicateExpert}
    {
      if exists t :: 0 <= t < |rows| && !Shaped(geometry, rows[t]) {
        return BadShape;
      }
      if exists t :: 0 <= t < |rows| && !InRange(geometry, rows[t]) {
        return ExpertOutside;
      }
      if exists t :: 0 <= t < |rows| && Repeats(rows[t].ids) {
        return DuplicateExpert;
      }
      return Written;
    }

    /** All rows of a batch are stored, or none. */
    method Append(rows: seq<Token<H>>) returns (fault: WriteFault)
      requires Valid()
      modifies this
      ensures Valid() && closed == old(closed) && finalized == old(finalized)
      ensures fault == Written <==> !old(closed) && TokensOk(geometry, rows)
      ensures tokens == if fault == Written then old(tokens) + rows else old(tokens)
    {
      if closed {
        return AlreadyClosed;
      }
      fault := Check(rows);
      if fault != Written {
        return;
      }
      for k := 0 to |rows|
        invariant Valid() && tokens == old(tokens) + rows[..k] && closed == old(closed) && finalized == old(finalized)
      {
        assert rows[..k + 1] == rows[..k] + [rows[k]];
        CountToken(rows[k]);
      }
      assert rows[..|rows|] == rows;
    }

    /** Sealing fails only for a second time or without rows: sizes and routed counts always agree. */
    method Finalize() returns (fault: WriteFault)
      requires Valid()
      modifies this
      ensures Valid() && tokens == old(tokens) && counts == old(counts)
      ensures fault == (if old(finalized) then AlreadyFinalized else if tokens == [] then EmptyCapture else Written)
      ensures fault == Written ==> finalized
    {
      if finalized {
        return AlreadyFinalized;
      }
      if |tokens| == 0 {
        return EmptyCapture;
      }
      closed := true;
      if bytes != RowBytes(Blocks(|tokens|, rowBytes.x), Blocks(|tokens|, rowBytes.ids), Blocks(|tokens|, rowBytes.weights)) {
        return SizeDrift;
      }
      TotalOfCounts(tokens, counts, geometry.experts);
      PositionsTotalIsAll(geometry, tokens);
      if Sum(counts, geometry.experts) != Blocks(|tokens|, geometry.topK) {
        return CountDrift;
      }
      finalized := true;
      return Written;
    }
  }

  // ---- reading ---------------------------------------------------------------------

  class FlatCaptureReader<H(==)> {
    const geometry: Geometry
    const tokens: seq<Token<H>>
    const counts: seq<nat>
    var tokenOf: Option<seq<nat>>

    ghost predicate Sealed()
    {
      && TokensOk(geometry, tokens) && |counts| == geometry.experts
      && forall e :: 0 <= e < geometry.experts ==> counts[e] == |Positions(tokens, e)|
    }

    /** The index, once built, is the token column of the stable argsort. */
    ghost predicate Valid()
      reads this
    {
      Sealed() && (tokenOf.Some? ==> exists order :: StableOrder(tokens, order) && tokenOf.value == TokensOf(order))
    }

    constructor (geometry: Geometry, tokens: seq<Token<H>>, counts: seq<nat>)
      requires TokensOk(geometry, tokens) && |counts| == geometry.experts
      requires forall e :: 0 <= e < geometry.experts ==> counts[e] == |Positions(tokens, e)|
      ensures Valid() && this.geometry == geometry && this.tokens == tokens && this.counts == counts
    {
      this.geometry, this.tokens, this.counts, tokenOf := geometry, tokens, counts, None;
    }

    /** The stable argsort of the flat ids, as a counting sort by expert. */
    method StableArgSort() returns (order: seq<Pos>)
      requires Sealed()
      ensures StableOrder(tokens, order)
    {
      order := [];
      for e := 0 to geometry.experts
        invariant order == Grouped(tokens, e)
      {
        order := order + Positions(tokens, e);
      }
      StableOrderExists(geometry, tokens);
    }

    method BuildIndex()
      requires Valid()
      modifies this
      ensures Valid() && tokenOf.Some?
    {
      if tokenOf.Some? {
        return;
      }
      var order := StableArgSort();
      tokenOf := Some(TokensOf(order));
    }

    /** None is the range error; otherwise exactly the ascending tokens routed to the expert. */
    method ExpertRows(expert: int) returns (rows: Option<seq<nat>>)
      requires Valid()
      modifies this
      ensures Valid()
      ensures rows.Some? <==> 0 <= expert < geometry.experts
      ensures rows.Some? ==> rows.value == Routed(tokens, expert)
    {
      if !(0 <= expert < geometry.experts) {
        return None;
      }
      BuildIndex();
      ghost var sorted :| StableOrder(tokens, sorted) && tokenOf.value == TokensOf(sorted);
      SegmentIsPositions(geometry, tokens, sorted, counts, expert);
      var start, end := Start(counts, expert), Start(counts, expert + 1);
      assert TokensOf(sorted[start..end]) == TokensOf(sorted)[start..end];
      return Some(tokenOf.value[start..end]);
    }
  }
}
