/** Exact mixed-bit allocation: a dynamic program with backpointers over a fixed upgrade budget. */
module Allocation {
  import opened Common

  const FLOOR_BITS: nat := 3

  /** Integer gains of one tensor at 3, 4 and 5 bits. */
  datatype Gains = Gains(at3: int, at4: int, at5: int) {
    function At(bits: nat): int
      requires 3 <= bits <= 5
    {
      if bits == 3 then at3 else if bits == 4 then at4 else at5
    }
  }

  datatype Outcome =
    | Allocated(bits: seq<nat>, score: int)
    | BudgetUnreachable
    | CorruptBackpointer

  /** One allowed bit width for each tensor. */
  ghost predicate Allowed(bits: seq<nat>, n: nat) {
    |bits| == n && forall i :: 0 <= i < n ==> 3 <= bits[i] <= 5
  }

  /** Upgrade units spent above the floor. */
  function Cost(bits: seq<nat>): (cost: int)
  {
    if bits == [] then 0 else Cost(bits[..|bits| - 1]) + bits[|bits| - 1] - FLOOR_BITS
  }

  ghost function Score(gains: seq<Gains>, bits: seq<nat>): int
    requires Allowed(bits, |gains|)
  {
    if gains == [] then 0
    else
      var last := |gains| - 1;
      Score(gains[..last], bits[..last]) + gains[last].At(bits[last])
  }

  /** Reading from the last tensor to the first, a is at least b. */
  ghost predicate FromLastAtLeast(a: seq<nat>, b: seq<nat>)
    requires |a| == |b|
  {
    a == [] ||
    var last := |a| - 1;
    a[last] > b[last] || (a[last] == b[last] && FromLastAtLeast(a[..last], b[..last]))
  }

  ghost predicate Feasible(gains: seq<Gains>, budget: int, bits: seq<nat>) {
    Allowed(bits, |gains|) && Cost(bits) == budget
  }

  /** b does no better than a, and where it does as well it is not ahead in the tie order. */
  ghost predicate Beats(gains: seq<Gains>, a: seq<nat>, b: seq<nat>)
    requires Allowed(a, |gains|) && Allowed(b, |gains|)
  {
    Score(gains, b) < Score(gains, a) || (Score(gains, b) == Score(gains, a) && FromLastAtLeast(a, b))
  }

  /** The optimum: spends the budget exactly and beats every assignment that does. */
  ghost predicate Best(gains: seq<Gains>, budget: int, a: seq<nat>) {
    && Feasible(gains, budget, a)
    && forall b {:trigger Beats(gains, a, b)} :: Feasible(gains, budget, b) ==> Beats(gains, a, b)
  }

  /** Contribution of giving the next tensor `bits` to reach cell c from the cells below. */
  function Candidate(scores: seq<Option<int>>, g: Gains, c: int, bits: nat): Option<int>
    requires 3 <= bits <= 5
  {
    var prior := c - (bits - FLOOR_BITS);
    if 0 <= prior < |scores| && scores[prior].Some? then Some(scores[prior].value + g.At(bits)) else None
  }

  /** A cell of the next row: its score, and the bits and prior cost it came from. */
  datatype Cell = Empty | Cell(score: int, bits: nat)

  function Offer(cell: Cell, candidate: Option<int>, bits: nat): Cell {
    match candidate
    case None => cell
    case Some(score) => if cell.Empty? || score > cell.score then Cell(score, bits) else cell
  }

  /** Cell c after the candidates from prior costs below p have been offered, dearest first. */
  function CellAfter(scores: seq<Option<int>>, g: Gains, c: int, p: int): Cell {
    var five := if c - 2 < p then Offer(Empty, Candidate(scores, g, c, 5), 5) else Empty;
    var four := if c - 1 < p then Offer(five, Candidate(scores, g, c, 4), 4) else five;
    if c < p then Offer(four, Candidate(scores, g, c, 3), 3) else four
  }

  /** Entry c of the three parallel rows spells the cell. */
  ghost predicate Spells(score: Option<int>, cost: int, choice: nat, c: int, cell: Cell) {
    match cell
    case Empty => score == None
    case Cell(value, bits) => 3 <= bits <= 5 && score == Some(value) && choice == bits && cost == c - (bits - FLOOR_BITS)
  }

  /** Prior cost p bears on the cells p, p + 1 and p + 2 only. */
  lemma OtherCells(scores: seq<Option<int>>, g: Gains, c: int, p: int)
    requires c < p || p + 2 < c
    ensures CellAfter(scores, g, c, p) == CellAfter(scores, g, c, p + 1)
  {
  }

  lemma OfferedCell(scores: seq<Option<int>>, g: Gains, p: int, bits: nat)
    requires 3 <= bits <= 5
    ensures var c := p + bits - FLOOR_BITS;
      CellAfter(scores, g, c, p + 1) == Offer(CellAfter(scores, g, c, p), Candidate(scores, g, c, bits), bits)
  {
  }

  lemma UnreachedPrior(scores: seq<Option<int>>, g: Gains, c: int, p: nat)
    requires p < |scores| && scores[p] == None
    ensures CellAfter(scores, g, c, p) == CellAfter(scores, g, c, p + 1)
  {
  }

  /** Offers prior cost p at every allowed bit width, low bits first, replacing on strict gain only. */
  method OfferPrior(scores: seq<Option<int>>, g: Gains, budget: nat, p: nat,
                    nextScores: array<Option<int>>, costs: array<int>, choices: array<nat>)
    requires p <= budget && |scores| == budget + 1 && scores[p].Some?
    requires nextScores.Length == costs.Length == choices.Length == budget + 1
    requires forall c :: 0 <= c <= budget ==> Spells(nextScores[c], costs[c], choices[c], c, CellAfter(scores, g, c, p))
    modifies nextScores, costs, choices
    ensures forall c :: 0 <= c <= budget ==> Spells(nextScores[c], costs[c], choices[c], c, CellAfter(scores, g, c, p + 1))
  {
    for bits := 3 to 6
      invariant forall c :: 0 <= c <= budget ==>
        Spells(nextScores[c], costs[c], choices[c], c, CellAfter(scores, g, c, if p <= c < p + bits - 3 then p + 1 else p))
    {
      var newCost := p + bits - FLOOR_BITS;
      if budget < newCost {
        continue;
      }
      OfferedCell(scores, g, p, bits);
      var score := scores[p].value + g.At(bits);
      var incumbent := nextScores[newCost];
      if incumbent == None || score > incumbent.value {
        nextScores[newCost], costs[newCost], choices[newCost] := Some(score), p, bits;
      }
    }
    forall c | 0 <= c <= budget && (c < p || p + 2 < c) {
      OtherCells(scores, g, c, p);
    }
  }

  /** The row of one more tensor: prior costs ascending. */
  method NextRow(scores: seq<Option<int>>, g: Gains, budget: nat)
    returns (nextScores: array<Option<int>>, costs: array<int>, choices: array<nat>)
    requires |scores| == budget + 1
    ensures nextScores.Length == costs.Length == choices.Length == budget + 1
    ensures forall c :: 0 <= c <= budget ==>
      Spells(nextScores[c], costs[c], choices[c], c, CellAfter(scores, g, c, budget + 1))
  {
    nextScores := new Option<int>[budget + 1](_ => None);
    costs := new int[budget + 1](_ => -1);
    choices := new nat[budget + 1](_ => 0);
    for p := 0 to budget + 1
      invariant forall c :: 0 <= c <= budget ==>
        Spells(nextScores[c], costs[c], choices[c], c, CellAfter(scores, g, c, p))
    {
      if scores[p] == None {
        forall c | 0 <= c <= budget {
          UnreachedPrior(scores, g, c, p);
        }
        continue;
      }
      OfferPrior(scores, g, budget, p, nextScores, costs, choices);
    }
  }

  // ---- the table ----------------------------------------------------------

  /** Backpointers of one tensor. */
  datatype Parents = Parents(costs: seq<int>, choices: seq<nat>)

  /** Follows the backpointers from cell c of the last row to the start. */
  ghost function Trace(rows: seq<Parents>, c: int): seq<nat> {
    if rows == [] then []
    else
      var last := rows[|rows| - 1];
      if 0 <= c < |last.costs| && c < |last.choices|
      then Trace(rows[..|rows| - 1], last.costs[c]) + [last.choices[c]]
      else []
  }

  /** The trace from cell c stays on filled cells and returns to cost zero. */
  ghost predicate Sound(rows: seq<Parents>, c: int) {
    if rows == [] then c == 0
    else
      var last := rows[|rows| - 1];
      && 0 <= c < |last.costs| == |last.choices| && 3 <= last.choices[c] <= 5
      && 0 <= last.costs[c] && last.costs[c] == c - (last.choices[c] - FLOOR_BITS)
      && Sound(rows[..|rows| - 1], last.costs[c])
  }

  /** Cell c holds the optimum of the tensors so far, or there is no assignment of that cost. */
  ghost predicate Solved(gains: seq<Gains>, rows: seq<Parents>, score: Option<int>, c: int) {
    match score
    case None => forall b :: !Feasible(gains, c, b)
    case Some(v) => Sound(rows, c) && Best(gains, c, Trace(rows, c)) && v == Score(gains, Trace(rows, c))
  }

  ghost predicate Table(gains: seq<Gains>, rows: seq<Parents>, scores: seq<Option<int>>, budget: nat) {
    && |rows| == |gains| && |scores| == budget + 1
    && forall c {:trigger Solved(gains, rows, scores[c], c)} :: 0 <= c <= budget ==> Solved(gains, rows, scores[c], c)
  }

  lemma {:induction false} CostBounds(bits: seq<nat>, n: nat)
    requires Allowed(bits, n)
    ensures 0 <= Cost(bits) <= 2 * n
  {
    if n > 0 {
      CostBounds(bits[..n - 1], n - 1);
    }
  }

  /** Splits an assignment of one more tensor into its head and the bits of that tensor. */
  lemma SplitLast(gains: seq<Gains>, g: Gains, c: int, b: seq<nat>)
    requires Feasible(gains + [g], c, b)
    ensures var n := |gains|;
      && 3 <= b[n] <= 5 && Feasible(gains, c - (b[n] - FLOOR_BITS), b[..n]) && 0 <= c - (b[n] - FLOOR_BITS)
      && Score(gains + [g], b) == Score(gains, b[..n]) + g.At(b[n])
  {
    var n := |gains|;
    assert (gains + [g])[..n] == gains;
    CostBounds(b[..n], n);
  }

  lemma JoinLast(gains: seq<Gains>, g: Gains, c: int, a: seq<nat>, x: nat)
    requires Feasible(gains, c - (x - FLOOR_BITS), a) && 3 <= x <= 5
    ensures Feasible(gains + [g], c, a + [x])
    ensures Score(gains + [g], a + [x]) == Score(gains, a) + g.At(x)
  {
    assert (a + [x])[..|gains|] == a;
    assert (gains + [g])[..|gains|] == gains;
  }

  /** The last offered candidate to win has the top score, and the most bits among the top scores. */
  lemma WinningCandidate(scores: seq<Option<int>>, g: Gains, c: int, y: nat)
    requires 3 <= y <= 5
    ensures var cell, candidate := CellAfter(scores, g, c, c + 1), Candidate(scores, g, c, y);
      candidate.Some? ==>
        && cell.Cell? && 3 <= cell.bits <= 5
        && Candidate(scores, g, c, cell.bits) == Some(cell.score)
        && (candidate.value < cell.score || (candidate.value == cell.score && y <= cell.bits))
  {
  }

  lemma CellSource(scores: seq<Option<int>>, g: Gains, c: int)
    ensures var cell := CellAfter(scores, g, c, c + 1);
      cell.Cell? ==> 3 <= cell.bits <= 5 && Candidate(scores, g, c, cell.bits) == Some(cell.score)
  {
  }

  lemma AllOffered(scores: seq<Option<int>>, g: Gains, c: int, p: int)
    requires c < p
    ensures CellAfter(scores, g, c, p) == CellAfter(scores, g, c, c + 1)
  {
  }

  lemma ScoreJoin(gains: seq<Gains>, g: Gains, a: seq<nat>, x: nat)
    requires Allowed(a, |gains|) && 3 <= x <= 5
    ensures Allowed(a + [x], |gains + [g]|)
    ensures Score(gains + [g], a + [x]) == Score(gains, a) + g.At(x)
  {
    assert (a + [x])[..|gains|] == a;
    assert (gains + [g])[..|gains|] == gains;
  }

  lemma TieJoin(a: seq<nat>, x: nat, b: seq<nat>, y: nat)
    requires |a| == |b|
    ensures FromLastAtLeast(a + [x], b + [y]) <==> x > y || (x == y && FromLastAtLeast(a, b))
  {
    assert (a + [x])[..|a|] == a && (b + [y])[..|b|] == b;
  }

  /** A head that beats another head, outdone in turn by the winning candidate. */
  lemma BeatsExtended(gains: seq<Gains>, g: Gains, head: seq<nat>, x: nat, other: seq<nat>, b: seq<nat>, y: nat)
    requires Allowed(head, |gains|) && 3 <= x <= 5 && Allowed(other, |gains|)
    requires Allowed(b, |gains|) && 3 <= y <= 5 && Beats(gains, other, b)
    requires var v, w := Score(gains, head) + g.At(x), Score(gains, other) + g.At(y);
      (w < v || (w == v && y <= x)) && (x == y ==> other == head)
    ensures Allowed(head + [x], |gains + [g]|) && Allowed(b + [y], |gains + [g]|)
    ensures Beats(gains + [g], head + [x], b + [y])
  {
    ScoreJoin(gains, g, head, x);
    ScoreJoin(gains, g, b, y);
    TieJoin(head, x, b, y);
  }

  /** A feasible head of cost c makes cell c non-empty, and the cell's trace beats it. */
  lemma HeadBeaten(gains: seq<Gains>, rows: seq<Parents>, scores: seq<Option<int>>, budget: nat, c: int, b: seq<nat>)
    requires Table(gains, rows, scores, budget) && 0 <= c <= budget && Feasible(gains, c, b)
    ensures scores[c].Some? && Allowed(Trace(rows, c), |gains|)
    ensures scores[c].value == Score(gains, Trace(rows, c)) && Beats(gains, Trace(rows, c), b)
  {
    assert Solved(gains, rows, scores[c], c);
  }

  lemma CellTrace(gains: seq<Gains>, rows: seq<Parents>, scores: seq<Option<int>>, budget: nat, c: int)
    requires Table(gains, rows, scores, budget) && 0 <= c <= budget && scores[c].Some?
    ensures Sound(rows, c) && Feasible(gains, c, Trace(rows, c))
    ensures scores[c].value == Score(gains, Trace(rows, c))
  {
    assert Solved(gains, rows, scores[c], c);
  }

  /** Best heads and a winning candidate make a best assignment of one more tensor. */
  lemma BestExtends(gains: seq<Gains>, g: Gains, rows: seq<Parents>, scores: seq<Option<int>>, budget: nat, c: nat)
    requires Table(gains, rows, scores, budget) && c <= budget
    requires CellAfter(scores, g, c, c + 1).Cell?
    ensures var cell := CellAfter(scores, g, c, c + 1);
      var a := Trace(rows, c - (cell.bits - FLOOR_BITS)) + [cell.bits];
      Best(gains + [g], c, a) && Score(gains + [g], a) == cell.score
  {
    var cell, n := CellAfter(scores, g, c, c + 1), |gains|;
    CellSource(scores, g, c);
    CellTrace(gains, rows, scores, budget, c - (cell.bits - FLOOR_BITS));
    var head := Trace(rows, c - (cell.bits - FLOOR_BITS));
    JoinLast(gains, g, c, head, cell.bits);
    forall b | Feasible(gains + [g], c, b)
      ensures Beats(gains + [g], head + [cell.bits], b)
    {
      BeatsFeasible(gains, g, rows, scores, budget, c, b);
    }
  }

  /** The winning candidate against the candidate a feasible assignment stands for. */
  lemma WinnerAgainst(gains: seq<Gains>, g: Gains, rows: seq<Parents>, scores: seq<Option<int>>, budget: nat, c: nat,
                      b: seq<nat>, y: nat)
    requires Table(gains, rows, scores, budget) && c <= budget && 3 <= y <= 5
    requires Feasible(gains, c - (y - FLOOR_BITS), b) && 0 <= c - (y - FLOOR_BITS)
    ensures CellAfter(scores, g, c, c + 1).Cell?
    ensures var cell := CellAfter(scores, g, c, c + 1);
      var head, other := Trace(rows, c - (cell.bits - FLOOR_BITS)), Trace(rows, c - (y - FLOOR_BITS));
      && 3 <= cell.bits <= 5
      && Allowed(head, |gains|) && Allowed(other, |gains|) && Allowed(b, |gains|) && Beats(gains, other, b)
      && var v, w := Score(gains, head) + g.At(cell.bits), Score(gains, other) + g.At(y);
         w < v || (w == v && y <= cell.bits)
  {
    HeadBeaten(gains, rows, scores, budget, c - (y - FLOOR_BITS), b);
    WinningCandidate(scores, g, c, y);
    var cell := CellAfter(scores, g, c, c + 1);
    CellTrace(gains, rows, scores, budget, c - (cell.bits - FLOOR_BITS));
  }

  lemma BeatsFeasible(gains: seq<Gains>, g: Gains, rows: seq<Parents>, scores: seq<Option<int>>, budget: nat, c: nat, b: seq<nat>)
    requires Table(gains, rows, scores, budget) && c <= budget
    requires CellAfter(scores, g, c, c + 1).Cell? && Feasible(gains + [g], c, b)
    ensures var cell := CellAfter(scores, g, c, c + 1);
      var head := Trace(rows, c - (cell.bits - FLOOR_BITS));
      Allowed(head, |gains|) && 3 <= cell.bits <= 5 && Beats(gains + [g], head + [cell.bits], b)
  {
    var cell := CellAfter(scores, g, c, c + 1);
    var head, y := b[..|gains|], b[|gains|];
    assert b == head + [y];
    SplitLast(gains, g, c, b);
    WinnerAgainst(gains, g, rows, scores, budget, c, head, y);
    var best, other := Trace(rows, c - (cell.bits - FLOOR_BITS)), Trace(rows, c - (y - FLOOR_BITS));
    BeatsExtended(gains, g, best, cell.bits, other, head, y);
  }

  lemma NothingExtends(gains: seq<Gains>, g: Gains, rows: seq<Parents>, scores: seq<Option<int>>, budget: nat, c: nat)
    requires Table(gains, rows, scores, budget) && c <= budget
    requires CellAfter(scores, g, c, c + 1).Empty?
    ensures forall b :: !Feasible(gains + [g], c, b)
  {
    forall b | Feasible(gains + [g], c, b)
      ensures false
    {
      SplitLast(gains, g, c, b);
      HeadBeaten(gains, rows, scores, budget, c - (b[|gains|] - FLOOR_BITS), b[..|gains|]);
      WinningCandidate(scores, g, c, b[|gains|]);
    }
  }

  /** A row filled by the double loop extends the table by one tensor. */
  lemma TableGrows(gains: seq<Gains>, g: Gains, rows: seq<Parents>, scores: seq<Option<int>>, budget: nat, next: seq<Option<int>>, row: Parents)
    requires Table(gains, rows, scores, budget)
    requires |next| == |row.costs| == |row.choices| == budget + 1
    requires forall c :: 0 <= c <= budget ==>
      Spells(next[c], row.costs[c], row.choices[c], c, CellAfter(scores, g, c, budget + 1))
    ensures Table(gains + [g], rows + [row], next, budget)
  {
    forall c | 0 <= c <= budget
      ensures Solved(gains + [g], rows + [row], next[c], c)
    {
      CellSolved(gains, g, rows, scores, budget, next[c], row, c);
    }
  }

  lemma CellSolved(gains: seq<Gains>, g: Gains, rows: seq<Parents>, scores: seq<Option<int>>, budget: nat, score: Option<int>, row: Parents, c: nat)
    requires Table(gains, rows, scores, budget) && c <= budget && |row.costs| == |row.choices| == budget + 1
    requires Spells(score, row.costs[c], row.choices[c], c, CellAfter(scores, g, c, budget + 1))
    ensures Solved(gains + [g], rows + [row], score, c)
  {
    AllOffered(scores, g, c, budget + 1);
    var cell := CellAfter(scores, g, c, c + 1);
    if cell.Empty? {
      NothingExtends(gains, g, rows, scores, budget, c);
    } else {
      BestExtends(gains, g, rows, scores, budget, c);
      CellSource(scores, g, c);
      CellTrace(gains, rows, scores, budget, c - (cell.bits - FLOOR_BITS));
      assert (rows + [row])[..|rows|] == rows;
    }
  }

  lemma {:induction false} Reachable(gains: seq<Gains>, budget: nat) returns (b: seq<nat>)
    requires budget <= 2 * |gains|
    ensures Feasible(gains, budget, b)
  {
    if gains == [] {
      b := [];
    } else {
      var last := |gains| - 1;
      var x: nat := if budget < 2 then FLOOR_BITS + budget else 5;
      var head := Reachable(gains[..last], budget - (x - FLOOR_BITS));
      b := head + [x];
      assert b[..last] == head;
    }
  }

  lemma Unreachable(gains: seq<Gains>, budget: int, b: seq<nat>)
    requires Feasible(gains, budget, b)
    ensures 0 <= budget <= 2 * |gains|
  {
    CostBounds(b, |gains|);
  }

  /** A cell is empty exactly when its cost cannot be spent. */
  lemma EmptyCells(gains: seq<Gains>, rows: seq<Parents>, scores: seq<Option<int>>, budget: nat)
    requires Table(gains, rows, scores, budget)
    ensures scores[budget] == None <==> 2 * |gains| < budget
  {
    assert Solved(gains, rows, scores[budget], budget);
    if budget <= 2 * |gains| {
      var b := Reachable(gains, budget);
    } else if scores[budget].Some? {
      Unreachable(gains, budget, Trace(rows, budget));
    }
  }

  function Reverse<T>(s: seq<T>): seq<T> {
    if s == [] then [] else [s[|s| - 1]] + Reverse(s[..|s| - 1])
  }

  lemma ReverseAppend<T>(s: seq<T>, x: T)
    ensures Reverse(s + [x]) == [x] + Reverse(s)
  {
    assert (s + [x])[..|s|] == s;
  }

  lemma TraceStep(rows: seq<Parents>, item: nat, cost: int)
    requires item < |rows| && Sound(rows[..item + 1], cost)
    ensures 0 <= cost < |rows[item].costs| == |rows[item].choices|
    ensures var bits, prior := rows[item].choices[cost], rows[item].costs[cost];
      && 3 <= bits <= 5 && 0 <= prior && Sound(rows[..item], prior)
      && Trace(rows[..item + 1], cost) == Trace(rows[..item], prior) + [bits]
  {
    assert rows[..item + 1][..item] == rows[..item];
  }

  /** Reads the selection off the backpointers, last tensor first; None would be corruption. */
  method Backtrack(rows: seq<Parents>, budget: nat) returns (selected: Option<seq<nat>>)
    requires Sound(rows, budget)
    ensures selected == Some(Trace(rows, budget))
  {
    var reversed: seq<nat> := [];
    var cost: int := budget;
    assert rows[..|rows|] == rows;
    for item := |rows| downto 0
      invariant Sound(rows[..item], cost)
      invariant Trace(rows[..item], cost) + Reverse(reversed) == Trace(rows, budget)
    {
      TraceStep(rows, item, cost);
      var bits, prior := rows[item].choices[cost], rows[item].costs[cost];
      if !(3 <= bits <= 5) || prior < 0 {
        return None;
      }
      ReverseAppend(reversed, bits);
      reversed := reversed + [bits];
      cost := prior;
    }
    if cost != 0 {
      return None;
    }
    assert [] + Reverse(reversed) == Reverse(reversed);
    return Some(Reverse(reversed));
  }

  lemma EmptyTable(budget: nat)
    ensures Table([], [], [Some(0)] + seq(budget, _ => None), budget)
  {
    assert Best([], 0, []);
  }

  // ---- the optimum in numbers ------------------------------------------------

  function SumBits(bits: seq<nat>): nat {
    if bits == [] then 0 else SumBits(bits[..|bits| - 1]) + bits[|bits| - 1]
  }

  /** Spending the upgrade units exactly is what audit_allocation re-checks as a bit total. */
  lemma {:induction false} BitTotal(bits: seq<nat>, n: nat)
    requires Allowed(bits, n)
    ensures SumBits(bits) == 3 * n + Cost(bits)
  {
    if n > 0 {
      BitTotal(bits[..n - 1], n - 1);
    }
  }

  function SumInts(p: seq<int>): int {
    if p == [] then 0 else SumInts(p[..|p| - 1]) + p[|p| - 1]
  }

  /** The gain of every tensor at its bits. */
  ghost predicate Picks(p: seq<int>, gains: seq<Gains>, bits: seq<nat>) {
    && |p| == |gains| == |bits|
    && forall i :: 0 <= i < |p| ==> p[i] == if bits[i] == 3 then gains[i].at3 else if bits[i] == 4 then gains[i].at4 else gains[i].at5
  }

  /** On the last tensor where they differ a has the higher bits. */
  ghost predicate HigherLast(a: seq<nat>, b: seq<nat>)
    requires |a| == |b|
  {
    exists i :: 0 <= i < |a| && a[i] > b[i] && a[i + 1..] == b[i + 1..]
  }

  /** Bits of 3 to 5 that add up to 3 n and the budget. */
  ghost predicate Spends(bits: seq<nat>, n: nat, budget: nat) {
    |bits| == n && (forall i :: 0 <= i < n ==> 3 <= bits[i] <= 5) && SumBits(bits) == 3 * n + budget
  }

  /** No assignment of the budget gains more, and one that gains as much has lower bits on the last tensor that differs. */
  ghost predicate IsOptimal(gains: seq<Gains>, budget: nat, bits: seq<nat>, score: int) {
    && Spends(bits, |gains|, budget) && (forall p :: Picks(p, gains, bits) ==> SumInts(p) == score)
    && forall b, q :: Spends(b, |gains|, budget) && Picks(q, gains, b) ==>
         SumInts(q) < score || (SumInts(q) == score && (b == bits || HigherLast(bits, b)))
  }

  lemma {:induction false} ScoreIsSum(gains: seq<Gains>, bits: seq<nat>, p: seq<int>)
    requires Allowed(bits, |gains|) && Picks(p, gains, bits)
    ensures Score(gains, bits) == SumInts(p)
  {
    if gains != [] {
      var last := |gains| - 1;
      ScoreIsSum(gains[..last], bits[..last], p[..last]);
    }
  }

  lemma {:induction false} TieIsHigherLast(a: seq<nat>, b: seq<nat>)
    requires |a| == |b| && FromLastAtLeast(a, b)
    ensures a == b || HigherLast(a, b)
  {
    if a != [] {
      var last := |a| - 1;
      if a[last] > b[last] {
        assert a[last + 1..] == b[last + 1..];
      } else {
        TieIsHigherLast(a[..last], b[..last]);
        assert a == a[..last] + [a[last]] && b == b[..last] + [b[last]];
        if a[..last] != b[..last] {
          var i :| 0 <= i < last && a[..last][i] > b[..last][i] && a[..last][i + 1..] == b[..last][i + 1..];
          assert a[i + 1..] == a[..last][i + 1..] + [a[last]] && b[i + 1..] == b[..last][i + 1..] + [b[last]];
        }
      }
    }
  }

  lemma BestIsOptimal(gains: seq<Gains>, budget: nat, bits: seq<nat>)
    requires Best(gains, budget, bits)
    ensures IsOptimal(gains, budget, bits, Score(gains, bits))
  {
    BitTotal(bits, |gains|);
    forall p | Picks(p, gains, bits)
      ensures SumInts(p) == Score(gains, bits)
    {
      ScoreIsSum(gains, bits, p);
    }
    forall b, q | Spends(b, |gains|, budget) && Picks(q, gains, b)
      ensures SumInts(q) < Score(gains, bits) || (SumInts(q) == Score(gains, bits) && (b == bits || HigherLast(bits, b)))
    {
      BitTotal(b, |gains|);
      ScoreIsSum(gains, b, q);
      assert Beats(gains, bits, b);
      if Score(gains, b) == Score(gains, bits) {
        TieIsHigherLast(bits, b);
      }
    }
  }

  /** solve_exact_allocation over the gains in tensor order. */
  method Solve(gains: seq<Gains>, budget: nat) returns (r: Outcome)
    ensures 2 * |gains| < budget ==> r == BudgetUnreachable
    ensures budget <= 2 * |gains| ==>
      r.Allocated? && Best(gains, budget, r.bits) && IsOptimal(gains, budget, r.bits, r.score)
  {
    var scores: seq<Option<int>> := [Some(0)] + seq(budget, _ => None);
    var rows: seq<Parents> := [];
    EmptyTable(budget);
    for i := 0 to |gains|
      invariant Table(gains[..i], rows, scores, budget)
    {
      var nextScores, costs, choices := NextRow(scores, gains[i], budget);
      TableGrows(gains[..i], gains[i], rows, scores, budget, nextScores[..], Parents(costs[..], choices[..]));
      assert gains[..i + 1] == gains[..i] + [gains[i]];
      if nextScores[budget] == None && |rows| == |gains| - 1 {
        EmptyCells(gains[..i + 1], rows + [Parents(costs[..], choices[..])], nextScores[..], budget);
        return BudgetUnreachable;
      }
      scores := nextScores[..];
      rows := rows + [Parents(costs[..], choices[..])];
    }
    assert gains[..|gains|] == gains;
    EmptyCells(gains, rows, scores, budget);
    if scores[budget] == None {
      return BudgetUnreachable;
    }
    assert Solved(gains, rows, scores[budget], budget);
    var bits := Backtrack(rows, budget);
    if bits == None {
      return CorruptBackpointer;
    }
    BestIsOptimal(gains, budget, bits.value);
    return Allocated(bits.value, scores[budget].value);
  }

  /** The optimum is unique: score, budget and tie order together leave one assignment. */
  lemma BestUnique(gains: seq<Gains>, budget: int, a: seq<nat>, b: seq<nat>)
    requires Best(gains, budget, a) && Best(gains, budget, b)
    ensures a == b
  {
    assert Beats(gains, a, b) && Beats(gains, b, a);
    TieOrderAntisymmetric(a, b);
  }

  lemma {:induction false} TieOrderReflexive(a: seq<nat>)
    ensures FromLastAtLeast(a, a)
  {
    if a != [] {
      TieOrderReflexive(a[..|a| - 1]);
    }
  }

  lemma {:induction false} TieOrderAntisymmetric(a: seq<nat>, b: seq<nat>)
    requires |a| == |b| && FromLastAtLeast(a, b) && FromLastAtLeast(b, a)
    ensures a == b
  {
    if a != [] {
      var last := |a| - 1;
      TieOrderAntisymmetric(a[..last], b[..last]);
      assert a == a[..last] + [a[last]] && b == b[..last] + [b[last]];
    }
  }

  /** On a tie the last tensor takes the high bits: of two flat tensors and one unit, [3, 4] is selected. */
  lemma TieGoesToHighBitsOnTheLastTensor()
    ensures Best([Gains(0, 0, 0), Gains(0, 0, 0)], 1, [3, 4])
    ensures !Best([Gains(0, 0, 0), Gains(0, 0, 0)], 1, [4, 3])
  {
    var flat := Gains(0, 0, 0);
    var gains := [flat, flat];
    assert [flat, flat][..1] == [flat];
    TwoTensors([3, 4]);
    TwoTensors([4, 3]);
    forall b | Feasible(gains, 1, b)
      ensures Beats(gains, [3, 4], b)
    {
      TwoTensors(b);
      if b[1] == 4 {
        assert b == [3, 4];
        TieOrderReflexive(b);
      }
    }
    assert !Beats(gains, [4, 3], [3, 4]);
  }

  lemma TwoTensors(b: seq<nat>)
    requires Allowed(b, 2)
    ensures Cost(b) == b[0] + b[1] - 6
    ensures Score([Gains(0, 0, 0), Gains(0, 0, 0)], b) == 0
  {
    var head, flat := b[..1], [Gains(0, 0, 0), Gains(0, 0, 0)];
    assert head[..0] == [] && flat[..1][..0] == [];
    assert Cost(head) == b[0] - 3;
    assert Score(flat[..1], head) == 0;
  }
}
