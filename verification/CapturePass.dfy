/** The capture pass on disk: sealed rolling states, retired states, and a process that may die anywhere. */
module CapturePass {
  import opened Common

  const FIRST_MOE_LAYER: nat := 3
  const LAST_LAYER: nat := 77

  /** A state directory: its manifest exists only when sealed, or when a removal has not got to it yet. */
  datatype StateDir<D> = Absent | Partial | Sealed(data: D) | Broken

  datatype CaptureDir<C> = Missing | Unfinished | Complete(rows: C)

  /** The deterministic forward pass: the carried prefix, one layer, and the rows a layer's tap records. */
  datatype Model<!D, !C> = Model(prefix: D, advance: (nat, D) -> D, tap: (nat, D) -> C) {

    /** Input of a layer when nothing ever crashes. */
    function IdealState(layer: nat): D {
      if layer <= FIRST_MOE_LAYER then prefix else advance(layer - 1, IdealState(layer - 1))
    }

    function IdealCapture(layer: nat): C {
      tap(layer, IdealState(layer))
    }

    /** A pass without crashes: it starts from the prefix, and every layer turns its input into the next one's. */
    ghost predicate IsPass(input: nat -> D) {
      input(FIRST_MOE_LAYER) == prefix && forall k: nat :: k >= FIRST_MOE_LAYER ==> input(k + 1) == advance(k, input(k))
    }

    lemma {:induction false} IdealIsPass(input: nat -> D, layer: nat)
      requires IsPass(input) && layer >= FIRST_MOE_LAYER
      ensures IdealState(layer) == input(layer) && IdealCapture(layer) == tap(layer, input(layer))
    {
      if layer > FIRST_MOE_LAYER {
        IdealIsPass(input, layer - 1);
        assert input(layer - 1 + 1) == advance(layer - 1, input(layer - 1));
      }
    }
  }

  datatype Load<D> = NoState | Loaded(data: D) | BrokenState

  /** The errors the pass can raise about its own store. */
  datatype Fault = NoFault | AlreadyRetired(layer: int) | MissingInput(layer: int) | BrokenRead(layer: int) | WithoutLayers

  datatype Result<C> = Crashed | Finished(captured: map<nat, C>) | Failed(fault: Fault)

  predicate IsRequest(requested: set<nat>) {
    requested != {} && forall v :: v in requested ==> FIRST_MOE_LAYER <= v <= LAST_LAYER
  }

  class Store<D(==), C(==)> {
    const model: Model<D, C>
    var states: map<nat, StateDir<D>>
    var captures: map<nat, CaptureDir<C>>
    /** The highest sealed state, 0 when there is none. */
    ghost var front: nat

    constructor (model: Model<D, C>)
      ensures this.model == model && front == 0 && states == map[] && captures == map[]
      ensures forall requested :: Valid(requested)
    {
      this.model, states, captures, front := model, map[], map[], 0;
    }

    function StateOf(layer: nat): StateDir<D>
      reads this
    {
      if layer in states then states[layer] else Absent
    }

    function CaptureOf(layer: nat): CaptureDir<C>
      reads this
    {
      if layer in captures then captures[layer] else Missing
    }

    ghost predicate SealedIdeal(layer: nat)
      reads this
    {
      StateOf(layer) == Sealed(model.IdealState(layer))
    }

    /** Nothing sealed and nothing half-removed above the front. */
    ghost predicate CleanAbove()
      reads this
    {
      forall k :: k > front ==> StateOf(k) == Absent || StateOf(k) == Partial
    }

    ghost predicate CapturesIdeal()
      reads this
    {
      forall v :: CaptureOf(v).Complete? ==> CaptureOf(v).rows == model.IdealCapture(v)
    }

    /** From layer on, every state up to the front is sealed. */
    ghost predicate IntactFrom(layer: nat)
      reads this
    {
      forall k :: layer <= k <= front ==> StateOf(k) == Sealed(model.IdealState(k))
    }

    /** A requested layer below the front has its capture, or its input and every state above it. */
    ghost predicate Recoverable(requested: set<nat>)
      reads this
    {
      forall v :: v in requested && v < front && !CaptureOf(v).Complete? ==> IntactFrom(v)
    }

    ghost predicate Valid(requested: set<nat>)
      reads this
    {
      && CleanAbove() && CapturesIdeal() && Recoverable(requested)
      && (front > 0 ==> FIRST_MOE_LAYER <= front <= LAST_LAYER && SealedIdeal(front))
    }

    /** The loop stands at a layer: it and everything above are intact, everything requested below is captured. */
    ghost predicate AtLayer(requested: set<nat>, layer: nat)
      reads this
    {
      && Valid(requested) && FIRST_MOE_LAYER <= layer <= front && IntactFrom(layer)
      && forall v :: v in requested && v < layer ==> CaptureOf(v).Complete?
    }

    // ---- primitives ----------------------------------------------------------

    method LoadState(layer: nat) returns (r: Load<D>)
      ensures r == match StateOf(layer) case Sealed(data) => Loaded(data) case Broken => BrokenState case _ => NoState
    {
      match StateOf(layer)
      case Sealed(data) => r := Loaded(data);
      case Broken => r := BrokenState;
      case Absent => r := NoState;
      case Partial => r := NoState;
    }

    /** What a removal may have left when the process dies in it: a manifest never appears, files go in any order. */
    static predicate MayLeave(before: StateDir<D>, after: StateDir<D>) {
      match before
      case Absent => after == Absent
      case Partial => after == Absent || after == Partial
      case Sealed(_) => after.Sealed? ==> after == before
      case Broken => !after.Sealed?
    }

    method RemoveState(layer: nat) returns (crashed: bool)
      modifies this
      ensures captures == old(captures) && front == old(front)
      ensures forall k :: k != layer ==> StateOf(k) == old(StateOf(k))
      ensures forall k :: CaptureOf(k) == old(CaptureOf(k))
      ensures MayLeave(old(StateOf(layer)), StateOf(layer))
      ensures StateOf(layer).Sealed? ==> StateOf(layer) == old(StateOf(layer))
      ensures !crashed ==> StateOf(layer) == Absent
    {
      crashed := *;
      var left: StateDir<D> := *;
      if !crashed || !MayLeave(StateOf(layer), left) {
        left := Absent;
      }
      states := states[layer := left];
    }

    method MakeState(layer: nat)
      modifies this
      ensures captures == old(captures) && front == old(front) && StateOf(layer) == Partial
      ensures forall k :: k != layer ==> StateOf(k) == old(StateOf(k))
      ensures forall k :: CaptureOf(k) == old(CaptureOf(k))
    {
      states := states[layer := Partial];
    }

    /** Writes the files of a state, then its manifest in one step. */
    method BuildState(layer: nat, data: D) returns (crashed: bool)
      modifies this
      ensures captures == old(captures)
      ensures forall k :: k != layer ==> StateOf(k) == old(StateOf(k))
      ensures forall k :: CaptureOf(k) == old(CaptureOf(k))
      ensures crashed ==> StateOf(layer) == Partial && front == old(front)
      ensures !crashed ==> StateOf(layer) == Sealed(data) && front == layer
    {
      states := states[layer := Partial];
      crashed := *;
      if !crashed {
        states := states[layer := Sealed(data)];
        front := layer;
      }
    }

    /** Drops any old capture, appends the rows, and finalizes the manifest last. */
    method Capture(layer: nat, data: D) returns (crashed: bool, rows: C)
      modifies this
      ensures states == old(states) && front == old(front)
      ensures forall k :: StateOf(k) == old(StateOf(k))
      ensures forall k :: k != layer ==> CaptureOf(k) == old(CaptureOf(k))
      ensures rows == model.tap(layer, data)
      ensures crashed ==> CaptureOf(layer) == Unfinished
      ensures !crashed ==> CaptureOf(layer) == Complete(rows)
    {
      captures := captures[layer := Unfinished];
      rows := model.tap(layer, data);
      crashed := *;
      if !crashed {
        captures := captures[layer := Complete(rows)];
      }
    }

    method CompleteRows(layer: nat) returns (r: Option<C>)
      ensures r == if CaptureOf(layer).Complete? then Some(CaptureOf(layer).rows) else None
    {
      if CaptureOf(layer).Complete? {
        return Some(CaptureOf(layer).rows);
      }
      return None;
    }

    // ---- resume point ----------------------------------------------------------

    /** The downward scan: it ends at the front and never meets a half-removed state. */
    method Scan(requested: set<nat>) returns (stateLayer: int, broken: Fault)
      requires Valid(requested)
      ensures broken == NoFault && stateLayer == front
    {
      stateLayer, broken := 0, NoFault;
      var candidate: nat := LAST_LAYER + 1;
      while candidate > 0
        invariant front <= candidate
      {
        var loaded := LoadState(candidate);
        if loaded.BrokenState? {
          return 0, BrokenRead(candidate);
        }
        if loaded.Loaded? {
          return candidate, NoFault;
        }
        candidate := candidate - 1;
      }
    }

    /** Seals the carried prefix when no state is sealed at all. */
    method Prefix(requested: set<nat>, stateLayer: nat) returns (crashed: bool, front': nat)
      requires IsRequest(requested) && Valid(requested) && stateLayer == front
      modifies this
      ensures Valid(requested) && captures == old(captures)
      ensures forall k: nat :: old(StateOf(k)).Sealed? ==> StateOf(k) == old(StateOf(k))
      ensures !crashed ==> front' == (if old(front) < FIRST_MOE_LAYER then FIRST_MOE_LAYER else old(front))
      ensures !crashed ==> front' == front >= FIRST_MOE_LAYER
    {
      crashed, front' := false, stateLayer;
      if stateLayer < FIRST_MOE_LAYER {
        crashed := BuildState(FIRST_MOE_LAYER, model.prefix);
        front' := FIRST_MOE_LAYER;
      }
    }

    /** Requested layers below the front: their captures, or the lowest layer that has to be captured again. */
    method ResumePoint(requested: set<nat>, stateLayer: nat) returns (resume: nat, captured: map<nat, C>, error: Fault)
      requires IsRequest(requested) && Valid(requested) && stateLayer == front >= FIRST_MOE_LAYER
      ensures error == NoFault && AtLayer(requested, resume)
      ensures forall v :: v in captured <==> v in requested && v < front && CaptureOf(v).Complete?
      ensures forall v :: v in captured ==> captured[v] == model.IdealCapture(v)
    {
      resume, captured, error := stateLayer, map[], NoFault;
      var value: nat := FIRST_MOE_LAYER;
      while value < stateLayer
        invariant FIRST_MOE_LAYER <= value <= stateLayer
        invariant error == NoFault && FIRST_MOE_LAYER <= resume <= stateLayer && IntactFrom(resume)
        invariant forall v :: v in captured <==> v in requested && v < value && CaptureOf(v).Complete?
        invariant forall v :: v in captured ==> captured[v] == model.IdealCapture(v)
        invariant forall v :: v in requested && v < resume && v < value ==> CaptureOf(v).Complete?
        invariant resume < stateLayer ==> resume < value
      {
        if value in requested {
          var rows := CompleteRows(value);
          if rows.Some? {
            captured := captured[value := rows.value];
          } else {
            assert IntactFrom(value) && SealedIdeal(value);
            var loaded := LoadState(value);
            if loaded.BrokenState? {
              return resume, captured, BrokenRead(value);
            }
            if loaded.NoState? {
              return resume, captured, AlreadyRetired(value);
            }
            resume := if value < resume then value else resume;
          }
        }
        value := value + 1;
      }
    }
  
    // ---- one layer ---------------------------------------------------------------

    /** mkdir of the successor state after dropping what an earlier attempt left of it. */
    method ClearSuccessor(requested: set<nat>, layer: nat) returns (crashed: bool)
      requires AtLayer(requested, layer) && layer == front
      modifies this
      ensures AtLayer(requested, layer) && layer == front && captures == old(captures)
      ensures forall k :: k != layer + 1 ==> StateOf(k) == old(StateOf(k))
    {
      crashed := RemoveState(layer + 1);
      if !crashed {
        MakeState(layer + 1);
      }
    }

    method CaptureLayer(requested: set<nat>, layer: nat, data: D) returns (crashed: bool, rows: C)
      requires AtLayer(requested, layer) && data == model.IdealState(layer)
      modifies this
      ensures AtLayer(requested, layer) && front == old(front) && states == old(states)
      ensures !crashed ==> CaptureOf(layer) == Complete(rows) && rows == model.IdealCapture(layer)
    {
      crashed, rows := Capture(layer, data);
    }

    method SealSuccessor(requested: set<nat>, layer: nat, data: D) returns (crashed: bool)
      requires AtLayer(requested, layer) && layer == front < LAST_LAYER && data == model.IdealState(layer)
      requires layer in requested ==> CaptureOf(layer).Complete?
      modifies this
      ensures AtLayer(requested, layer) && captures == old(captures)
      ensures if crashed then front == layer else front == layer + 1
      ensures forall k :: k != layer + 1 ==> StateOf(k) == old(StateOf(k))
    {
      crashed := BuildState(layer + 1, model.advance(layer, data));
    }

    /** The input of a finished layer goes only when its successor is sealed. */
    method Retire(requested: set<nat>, layer: nat) returns (crashed: bool)
      requires AtLayer(requested, layer) && layer < front
      requires layer in requested ==> CaptureOf(layer).Complete?
      modifies this
      ensures AtLayer(requested, layer + 1) && captures == old(captures) && front == old(front)
      ensures forall k :: k != layer ==> StateOf(k) == old(StateOf(k))
      ensures !crashed ==> StateOf(layer) == Absent
    {
      crashed := RemoveState(layer);
    }

    /** What the layer still has to produce, and its capture when that is already complete. */
    method Inspect(requested: set<nat>, layer: nat, hasSuccessor: bool)
      returns (data: D, summary: Option<C>, ready: bool, error: Fault)
      requires AtLayer(requested, layer)
      ensures error == NoFault && data == model.IdealState(layer)
      ensures summary == if layer in requested && CaptureOf(layer).Complete? then Some(model.IdealCapture(layer)) else None
      ensures ready == (!hasSuccessor || layer < front)
    {
      summary, ready, error, data := None, !hasSuccessor, NoFault, model.prefix;
      assert SealedIdeal(layer);
      var loaded := LoadState(layer);
      if loaded.BrokenState? {
        return data, summary, ready, BrokenRead(layer);
      }
      if loaded.NoState? {
        return data, summary, ready, MissingInput(layer);
      }
      data := loaded.data;
      if layer in requested {
        summary := CompleteRows(layer);
      }
      if hasSuccessor {
        assert layer < front ==> SealedIdeal(layer + 1);
        var next := LoadState(layer + 1);
        if next.BrokenState? {
          return data, summary, ready, BrokenRead(layer);
        }
        ready := next.Loaded?;
      }
    }

    /** Captures, seals the successor, in that order; skipped parts are already there. */
    method Produce(requested: set<nat>, layer: nat, data: D, needsCapture: bool, needsSuccessor: bool)
      returns (crashed: bool, rows: Option<C>)
      requires AtLayer(requested, layer) && data == model.IdealState(layer)
      requires needsSuccessor ==> layer == front < LAST_LAYER
      requires layer in requested && !needsCapture ==> CaptureOf(layer).Complete?
      modifies this
      ensures AtLayer(requested, layer)
      ensures !crashed ==> front == (if needsSuccessor then layer + 1 else old(front))
      ensures !crashed && layer in requested ==> CaptureOf(layer).Complete?
      ensures !crashed ==> rows == if needsCapture then Some(model.IdealCapture(layer)) else None
      ensures forall k :: k != layer + 1 || !needsSuccessor ==> StateOf(k) == old(StateOf(k))
    {
      crashed, rows := false, None;
      if needsSuccessor {
        crashed := ClearSuccessor(requested, layer);
        if crashed {
          return;
        }
      }
      if needsCapture {
        var recorded;
        crashed, recorded := CaptureLayer(requested, layer, data);
        if crashed {
          return;
        }
        rows := Some(recorded);
      }
      if needsSuccessor {
        crashed := SealSuccessor(requested, layer, data);
      }
    }

    /** One round of the layer loop. */
    method StepLayer(requested: set<nat>, layer: nat, final: nat, retire: bool, captured: map<nat, C>)
      returns (crashed: bool, captured': map<nat, C>, error: Fault)
      requires IsRequest(requested) && AtLayer(requested, layer) && layer <= final <= LAST_LAYER
      requires forall v :: v in captured ==> v in requested && captured[v] == model.IdealCapture(v)
      modifies this
      ensures error == NoFault && Valid(requested)
      ensures !crashed && layer < final ==> AtLayer(requested, layer + 1)
      ensures !crashed ==> forall v :: v in requested && v <= layer ==> CaptureOf(v).Complete?
      ensures !crashed ==> captured' == if layer in requested then captured[layer := model.IdealCapture(layer)] else captured
      ensures forall k: nat :: k < layer ==> StateOf(k) == old(StateOf(k))
      ensures forall k: nat :: old(StateOf(k)).Sealed? && !(retire && k == layer < final) ==> StateOf(k) == old(StateOf(k))
      ensures !crashed && retire && layer < final ==> StateOf(layer) == Absent
    {
      captured' := captured;
      var hasSuccessor := layer < final && layer < LAST_LAYER;
      var data, summary, ready, failure := Inspect(requested, layer, hasSuccessor);
      if failure != NoFault {
        return false, captured, failure;
      }
      error := NoFault;
      var needsCapture := layer in requested && summary.None?;
      var needsSuccessor := hasSuccessor && !ready;
      if summary.Some? {
        captured' := captured'[layer := summary.value];
      }
      var rows: Option<C>;
      crashed, rows := Produce(requested, layer, data, needsCapture, needsSuccessor);
      if crashed {
        return;
      }
      if rows.Some? {
        captured' := captured'[layer := rows.value];
      }
      if retire && hasSuccessor {
        crashed := Retire(requested, layer);
      }
    }

    // ---- the pass ------------------------------------------------------------------

    /** The layer loop from the resume point to the last requested layer. */
    method StreamLayers(requested: set<nat>, resume: nat, final: nat, retire: bool, captured: map<nat, C>)
      returns (crashed: bool, captured': map<nat, C>, error: Fault)
      requires IsRequest(requested) && AtLayer(requested, resume) && final in requested && forall v :: v in requested ==> v <= final
      requires forall v :: v in captured ==> v in requested && captured[v] == model.IdealCapture(v)
      requires forall v :: v in requested && v < resume ==> v in captured
      modifies this
      ensures error == NoFault && Valid(requested)
      ensures !crashed ==> captured'.Keys == requested && forall v :: v in requested ==> captured'[v] == model.IdealCapture(v)
      ensures !crashed ==> forall v :: v in requested ==> CaptureOf(v).Complete?
      ensures forall k: nat :: old(StateOf(k)).Sealed? && !(retire && k < final) ==> StateOf(k) == old(StateOf(k))
      ensures !crashed && retire ==> forall k :: resume <= k < final ==> StateOf(k) == Absent
    {
      crashed, captured', error := false, captured, NoFault;
      var layer := resume;
      while layer <= final
        invariant error == NoFault && !crashed && Valid(requested) && (layer <= final ==> AtLayer(requested, layer))
        invariant forall v :: v in captured' ==> v in requested && captured'[v] == model.IdealCapture(v)
        invariant forall v :: v in requested && v < layer ==> v in captured' && CaptureOf(v).Complete?
        invariant forall k: nat :: old(StateOf(k)).Sealed? && !(retire && k < final) ==> StateOf(k) == old(StateOf(k))
        invariant retire ==> forall k :: resume <= k < layer && k < final ==> StateOf(k) == Absent
        decreases final + 1 - layer
      {
        crashed, captured', error := StepLayer(requested, layer, final, retire, captured');
        if crashed {
          return;
        }
        if error != NoFault {
          return;
        }
        layer := layer + 1;
      }
    }

    /**
      * One run of the pass. It may die anywhere; it never reports a retired or missing input and never reads a
      * half-removed state; when it finishes, every requested layer holds what a pass without crashes records.
      * Without retire no sealed state is lost; with it, those below the last requested layer go once they are used.
      */
    method RunCapture(requested: set<nat>, final: nat, retire: bool) returns (r: Result<C>)
      requires IsRequest(requested) && Valid(requested) && final in requested && forall v :: v in requested ==> v <= final
      modifies this
      ensures Valid(requested)
      ensures r == Crashed || (r.Finished? && r.captured.Keys == requested)
      ensures r.Finished? ==> forall v :: v in requested ==>
        r.captured[v] == model.IdealCapture(v) && CaptureOf(v) == Complete(model.IdealCapture(v))
      ensures forall k: nat :: old(StateOf(k)).Sealed? && !(retire && k < final) ==> StateOf(k) == old(StateOf(k))
      ensures r.Finished? && retire ==> forall k :: FIRST_MOE_LAYER <= k && old(front) <= k < final ==> StateOf(k) == Absent
    {
      var stateLayer, broken := Scan(requested);
      if broken != NoFault {
        return Failed(broken);
      }
      var crashed, front' := Prefix(requested, stateLayer);
      if crashed {
        return Crashed;
      }
      var resume, captured, error := ResumePoint(requested, front');
      if error != NoFault {
        return Failed(error);
      }
      crashed, captured, error := StreamLayers(requested, resume, final, retire, captured);
      if crashed {
        return Crashed;
      }
      if error != NoFault {
        return Failed(error);
      }
      return if forall v :: v in requested ==> v in captured then Finished(captured) else Failed(WithoutLayers);
    }
  }

  /** Any number of runs over a fresh store, each with its own choice to keep or retire states. */
  method Restarts<D(==), C(==)>(store: Store<D, C>, requested: set<nat>, final: nat, retire: seq<bool>) returns (last: Result<C>)
    requires IsRequest(requested) && store.Valid(requested) && final in requested && forall v :: v in requested ==> v <= final
    modifies store
    ensures store.Valid(requested)
    ensures last == Crashed || (last.Finished? && last.captured.Keys == requested)
    ensures last.Finished? ==> forall v :: v in requested ==> last.captured[v] == store.model.IdealCapture(v)
  {
    last := Crashed;
    for k := 0 to |retire|
      invariant store.Valid(requested)
      invariant last == Crashed || (last.Finished? && last.captured.Keys == requested)
      invariant last.Finished? ==> forall v :: v in requested ==> last.captured[v] == store.model.IdealCapture(v)
    {
      last := store.RunCapture(requested, final, retire[k]);
    }
  }
}
