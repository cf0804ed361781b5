/** The pipelined step: a bounded deque of batches in flight between scheduling and folding back. */
module BatchQueue {
  import opened Common
  import opened Orders

  datatype Config = Config(size: nat, ecConsumer: bool, pooling: bool)

  /**
    * What one call meets: has_requests before scheduling, tokens scheduled, structured output tokens still
    * pending, has_requests after scheduling.
    */
  datatype Input = Input(hasRequests: bool, tokens: bool, pending: bool, more: bool)

  /** A call of sample_tokens: for which batch, deferred or not, and how many batches were folded in by then. */
  datatype Sample = Sample(batch: nat, deferred: bool, folded: nat)

  /** Batches are numbered in schedule order; the queue holds the newest first. */
  datatype Pipeline = Pipeline(queue: seq<nat>, next: nat, folded: seq<nat>, samples: seq<Sample>)

  datatype Outcome = Idle | Queued(executed: bool) | Output(batch: nat, executed: bool) | EmptyPop

  predicate Executed(c: Config, i: Input) {
    c.ecConsumer && i.tokens
  }

  predicate Sampled(c: Config, i: Input) {
    i.hasRequests && Executed(c, i) && !c.pooling
  }

  predicate Deferred(c: Config, i: Input) {
    Sampled(c, i) && i.pending
  }

  /** deque(maxlen=size).appendleft: a full deque silently drops its last entry. */
  function AppendLeft(queue: seq<nat>, batch: nat, size: nat): (r: seq<nat>)
    ensures |r| <= size || |r| <= |queue|
  {
    if size == 0 then []
    else if |queue| >= size then [batch] + queue[..size - 1]
    else [batch] + queue
  }

  function Pop(p: Pipeline): Pipeline
    requires p.queue != []
  {
    var last := |p.queue| - 1;
    p.(queue := p.queue[..last], folded := p.folded + [p.queue[last]])
  }

  /** The call schedules a batch and returns at once, the queue not being full. */
  predicate ReturnsEarly(c: Config, p: Pipeline, i: Input) {
    i.hasRequests && !Deferred(c, i) && |AppendLeft(p.queue, p.next, c.size)| < c.size && (Executed(c, i) || i.more)
  }

  /** State after scheduling, before the pop. */
  function Scheduled(c: Config, p: Pipeline, i: Input): Pipeline {
    if !i.hasRequests then p
    else if Deferred(c, i) then p.(next := p.next + 1)
    else p.(queue := AppendLeft(p.queue, p.next, c.size), next := p.next + 1,
            samples := if Sampled(c, i) then p.samples + [Sample(p.next, false, |p.folded|)] else p.samples)
  }

  /** One call; None is the IndexError of popping an empty deque. */
  function Stepped(c: Config, p: Pipeline, i: Input): Option<Pipeline> {
    var s := Scheduled(c, p, i);
    if ReturnsEarly(c, p, i) || (!i.hasRequests && p.queue == []) then Some(s)
    else if s.queue == [] then None
    else
      var popped := Pop(s);
      if Deferred(c, i) then
        Some(popped.(queue := AppendLeft(popped.queue, p.next, c.size),
                     samples := popped.samples + [Sample(p.next, true, |popped.folded|)]))
      else
        Some(popped)
  }

  // ---- what every call keeps -------------------------------------------------

  /** Batches came back in schedule order, each once, and the rest are in flight, newest first. */
  ghost predicate InOrder(p: Pipeline) {
    && p.folded == Range(|p.folded|)
    && p.next == |p.folded| + |p.queue|
    && forall j :: 0 <= j < |p.queue| ==> p.queue[j] == p.next - 1 - j
  }

  /** Sampling happens after scheduling, and with at most size - 2 earlier batches unfolded when it was deferred. */
  ghost predicate SamplesOk(c: Config, p: Pipeline) {
    forall k :: 0 <= k < |p.samples| ==>
      var s := p.samples[k];
      s.batch < p.next && s.folded <= s.batch && (s.deferred ==> s.batch < s.folded + c.size - 1)
  }

  ghost predicate Ok(c: Config, p: Pipeline) {
    |p.queue| < c.size && InOrder(p) && SamplesOk(c, p)
  }

  /** The scheduler's contract: structured tokens are pending only while a batch is in flight. */
  predicate Contract(c: Config, p: Pipeline, i: Input) {
    Deferred(c, i) ==> p.queue != []
  }

  /** Between the entry assertion and the return nothing is ever dropped from the deque. */
  lemma NothingDropped(c: Config, p: Pipeline, i: Input)
    requires Ok(c, p)
    ensures |Scheduled(c, p, i).queue| <= c.size
    ensures Scheduled(c, p, i).queue == if i.hasRequests && !Deferred(c, i) then [p.next] + p.queue else p.queue
  {
  }

  lemma ScheduledInOrder(c: Config, p: Pipeline, i: Input)
    requires Ok(c, p) && !Deferred(c, i)
    ensures InOrder(Scheduled(c, p, i)) && SamplesOk(c, Scheduled(c, p, i))
  {
    NothingDropped(c, p, i);
  }

  lemma PopInOrder(p: Pipeline)
    requires InOrder(p) && p.queue != []
    ensures InOrder(Pop(p)) && p.queue[|p.queue| - 1] == |p.folded|
  {
    assert Range(|p.folded| + 1) == Range(|p.folded|) + [|p.folded|];
  }

  /** Whatever was just scheduled, the batch the call pops is the first one not yet folded. */
  lemma OldestIsNext(c: Config, p: Pipeline, i: Input)
    requires Ok(c, p) && Scheduled(c, p, i).queue != []
    ensures Scheduled(c, p, i).queue[|Scheduled(c, p, i).queue| - 1] == |p.folded|
  {
    NothingDropped(c, p, i);
  }

  /** The entry assertion holds again after the call, unless the call broke exactly on the scheduler's contract. */
  lemma StepKeeps(c: Config, p: Pipeline, i: Input)
    requires Ok(c, p)
    ensures Stepped(c, p, i).None? <==> !Contract(c, p, i)
    ensures Stepped(c, p, i).Some? ==> Ok(c, Stepped(c, p, i).value)
  {
    NothingDropped(c, p, i);
    if Deferred(c, i) {
      if p.queue != [] {
        PopInOrder(p);
        var s := Scheduled(c, p, i);
        var out := Stepped(c, p, i).value;
        assert out.queue == [p.next] + p.queue[..|p.queue| - 1];
      }
    } else {
      ScheduledInOrder(c, p, i);
      var s := Scheduled(c, p, i);
      if s.queue != [] {
        PopInOrder(s);
      }
    }
  }

  /** A deferred batch is sampled with every earlier batch folded in exactly when one batch was in flight at entry. */
  lemma DeferredAfterAllIff(c: Config, p: Pipeline, i: Input)
    requires Ok(c, p) && Deferred(c, i) && p.queue != []
    ensures
      var out := Stepped(c, p, i).value;
      out.samples[|p.samples|] == Sample(p.next, true, |p.folded| + 1) && (p.next == |p.folded| + 1 <==> |p.queue| == 1)
  {
  }

  // ---- whole runs ------------------------------------------------------------

  /** Calls with the inputs in order, each meeting the contract. */
  predicate Honest(c: Config, p: Pipeline, inputs: seq<Input>)
    decreases |inputs|
  {
    inputs == [] ||
    (Contract(c, p, inputs[0]) && Stepped(c, p, inputs[0]).Some? && Honest(c, Stepped(c, p, inputs[0]).value, inputs[1..]))
  }

  function After(c: Config, p: Pipeline, inputs: seq<Input>): Pipeline
    requires Honest(c, p, inputs)
    decreases |inputs|
  {
    if inputs == [] then p else After(c, Stepped(c, p, inputs[0]).value, inputs[1..])
  }

  lemma {:induction false} RunKeeps(c: Config, p: Pipeline, inputs: seq<Input>)
    requires Ok(c, p) && Honest(c, p, inputs)
    ensures Ok(c, After(c, p, inputs))
    decreases |inputs|
  {
    if inputs != [] {
      StepKeeps(c, p, inputs[0]);
      RunKeeps(c, Stepped(c, p, inputs[0]).value, inputs[1..]);
    }
  }

  function Empty(): Pipeline {
    Pipeline([], 0, [], [])
  }

  /** Over any run every batch is folded back at most once, in schedule order, and only those in flight are missing. */
  lemma RunFoldsInOrder(c: Config, inputs: seq<Input>)
    requires c.size > 0 && Honest(c, Empty(), inputs)
    ensures
      var p := After(c, Empty(), inputs);
      |p.queue| < c.size && p.folded == Range(|p.folded|) && p.next == |p.folded| + |p.queue|
  {
    RunKeeps(c, Empty(), inputs);
  }

  /** What is known of a sample when its batch is scheduled. */
  datatype Mark = Mark(batch: nat, deferred: bool)

  function Marks(samples: seq<Sample>): (marks: seq<Mark>)
    ensures |marks| == |samples| && forall k :: 0 <= k < |samples| ==> marks[k] == Mark(samples[k].batch, samples[k].deferred)
  {
    seq(|samples|, k requires 0 <= k < |samples| => Mark(samples[k].batch, samples[k].deferred))
  }

  /** One sample for every batch the model executed and does not pool, deferred exactly when tokens are pending. */
  function Due(c: Config, inputs: seq<Input>, next: nat): seq<Mark> {
    if inputs == [] then []
    else
      var i := inputs[0];
      (if i.hasRequests && c.ecConsumer && i.tokens && !c.pooling then [Mark(next, i.pending)] else [])
      + Due(c, inputs[1..], if i.hasRequests then next + 1 else next)
  }

  lemma StepSamples(c: Config, p: Pipeline, i: Input)
    requires Ok(c, p) && Contract(c, p, i) && Stepped(c, p, i).Some?
    ensures Marks(Stepped(c, p, i).value.samples) == Marks(p.samples) + Due(c, [i], p.next)
    ensures Stepped(c, p, i).value.next == p.next + if i.hasRequests then 1 else 0
  {
    NothingDropped(c, p, i);
    assert Due(c, [i], p.next) == if i.hasRequests && c.ecConsumer && i.tokens && !c.pooling then [Mark(p.next, i.pending)] else [];
  }

  lemma DueNext(c: Config, inputs: seq<Input>, next: nat)
    requires inputs != []
    ensures Due(c, inputs, next) == Due(c, [inputs[0]], next) + Due(c, inputs[1..], next + if inputs[0].hasRequests then 1 else 0)
  {
    assert [inputs[0]][1..] == [];
  }

  lemma Regroup<T>(a: seq<T>, b: seq<T>, c: seq<T>)
    ensures (a + b) + c == a + (b + c)
  {
  }

  /** Over any run exactly the batches that need it are sampled, once each, in schedule order. */
  lemma {:induction false} RunSamplesOnce(c: Config, p: Pipeline, inputs: seq<Input>)
    requires Ok(c, p) && Honest(c, p, inputs)
    ensures Marks(After(c, p, inputs).samples) == Marks(p.samples) + Due(c, inputs, p.next)
    decreases |inputs|
  {
    if inputs != [] {
      var q := Stepped(c, p, inputs[0]).value;
      StepKeeps(c, p, inputs[0]);
      StepSamples(c, p, inputs[0]);
      DueNext(c, inputs, p.next);
      RunSamplesOnce(c, q, inputs[1..]);
      Regroup(Marks(p.samples), Due(c, [inputs[0]], p.next), Due(c, inputs[1..], q.next));
    }
  }

  /** With a queue of two, a deferred batch is sampled only after all earlier batches are folded in. */
  lemma DeferredAfterAllWithSizeTwo(c: Config, inputs: seq<Input>, k: nat)
    requires c.size == 2 && Honest(c, Empty(), inputs) && k < |After(c, Empty(), inputs).samples|
    requires After(c, Empty(), inputs).samples[k].deferred
    ensures After(c, Empty(), inputs).samples[k].folded == After(c, Empty(), inputs).samples[k].batch
  {
    RunKeeps(c, Empty(), inputs);
  }

  /** Which outcome a call has: it queues a batch and returns while there is room and more to come. */
  ghost predicate Meets(c: Config, p: Pipeline, i: Input, outcome: Outcome) {
    var executed := i.hasRequests && c.ecConsumer && i.tokens;
    var waits := executed && !c.pooling && i.pending;
    && (outcome.Idle? <==> !i.hasRequests && p.queue == [])
    && (outcome.Queued? <==> i.hasRequests && !waits && |p.queue| + 1 < c.size && (executed || i.more))
    && (outcome.Queued? || outcome.Output? ==> outcome.executed == executed)
  }

  /** What a call leaves: the new batch at the head of the queue, the last one gone if there was an output, one sample at most. */
  ghost predicate Leaves(c: Config, p: Pipeline, i: Input, outcome: Outcome, q: Pipeline) {
    var grown := (if i.hasRequests then [p.next] else []) + p.queue;
    var sampled := i.hasRequests && c.ecConsumer && i.tokens && !c.pooling;
    && q.next == (if i.hasRequests then p.next + 1 else p.next)
    && (outcome.Output? ==> grown != [] && q.queue == grown[..|grown| - 1]) && (!outcome.Output? ==> q.queue == grown)
    && q.samples == p.samples + if sampled then [Sample(p.next, i.pending, |p.folded| + if i.pending then 1 else 0)] else []
  }

  /** Whether a call gets to the pop. */
  predicate Pops(c: Config, p: Pipeline, i: Input) {
    !ReturnsEarly(c, p, i) && (i.hasRequests || p.queue != [])
  }

  lemma StepLeaves(c: Config, p: Pipeline, i: Input, outcome: Outcome)
    requires Ok(c, p) && Contract(c, p, i) && Stepped(c, p, i).Some? && (outcome.Output? <==> Pops(c, p, i))
    ensures Leaves(c, p, i, outcome, Stepped(c, p, i).value)
  {
    NothingDropped(c, p, i);
  }

  // ---- the engine --------------------------------------------------------------

  datatype ShutdownState = Running | Requested | ShuttingDown

  class EngineCore {
    const config: Config
    var batchQueue: seq<nat>
    var next: nat
    var shutdownState: ShutdownState
    ghost var folded: seq<nat>
    ghost var samples: seq<Sample>

    ghost function State(): Pipeline
      reads this
    {
      Pipeline(batchQueue, next, folded, samples)
    }

    ghost predicate Valid()
      reads this
    {
      Ok(config, State())
    }

    constructor (config: Config)
      requires config.size > 0
      ensures Valid() && State() == Empty() && this.config == config && shutdownState == Running
    {
      this.config, batchQueue, next, folded, samples, shutdownState := config, [], 0, [], [], Running;
    }

    /** Schedules one batch and queues it, unless its sampling has to wait for the prior step's output. */
    method Schedule(i: Input) returns (executed: bool, deferred: Option<nat>)
      requires i.hasRequests
      modifies this
      ensures State() == Scheduled(config, old(State()), i) && shutdownState == old(shutdownState)
      ensures executed == Executed(config, i) && deferred == if Deferred(config, i) then Some(old(next)) else None
    {
      var batch := next;
      next := next + 1;
      executed := config.ecConsumer && i.tokens;
      deferred := None;
      if !(config.pooling || !executed) {
        if !i.pending {
          samples := samples + [Sample(batch, false, |folded|)];
        } else {
          deferred := Some(batch);
        }
      }
      if deferred.None? {
        batchQueue := AppendLeft(batchQueue, batch, config.size);
      }
    }

    /** Folds the oldest batch back, then samples and queues a deferred one. */
    method FoldOldest(deferred: Option<nat>) returns (oldest: nat)
      requires batchQueue != []
      modifies this
      ensures shutdownState == old(shutdownState) && oldest == old(batchQueue[|batchQueue| - 1])
      ensures
        var popped := Pop(old(State()));
        State() == if deferred.None? then popped
                   else popped.(queue := AppendLeft(popped.queue, deferred.value, config.size),
                                samples := popped.samples + [Sample(deferred.value, true, |popped.folded|)])
    {
      oldest := batchQueue[|batchQueue| - 1];
      batchQueue := batchQueue[..|batchQueue| - 1];
      folded := folded + [oldest];
      if deferred.Some? {
        samples := samples + [Sample(deferred.value, true, |folded|)];
        batchQueue := AppendLeft(batchQueue, deferred.value, config.size);
      }
    }

    /** step_with_batch_queue: it breaks exactly on the scheduler's contract, and an output is the oldest batch. */
    method Step(i: Input) returns (outcome: Outcome)
      requires Valid()
      modifies this
      ensures shutdownState == old(shutdownState)
      ensures outcome == EmptyPop <==> !Contract(config, old(State()), i)
      ensures outcome != EmptyPop ==> Valid() && Stepped(config, old(State()), i) == Some(State())
      ensures outcome.Output? ==> outcome.batch == |old(folded)| && folded == old(folded) + [outcome.batch]
      ensures outcome.Idle? || outcome.Queued? ==> folded == old(folded)
      ensures Meets(config, old(State()), i, outcome)
      ensures outcome != EmptyPop ==> Leaves(config, old(State()), i, outcome, State())
    {
      ghost var before := State();
      StepKeeps(config, before, i);
      NothingDropped(config, before, i);
      assert |batchQueue| < config.size;
      var executed, deferred := false, None;
      if i.hasRequests {
        executed, deferred := Schedule(i);
        if deferred.None? && |batchQueue| < config.size && (executed || i.more) {
          StepLeaves(config, before, i, Queued(executed));
          return Queued(executed);
        }
      } else if batchQueue == [] {
        StepLeaves(config, before, i, Idle);
        return Idle;
      }
      if batchQueue == [] {
        return EmptyPop;
      }
      OldestIsNext(config, before, i);
      var oldest := FoldOldest(deferred);
      StepLeaves(config, before, i, Output(oldest, executed));
      return Output(oldest, executed);
    }

    /** The loop goes on while running or while there is work; hasRequests is what the scheduler reports. */
    method HandleShutdown(engines: bool, hasRequests: bool) returns (goOn: bool)
      requires Valid()
      modifies this`shutdownState
      ensures goOn <==> old(shutdownState) == Running || engines || hasRequests || batchQueue != []
      ensures !goOn ==> folded == Range(next)
    {
      if shutdownState == Running {
        return true;
      }
      if shutdownState == Requested {
        shutdownState := ShuttingDown;
      }
      return engines || hasRequests || batchQueue != [];
    }
  }

  /** What one round of the busy loop meets: a shutdown request, engines_running and has_requests at the check, a step. */
  datatype Round = Round(shutdown: bool, engines: bool, hasRequests: bool, input: Input)

  /** The busy loop over any rounds: if it exits, the queue is empty and every scheduled batch was folded back in order. */
  method RunBusyLoop(core: EngineCore, rounds: seq<Round>) returns (exited: bool, broke: bool)
    requires core.Valid()
    modifies core
    ensures !broke ==> core.Valid()
    ensures exited ==> core.batchQueue == [] && core.folded == Range(core.next)
  {
    exited, broke := false, false;
    for k := 0 to |rounds|
      invariant core.Valid()
    {
      if rounds[k].shutdown && core.shutdownState == Running {
        core.shutdownState := Requested;
      }
      var goOn := core.HandleShutdown(rounds[k].engines, rounds[k].hasRequests);
      if !goOn {
        return true, false;
      }
      var outcome := core.Step(rounds[k].input);
      if outcome == EmptyPop {
        return false, true;
      }
    }
  }
}
