/** The engine cores themselves: one object per rank, driven through the events of the wave model. */
module DpCores {
  import opened DpWave

  class DPEngineCore {
    const coordinator: bool
    var phase: Phase
    var taken: nat
    var stepCounter: nat
    var enginesRunning: bool
    var pendingPause: bool
    var ignoreStartDpWave: bool
    var currentWave: int
    var pauseState: PauseState
    var running: nat
    var waiting: nat

    function State(): Rank
      reads this
    {
      Rank(phase, taken, stepCounter, enginesRunning, pendingPause, ignoreStartDpWave, currentWave, pauseState, running, waiting)
    }

    constructor (coordinator: bool)
      ensures Initial(System([State()], [])) && this.coordinator == coordinator
    {
      this.coordinator := coordinator;
      phase, taken, stepCounter, currentWave := Loop, 0, 0, 0;
      enginesRunning, pendingPause, ignoreStartDpWave, pauseState := false, false, false, Unpaused;
      running, waiting := 0, 0;
    }

    /** A request of a finished wave wakes an idle unpaused engine and announces the wave to start. */
    method AddRequest(requestWave: int) returns (startWave: bool)
      modifies this
      ensures State() == old(State()).Add(requestWave, coordinator)
      ensures startWave <==> (enginesRunning && !old(enginesRunning))
      ensures State() == old(State()).(
        waiting := old(waiting) + 1,
        wave := if coordinator && requestWave > old(currentWave) then requestWave else old(currentWave),
        engines := old(enginesRunning) || (coordinator && requestWave < old(currentWave) && old(pauseState) == Unpaused))
    {
      startWave := false;
      waiting := waiting + 1;
      if coordinator && requestWave != currentWave {
        if requestWave > currentWave {
          currentWave := requestWave;
        } else if !enginesRunning && pauseState == Unpaused {
          enginesRunning := true;
          startWave := true;
        }
      }
    }

    method StartDpWave(newWave: int, excluded: bool)
      modifies this
      ensures State() == old(State()).Start(newWave, excluded)
      ensures State() == if old(ignoreStartDpWave) || excluded || newWave < old(currentWave) then old(State())
                         else old(State()).(wave := newWave, engines := true)
    {
      if ignoreStartDpWave {
        return;
      }
      if !excluded && newWave >= currentWave {
        currentWave := newWave;
        if !enginesRunning {
          enginesRunning := true;
        }
      }
    }

    method PauseScheduler(mode: PauseMode)
      modifies this
      ensures State() == old(State()).Paused(mode)
      ensures State() == old(State()).(
        running := if mode == Abort then 0 else old(running), waiting := if mode == Abort then 0 else old(waiting),
        pause := if mode == Keep then PausedAll else PausedNew, pending := true, engines := true)
    {
      if mode == Abort {
        running, waiting := 0, 0;
      }
      pauseState := if mode == Keep then PausedAll else PausedNew;
      pendingPause := true;
      enginesRunning := true;
    }

    /** Up to the barrier; raised is the RuntimeError for a pause still in flight. */
    method ResumeScheduler() returns (raised: bool)
      modifies this
      ensures State() == old(State()).ResumeBegun() && raised == old(State()).ResumeRaises()
      ensures raised <==> old(pendingPause) || (old(enginesRunning) && old(ignoreStartDpWave))
      ensures State() == if raised || old(enginesRunning) then old(State())
                         else old(State()).(pause := Unpaused, ignore := false, phase := AtResume)
    {
      raised := pendingPause || (enginesRunning && ignoreStartDpWave);
      if raised || enginesRunning {
        return;
      }
      pauseState := Unpaused;
      ignoreStartDpWave := false;
      phase := AtResume;
    }

    method FinishResume(unfinished: bool)
      modifies this
      ensures State() == old(State()).ResumeEnded(unfinished)
      ensures State() == old(State()).(engines := old(enginesRunning) || unfinished, phase := Loop, taken := old(taken) + 1)
    {
      if unfinished {
        enginesRunning := true;
      }
      phase, taken := Loop, taken + 1;
    }

    /** One loop iteration after the step function left the given requests; it may end blocked in the all-reduce. */
    method LoopIteration(running': nat, waiting': nat, executed: bool)
      modifies this
      ensures State() == old(State()).Iterated(running', waiting', executed)
      ensures
        var work := if pauseState == Unpaused then running' > 0 || waiting' > 0 else pauseState == PausedNew && running' > 0;
        var stepped := old(State()).(running := running', waiting := waiting');
        State() == if !executed && !work && !old(enginesRunning) then stepped
                   else if (old(stepCounter) + 1) % 32 == 0 then stepped.(counter := old(stepCounter) + 1, phase := AtSync)
                   else stepped.(counter := old(stepCounter) + 1, engines := true)
    {
      running, waiting := running', waiting';
      var unfinished := State().HasUnfinished();
      if !executed && !unfinished && !enginesRunning {
        return;
      }
      stepCounter := stepCounter + 1;
      if stepCounter % SYNC_EVERY != 0 {
        enginesRunning := true;
      } else {
        phase := AtSync;
      }
    }

    /** The all-reduce has returned. */
    method FinishSync(unfinished: bool, consensus: bool) returns (waveComplete: bool)
      modifies this
      ensures State() == old(State()).Synced(unfinished, consensus) && waveComplete == !unfinished
      ensures State() == old(State()).(
        engines := unfinished, phase := Loop, taken := old(taken) + 1,
        ignore := old(ignoreStartDpWave) || consensus, pending := old(pendingPause) && !consensus,
        wave := if unfinished then old(currentWave) else old(currentWave) + 1, counter := if unfinished then old(stepCounter) else 0)
    {
      if consensus {
        ignoreStartDpWave := true;
        pendingPause := false;
      }
      enginesRunning := unfinished;
      phase, taken := Loop, taken + 1;
      waveComplete := !enginesRunning;
      if !enginesRunning {
        currentWave := currentWave + 1;
        stepCounter := 0;
      }
    }

    /** Whatever the thread does next, other than being released from a barrier. */
    method Handle(e: Event, log: seq<Collective>)
      requires !e.SyncBarrier? && !e.ResumeBarrier? && (e.AddRequest? ==> e.coordinator == coordinator)
      requires e.TakeSync? || e.TakeResume? ==> taken < |log|
      requires e.TakeSync? ==> log[taken].Sync?
      modifies this
      ensures State() == RankAfter(old(State()), e, log)
    {
      match e
      case AddRequest(_, requestWave, _) => var _ := AddRequest(requestWave);
      case AbortRequests(_, running', waiting') => running, waiting := running', waiting';
      case StartWave(_, newWave, excluded) => StartDpWave(newWave, excluded);
      case PauseScheduler(_, mode) => PauseScheduler(mode);
      case ResumeScheduler(_) => var _ := ResumeScheduler();
      case Iterate(_, running', waiting', executed) => LoopIteration(running', waiting', executed);
      case TakeSync(_) => var _ := FinishSync(log[taken].unfinished, log[taken].consensus);
      case TakeResume(_) => FinishResume(log[taken].unfinished);
    }

    method Release(released: Phase)
      modifies this
      ensures State() == old(State()).(phase := released)
    {
      phase := released;
    }
  }

  // ---- all cores ------------------------------------------------------------------

  predicate Apart(cores: seq<DPEngineCore>) {
    forall i, j :: 0 <= i < j < |cores| ==> cores[i] != cores[j]
  }

  function States(cores: seq<DPEngineCore>): (r: seq<Rank>)
    reads cores
    ensures |r| == |cores|
  {
    seq(|cores|, i requires 0 <= i < |cores| reads cores => cores[i].State())
  }

  /** Every request reaches a core that knows whether there is a coordinator. */
  predicate Addressed(cores: seq<DPEngineCore>, e: Event) {
    e.AddRequest? && e.i < |cores| ==> e.coordinator == cores[e.i].coordinator
  }

  /** Whether a core has work its scheduler may still run. */
  predicate HasWork(core: DPEngineCore)
    reads core
  {
    if core.pauseState == Unpaused then core.running > 0 || core.waiting > 0 else core.pauseState == PausedNew && core.running > 0
  }

  /** The all-reduce of the given kind over the cores. */
  method Reduce(cores: seq<DPEngineCore>) returns (unfinished: bool, pending: bool)
    ensures unfinished == AnyUnfinished(System(States(cores), [])) && pending == AllPending(System(States(cores), []))
    ensures unfinished <==> exists k :: 0 <= k < |cores| && HasWork(cores[k])
    ensures pending <==> forall k :: 0 <= k < |cores| ==> cores[k].pendingPause
  {
    unfinished, pending := false, true;
    for i := 0 to |cores|
      invariant unfinished <==> exists k :: 0 <= k < i && States(cores)[k].HasUnfinished()
      invariant pending <==> forall k :: 0 <= k < i ==> States(cores)[k].pending
      invariant unfinished <==> exists k :: 0 <= k < i && HasWork(cores[k])
      invariant pending <==> forall k :: 0 <= k < i ==> cores[k].pendingPause
    {
      var r := cores[i].State();
      assert States(cores)[i] == r;
      unfinished, pending := unfinished || r.HasUnfinished(), pending && r.pending;
    }
  }

  method ReleaseAll(cores: seq<DPEngineCore>, phase: Phase)
    requires Apart(cores)
    modifies cores
    ensures States(cores) == AllMove(System(old(States(cores)), []), phase)
  {
    ghost var before := States(cores);
    for i := 0 to |cores|
      invariant forall k :: 0 <= k < i ==> cores[k].State() == before[k].(phase := phase)
      invariant forall k :: i <= k < |cores| ==> cores[k].State() == before[k]
    {
      cores[i].Release(phase);
    }
  }

  /** One event of the whole system, carried out by the cores. */
  method Perform(cores: seq<DPEngineCore>, log: seq<Collective>, e: Event) returns (log': seq<Collective>)
    requires Apart(cores) && Enabled(System(States(cores), log), e) && Addressed(cores, e)
    requires e.TakeSync? ==> log[cores[e.i].taken].Sync?
    modifies cores
    ensures System(States(cores), log') == Apply(System(old(States(cores)), log), e)
  {
    ghost var before := States(cores);
    match e
    case SyncBarrier =>
      var unfinished, pending := Reduce(cores);
      ReleaseAll(cores, SyncDone);
      log' := log + [Sync(unfinished, pending)];
    case ResumeBarrier =>
      var unfinished, _ := Reduce(cores);
      ReleaseAll(cores, ResumeDone);
      log' := log + [Resume(unfinished)];
    case _ =>
      assert cores[e.i].State() == before[e.i];
      cores[e.i].Handle(e, log);
      log' := log;
      assert States(cores) == before[e.i := RankAfter(before[e.i], e, log)];
  }

  /** Engine cores driven through any run of the model end in its states; two that wait in a sync have counted alike. */
  method RunCores(cores: seq<DPEngineCore>, events: seq<Event>, ghost t: System) returns (log: seq<Collective>)
    requires Apart(cores) && Initial(System(States(cores), [])) && Run(System(States(cores), []), events, t)
    requires forall k :: 0 <= k < |events| ==> Addressed(cores, events[k])
    modifies cores
    ensures System(States(cores), log) == t
    ensures forall i, j :: 0 <= i < |cores| && 0 <= j < |cores| && cores[i].phase == cores[j].phase == AtSync ==>
      cores[i].stepCounter == cores[j].stepCounter && cores[i].taken == cores[j].taken == |log|
    ensures forall i :: 0 <= i < |cores| ==> cores[i].taken <= |log|
    ensures forall i :: 0 <= i < |cores| ==>
      old(cores[i].currentWave) + CompletedWaves(log[..cores[i].taken]) <= cores[i].currentWave
  {
    ghost var s := System(States(cores), []);
    InitialOk(s);
    log := [];
    for k := 0 to |events|
      invariant Inv(System(States(cores), log)) && Run(System(States(cores), log), events[k..], t)
    {
      ghost var now := System(States(cores), log);
      assert events[k..][0] == events[k] && events[k..][1..] == events[k + 1..];
      EventKeepsInv(now, events[k]);
      assert events[k].TakeSync? ==> RankOk(now.ranks[events[k].i], log);
      log := Perform(cores, log, events[k]);
    }
    forall i, j | 0 <= i < |cores| && 0 <= j < |cores| && cores[i].phase == cores[j].phase == AtSync
      ensures cores[i].stepCounter == cores[j].stepCounter && cores[i].taken == cores[j].taken == |log|
    {
      assert t.ranks[i] == cores[i].State() && t.ranks[j] == cores[j].State();
      SyncsEnteredTogether(s, events, t, i, j);
    }
    forall i | 0 <= i < |cores|
      ensures cores[i].taken <= |log|
      ensures s.ranks[i].wave + CompletedWaves(log[..cores[i].taken]) <= cores[i].currentWave
    {
      assert t.ranks[i] == cores[i].State();
      RunCountsWaves(s, events, t, i, s.ranks[i].wave);
    }
  }
}
