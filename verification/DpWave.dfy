/** Data-parallel waves and the two-phase pause: N engine cores that meet only in collectives. */
module DpWave {

  const SYNC_EVERY: nat := 32

  datatype PauseState = Unpaused | PausedNew | PausedAll
  datatype PauseMode = Abort | Wait | Keep

  /** Where a rank's single thread is; the Done phases have been released but have not read the outcome. */
  datatype Phase = Loop | AtSync | SyncDone | AtResume | ResumeDone

  /** What a completed all-reduce returned to every rank. */
  datatype Collective = Sync(unfinished: bool, consensus: bool) | Resume(unfinished: bool)

  datatype Rank = Rank(phase: Phase, taken: nat, counter: nat, engines: bool, pending: bool, ignore: bool, wave: int,
                       pause: PauseState, running: nat, waiting: nat) {

    /** Scheduler contract: a paused scheduler reports only what it may still run. */
    predicate HasUnfinished() {
      match pause
      case Unpaused => running > 0 || waiting > 0
      case PausedNew => running > 0
      case PausedAll => false
    }

    /** Scheduler contract for one step: no request appears, a paused scheduler admits none, and running needs a request. */
    predicate MayBecome(running': nat, waiting': nat, executed: bool) {
      && running' + waiting' <= running + waiting
      && (pause != Unpaused ==> running' <= running)
      && (executed ==> HasUnfinished())
    }

    function Add(requestWave: int, coordinator: bool): Rank {
      var queued := this.(waiting := waiting + 1);
      if coordinator && requestWave != wave then
        if requestWave > wave then queued.(wave := requestWave)
        else if !engines && pause == Unpaused then queued.(engines := true)
        else queued
      else
        queued
    }

    function Start(newWave: int, excluded: bool): Rank {
      if ignore then this
      else if !excluded && newWave >= wave then this.(wave := newWave, engines := true)
      else this
    }

    function Aborted(running': nat, waiting': nat): Rank {
      this.(running := running', waiting := waiting')
    }

    function Paused(mode: PauseMode): Rank {
      var dropped := if mode == Abort then this.(running := 0, waiting := 0) else this;
      dropped.(pause := if mode == Keep then PausedAll else PausedNew, pending := true, engines := true)
    }

    predicate ResumeRaises() {
      pending || (engines && ignore)
    }

    /** resume_scheduler up to its barrier; raising and ignoring leave the rank as it is. */
    function ResumeBegun(): Rank {
      if ResumeRaises() || engines then this
      else this.(pause := Unpaused, ignore := false, phase := AtResume)
    }

    function ResumeEnded(unfinished: bool): Rank {
      this.(engines := engines || unfinished, phase := Loop, taken := taken + 1)
    }

    /** Whether a loop iteration gets as far as counting the step. */
    predicate Counts(running': nat, waiting': nat, executed: bool) {
      executed || Aborted(running', waiting').HasUnfinished() || engines
    }

    /** One loop iteration up to the all-reduce, when there is one. */
    function Iterated(running': nat, waiting': nat, executed: bool): Rank {
      var stepped := Aborted(running', waiting');
      if !Counts(running', waiting', executed) then stepped
      else if (counter + 1) % SYNC_EVERY != 0 then stepped.(counter := counter + 1, engines := true)
      else stepped.(counter := counter + 1, phase := AtSync)
    }

    /** The rest of the iteration once the all-reduce has returned. */
    function Synced(unfinished: bool, consensus: bool): Rank {
      var agreed := if consensus then this.(ignore := true, pending := false) else this;
      var told := agreed.(engines := unfinished, phase := Loop, taken := taken + 1);
      if unfinished then told else told.(wave := wave + 1, counter := 0)
    }
  }

  datatype System = System(ranks: seq<Rank>, log: seq<Collective>)

  datatype Event =
    | AddRequest(i: nat, requestWave: int, coordinator: bool)
    | AbortRequests(i: nat, running: nat, waiting: nat)
    | StartWave(i: nat, newWave: int, excluded: bool)
    | PauseScheduler(i: nat, mode: PauseMode)
    | ResumeScheduler(i: nat)
    | Iterate(i: nat, running: nat, waiting: nat, executed: bool)
    | TakeSync(i: nat)
    | TakeResume(i: nat)
    | SyncBarrier
    | ResumeBarrier

  predicate InLoop(s: System, i: nat) {
    i < |s.ranks| && s.ranks[i].phase == Loop
  }

  predicate Released(s: System, i: nat) {
    i < |s.ranks| && s.ranks[i].taken < |s.log|
  }

  /** The callers' side: a pause is issued only while none is in effect, a resume only after a pause. */
  predicate Enabled(s: System, e: Event) {
    match e
    case AddRequest(i, _, _) => InLoop(s, i)
    case AbortRequests(i, running, waiting) => InLoop(s, i) && running <= s.ranks[i].running && waiting <= s.ranks[i].waiting
    case StartWave(i, _, _) => InLoop(s, i)
    case PauseScheduler(i, _) => InLoop(s, i) && s.ranks[i].pause == Unpaused
    case ResumeScheduler(i) => InLoop(s, i) && s.ranks[i].pause != Unpaused
    case Iterate(i, running, waiting, executed) => InLoop(s, i) && s.ranks[i].MayBecome(running, waiting, executed)
    case TakeSync(i) => Released(s, i) && s.ranks[i].phase == SyncDone
    case TakeResume(i) => Released(s, i) && s.ranks[i].phase == ResumeDone
    case SyncBarrier => forall i :: 0 <= i < |s.ranks| ==> s.ranks[i].phase == AtSync
    case ResumeBarrier => forall i :: 0 <= i < |s.ranks| ==> s.ranks[i].phase == AtResume
  }

  predicate AnyUnfinished(s: System) {
    exists i :: 0 <= i < |s.ranks| && s.ranks[i].HasUnfinished()
  }

  predicate AllPending(s: System) {
    forall i :: 0 <= i < |s.ranks| ==> s.ranks[i].pending
  }

  function AllMove(s: System, phase: Phase): seq<Rank> {
    seq(|s.ranks|, i requires 0 <= i < |s.ranks| => s.ranks[i].(phase := phase))
  }

  function RankAfter(r: Rank, e: Event, log: seq<Collective>): Rank
    requires e.TakeSync? || e.TakeResume? ==> r.taken < |log|
  {
    match e
    case AddRequest(_, requestWave, coordinator) => r.Add(requestWave, coordinator)
    case AbortRequests(_, running, waiting) => r.Aborted(running, waiting)
    case StartWave(_, newWave, excluded) => r.Start(newWave, excluded)
    case PauseScheduler(_, mode) => r.Paused(mode)
    case ResumeScheduler(_) => r.ResumeBegun()
    case Iterate(_, running, waiting, executed) => r.Iterated(running, waiting, executed)
    case TakeSync(_) => if log[r.taken].Sync? then r.Synced(log[r.taken].unfinished, log[r.taken].consensus) else r
    case TakeResume(_) => r.ResumeEnded(log[r.taken].unfinished)
    case SyncBarrier => r.(phase := SyncDone)
    case ResumeBarrier => r.(phase := ResumeDone)
  }

  function Apply(s: System, e: Event): System
    requires Enabled(s, e)
  {
    match e
    case SyncBarrier => System(AllMove(s, SyncDone), s.log + [Sync(AnyUnfinished(s), AllPending(s))])
    case ResumeBarrier => System(AllMove(s, ResumeDone), s.log + [Resume(AnyUnfinished(s))])
    case _ => s.(ranks := s.ranks[e.i := RankAfter(s.ranks[e.i], e, s.log)])
  }

  // ---- what the collectives so far determine -------------------------------

  datatype Mode = Normal | AgreedRunning | AgreedStopped

  function ModeAfter(log: seq<Collective>): Mode {
    if log == [] then Normal
    else
      var before, last := ModeAfter(log[..|log| - 1]), log[|log| - 1];
      match last
      case Resume(_) => Normal
      case Sync(unfinished, consensus) =>
        if consensus || before != Normal then
          if unfinished then AgreedRunning else AgreedStopped
        else Normal
  }

  /** Syncs since the step counter was last reset. */
  function SyncsCounted(log: seq<Collective>): nat {
    if log == [] then 0
    else
      match log[|log| - 1]
      case Resume(_) => 0
      case Sync(unfinished, _) => if unfinished then SyncsCounted(log[..|log| - 1]) + 1 else 0
  }

  ghost predicate FlagsFit(r: Rank, mode: Mode) {
    match mode
    case Normal => !r.ignore && (r.pending <==> r.pause != Unpaused)
    case AgreedRunning => r.ignore && !r.pending && r.pause != Unpaused && r.engines
    case AgreedStopped => r.ignore && !r.pending && r.pause != Unpaused && !r.engines && !r.HasUnfinished()
  }

  /** A rank between two collectives, against the outcomes it has read. */
  ghost predicate Fits(r: Rank, mode: Mode, base: nat) {
    match r.phase
    case Loop =>
      && FlagsFit(r, mode)
      && SYNC_EVERY * base <= r.counter < SYNC_EVERY * base + SYNC_EVERY
      && (mode == AgreedStopped ==> base == 0 && r.counter == 0)
    case AtSync => FlagsFit(r, mode) && mode != AgreedStopped && r.counter == SYNC_EVERY * base + SYNC_EVERY
    case SyncDone => FlagsFit(r, mode) && mode != AgreedStopped && r.counter == SYNC_EVERY * base + SYNC_EVERY
    case AtResume => mode == AgreedStopped && Unwinding(r) && base == 0
    case ResumeDone => mode == AgreedStopped && Unwinding(r) && base == 0
  }

  ghost predicate Unwinding(r: Rank) {
    !r.ignore && !r.pending && r.pause == Unpaused && !r.engines && r.counter == 0
  }

  /** Released ranks still have the last outcome to read; it was computed from their own contribution too. */
  ghost predicate Position(r: Rank, log: seq<Collective>) {
    if r.phase == SyncDone then
      && r.taken + 1 == |log| && log[r.taken].Sync?
      && (r.HasUnfinished() ==> log[r.taken].unfinished)
      && (log[r.taken].consensus ==> r.pending)
    else if r.phase == ResumeDone then
      r.taken + 1 == |log| && log[r.taken].Resume?
    else
      r.taken == |log|
  }

  ghost predicate RankOk(r: Rank, log: seq<Collective>) {
    Position(r, log) && Fits(r, ModeAfter(log[..r.taken]), SyncsCounted(log[..r.taken]))
  }

  ghost predicate Inv(s: System) {
    forall i :: 0 <= i < |s.ranks| ==> RankOk(s.ranks[i], s.log)
  }

  /** Engine cores as constructed: counter 0, nothing pending, nothing paused. */
  ghost predicate Initial(s: System) {
    && s.log == []
    && forall i :: 0 <= i < |s.ranks| ==>
         var r := s.ranks[i];
         r.phase == Loop && r.taken == 0 && r.counter == 0 && !r.pending && !r.ignore && r.pause == Unpaused
  }

  lemma InitialOk(s: System)
    requires Initial(s)
    ensures Inv(s)
  {
  }

  // ---- preservation --------------------------------------------------------

  lemma ClientEventKeeps(r: Rank, e: Event, log: seq<Collective>)
    requires RankOk(r, log) && r.phase == Loop
    requires e.AddRequest? || e.StartWave? || (e.AbortRequests? && e.running <= r.running && e.waiting <= r.waiting)
    ensures RankOk(RankAfter(r, e, log), log)
  {
  }

  lemma PauseEventKeeps(r: Rank, e: Event, log: seq<Collective>)
    requires RankOk(r, log) && r.phase == Loop
    requires (e.PauseScheduler? && r.pause == Unpaused) || (e.ResumeScheduler? && r.pause != Unpaused)
    ensures RankOk(RankAfter(r, e, log), log)
  {
  }

  lemma IterateKeeps(r: Rank, e: Event, log: seq<Collective>)
    requires RankOk(r, log) && r.phase == Loop && e.Iterate? && r.MayBecome(e.running, e.waiting, e.executed)
    ensures RankOk(RankAfter(r, e, log), log)
  {
    var base := SyncsCounted(log[..r.taken]);
    var k := r.counter - SYNC_EVERY * base;
    assert (SYNC_EVERY * base + (k + 1)) % SYNC_EVERY == (k + 1) % SYNC_EVERY;
  }

  lemma TakeKeeps(r: Rank, e: Event, log: seq<Collective>)
    requires RankOk(r, log) && r.taken < |log|
    requires (e.TakeSync? && r.phase == SyncDone) || (e.TakeResume? && r.phase == ResumeDone)
    ensures RankOk(RankAfter(r, e, log), log)
  {
    assert log[..r.taken + 1][..r.taken] == log[..r.taken];
  }

  lemma BarrierKeeps(r: Rank, log: seq<Collective>, outcome: Collective, phase: Phase)
    requires RankOk(r, log)
    requires (r.phase == AtSync && phase == SyncDone && outcome.Sync?) || (r.phase == AtResume && phase == ResumeDone && outcome.Resume?)
    requires outcome.Sync? ==> (r.HasUnfinished() ==> outcome.unfinished) && (outcome.consensus ==> r.pending)
    ensures RankOk(r.(phase := phase), log + [outcome])
  {
    assert (log + [outcome])[..r.taken] == log[..r.taken];
  }

  /** Every event keeps the invariant. */
  lemma EventKeepsInv(s: System, e: Event)
    requires Inv(s) && Enabled(s, e)
    ensures Inv(Apply(s, e))
  {
    match e
    case SyncBarrier =>
      var outcome := Sync(AnyUnfinished(s), AllPending(s));
      forall i | 0 <= i < |s.ranks|
        ensures RankOk(s.ranks[i].(phase := SyncDone), s.log + [outcome])
      {
        BarrierKeeps(s.ranks[i], s.log, outcome, SyncDone);
      }
    case ResumeBarrier =>
      var outcome := Resume(AnyUnfinished(s));
      forall i | 0 <= i < |s.ranks|
        ensures RankOk(s.ranks[i].(phase := ResumeDone), s.log + [outcome])
      {
        BarrierKeeps(s.ranks[i], s.log, outcome, ResumeDone);
      }
    case TakeSync(i) => TakeKeeps(s.ranks[i], e, s.log);
    case TakeResume(i) => TakeKeeps(s.ranks[i], e, s.log);
    case Iterate(i, _, _, _) => IterateKeeps(s.ranks[i], e, s.log);
    case PauseScheduler(i, _) => PauseEventKeeps(s.ranks[i], e, s.log);
    case ResumeScheduler(i) => PauseEventKeeps(s.ranks[i], e, s.log);
    case _ => ClientEventKeeps(s.ranks[e.i], e, s.log);
  }

  // ---- runs ----------------------------------------------------------------

  /** s can do the events in order and ends in t. */
  ghost predicate Run(s: System, events: seq<Event>, t: System)
    decreases |events|
  {
    if events == [] then t == s
    else Enabled(s, events[0]) && Run(Apply(s, events[0]), events[1..], t)
  }

  lemma {:induction false} RunKeepsInv(s: System, events: seq<Event>, t: System)
    requires Inv(s) && Run(s, events, t)
    ensures Inv(t) && |t.ranks| == |s.ranks|
    decreases |events|
  {
    if events != [] {
      EventKeepsInv(s, events[0]);
      RunKeepsInv(Apply(s, events[0]), events[1..], t);
    }
  }

  /** Whatever happened before, ranks that wait in a sync have counted the same steps: 32 per sync since the last reset. */
  lemma SyncsEnteredTogether(s: System, events: seq<Event>, t: System, i: nat, j: nat)
    requires Initial(s) && Run(s, events, t)
    requires i < |t.ranks| && j < |t.ranks| && t.ranks[i].phase == t.ranks[j].phase == AtSync
    ensures t.ranks[i].taken == t.ranks[j].taken == |t.log|
    ensures t.ranks[i].counter == t.ranks[j].counter == SYNC_EVERY * (SyncsCounted(t.log) + 1)
  {
    InitialOk(s);
    RunKeepsInv(s, events, t);
    assert t.log[..|t.log|] == t.log;
    assert RankOk(t.ranks[i], t.log) && RankOk(t.ranks[j], t.log);
  }

  /** No rank waits in a resume barrier while another waits in a sync: the two all-reduces never meet. */
  lemma CollectivesNeverMix(s: System, events: seq<Event>, t: System, i: nat, j: nat)
    requires Initial(s) && Run(s, events, t)
    requires i < |t.ranks| && j < |t.ranks| && t.ranks[i].phase == AtSync
    ensures t.ranks[j].phase != AtResume
  {
    InitialOk(s);
    RunKeepsInv(s, events, t);
    assert t.log[..|t.log|] == t.log;
    assert RankOk(t.ranks[i], t.log) && RankOk(t.ranks[j], t.log);
  }

  /** An event that makes a rank count a step: a batch, a dummy batch or a sync. */
  predicate IsCountedStep(s: System, e: Event)
    requires Enabled(s, e)
  {
    e.Iterate? && s.ranks[e.i].Counts(e.running, e.waiting, e.executed)
  }

  /** After an agreed stop no rank counts a step and no message restarts one, until the resume barrier. */
  lemma FrozenStep(s: System, e: Event)
    requires Inv(s) && ModeAfter(s.log) == AgreedStopped && Enabled(s, e) && e != ResumeBarrier && s.ranks != []
    ensures !IsCountedStep(s, e) && e != SyncBarrier && Apply(s, e).log == s.log
    ensures forall i :: 0 <= i < |s.ranks| && s.ranks[i].phase == Loop ==> !s.ranks[i].engines
    ensures forall i :: 0 <= i < |s.ranks| && Apply(s, e).ranks[i].phase == Loop ==> !Apply(s, e).ranks[i].engines
  {
    EventKeepsInv(s, e);
    assert s.log[..|s.log|] == s.log;
    assert RankOk(s.ranks[0], s.log);
    forall i | 0 <= i < |s.ranks|
      ensures s.ranks[i].phase == Loop ==> !s.ranks[i].engines && !s.ranks[i].HasUnfinished()
      ensures s.ranks[i].phase != AtSync
    {
      assert RankOk(s.ranks[i], s.log);
    }
    assert e != SyncBarrier;
    forall i | 0 <= i < |s.ranks| && Apply(s, e).ranks[i].phase == Loop
      ensures !Apply(s, e).ranks[i].engines
    {
      assert RankOk(Apply(s, e).ranks[i], s.log);
    }
  }

  /** No event of the run, taken in order, is a counted step. */
  ghost predicate NoCountedStep(s: System, events: seq<Event>)
    decreases |events|
  {
    events == [] || (Enabled(s, events[0]) ==> !IsCountedStep(s, events[0]) && NoCountedStep(Apply(s, events[0]), events[1..]))
  }

  /** Over any continuation without the resume barrier all ranks stay stopped. */
  lemma {:induction false} FrozenUntilResume(s: System, events: seq<Event>, t: System)
    requires Inv(s) && ModeAfter(s.log) == AgreedStopped && s.ranks != [] && Run(s, events, t) && ResumeBarrier !in events
    ensures NoCountedStep(s, events) && t.log == s.log
    ensures forall i :: 0 <= i < |t.ranks| && t.ranks[i].phase == Loop ==> !t.ranks[i].engines
    decreases |events|
  {
    if events == [] {
      assert s.log[..|s.log|] == s.log;
      forall i | 0 <= i < |t.ranks| && t.ranks[i].phase == Loop
        ensures !t.ranks[i].engines
      {
        assert RankOk(t.ranks[i], t.log);
      }
    } else {
      FrozenStep(s, events[0]);
      EventKeepsInv(s, events[0]);
      FrozenUntilResume(Apply(s, events[0]), events[1..], t);
    }
  }

  /** When the resume barrier opens, every rank has cleared ignore_start_dp_wave and is unpaused. */
  lemma BarrierOpensCleared(s: System, i: nat)
    requires Inv(s) && Enabled(s, ResumeBarrier) && i < |s.ranks|
    ensures !s.ranks[i].ignore && !s.ranks[i].pending && s.ranks[i].pause == Unpaused
  {
    assert RankOk(s.ranks[i], s.log);
  }

  // ---- wave numbers ----------------------------------------------------------

  /** Syncs among the outcomes that found nothing unfinished: completed waves. */
  function CompletedWaves(log: seq<Collective>): nat {
    if log == [] then 0
    else
      var last := log[|log| - 1];
      CompletedWaves(log[..|log| - 1]) + if last.Sync? && !last.unfinished then 1 else 0
  }

  /** A rank that started at wave w0 has counted every completed wave it has read of. */
  ghost predicate CountsWaves(r: Rank, w0: int, log: seq<Collective>) {
    r.taken <= |log| && w0 + CompletedWaves(log[..r.taken]) <= r.wave
  }

  /** One event on a rank: its wave never falls, and it goes up when it reads of a completed wave. */
  lemma WaveStep(r: Rank, e: Event, log: seq<Collective>, w0: int)
    requires RankOk(r, log) && CountsWaves(r, w0, log) && !e.SyncBarrier? && !e.ResumeBarrier?
    requires e.TakeSync? ==> r.phase == SyncDone && r.taken < |log|
    requires e.TakeResume? ==> r.phase == ResumeDone && r.taken < |log|
    ensures r.wave <= RankAfter(r, e, log).wave && CountsWaves(RankAfter(r, e, log), w0, log)
  {
    if r.taken < |log| {
      assert log[..r.taken + 1][..r.taken] == log[..r.taken] && log[..r.taken + 1][r.taken] == log[r.taken];
    }
  }

  lemma WavesAfter(s: System, e: Event, i: nat, w0: int)
    requires Inv(s) && Enabled(s, e) && i < |s.ranks| && CountsWaves(s.ranks[i], w0, s.log)
    ensures s.ranks[i].wave <= Apply(s, e).ranks[i].wave && CountsWaves(Apply(s, e).ranks[i], w0, Apply(s, e).log)
  {
    assert RankOk(s.ranks[i], s.log);
    var t := Apply(s, e);
    if e.SyncBarrier? || e.ResumeBarrier? {
      assert t.log[..s.ranks[i].taken] == s.log[..s.ranks[i].taken];
    } else if e.i == i {
      WaveStep(s.ranks[i], e, s.log, w0);
    }
  }

  lemma {:induction false} RunCountsWaves(s: System, events: seq<Event>, t: System, i: nat, w0: int)
    requires Inv(s) && Run(s, events, t) && i < |s.ranks| && CountsWaves(s.ranks[i], w0, s.log)
    ensures |t.ranks| == |s.ranks| && s.ranks[i].wave <= t.ranks[i].wave && CountsWaves(t.ranks[i], w0, t.log)
    decreases |events|
  {
    if events != [] {
      WavesAfter(s, events[0], i, w0);
      EventKeepsInv(s, events[0]);
      RunCountsWaves(Apply(s, events[0]), events[1..], t, i, w0);
    }
  }

  /** Over every run a rank's wave never falls and is at least its start plus the completed waves it has read of. */
  lemma WavesNeverFall(s: System, before: seq<Event>, m: System, after: seq<Event>, t: System, i: nat)
    requires Initial(s) && Run(s, before, m) && Run(m, after, t) && i < |s.ranks|
    ensures |t.ranks| == |m.ranks| == |s.ranks| && s.ranks[i].wave <= m.ranks[i].wave <= t.ranks[i].wave
    ensures t.ranks[i].taken <= |t.log| && s.ranks[i].wave + CompletedWaves(t.log[..t.ranks[i].taken]) <= t.ranks[i].wave
  {
    InitialOk(s);
    RunCountsWaves(s, before, m, i, s.ranks[i].wave);
    RunKeepsInv(s, before, m);
    RunCountsWaves(m, after, t, i, s.ranks[i].wave);
  }

  /** A wave start for a wave the rank has seen completed changes nothing: it never sets a stopped rank going. */
  lemma StaleWaveStart(s: System, events: seq<Event>, t: System, i: nat, newWave: int, excluded: bool)
    requires Initial(s) && Run(s, events, t) && i < |s.ranks| && InLoop(t, i)
    requires t.ranks[i].taken <= |t.log| && newWave < s.ranks[i].wave + CompletedWaves(t.log[..t.ranks[i].taken])
    ensures Apply(t, StartWave(i, newWave, excluded)) == t
  {
    InitialOk(s);
    RunCountsWaves(s, events, t, i, s.ranks[i].wave);
    assert t.ranks[i := t.ranks[i]] == t.ranks;
  }

  // ---- no rank is ever stuck on its own ------------------------------------------

  /** A rank in its loop takes any message and any step its scheduler may make; a released one reads its outcome. */
  lemma RankGoesOn(s: System, events: seq<Event>, t: System, i: nat)
    requires Initial(s) && Run(s, events, t) && i < |t.ranks|
    ensures t.ranks[i].phase == Loop ==> forall wave, flag :: Enabled(t, AddRequest(i, wave, flag)) && Enabled(t, StartWave(i, wave, flag))
    ensures t.ranks[i].phase == Loop ==>
      forall mode :: if t.ranks[i].pause == Unpaused then Enabled(t, PauseScheduler(i, mode)) else Enabled(t, ResumeScheduler(i))
    ensures t.ranks[i].phase == Loop ==> forall running: nat, waiting: nat ::
      running + waiting <= t.ranks[i].running + t.ranks[i].waiting && (t.ranks[i].pause == Unpaused || running <= t.ranks[i].running) ==>
        && Enabled(t, Iterate(i, running, waiting, false))
        && (t.ranks[i].running > 0 && t.ranks[i].pause != PausedAll ==> Enabled(t, Iterate(i, running, waiting, true)))
    ensures t.ranks[i].phase == SyncDone ==> Enabled(t, TakeSync(i))
    ensures t.ranks[i].phase == ResumeDone ==> Enabled(t, TakeResume(i))
  {
    InitialOk(s);
    RunKeepsInv(s, events, t);
    assert RankOk(t.ranks[i], t.log);
  }

  // ---- what single messages do -------------------------------------------------

  /** A request wakes a stopped rank exactly when it belongs to an earlier wave and nothing is paused; it is always queued. */
  lemma LateRequestWakes(r: Rank, requestWave: int)
    ensures
      var after := r.Add(requestWave, true);
      && after.waiting == r.waiting + 1
      && (after.engines <==> r.engines || (requestWave < r.wave && r.pause == Unpaused))
      && after.wave == if requestWave > r.wave then requestWave else r.wave
  {
  }

  /** What a paused rank may still run: everything it runs when waiting, nothing when aborting or keeping. */
  lemma PausedWork(r: Rank, mode: PauseMode)
    ensures r.Paused(mode).HasUnfinished() <==> mode == Wait && r.running > 0
    ensures r.Paused(mode).pending && r.Paused(mode).engines
    ensures mode == Keep ==> r.Paused(mode).running == r.running && r.Paused(mode).waiting == r.waiting
  {
  }

  /** After the resume barrier a rank runs exactly when some rank had work. */
  lemma ResumedTogether(s: System, events: seq<Event>, t: System, i: nat)
    requires Initial(s) && Run(s, events, t) && Enabled(t, TakeResume(i))
    ensures t.log[t.ranks[i].taken].Resume?
    ensures Apply(t, TakeResume(i)).ranks[i].engines == t.log[t.ranks[i].taken].unfinished
  {
    InitialOk(s);
    RunKeepsInv(s, events, t);
    assert RankOk(t.ranks[i], t.log);
  }
}
