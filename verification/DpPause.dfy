/**
  * The two-phase pause over whole runs. The all-reduce is taken to return (any rank unfinished, all ranks pending);
  * every result here is about engine cores that get such answers.
  */
module DpPause {
  import opened DpWave

  // ---- a consensus is everybody's ----------------------------------------------

  lemma {:induction false} LogGrows(s: System, events: seq<Event>, t: System)
    requires Run(s, events, t)
    ensures s.log <= t.log
    decreases |events|
  {
    if events != [] {
      LogGrows(Apply(s, events[0]), events[1..], t);
    }
  }

  /** The outcome of the sync a rank waits in; a consensus finds that rank pending. */
  lemma {:induction false} SyncOutcome(s: System, events: seq<Event>, t: System, j: nat)
    requires Inv(s) && Run(s, events, t) && j < |s.ranks| && s.ranks[j].phase == AtSync && |s.log| < |t.log|
    ensures t.log[|s.log|].Sync? && (t.log[|s.log|].consensus ==> s.ranks[j].pending)
    decreases |events|
  {
    var next := Apply(s, events[0]);
    EventKeepsInv(s, events[0]);
    LogGrows(next, events[1..], t);
    if events[0] != SyncBarrier {
      assert next.ranks[j] == s.ranks[j] && next.log == s.log;
      SyncOutcome(next, events[1..], t, j);
    }
  }

  /** Rank i is about to read its k-th outcome. */
  ghost predicate Reads(s: System, i: nat, k: nat) {
    Enabled(s, TakeSync(i)) && s.ranks[i].taken == k
  }

  /** What it reads makes it stop pending and ignore START_DP_WAVE. */
  ghost predicate Agrees(s: System, i: nat)
    requires Enabled(s, TakeSync(i))
  {
    var after := Apply(s, TakeSync(i)).ranks[i];
    s.ranks[i].pending && !after.pending && after.ignore
  }

  lemma AgreesIffLogged(s: System, i: nat)
    requires Inv(s) && Enabled(s, TakeSync(i))
    ensures s.log[s.ranks[i].taken].Sync? && (Agrees(s, i) <==> s.log[s.ranks[i].taken].consensus)
  {
    assert RankOk(s.ranks[i], s.log);
  }

  /** Ranks that read their k-th outcome at any two moments of a run read the same agreement, or none. */
  lemma ConsensusIsCollective(s: System, before: seq<Event>, m: System, after: seq<Event>, t: System, i: nat, j: nat, k: nat)
    requires Initial(s) && Run(s, before, m) && Run(m, after, t) && Reads(m, i, k) && Reads(t, j, k)
    ensures Agrees(m, i) <==> Agrees(t, j)
  {
    InitialOk(s);
    RunKeepsInv(s, before, m);
    RunKeepsInv(m, after, t);
    LogGrows(m, after, t);
    AgreesIffLogged(m, i);
    AgreesIffLogged(t, j);
  }

  /** And whoever reads one, every rank was pending when it entered that sync. */
  lemma ConsensusEnteredPending(s: System, before: seq<Event>, m: System, after: seq<Event>, t: System, i: nat, j: nat, k: nat)
    requires Initial(s) && Run(s, before, m) && Run(m, after, t) && Reads(t, i, k) && Agrees(t, i)
    requires j < |m.ranks| && m.ranks[j].phase == AtSync && m.ranks[j].taken == k
    ensures m.ranks[j].pending
  {
    InitialOk(s);
    RunKeepsInv(s, before, m);
    RunKeepsInv(m, after, t);
    AgreesIffLogged(t, i);
    assert RankOk(m.ranks[j], m.log);
    SyncOutcome(m, after, t, j);
  }

  // ---- a rank that stops while it waits for the others ---------------------------

  /** Stopped with its pause pending, or about to read that there is nothing left to do and no consensus. */
  predicate StopsEarly(r: Rank, log: seq<Collective>) {
    && r.pending
    && ((r.phase == Loop && !r.engines && !r.HasUnfinished())
        || (r.phase == SyncDone && r.taken < |log| && log[r.taken] == Sync(false, false)))
  }

  /** A START_DP_WAVE that sets such a rank going again. */
  predicate Restart(s: System, e: Event) {
    && e.StartWave? && !e.excluded && e.i < |s.ranks|
    && StopsEarly(s.ranks[e.i], s.log) && s.ranks[e.i].wave <= e.newWave
  }

  ghost predicate NoRestart(s: System, events: seq<Event>)
    decreases |events|
  {
    events == [] || (!Restart(s, events[0]) && (Enabled(s, events[0]) ==> NoRestart(Apply(s, events[0]), events[1..])))
  }

  /** Nothing but such a message moves it on, and no all-reduce completes meanwhile. */
  lemma StaysStopped(s: System, e: Event, p: nat)
    requires Inv(s) && Enabled(s, e) && p < |s.ranks| && StopsEarly(s.ranks[p], s.log)
    ensures StopsEarly(Apply(s, e).ranks[p], Apply(s, e).log) <==> !(Restart(s, e) && e.i == p)
    ensures Apply(s, e).log == s.log
    ensures forall j :: 0 <= j < |s.ranks| && s.ranks[j].phase == AtSync ==> Apply(s, e).ranks[j] == s.ranks[j]
  {
    assert RankOk(s.ranks[p], s.log);
    assert e != SyncBarrier && e != ResumeBarrier;
    if !e.SyncBarrier? && !e.ResumeBarrier? && e.i == p {
      StoppedRank(s.ranks[p], e, s.log);
    }
  }

  lemma StoppedRank(r: Rank, e: Event, log: seq<Collective>)
    requires RankOk(r, log) && StopsEarly(r, log) && !e.SyncBarrier? && !e.ResumeBarrier?
    requires e.TakeSync? ==> r.phase == SyncDone && r.taken < |log|
    requires !e.TakeSync? ==> r.phase == Loop && !e.TakeResume?
    requires e.AbortRequests? ==> e.running <= r.running && e.waiting <= r.waiting
    requires e.PauseScheduler? ==> r.pause == Unpaused
    requires e.Iterate? ==> r.MayBecome(e.running, e.waiting, e.executed)
    ensures StopsEarly(RankAfter(r, e, log), log) <==> !(e.StartWave? && !e.excluded && r.wave <= e.newWave)
  {
  }

  /**
    * What it costs: until such a message the rank stays stopped and pending, once it has read the outcome its
    * resume raises, no all-reduce ever completes, and whoever is in a sync stays there.
    */
  lemma {:induction false} EarlyStopBlocks(s: System, events: seq<Event>, t: System, p: nat)
    requires Inv(s) && Run(s, events, t) && NoRestart(s, events) && p < |s.ranks| && StopsEarly(s.ranks[p], s.log)
    ensures |t.ranks| == |s.ranks| && StopsEarly(t.ranks[p], t.log) && t.ranks[p].ResumeRaises() && t.log == s.log
    ensures forall j :: 0 <= j < |s.ranks| && s.ranks[j].phase == AtSync ==> t.ranks[j] == s.ranks[j]
    decreases |events|
  {
    if events != [] {
      StaysStopped(s, events[0], p);
      EventKeepsInv(s, events[0]);
      EarlyStopBlocks(Apply(s, events[0]), events[1..], t, p);
    }
  }

  /** A rank that enters a sync after the early stop waits there forever. */
  lemma WaitsForever(s: System, before: seq<Event>, m: System, after: seq<Event>, t: System, p: nat, j: nat)
    requires Inv(s) && p < |s.ranks| && StopsEarly(s.ranks[p], s.log)
    requires Run(s, before, m) && NoRestart(s, before) && Run(m, after, t) && NoRestart(m, after)
    requires j < |m.ranks| && m.ranks[j].phase == AtSync
    ensures |t.ranks| == |m.ranks| && t.ranks[j] == m.ranks[j] && !Enabled(t, SyncBarrier)
  {
    EarlyStopBlocks(s, before, m, p);
    RunKeepsInv(s, before, m);
    EarlyStopBlocks(m, after, t, p);
    assert t.ranks[p].phase != AtSync;
  }

  // ---- building runs ---------------------------------------------------------------

  /** t can be reached without a message that restarts an early-stopped rank. */
  ghost predicate Reaches(s: System, t: System) {
    exists events :: Run(s, events, t) && NoRestart(s, events)
  }

  lemma Stay(s: System)
    ensures Reaches(s, s)
  {
    assert Run(s, [], s) && NoRestart(s, []);
  }

  lemma {:induction false} RunThen(s: System, events: seq<Event>, t: System, e: Event)
    requires Run(s, events, t) && NoRestart(s, events) && Enabled(t, e) && !Restart(t, e)
    ensures Run(s, events + [e], Apply(t, e)) && NoRestart(s, events + [e])
    decreases |events|
  {
    if events == [] {
      assert [e][1..] == [];
    } else {
      RunThen(Apply(s, events[0]), events[1..], t, e);
      assert (events + [e])[1..] == events[1..] + [e];
    }
  }

  lemma Then(s: System, t: System, e: Event)
    requires Reaches(s, t) && Enabled(t, e) && !e.StartWave?
    ensures Reaches(s, Apply(t, e))
  {
    var events :| Run(s, events, t) && NoRestart(s, events);
    RunThen(s, events, t, e);
  }

  /** The rank is in a sync or will step on until it is. */
  predicate Ready(r: Rank) {
    r.phase == AtSync || (r.phase == Loop && (r.engines || r.HasUnfinished()))
  }

  /** The same rank, stepped on with batches of its own or dummy ones. */
  predicate Stepped(r: Rank, r': Rank) {
    r' == r.(phase := r'.phase, counter := r'.counter, engines := r'.engines)
  }

  lemma {:induction false} StepToSync(s: System, t: System, i: nat) returns (u: System)
    requires Reaches(s, t) && i < |t.ranks| && Ready(t.ranks[i])
    ensures Reaches(s, u) && |u.ranks| == |t.ranks| && u.log == t.log
    ensures u.ranks[i].phase == AtSync && Stepped(t.ranks[i], u.ranks[i])
    ensures forall j :: 0 <= j < |t.ranks| && j != i ==> u.ranks[j] == t.ranks[j]
    decreases t.ranks[i].phase == Loop, SYNC_EVERY - t.ranks[i].counter % SYNC_EVERY
  {
    var r := t.ranks[i];
    if r.phase == AtSync {
      u := t;
    } else {
      var e := Iterate(i, r.running, r.waiting, false);
      Then(s, t, e);
      u := StepToSync(s, Apply(t, e), i);
    }
  }

  /** All of the first n ranks step until they are in the sync. */
  lemma {:induction false} AllToSync(s: System, t: System, n: nat) returns (u: System)
    requires Reaches(s, t) && n <= |t.ranks| && forall j :: 0 <= j < |t.ranks| ==> Ready(t.ranks[j])
    ensures Reaches(s, u) && |u.ranks| == |t.ranks| && u.log == t.log
    ensures forall j :: 0 <= j < n ==> u.ranks[j].phase == AtSync
    ensures forall j :: 0 <= j < |t.ranks| ==> Stepped(t.ranks[j], u.ranks[j]) && Ready(u.ranks[j])
    decreases n
  {
    if n == 0 {
      u := t;
    } else {
      var before := AllToSync(s, t, n - 1);
      u := StepToSync(s, before, n - 1);
    }
  }

  // ---- when a pause reaches its consensus --------------------------------------------

  /** A consensus was logged at or after position n. */
  ghost predicate Agreed(log: seq<Collective>, n: nat) {
    exists k :: n <= k < |log| && log[k].Sync? && log[k].consensus
  }

  /** A sync at or after position n found nothing to do and no consensus. */
  ghost predicate IdleSync(log: seq<Collective>, n: nat) {
    exists k :: n <= k < |log| && log[k] == Sync(false, false)
  }

  /** From t a consensus logged at or after position n can still be reached. */
  ghost predicate CanAgree(t: System, n: nat) {
    exists u :: Reaches(t, u) && Agreed(u.log, n)
  }

  /** Released from a sync that found work and no consensus. */
  predicate Continues(r: Rank, log: seq<Collective>) {
    r.phase == SyncDone && r.taken < |log| && log[r.taken] == Sync(true, false)
  }

  /** Released ranks that will step on read their outcome. */
  lemma {:induction false} AllRead(s: System, t: System, n: nat) returns (u: System)
    requires Reaches(s, t) && n <= |t.ranks|
    requires forall j :: 0 <= j < |t.ranks| ==> t.ranks[j].pending
    requires forall j :: 0 <= j < |t.ranks| ==> Ready(t.ranks[j]) || Continues(t.ranks[j], t.log)
    ensures Reaches(s, u) && |u.ranks| == |t.ranks| && u.log == t.log
    ensures forall j :: 0 <= j < |t.ranks| ==> u.ranks[j].pending && (j < n ==> Ready(u.ranks[j])) && (j >= n ==> u.ranks[j] == t.ranks[j])
    decreases n
  {
    if n == 0 {
      u := t;
    } else {
      u := AllRead(s, t, n - 1);
      if !Ready(u.ranks[n - 1]) {
        Then(s, u, TakeSync(n - 1));
        u := Apply(u, TakeSync(n - 1));
      }
    }
  }

  /** A pending rank is between collectives that have not agreed. */
  lemma PendingRank(r: Rank, log: seq<Collective>)
    requires RankOk(r, log) && r.pending
    ensures ModeAfter(log[..r.taken]) == Normal && r.pause != Unpaused && !r.ignore && (r.phase == Loop || r.phase == AtSync || r.phase == SyncDone)
    ensures r.phase != SyncDone ==> r.taken == |log|
    ensures r.phase == SyncDone ==> r.taken + 1 == |log| && log[r.taken].Sync?
  {
  }

  /** When every rank is pending, an agreement is logged last or not at all, and then no rank has read it. */
  lemma UnreadAgreement(s: System, p: nat)
    requires Inv(s) && p < |s.ranks| && s.log != [] && s.ranks[p].pending
    requires s.log[|s.log| - 1].Sync? && s.log[|s.log| - 1].consensus
    ensures s.ranks[p].phase == SyncDone && s.ranks[p].taken + 1 == |s.log|
  {
    assert RankOk(s.ranks[p], s.log);
    PendingRank(s.ranks[p], s.log);
    assert s.log[..|s.log|] == s.log;
  }

  /** With every rank pending, a consensus rank p has not read can still come about exactly when no rank stops early. */
  lemma CanAgreeIff(t: System, p: nat)
    requires Inv(t) && AllPending(t) && p < |t.ranks|
    ensures CanAgree(t, t.ranks[p].taken) <==> forall q :: 0 <= q < |t.ranks| ==> !StopsEarly(t.ranks[q], t.log)
  {
    if q :| 0 <= q < |t.ranks| && StopsEarly(t.ranks[q], t.log) {
      EarlyStopForbids(t, p, q);
    } else {
      NoStopAgrees(t, p);
    }
  }

  /** A rank that stops early and one that is pending too have no agreement left to read. */
  lemma NothingToRead(t: System, p: nat, q: nat)
    requires Inv(t) && p < |t.ranks| && q < |t.ranks| && t.ranks[p].pending && StopsEarly(t.ranks[q], t.log)
    ensures !Agreed(t.log, t.ranks[p].taken)
  {
    assert RankOk(t.ranks[p], t.log);
    PendingRank(t.ranks[p], t.log);
    if t.log != [] && t.log[|t.log| - 1].Sync? && t.log[|t.log| - 1].consensus {
      UnreadAgreement(t, q);
    }
  }

  lemma EarlyStopForbids(t: System, p: nat, q: nat)
    requires Inv(t) && p < |t.ranks| && q < |t.ranks| && t.ranks[p].pending && StopsEarly(t.ranks[q], t.log)
    ensures !CanAgree(t, t.ranks[p].taken)
  {
    NothingToRead(t, p, q);
    forall u | Reaches(t, u)
      ensures u.log == t.log
    {
      var events :| Run(t, events, u) && NoRestart(t, events);
      EarlyStopBlocks(t, events, u, q);
    }
  }

  lemma NoStopAgrees(t: System, p: nat)
    requires Inv(t) && AllPending(t) && p < |t.ranks|
    requires forall q :: 0 <= q < |t.ranks| ==> !StopsEarly(t.ranks[q], t.log)
    ensures CanAgree(t, t.ranks[p].taken)
  {
    Stay(t);
    forall q | 0 <= q < |t.ranks|
      ensures t.ranks[q].taken <= |t.log|
      ensures Ready(t.ranks[q]) || (t.ranks[q].phase == SyncDone && t.ranks[q].taken + 1 == |t.log| && t.log[t.ranks[q].taken].Sync?)
    {
      assert RankOk(t.ranks[q], t.log);
      PendingRank(t.ranks[q], t.log);
    }
    if t.log != [] && t.log[|t.log| - 1].Sync? && t.log[|t.log| - 1].consensus {
      UnreadAgreement(t, p);
      assert Agreed(t.log, t.ranks[p].taken);
    } else {
      var u := AllRead(t, t, |t.ranks|);
      u := AllToSync(t, u, |u.ranks|);
      Then(t, u, SyncBarrier);
      var v := Apply(u, SyncBarrier);
      assert v.log[|t.log|] == Sync(AnyUnfinished(u), AllPending(u));
      assert Agreed(v.log, t.ranks[p].taken);
    }
  }

  /** What a run keeps for every rank since position n of the log: pending, it steps on until a sync finds nothing to do. */
  ghost predicate Tracked(r: Rank, log: seq<Collective>, n: nat) {
    r.pending ==> n <= r.taken && (r.phase == Loop && !IdleSync(log, n) ==> r.engines)
  }

  /** Rank p has been pending since position n, no consensus came since, and a sync that found nothing to do stopped it. */
  ghost predicate PausedSince(s: System, p: nat, n: nat) {
    && p < |s.ranks| && s.ranks[p].pending && !Agreed(s.log, n)
    && (IdleSync(s.log, n) ==> StopsEarly(s.ranks[p], s.log))
    && forall q :: 0 <= q < |s.ranks| ==> Tracked(s.ranks[q], s.log, n)
  }

  lemma TrackedStep(r: Rank, e: Event, log: seq<Collective>, n: nat)
    requires RankOk(r, log) && Tracked(r, log, n) && n <= |log| && !Agreed(log, n) && !e.SyncBarrier? && !e.ResumeBarrier?
    requires e.TakeSync? ==> r.phase == SyncDone && r.taken < |log|
    requires e.TakeResume? ==> r.phase == ResumeDone && r.taken < |log|
    requires !e.TakeSync? && !e.TakeResume? ==> r.phase == Loop
    ensures Tracked(RankAfter(r, e, log), log, n)
    ensures r.pending ==> RankAfter(r, e, log).pending
  {
    if r.pending && e.TakeSync? {
      PendingRank(r, log);
      assert !log[r.taken].consensus;
      assert !IdleSync(log, n) ==> log[r.taken].unfinished;
    }
  }

  lemma TrackedBarrier(s: System, e: Event, p: nat, n: nat)
    requires Inv(s) && Enabled(s, e) && PausedSince(s, p, n) && n <= |s.log| && (e == SyncBarrier || e == ResumeBarrier)
    requires !Agreed(Apply(s, e).log, n)
    ensures PausedSince(Apply(s, e), p, n)
  {
    var t := Apply(s, e);
    assert RankOk(s.ranks[p], s.log);
    PendingRank(s.ranks[p], s.log);
    assert e == SyncBarrier;
    assert t.ranks[p] == s.ranks[p].(phase := SyncDone);
    assert !t.log[|s.log|].consensus;
    if k :| n <= k < |s.log| && s.log[k] == Sync(false, false) {
      assert IdleSync(s.log, n);
    }
  }

  lemma PausedSinceKeeps(s: System, e: Event, p: nat, n: nat)
    requires Inv(s) && Enabled(s, e) && !Restart(s, e) && PausedSince(s, p, n) && n <= |s.log|
    requires !Agreed(Apply(s, e).log, n)
    ensures PausedSince(Apply(s, e), p, n)
  {
    if e == SyncBarrier || e == ResumeBarrier {
      TrackedBarrier(s, e, p, n);
    } else {
      assert RankOk(s.ranks[e.i], s.log);
      TrackedStep(s.ranks[e.i], e, s.log, n);
      if IdleSync(s.log, n) {
        StaysStopped(s, e, p);
      }
    }
  }

  lemma AgreedGrows(a: seq<Collective>, b: seq<Collective>, n: nat)
    requires a <= b && Agreed(a, n)
    ensures Agreed(b, n)
  {
    var k :| n <= k < |a| && a[k].Sync? && a[k].consensus;
    assert b[k] == a[k];
  }

  lemma {:induction false} RunKeepsPaused(s: System, events: seq<Event>, t: System, p: nat, n: nat)
    requires Inv(s) && Run(s, events, t) && NoRestart(s, events) && PausedSince(s, p, n) && n <= |s.log| && !Agreed(t.log, n)
    ensures PausedSince(t, p, n)
    decreases |events|
  {
    if events != [] {
      var next := Apply(s, events[0]);
      LogGrows(s, [events[0]], next);
      LogGrows(next, events[1..], t);
      if Agreed(next.log, n) {
        AgreedGrows(next.log, t.log, n);
      }
      PausedSinceKeeps(s, events[0], p, n);
      EventKeepsInv(s, events[0]);
      RunKeepsPaused(next, events[1..], t, p, n);
    }
  }

  /** The state right after the first pause of a round: rank p alone is pending. */
  ghost predicate FirstPause(s: System, p: nat, mode: PauseMode, paused: System) {
    && (forall q :: 0 <= q < |s.ranks| ==> !s.ranks[q].pending)
    && Enabled(s, PauseScheduler(p, mode)) && paused == Apply(s, PauseScheduler(p, mode))
  }

  lemma FirstIsPaused(s: System, p: nat, mode: PauseMode, paused: System)
    requires Inv(s) && FirstPause(s, p, mode, paused)
    ensures Inv(paused) && PausedSince(paused, p, |s.log|) && paused.log == s.log
  {
    EventKeepsInv(s, PauseScheduler(p, mode));
    assert RankOk(s.ranks[p], s.log);
  }

  /**
    * Over every run that starts with the first pause of a round and has not agreed yet: the paused rank stops
    * early exactly when some sync since then found no rank with unfinished work.
    */
  lemma PendingStopsEarlyIff(s: System, p: nat, mode: PauseMode, paused: System, events: seq<Event>, t: System)
    requires Inv(s) && FirstPause(s, p, mode, paused) && Run(paused, events, t) && NoRestart(paused, events)
    requires !Agreed(t.log, |s.log|)
    ensures |t.ranks| == |s.ranks| && t.ranks[p].pending
    ensures StopsEarly(t.ranks[p], t.log) <==> IdleSync(t.log, |s.log|)
  {
    FirstIsPaused(s, p, mode, paused);
    RunKeepsInv(paused, events, t);
    RunKeepsPaused(paused, events, t, p, |s.log|);
    NotIdleNotStopped(t, p, |s.log|);
  }

  lemma NotIdleNotStopped(t: System, q: nat, n: nat)
    requires q < |t.ranks| && Tracked(t.ranks[q], t.log, n)
    ensures StopsEarly(t.ranks[q], t.log) ==> IdleSync(t.log, n)
  {
  }

  /**
    * The pause of a round reaches its consensus: once every rank has been paused, and however the ranks
    * interleaved until then, the ranks can still agree exactly when no sync since the first pause found no
    * rank with unfinished work.
    */
  lemma PauseAgreesIff(s: System, p: nat, mode: PauseMode, paused: System, events: seq<Event>, t: System)
    requires Inv(s) && FirstPause(s, p, mode, paused) && Run(paused, events, t) && NoRestart(paused, events)
    requires !Agreed(t.log, |s.log|) && AllPending(t)
    ensures CanAgree(t, |s.log|) <==> !IdleSync(t.log, |s.log|)
  {
    var n := |s.log|;
    FirstIsPaused(s, p, mode, paused);
    RunKeepsInv(paused, events, t);
    RunKeepsPaused(paused, events, t, p, n);
    LogGrows(paused, events, t);
    assert RankOk(t.ranks[p], t.log);
    CanAgreeIff(t, p);
    if CanAgree(t, n) {
      var u :| Reaches(t, u) && Agreed(u.log, n);
      SameAgreement(t, u, n, t.ranks[p].taken);
    }
    if !IdleSync(t.log, n) {
      forall q | 0 <= q < |t.ranks|
        ensures !StopsEarly(t.ranks[q], t.log)
      {
        NotIdleNotStopped(t, q, n);
      }
      var u :| Reaches(t, u) && Agreed(u.log, t.ranks[p].taken);
      assert Agreed(u.log, n);
    }
  }

  /** No agreement up to t: one found later lies behind everything the ranks have read. */
  lemma SameAgreement(t: System, u: System, n: nat, taken: nat)
    requires Reaches(t, u) && Agreed(u.log, n) && !Agreed(t.log, n) && taken <= |t.log|
    ensures Agreed(u.log, taken)
  {
    var events :| Run(t, events, u) && NoRestart(t, events);
    LogGrows(t, events, u);
    assert forall k :: 0 <= k < |t.log| ==> t.log[k] == u.log[k];
  }

  // ---- an early stop happens ------------------------------------------------------------

  /** Served its only request and left with a step counted: a rank with nothing to do whose engine runs. */
  predicate Idling(r: Rank) {
    && r.phase == Loop && r.engines && r.running == 0 && r.waiting == 0
    && r.pause == Unpaused && !r.pending && r.taken == 0
  }

  lemma WarmUp(s: System, t: System, i: nat) returns (u: System)
    requires Reaches(s, t) && InLoop(t, i) && t.ranks[i].pause == Unpaused && !t.ranks[i].pending
    requires t.ranks[i].counter == 0 && t.ranks[i].taken == 0
    ensures Reaches(s, u) && |u.ranks| == |t.ranks| && u.log == t.log && Idling(u.ranks[i])
    ensures forall j :: 0 <= j < |t.ranks| && j != i ==> u.ranks[j] == t.ranks[j]
  {
    Then(s, t, AbortRequests(i, 0, 0));
    u := Apply(t, AbortRequests(i, 0, 0));
    Then(s, u, AddRequest(i, 0, false));
    u := Apply(u, AddRequest(i, 0, false));
    Then(s, u, Iterate(i, 0, 0, true));
    u := Apply(u, Iterate(i, 0, 0, true));
  }

  lemma {:induction false} AllWarmUp(s: System, n: nat) returns (u: System)
    requires Initial(s) && n <= |s.ranks|
    ensures Reaches(s, u) && |u.ranks| == |s.ranks| && u.log == []
    ensures forall j :: 0 <= j < n ==> Idling(u.ranks[j])
    ensures forall j :: n <= j < |s.ranks| ==> u.ranks[j] == s.ranks[j]
    decreases n
  {
    if n == 0 {
      Stay(s);
      u := s;
    } else {
      var before := AllWarmUp(s, n - 1);
      u := WarmUp(s, before, n - 1);
    }
  }

  /** Nothing to do and, but for rank i, no pause. */
  predicate OnlyPaused(r: Rank, paused: bool) {
    && r.taken == 0 && r.running == 0 && r.waiting == 0
    && (r.pending <==> paused) && r.pause == if paused then PausedAll else Unpaused
  }

  /** Every rank served a request, rank i alone was paused, and all have stepped to the sync. */
  lemma OnePausedAtSync(s: System, i: nat) returns (u: System)
    requires Initial(s) && i < |s.ranks|
    ensures Reaches(s, u) && |u.ranks| == |s.ranks| && u.log == []
    ensures forall q :: 0 <= q < |s.ranks| ==> u.ranks[q].phase == AtSync && OnlyPaused(u.ranks[q], q == i)
  {
    u := AllWarmUp(s, |s.ranks|);
    Then(s, u, PauseScheduler(i, Keep));
    u := Apply(u, PauseScheduler(i, Keep));
    u := AllToSync(s, u, |u.ranks|);
  }

  /** That sync finds nothing left to do. */
  lemma OnePausedSync(s: System, i: nat, j: nat) returns (u: System)
    requires Initial(s) && i < |s.ranks| && j < |s.ranks| && i != j
    ensures Reaches(s, u) && |u.ranks| == |s.ranks| && u.log == [Sync(false, false)]
    ensures forall q :: 0 <= q < |s.ranks| ==> u.ranks[q].phase == SyncDone && OnlyPaused(u.ranks[q], q == i)
  {
    u := OnePausedAtSync(s, i);
    assert OnlyPaused(u.ranks[j], false);
    Then(s, u, SyncBarrier);
    u := Apply(u, SyncBarrier);
  }

  /**
    * From every initial state with two or more ranks an early stop can happen to any rank i, and leave any
    * other rank j, paused afterwards, in a sync that never completes.
    */
  lemma EarlyStopReachable(s: System, i: nat, j: nat) returns (t: System)
    requires Initial(s) && i < |s.ranks| && j < |s.ranks| && i != j
    ensures Reaches(s, t) && |t.ranks| == |s.ranks|
    ensures t.ranks[i].phase == Loop && StopsEarly(t.ranks[i], t.log)
    ensures t.ranks[j].phase == AtSync && t.ranks[j].pending
  {
    t := OnePausedSync(s, i, j);
    Then(s, t, TakeSync(i));
    t := Apply(t, TakeSync(i));
    Then(s, t, TakeSync(j));
    t := Apply(t, TakeSync(j));
    Then(s, t, PauseScheduler(j, Wait));
    t := Apply(t, PauseScheduler(j, Wait));
    t := StepToSync(s, t, j);
  }
}
