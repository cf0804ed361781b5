/** Aborts travel twice: eagerly through aborts_queue and in order through input_queue. */
module AbortQueues {

  datatype Message = Add(id: nat) | Abort(ids: set<nat>)

  /** The messages each input socket delivers, in order. */
  type Streams = seq<seq<Message>>

  datatype Ref = Ref(socket: nat, index: nat)

  /** The message the input thread is working on; eager says it is already in aborts_queue. */
  datatype Hand = Empty | Holding(ref: Ref, eager: bool)

  /** The main thread: free, about to clear aborts_queue after seeing input_queue empty, or collecting aborts. */
  datatype Main = Free | SawEmpty | Gathering(ids: seq<Ref>)

  /**
    * received: messages taken from each socket; log: everything ever put on input_queue, of which the first
    * `handled` have been handled; live: requests in the scheduler.
    */
  datatype State = State(received: seq<nat>, hand: Hand, aborts: seq<Ref>, log: seq<Ref>, handled: nat, main: Main, live: set<nat>)

  datatype Event =
    | Receive(socket: nat)
    | PreprocessError
    | PutAbort
    | PutInput
    | HandleInput(rejected: bool)
    | SeeEmpty
    | ClearAborts
    | BeginGather
    | GatherOne
    | AbortGathered
    | Finish(id: nat)

  predicate Valid(streams: Streams, ref: Ref) {
    ref.socket < |streams| && ref.index < |streams[ref.socket]|
  }

  function At(streams: Streams, ref: Ref): Message
    requires Valid(streams, ref)
  {
    streams[ref.socket][ref.index]
  }

  predicate AllValid(streams: Streams, refs: seq<Ref>) {
    forall k :: 0 <= k < |refs| ==> Valid(streams, refs[k])
  }

  predicate Enabled(streams: Streams, s: State, e: Event) {
    match e
    case Receive(socket) =>
      socket < |streams| && socket < |s.received| && s.received[socket] < |streams[socket]| && s.hand == Empty
    case PreprocessError => s.hand.Holding? && Valid(streams, s.hand.ref) && At(streams, s.hand.ref).Add?
    case PutAbort => s.hand.Holding? && Valid(streams, s.hand.ref) && At(streams, s.hand.ref).Abort? && !s.hand.eager
    case PutInput => s.hand.Holding? && Valid(streams, s.hand.ref) && (At(streams, s.hand.ref).Abort? ==> s.hand.eager)
    case HandleInput(_) => s.main == Free && s.handled < |s.log| && Valid(streams, s.log[s.handled])
    case SeeEmpty => s.main == Free && s.handled == |s.log|
    case ClearAborts => s.main == SawEmpty
    case BeginGather => s.main == Free && s.aborts != []
    case GatherOne => s.main.Gathering? && s.aborts != []
    case AbortGathered => s.main.Gathering? && s.aborts == [] && AllValid(streams, s.main.ids)
    case Finish(id) => true
  }

  /** All ids of the collected abort lists. */
  function IdsOf(streams: Streams, refs: seq<Ref>): set<nat>
    requires AllValid(streams, refs)
  {
    set k, id | 0 <= k < |refs| && At(streams, refs[k]).Abort? && id in At(streams, refs[k]).ids :: id
  }

  function Handled(streams: Streams, s: State, rejected: bool): set<nat>
    requires s.handled < |s.log| && Valid(streams, s.log[s.handled])
  {
    match At(streams, s.log[s.handled])
    case Add(id) => if rejected then s.live else s.live + {id}
    case Abort(ids) => s.live - ids
  }

  function Apply(streams: Streams, s: State, e: Event): State
    requires Enabled(streams, s, e)
  {
    match e
    case Receive(socket) =>
      s.(hand := Holding(Ref(socket, s.received[socket]), false), received := s.received[socket := s.received[socket] + 1])
    case PreprocessError => s.(hand := Empty)
    case PutAbort => s.(aborts := s.aborts + [s.hand.ref], hand := s.hand.(eager := true))
    case PutInput => s.(log := s.log + [s.hand.ref], hand := Empty)
    case HandleInput(rejected) => s.(live := Handled(streams, s, rejected), handled := s.handled + 1)
    case SeeEmpty => s.(main := SawEmpty)
    case ClearAborts => s.(aborts := [], main := Free)
    case BeginGather => s.(main := Gathering([]))
    case GatherOne => s.(aborts := s.aborts[1..], main := Gathering(s.main.ids + [s.aborts[0]]))
    case AbortGathered => s.(live := s.live - IdsOf(streams, s.main.ids), main := Free)
    case Finish(id) => s.(live := s.live - {id})
  }

  // ---- what every interleaving keeps ----------------------------------------

  /** The input queue keeps every socket's order; the hand comes after everything of its socket. */
  ghost predicate InOrder(streams: Streams, s: State) {
    && |s.received| == |streams| && s.handled <= |s.log|
    && (forall k :: 0 <= k < |s.log| ==> Valid(streams, s.log[k]) && s.log[k].index < s.received[s.log[k].socket])
    && (forall p, q :: 0 <= p < q < |s.log| && s.log[p].socket == s.log[q].socket ==> s.log[p].index < s.log[q].index)
    && (s.hand.Holding? ==>
          && Valid(streams, s.hand.ref) && s.hand.ref.index < s.received[s.hand.ref.socket]
          && forall k :: 0 <= k < |s.log| && s.log[k].socket == s.hand.ref.socket ==> s.log[k].index < s.hand.ref.index)
  }

  /** The ordered copy of an eager abort is handled, queued, or still in the input thread's hand. */
  ghost predicate HasTwin(streams: Streams, s: State, ref: Ref) {
    && Valid(streams, ref) && At(streams, ref).Abort?
    && (ref in s.log || (s.hand.Holding? && s.hand.ref == ref))
  }

  ghost predicate Twins(streams: Streams, s: State) {
    && (forall k :: 0 <= k < |s.aborts| ==> HasTwin(streams, s, s.aborts[k]))
    && (s.main.Gathering? ==> forall k :: 0 <= k < |s.main.ids| ==> HasTwin(streams, s, s.main.ids[k]))
  }

  /** Entry k of the log aborts id. */
  ghost predicate AbortsAt(streams: Streams, log: seq<Ref>, k: nat, id: nat) {
    k < |log| && Valid(streams, log[k]) && At(streams, log[k]).Abort? && id in At(streams, log[k]).ids
  }

  /** Entry k of the log adds id. */
  ghost predicate AddsAt(streams: Streams, log: seq<Ref>, k: nat, id: nat) {
    k < |log| && Valid(streams, log[k]) && At(streams, log[k]) == Add(id)
  }

  /** id was added by a handled entry and no handled entry after it aborts id. */
  ghost predicate AddedAndNotAborted(streams: Streams, log: seq<Ref>, handled: nat, id: nat) {
    exists p: nat :: p < handled && AddsAt(streams, log, p, id) && forall q :: p < q < handled ==> !AbortsAt(streams, log, q, id)
  }

  ghost predicate LiveOk(streams: Streams, s: State) {
    forall id :: id in s.live ==> AddedAndNotAborted(streams, s.log, s.handled, id)
  }

  ghost predicate Inv(streams: Streams, s: State) {
    InOrder(streams, s) && Twins(streams, s) && LiveOk(streams, s)
  }

  ghost predicate Initial(streams: Streams, s: State) {
    s == State(seq(|streams|, _ => 0), Empty, [], [], 0, Free, {})
  }

  lemma KeepsOrder(streams: Streams, s: State, e: Event)
    requires Inv(streams, s) && Enabled(streams, s, e)
    ensures InOrder(streams, Apply(streams, s, e))
  {
  }

  lemma KeepsTwins(streams: Streams, s: State, e: Event)
    requires Inv(streams, s) && Enabled(streams, s, e)
    ensures Twins(streams, Apply(streams, s, e))
  {
    var t := Apply(streams, s, e);
    forall ref | HasTwin(streams, s, ref)
      ensures HasTwin(streams, t, ref)
    {
      if e.PutInput? && s.hand.ref == ref {
        assert t.log[|s.log|] == ref;
      } else if ref in s.log && e.PutInput? {
        var k :| 0 <= k < |s.log| && s.log[k] == ref;
        assert t.log[k] == ref;
      }
    }
  }

  lemma LiveGrowsByHandling(streams: Streams, s: State, rejected: bool, id: nat)
    requires Inv(streams, s) && s.handled < |s.log| && id in Handled(streams, s, rejected)
    ensures AddedAndNotAborted(streams, s.log, s.handled + 1, id)
  {
    var k := s.handled;
    if At(streams, s.log[k]) == Add(id) {
      assert AddsAt(streams, s.log, k, id);
    } else {
      assert id in s.live;
      var p: nat :| p < s.handled && AddsAt(streams, s.log, p, id) && forall q :: p < q < s.handled ==> !AbortsAt(streams, s.log, q, id);
      assert !AbortsAt(streams, s.log, k, id);
    }
  }

  lemma LiveOutlivesPut(streams: Streams, log: seq<Ref>, ref: Ref, handled: nat, id: nat)
    requires AddedAndNotAborted(streams, log, handled, id) && handled <= |log|
    ensures AddedAndNotAborted(streams, log + [ref], handled, id)
  {
    var p: nat :| p < handled && AddsAt(streams, log, p, id) && forall q :: p < q < handled ==> !AbortsAt(streams, log, q, id);
    assert AddsAt(streams, log + [ref], p, id);
    forall q | p < q < handled
      ensures !AbortsAt(streams, log + [ref], q, id)
    {
      assert !AbortsAt(streams, log, q, id);
    }
  }

  lemma KeepsLive(streams: Streams, s: State, e: Event)
    requires Inv(streams, s) && Enabled(streams, s, e)
    ensures LiveOk(streams, Apply(streams, s, e))
  {
    var t := Apply(streams, s, e);
    forall id | id in t.live
      ensures AddedAndNotAborted(streams, t.log, t.handled, id)
    {
      if e.HandleInput? {
        LiveGrowsByHandling(streams, s, e.rejected, id);
      } else if e.PutInput? {
        LiveOutlivesPut(streams, s.log, s.hand.ref, s.handled, id);
      }
    }
  }

  // ---- runs ------------------------------------------------------------------

  ghost predicate Run(streams: Streams, s: State, events: seq<Event>, t: State)
    decreases |events|
  {
    if events == [] then t == s
    else Enabled(streams, s, events[0]) && Run(streams, Apply(streams, s, events[0]), events[1..], t)
  }

  /** Every interleaving of the input thread, the main loop and finishing requests keeps the invariant. */
  lemma {:induction false} RunKeeps(streams: Streams, s: State, events: seq<Event>, t: State)
    requires Inv(streams, s) && Run(streams, s, events, t)
    ensures Inv(streams, t)
    decreases |events|
  {
    if events != [] {
      KeepsOrder(streams, s, events[0]);
      KeepsTwins(streams, s, events[0]);
      KeepsLive(streams, s, events[0]);
      RunKeeps(streams, Apply(streams, s, events[0]), events[1..], t);
    }
  }

  /** The input thread goes on with every message it holds, and takes the next one of any socket when it holds none. */
  lemma InputGoesOn(streams: Streams, s: State, events: seq<Event>, t: State)
    requires Initial(streams, s) && Run(streams, s, events, t)
    ensures |t.received| == |streams| && (t.hand.Holding? ==> Valid(streams, t.hand.ref))
    ensures t.hand == Empty ==>
      forall k: nat :: k < |streams| && t.received[k] < |streams[k]| ==> Enabled(streams, t, Receive(k))
    ensures t.hand.Holding? && At(streams, t.hand.ref).Add? ==> Enabled(streams, t, PutInput) && Enabled(streams, t, PreprocessError)
    ensures t.hand.Holding? && At(streams, t.hand.ref).Abort? ==> Enabled(streams, t, if t.hand.eager then PutInput else PutAbort)
  {
    RunKeeps(streams, s, events, t);
  }

  /**
    * The main loop is never stuck: it handles the next entry of a queue that is not empty, sees an empty one and clears
    * the aborts, or collects aborts until there are none and ends them; requests finish at any time.
    */
  lemma MainGoesOn(streams: Streams, s: State, events: seq<Event>, t: State)
    requires Initial(streams, s) && Run(streams, s, events, t)
    ensures forall rejected :: Enabled(streams, t, HandleInput(rejected)) <==> t.main == Free && t.handled < |t.log|
    ensures Enabled(streams, t, SeeEmpty) <==> t.main == Free && t.handled >= |t.log|
    ensures Enabled(streams, t, ClearAborts) <==> t.main == SawEmpty
    ensures Enabled(streams, t, BeginGather) <==> t.main == Free && t.aborts != []
    ensures Enabled(streams, t, GatherOne) <==> t.main.Gathering? && t.aborts != []
    ensures Enabled(streams, t, AbortGathered) <==> t.main.Gathering? && t.aborts == []
    ensures forall id :: Enabled(streams, t, Finish(id))
  {
    RunKeeps(streams, s, events, t);
  }

  /** Clearing or draining aborts_queue loses nothing: the ordered copy is handled or still on its way. */
  lemma NoAbortLost(streams: Streams, s: State, events: seq<Event>, t: State, k: nat)
    requires Initial(streams, s) && Run(streams, s, events, t) && k < |t.aborts|
    ensures HasTwin(streams, t, t.aborts[k])
  {
    RunKeeps(streams, s, events, t);
  }

  /** A live request was added by a handled message after every handled abort of its id. */
  lemma LiveMeansReadded(streams: Streams, t: State, id: nat, q: nat)
    requires Inv(streams, t) && id in t.live && q < t.handled && AbortsAt(streams, t.log, q, id)
    ensures exists p :: q < p < t.handled && AddsAt(streams, t.log, p, id)
  {
    var p: nat :| p < t.handled && AddsAt(streams, t.log, p, id)
      && forall q :: p < q < t.handled ==> !AbortsAt(streams, t.log, q, id);
    assert p != q;
  }

  /** Once an abort has been handled its id stays dead until another add of it is handled. */
  lemma AbortedIsNotLive(streams: Streams, s: State, events: seq<Event>, t: State, id: nat, q: nat)
    requires Initial(streams, s) && Run(streams, s, events, t)
    requires q < t.handled && AbortsAt(streams, t.log, q, id)
    requires forall p :: q < p < t.handled ==> !AddsAt(streams, t.log, p, id)
    ensures id !in t.live
  {
    RunKeeps(streams, s, events, t);
    if id in t.live {
      LiveMeansReadded(streams, t, id, q);
    }
  }

  // ---- when an eager abort can hit a later request ----------------------------

  ghost predicate IsAdd(streams: Streams, r: Ref, id: nat) {
    Valid(streams, r) && At(streams, r) == Add(id)
  }

  ghost predicate IsAbort(streams: Streams, r: Ref, id: nat) {
    Valid(streams, r) && At(streams, r).Abort? && id in At(streams, r).ids
  }

  /** With every add of the id ahead of the abort on its socket, handling the abort ends the request for good. */
  lemma AbortedForGood(streams: Streams, s: State, events: seq<Event>, t: State, id: nat, r: Ref, q: nat)
    requires Initial(streams, s) && Run(streams, s, events, t)
    requires IsAbort(streams, r, id) && q < t.handled <= |t.log| && t.log[q] == r
    requires forall a :: IsAdd(streams, a, id) ==> a.socket == r.socket && a.index < r.index
    ensures id !in t.live
  {
    RunKeeps(streams, s, events, t);
    forall p | q < p < t.handled
      ensures !AddsAt(streams, t.log, p, id)
    {
      var later := t.log[p];
      assert !IsAdd(streams, later, id);
    }
    AbortedIsNotLive(streams, s, events, t, id, q);
  }

  /** Every abort of id comes behind every add of it, on the same connection. */
  ghost predicate Disciplined(streams: Streams, id: nat) {
    forall a, r :: IsAdd(streams, a, id) && IsAbort(streams, r, id) ==> a.socket == r.socket && a.index < r.index
  }

  /** The message is queued or in the input thread's hand. */
  ghost predicate StillDue(t: State, r: Ref) {
    (exists k :: t.handled <= k < |t.log| && t.log[k] == r) || (t.hand.Holding? && t.hand.ref == r)
  }

  /** The eager batch is about to remove the live request id. */
  ghost predicate Kills(streams: Streams, t: State, id: nat) {
    Enabled(streams, t, AbortGathered) && id in t.live && id !in Apply(streams, t, AbortGathered).live
  }

  /** In every run an eager abort is only ahead of an ordered abort that is still to be handled. */
  ghost predicate NeverStale(streams: Streams, id: nat) {
    forall s, events, t :: Initial(streams, s) && Run(streams, s, events, t) && Kills(streams, t, id) ==>
      exists r :: IsAbort(streams, r, id) && StillDue(t, r)
  }

  /** A log that keeps each socket's order handles no abort before an add it must follow. */
  lemma NotHandledYet(streams: Streams, t: State, id: nat, r: Ref)
    requires Inv(streams, t) && Disciplined(streams, id) && id in t.live && IsAbort(streams, r, id)
    ensures forall m :: 0 <= m < t.handled ==> t.log[m] != r
  {
    forall m: nat | m < t.handled
      ensures t.log[m] != r
    {
      if t.log[m] == r {
        assert AbortsAt(streams, t.log, m, id);
        LiveMeansReadded(streams, t, id, m);
        var p :| m < p < t.handled && AddsAt(streams, t.log, p, id);
        assert IsAdd(streams, t.log[p], id);
      }
    }
  }

  lemma EagerAbortIsAheadOfTime(streams: Streams, s: State, events: seq<Event>, t: State, id: nat)
    requires Initial(streams, s) && Run(streams, s, events, t) && Disciplined(streams, id) && Kills(streams, t, id)
    ensures exists r :: IsAbort(streams, r, id) && StillDue(t, r)
  {
    RunKeeps(streams, s, events, t);
    var k :| 0 <= k < |t.main.ids| && At(streams, t.main.ids[k]).Abort? && id in At(streams, t.main.ids[k]).ids;
    var r := t.main.ids[k];
    assert HasTwin(streams, t, r);
    NotHandledYet(streams, t, id, r);
    if r in t.log {
      var m: nat :| m < |t.log| && t.log[m] == r;
      assert t.handled <= m;
    }
    assert IsAbort(streams, r, id) && StillDue(t, r);
  }

  // ---- a run that kills a later request ----------------------------------------

  ghost predicate Reaches(streams: Streams, s: State, t: State) {
    exists events :: Run(streams, s, events, t)
  }

  lemma {:induction false} RunThen(streams: Streams, s: State, events: seq<Event>, t: State, e: Event)
    requires Run(streams, s, events, t) && Enabled(streams, t, e)
    ensures Run(streams, s, events + [e], Apply(streams, t, e))
    decreases |events|
  {
    if events == [] {
      assert [e][1..] == [];
    } else {
      RunThen(streams, Apply(streams, s, events[0]), events[1..], t, e);
      assert (events + [e])[1..] == events[1..] + [e];
    }
  }

  lemma Then(streams: Streams, s: State, t: State, e: Event)
    requires Reaches(streams, s, t) && Enabled(streams, t, e)
    ensures Reaches(streams, s, Apply(streams, t, e))
  {
    var events :| Run(streams, s, events, t);
    RunThen(streams, s, events, t, e);
  }

  /** Between two messages: nothing in hand, everything handled, the main thread free. */
  ghost predicate Quiet(streams: Streams, t: State) {
    && t.hand == Empty && t.main == Free && t.handled == |t.log| && |t.received| == |streams|
  }

  /** What delivering the next message of a socket leaves: an abort stays in aborts_queue, an added request is live. */
  ghost predicate Delivered(streams: Streams, t: State, socket: nat, u: State)
    requires socket < |streams| && |t.received| == |streams| && t.received[socket] < |streams[socket]|
  {
    var r := Ref(socket, t.received[socket]);
    && Quiet(streams, u) && u.received == t.received[socket := t.received[socket] + 1]
    && u.aborts == t.aborts + (if At(streams, r).Abort? then [r] else [])
    && (At(streams, r).Add? ==> At(streams, r).id in u.live)
  }

  lemma DeliverOne(streams: Streams, s: State, t: State, socket: nat) returns (u: State)
    requires Reaches(streams, s, t) && Quiet(streams, t) && socket < |streams| && t.received[socket] < |streams[socket]|
    ensures Reaches(streams, s, u) && Delivered(streams, t, socket, u)
  {
    Then(streams, s, t, Receive(socket));
    u := Apply(streams, t, Receive(socket));
    if At(streams, u.hand.ref).Abort? {
      Then(streams, s, u, PutAbort);
      u := Apply(streams, u, PutAbort);
    }
    Then(streams, s, u, PutInput);
    u := Apply(streams, u, PutInput);
    assert u.log[u.handled] == Ref(socket, t.received[socket]);
    Then(streams, s, u, HandleInput(false));
    u := Apply(streams, u, HandleInput(false));
  }

  /** Every message of the socket up to n, one after the other. */
  lemma {:induction false} DeliverUpTo(streams: Streams, s: State, t: State, socket: nat, n: nat) returns (u: State)
    requires Reaches(streams, s, t) && Quiet(streams, t) && socket < |streams| && t.received[socket] <= n <= |streams[socket]|
    ensures Reaches(streams, s, u) && Quiet(streams, u) && u.received == t.received[socket := n]
    ensures t.aborts <= u.aborts
    ensures t.received[socket] < n ==>
      match streams[socket][n - 1]
      case Add(id) => id in u.live
      case Abort(_) => Ref(socket, n - 1) in u.aborts
    decreases n
  {
    if t.received[socket] == n {
      u := t;
    } else {
      var before := DeliverUpTo(streams, s, t, socket, n - 1);
      u := DeliverOne(streams, s, before, socket);
      assert u.aborts[..|before.aborts|] == before.aborts;
      if streams[socket][n - 1].Abort? {
        assert u.aborts[|before.aborts|] == Ref(socket, n - 1);
      }
    }
  }

  lemma {:induction false} CollectRest(streams: Streams, s: State, t: State) returns (u: State)
    requires Reaches(streams, s, t) && t.main.Gathering?
    ensures Reaches(streams, s, u) && u == t.(aborts := [], main := Gathering(t.main.ids + t.aborts))
    decreases |t.aborts|
  {
    if t.aborts == [] {
      u := t;
      assert t.main.ids + [] == t.main.ids;
    } else {
      Then(streams, s, t, GatherOne);
      u := CollectRest(streams, s, Apply(streams, t, GatherOne));
      assert t.main.ids + [t.aborts[0]] + t.aborts[1..] == t.main.ids + t.aborts;
    }
  }

  /** Deliver the abort, then the add: nothing is due any more, the request lives, and the eager copy is queued. */
  lemma DeliverBoth(streams: Streams, s: State, id: nat, a: Ref, r: Ref) returns (t: State)
    requires Initial(streams, s) && IsAdd(streams, a, id) && IsAbort(streams, r, id)
    requires !(a.socket == r.socket && a.index < r.index)
    ensures Reaches(streams, s, t) && Quiet(streams, t) && id in t.live && r in t.aborts
  {
    assert Run(streams, s, [], s);
    var first := DeliverUpTo(streams, s, s, r.socket, r.index + 1);
    t := DeliverUpTo(streams, s, first, a.socket, a.index + 1);
    assert t.aborts[..|first.aborts|] == first.aborts;
  }

  lemma CollectedAreValid(streams: Streams, s: State, t: State)
    requires Initial(streams, s) && Reaches(streams, s, t) && t.main.Gathering?
    ensures AllValid(streams, t.main.ids)
  {
    var events :| Run(streams, s, events, t);
    RunKeeps(streams, s, events, t);
    forall k | 0 <= k < |t.main.ids|
      ensures Valid(streams, t.main.ids[k])
    {
      assert HasTwin(streams, t, t.main.ids[k]);
    }
  }

  /** Collecting the queued copy then removes the live request. */
  lemma StaleAbortKills(streams: Streams, s: State, id: nat, a: Ref, r: Ref) returns (t: State)
    requires Initial(streams, s) && IsAdd(streams, a, id) && IsAbort(streams, r, id)
    requires !(a.socket == r.socket && a.index < r.index)
    ensures Reaches(streams, s, t) && Kills(streams, t, id) && t.hand == Empty && t.handled == |t.log|
  {
    var both := DeliverBoth(streams, s, id, a, r);
    Then(streams, s, both, BeginGather);
    t := CollectRest(streams, s, Apply(streams, both, BeginGather));
    CollectedAreValid(streams, s, t);
    assert r in t.main.ids;
  }

  /**
    * An eager abort never hits a request its ordered copy would spare, in any run, if and only if every abort
    * of the id comes behind every add of it on the same connection.
    */
  lemma NeverStaleIff(streams: Streams, id: nat)
    ensures NeverStale(streams, id) <==> Disciplined(streams, id)
  {
    if Disciplined(streams, id) {
      forall s, events, t | Initial(streams, s) && Run(streams, s, events, t) && Kills(streams, t, id)
        ensures exists r :: IsAbort(streams, r, id) && StillDue(t, r)
      {
        EagerAbortIsAheadOfTime(streams, s, events, t, id);
      }
    } else {
      var a, r :| IsAdd(streams, a, id) && IsAbort(streams, r, id) && !(a.socket == r.socket && a.index < r.index);
      var s := State(seq(|streams|, _ => 0), Empty, [], [], 0, Free, {});
      var t := StaleAbortKills(streams, s, id, a, r);
      var events :| Run(streams, s, events, t);
      assert forall m :: !StillDue(t, m);
    }
  }

  /** A concrete stream: the abort of the first request 7 kills the second one. */
  lemma ReusedIdIsKilled(s: State) returns (t: State)
    requires Initial([[Add(7), Abort({7}), Add(7)]], s)
    ensures Reaches([[Add(7), Abort({7}), Add(7)]], s, t) && Kills([[Add(7), Abort({7}), Add(7)]], t, 7)
    ensures t.hand == Empty && t.handled == |t.log|
  {
    t := StaleAbortKills([[Add(7), Abort({7}), Add(7)]], s, 7, Ref(0, 2), Ref(0, 1));
  }

  // ---- the main thread's loops ---------------------------------------------------

  function HandleOne(live: set<nat>, m: Message): set<nat> {
    match m
    case Add(id) => live + {id}
    case Abort(ids) => live - ids
  }

  function HandleAll(live: set<nat>, input: seq<Message>): set<nat> {
    if input == [] then live else HandleOne(HandleAll(live, input[..|input| - 1]), input[|input| - 1])
  }

  function UnionOf(lists: seq<set<nat>>): set<nat> {
    if lists == [] then {} else UnionOf(lists[..|lists| - 1]) + lists[|lists| - 1]
  }

  /** No entry from k on aborts id. */
  ghost predicate SparedFrom(input: seq<Message>, k: nat, id: nat) {
    forall j :: k <= j < |input| && input[j].Abort? ==> id !in input[j].ids
  }

  /** id is alive afterwards exactly when its last add, or its being alive before, comes after every abort of it. */
  ghost predicate IsOutcome(before: set<nat>, input: seq<Message>, after: set<nat>) {
    forall id :: id in after <==>
      (id in before && SparedFrom(input, 0, id)) || exists k :: 0 <= k < |input| && input[k] == Add(id) && SparedFrom(input, k, id)
  }

  lemma {:induction false} OutcomeOfAll(live: set<nat>, input: seq<Message>)
    ensures IsOutcome(live, input, HandleAll(live, input))
  {
    if input != [] {
      var init, last := input[..|input| - 1], input[|input| - 1];
      OutcomeOfAll(live, init);
      forall id
        ensures id in HandleAll(live, input) <==>
          (id in live && SparedFrom(input, 0, id)) || exists k :: 0 <= k < |input| && input[k] == Add(id) && SparedFrom(input, k, id)
      {
        OutcomeOfOne(live, input, HandleAll(live, init), id);
      }
    }
  }

  lemma SparedNext(input: seq<Message>, k: nat, id: nat)
    requires input != [] && k < |input|
    ensures SparedFrom(input, k, id) <==>
      SparedFrom(input[..|input| - 1], k, id) && (input[|input| - 1].Abort? ==> id !in input[|input| - 1].ids)
  {
    var init := input[..|input| - 1];
    if SparedFrom(input, k, id) {
      assert forall j :: k <= j < |init| ==> init[j] == input[j];
    }
  }

  lemma OutcomeOfOne(live: set<nat>, input: seq<Message>, before: set<nat>, id: nat)
    requires input != [] && IsOutcome(live, input[..|input| - 1], before)
    ensures id in HandleOne(before, input[|input| - 1]) <==>
      (id in live && SparedFrom(input, 0, id)) || exists k :: 0 <= k < |input| && input[k] == Add(id) && SparedFrom(input, k, id)
  {
    var last := |input| - 1;
    var init := input[..last];
    SparedNext(input, 0, id);
    forall k | 0 <= k < last && input[k] == Add(id)
      ensures init[k] == Add(id)
      ensures SparedFrom(input, k, id) <==> SparedFrom(init, k, id) && (input[last].Abort? ==> id !in input[last].ids)
    {
      SparedNext(input, k, id);
    }
    if input[last] == Add(id) {
      assert SparedFrom(input, last, id);
    } else if k :| 0 <= k < |init| && init[k] == Add(id) && SparedFrom(init, k, id) {
      assert input[k] == Add(id);
    }
  }

  lemma {:induction false} UnionHasAll(lists: seq<set<nat>>)
    ensures forall id :: id in UnionOf(lists) <==> exists k :: 0 <= k < |lists| && id in lists[k]
  {
    if lists != [] {
      UnionHasAll(lists[..|lists| - 1]);
      assert lists == lists[..|lists| - 1] + [lists[|lists| - 1]];
    }
  }

  predicate AbortsLater(input: seq<Message>, id: nat) {
    exists k :: 0 <= k < |input| && input[k].Abort? && id in input[k].ids
  }

  /** Aborting eagerly first changes nothing about the outcome when every id is aborted in the input queue too. */
  lemma {:induction false} EagerDrainIsConfluent(live: set<nat>, eager: set<nat>, input: seq<Message>)
    ensures forall id :: (id in HandleAll(live, input) && id !in HandleAll(live - eager, input)) ==> id in eager && !AbortsLater(input, id)
    ensures HandleAll(live - eager, input) <= HandleAll(live, input)
    ensures (forall id :: id in eager ==> AbortsLater(input, id)) ==> HandleAll(live - eager, input) == HandleAll(live, input)
  {
    if input != [] {
      var init, last := input[..|input| - 1], input[|input| - 1];
      EagerDrainIsConfluent(live, eager, init);
      forall id | id in HandleAll(live, input) && id !in HandleAll(live - eager, input)
        ensures id in eager && !AbortsLater(input, id)
      {
        assert id in HandleAll(live, init) && id !in HandleAll(live - eager, init);
        assert forall k :: 0 <= k < |init| ==> input[k] == init[k];
      }
    }
  }

  class MainLoop {
    var input: seq<Message>
    var aborts: seq<set<nat>>
    var live: set<nat>

    /** Collects every queued abort list, then aborts them as one batch. */
    method ProcessAbortsQueue()
      modifies this
      ensures aborts == [] && input == old(input) && live == old(live) - UnionOf(old(aborts))
      ensures forall id :: id in live <==> id in old(live) && forall k :: 0 <= k < |old(aborts)| ==> id !in old(aborts)[k]
    {
      ghost var before := aborts;
      if aborts != [] {
        var ids: set<nat> := {};
        ghost var taken := 0;
        while aborts != []
          invariant taken <= |before| && aborts == before[taken..] && ids == UnionOf(before[..taken])
          invariant input == old(input) && live == old(live)
          decreases |aborts|
        {
          assert before[..taken + 1][..taken] == before[..taken];
          ids := ids + aborts[0];
          aborts := aborts[1..];
          taken := taken + 1;
        }
        assert before[..taken] == before;
        live := live - ids;
      }
      UnionHasAll(before);
    }

    /** Handles every queued request in order. */
    method ProcessInputQueue()
      modifies this
      ensures input == [] && aborts == old(aborts) && live == HandleAll(old(live), old(input))
      ensures IsOutcome(old(live), old(input), live)
    {
      ghost var before := input;
      ghost var taken := 0;
      while input != []
        invariant taken <= |before| && input == before[taken..] && live == HandleAll(old(live), before[..taken])
        invariant aborts == old(aborts)
        decreases |input|
      {
        assert before[..taken + 1][..taken] == before[..taken];
        live := HandleOne(live, input[0]);
        input := input[1..];
        taken := taken + 1;
      }
      assert before[..taken] == before;
      OutcomeOfAll(old(live), before);
    }
  }
}
