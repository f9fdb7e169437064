// The connection to the PM2 daemon and its event bus: callers, callbacks, timeouts,
// disconnects and bus events interleave freely. PM2's callbacks are taken to be
// asynchronous; SynchronousCallbackSticks shows what happens otherwise.
module Pm2Connection {
  import opened Text
  import opened Runs

  datatype Attempt = Unsettled | Resolved | Rejected | TimedOut

  /** A bus handed over by launchBus: whether it delivers, whether it has close(), whether the
      service has closed it, and whether it has reported close or error. */
  datatype Bus = Bus(live: bool, closable: bool, closed: bool, ended: bool)

  function NewBus(closable: bool): Bus {
    Bus(true, closable, false, false)
  }

  /** The four fields of the service (promises and buses named by number), and what has been
      asked of PM2 and re-emitted so far. */
  datatype State = State(
    connected: bool, connecting: Option<nat>, bus: Option<nat>, busInitializing: Option<nat>,
    attempts: seq<Attempt>, launchPending: seq<bool>, buses: seq<Bus>, emitted: seq<int>)

  datatype Event =
    | Connect
    | ConnectTimeout(attempt: nat)
    | ConnectCallback(attempt: nat, failed: bool)
    | Disconnect(closes: bool)
    | EnsureBus
    | LaunchCallback(launch: nat, failed: bool, closable: bool)
    | BusEnds(bus: nat, delivers: bool)
    | Packet(packet: int)

  const START: State := State(false, None, None, None, [], [], [], [])

  // ----- Steps ---------------------------------------------------------------

  function OnConnect(s: State): State {
    if s.connected || s.connecting.Some? then s
    else s.(connecting := Some(|s.attempts|), attempts := s.attempts + [Unsettled])
  }

  predicate Open(s: State, a: nat) {
    a < |s.attempts| && s.attempts[a] == Unsettled
  }

  function OnTimeout(s: State, a: nat): State {
    if !Open(s, a) then s else s.(attempts := s.attempts[a := TimedOut], connecting := None)
  }

  function OnConnectCallback(s: State, a: nat, failed: bool): State {
    if !Open(s, a) then s
    else if failed then s.(attempts := s.attempts[a := Rejected], connecting := None)
    else s.(attempts := s.attempts[a := Resolved], connecting := None, connected := true)
  }

  /** Calls close() on the bus, if it has one, and drops the reference even if close() throws;
      `closes` is whether it took effect. */
  function CloseBus(s: State, closes: bool): State {
    if s.bus.Some? && s.bus.value < |s.buses| && s.buses[s.bus.value].closable
    then
      var b := s.buses[s.bus.value];
      s.(buses := s.buses[s.bus.value := b.(live := b.live && !closes, closed := true)], bus := None)
    else s
  }

  function OnDisconnect(s: State, closes: bool): State {
    CloseBus(s, closes).(connected := false)
  }

  /** ensureConnected once the connection is up, then attachBus. */
  function OnEnsureBus(s: State): State {
    if !s.connected || s.bus.Some? || s.busInitializing.Some? then s
    else s.(busInitializing := Some(|s.launchPending|), launchPending := s.launchPending + [true])
  }

  predicate Awaited(s: State, n: nat) {
    n < |s.launchPending| && s.launchPending[n]
  }

  /** An answer of launchBus to call `n`; nothing in the callback notices a second one. */
  function OnLaunchCallback(s: State, n: nat, failed: bool, closable: bool): State {
    if n >= |s.launchPending| then s
    else
      var t := s.(launchPending := s.launchPending[n := false], busInitializing := None);
      if failed then t else t.(bus := Some(|s.buses|), buses := s.buses + [NewBus(closable)])
  }

  /** 'close' or 'error' of bus `b`: the handler clears the reference, whichever bus it is,
      and leaves the bus and its listeners alone; `delivers` is whether the bus itself goes on
      delivering packets. */
  function OnBusEnds(s: State, b: nat, delivers: bool): State {
    if b >= |s.buses| then s
    else s.(buses := s.buses[b := s.buses[b].(live := s.buses[b].live && delivers, ended := true)], bus := None)
  }

  function LiveCount(buses: seq<Bus>): nat {
    if buses == [] then 0 else (if buses[0].live then 1 else 0) + LiveCount(buses[1..])
  }

  function Repeat(x: int, n: nat): seq<int> {
    if n == 0 then [] else [x] + Repeat(x, n - 1)
  }

  /** A packet reaches every live bus, and each re-emits it. */
  function OnPacket(s: State, packet: int): State {
    s.(emitted := s.emitted + Repeat(packet, LiveCount(s.buses)))
  }

  function Step(s: State, e: Event): State {
    match e
    case Connect => OnConnect(s)
    case ConnectTimeout(a) => OnTimeout(s, a)
    case ConnectCallback(a, failed) => OnConnectCallback(s, a, failed)
    case Disconnect(closes) => OnDisconnect(s, closes)
    case EnsureBus => OnEnsureBus(s)
    case LaunchCallback(n, failed, closable) => OnLaunchCallback(s, n, failed, closable)
    case BusEnds(b, delivers) => OnBusEnds(s, b, delivers)
    case Packet(p) => OnPacket(s, p)
  }

  // ----- Connection attempts -------------------------------------------------

  /** `connecting` names the one unsettled attempt, or there is none; never while connected. */
  predicate ConnectionOk(s: State) {
    && !(s.connected && s.connecting.Some?)
    && (s.connecting.Some? ==> Open(s, s.connecting.value))
    && forall a :: 0 <= a < |s.attempts| && s.attempts[a] == Unsettled ==> s.connecting == Some(a)
  }

  lemma StepKeepsConnection(s: State, e: Event)
    requires ConnectionOk(s)
    ensures ConnectionOk(Step(s, e))
  {
  }

  /** In every interleaving, with late and repeated callbacks: at most one attempt is
      unsettled, `connecting` is set exactly when one is, and never while connected. */
  lemma ConnectionRuns(es: seq<Event>, n: nat)
    requires n <= |es|
    ensures var s := After(Step, START, es, n);
      && !(s.connected && s.connecting.Some?)
      && (s.connecting.Some? <==> exists a :: Open(s, a))
      && (forall a, b :: Open(s, a) && Open(s, b) ==> a == b)
  {
    forall s, e | ConnectionOk(s) ensures ConnectionOk(Step(s, e)) {
      StepKeepsConnection(s, e);
    }
    Keeps(Step, s => ConnectionOk(s), START, es, n);
  }

  /** A settled attempt keeps its outcome, and no event about it changes anything, even
      while a newer attempt is pending. */
  lemma SettledIsFinal(s: State, e: Event, a: nat)
    requires a < |s.attempts| && !Open(s, a)
    ensures a < |Step(s, e).attempts| && Step(s, e).attempts[a] == s.attempts[a]
    ensures e == ConnectTimeout(a) || (e.ConnectCallback? && e.attempt == a) ==> Step(s, e) == s
  {
  }

  /** Every attempt settles at most once in any run. */
  lemma SettlesOnce(es: seq<Event>, n: nat, m: nat, a: nat)
    requires n <= m <= |es|
    requires a < |After(Step, START, es, n).attempts| && !Open(After(Step, START, es, n), a)
    ensures a < |After(Step, START, es, m).attempts|
    ensures After(Step, START, es, m).attempts[a] == After(Step, START, es, n).attempts[a]
  {
    var outcome := After(Step, START, es, n).attempts[a];
    forall s, e | HasOutcome(s, a, outcome) ensures HasOutcome(Step(s, e), a, outcome) {
      SettledIsFinal(s, e, a);
    }
    KeepsFrom(Step, s => HasOutcome(s, a, outcome), START, es, n, m);
  }

  /** How an open attempt settles: a timeout and an error leave the service unconnected, and
      only a success connects it. */
  lemma AttemptSettles(s: State, a: nat)
    requires ConnectionOk(s) && Open(s, a)
    ensures var t := Step(s, ConnectTimeout(a));
      t.attempts[a] == TimedOut && !t.connected && t.connecting.None?
    ensures var t := Step(s, ConnectCallback(a, true));
      t.attempts[a] == Rejected && !t.connected && t.connecting.None?
    ensures var t := Step(s, ConnectCallback(a, false));
      t.attempts[a] == Resolved && t.connected && t.connecting.None?
  {
  }

  /** PM2 reports success to attempt `a` while it is open. */
  predicate Succeeds(s: State, e: Event, a: nat) {
    e == ConnectCallback(a, false) && Open(s, a)
  }

  ghost predicate SomeSuccess(s: State, e: Event) {
    exists a :: Succeeds(s, e, a)
  }

  lemma ConnectedStep(s: State, e: Event)
    requires Step(s, e).connected && !s.connected
    ensures SomeSuccess(s, e)
  {
    assert Succeeds(s, e, e.attempt);
  }

  /** In every run, if the service is connected, PM2 reported success to an open attempt, and
      there was no disconnect since. */
  lemma ConnectedMeansSuccess(es: seq<Event>, n: nat) returns (i: nat, a: nat)
    requires n <= |es| && After(Step, START, es, n).connected
    ensures i < n && Succeeds(After(Step, START, es, i), es[i], a)
    ensures forall j :: i < j < n ==> !es[j].Disconnect?
  {
    forall s, e | Step(s, e).connected ensures s.connected || SomeSuccess(s, e) {
      if !s.connected {
        ConnectedStep(s, e);
      }
    }
    i := OriginSince(Step, (s: State) => s.connected, SomeSuccess, START, es, n);
    a :| Succeeds(After(Step, START, es, i), es[i], a);
    forall j | i < j < n ensures !es[j].Disconnect? {
      assert After(Step, START, es, j + 1).connected;
      assert After(Step, START, es, j + 1) == Step(After(Step, START, es, j), es[j]);
    }
  }

  predicate IsResolved(s: State, a: nat) {
    a < |s.attempts| && s.attempts[a] == Resolved
  }

  lemma ResolvedStep(s: State, e: Event, a: nat)
    requires IsResolved(Step(s, e), a) && !IsResolved(s, a)
    ensures Succeeds(s, e, a)
  {
  }

  /** An attempt is resolved only because PM2 reported success to it while it was open. */
  lemma ResolvedMeansSuccess(es: seq<Event>, n: nat, a: nat) returns (i: nat)
    requires n <= |es| && IsResolved(After(Step, START, es, n), a)
    ensures i < n && Succeeds(After(Step, START, es, i), es[i], a)
  {
    forall s, e | IsResolved(Step(s, e), a) ensures IsResolved(s, a) || Succeeds(s, e, a) {
      if !IsResolved(s, a) {
        ResolvedStep(s, e, a);
      }
    }
    i := OriginSince(Step, s => IsResolved(s, a), (s, e) => Succeeds(s, e, a), START, es, n);
  }

  predicate HasOutcome(s: State, a: nat, outcome: Attempt) {
    outcome != Unsettled && a < |s.attempts| && s.attempts[a] == outcome
  }

  // ----- The event bus -------------------------------------------------------

  /** One awaited launch at most, named by `busInitializing`, never together with a bus. */
  predicate LaunchOk(s: State) {
    && (s.busInitializing.Some? ==> Awaited(s, s.busInitializing.value) && s.bus.None?)
    && (forall n :: 0 <= n < |s.launchPending| && s.launchPending[n] ==> s.busInitializing == Some(n))
  }

  /** The launches are in order, and the live buses are exactly the one referred to. */
  predicate BusOk(s: State) {
    LaunchOk(s) && OnlyLive(s)
  }

  predicate OnlyLive(s: State) {
    && (s.bus.Some? ==> s.bus.value < |s.buses| && s.buses[s.bus.value].live)
    && forall b :: 0 <= b < |s.buses| && s.buses[b].live ==> s.bus == Some(b)
  }

  // ----- Launches ------------------------------------------------------------

  /** launchBus does not answer a call a second time. */
  predicate AnsweredOnce(s: State, e: Event) {
    e.LaunchCallback? && e.launch < |s.launchPending| ==> s.launchPending[e.launch]
  }

  /** A repeated answer must find no launch awaited. */
  predicate AnswerOk(s: State, e: Event) {
    e.LaunchCallback? && e.launch < |s.launchPending| && !s.launchPending[e.launch] ==> s.busInitializing.None?
  }

  /** The launches stay in order if and only if a repeated answer finds no launch awaited,
      whatever buses, disconnects and connections do. */
  lemma LaunchesStayWhen(s: State, e: Event)
    requires LaunchOk(s)
    ensures LaunchOk(Step(s, e)) <==> AnswerOk(s, e)
  {
    if !AnswerOk(s, e) {
      assert Step(s, e).launchPending[s.busInitializing.value];
    }
  }

  /** Throughout a run, likewise. */
  lemma LaunchesOkThroughoutWhen(es: seq<Event>)
    ensures Throughout(Step, LaunchOk, START, es) <==> AllSafe(Step, AnswerOk, START, es)
  {
    forall s, e | LaunchOk(s) ensures LaunchOk(Step(s, e)) <==> AnswerOk(s, e) {
      LaunchesStayWhen(s, e);
    }
    HoldsThroughoutWhen(Step, LaunchOk, AnswerOk, START, es);
  }

  lemma AnswersKeepLaunches(es: seq<Event>, n: nat)
    requires n <= |es| && AllSafe(Step, AnsweredOnce, START, es)
    ensures LaunchOk(After(Step, START, es, n))
  {
    forall s, e | LaunchOk(s) && AnsweredOnce(s, e) ensures LaunchOk(Step(s, e)) {
      LaunchesStayWhen(s, e);
    }
    KeepsWhileSafe(Step, LaunchOk, AnsweredOnce, START, es, n);
  }

  /** If launchBus answers each call once at most, then in every interleaving, however buses
      end and disconnects go: at most one launch is unanswered, and `busInitializing` is set
      exactly then and never together with a bus. */
  lemma LaunchRuns(es: seq<Event>, n: nat)
    requires n <= |es| && AllSafe(Step, AnsweredOnce, START, es)
    ensures var s := After(Step, START, es, n);
      && (s.busInitializing.Some? <==> exists m :: Awaited(s, m))
      && (forall m, k :: Awaited(s, m) && Awaited(s, k) ==> m == k)
      && !(s.busInitializing.Some? && s.bus.Some?)
  {
    AnswersKeepLaunches(es, n);
  }

  /** ensureConnected asks for a bus exactly when connected without one and none is on the way;
      a successful answer attaches a new live bus, a failed one attaches none. */
  lemma BusIsSought(s: State, n: nat, closable: bool)
    ensures s.connected && s.bus.None? && s.busInitializing.None? <==>
      Step(s, EnsureBus).launchPending != s.launchPending
    ensures s.connected && s.bus.None? && s.busInitializing.None? ==>
      Step(s, EnsureBus).busInitializing == Some(|s.launchPending|) && Awaited(Step(s, EnsureBus), |s.launchPending|)
    ensures Awaited(s, n) ==>
      var t := Step(s, LaunchCallback(n, false, closable));
      t.busInitializing.None? && t.bus == Some(|s.buses|) && t.buses == s.buses + [Bus(true, closable, false, false)]
    ensures Awaited(s, n) ==>
      var t := Step(s, LaunchCallback(n, true, closable));
      t.busInitializing.None? && t.bus == s.bus && t.buses == s.buses
  {
  }

  // ----- Live buses ----------------------------------------------------------

  /** What an event may be for the bus invariant to survive it. A bus may end if the service
      refers to no bus, or if it is the one referred to and stops delivering. A disconnect
      must stop the bus it closes. An answer to a launch must be awaited, or find no launch
      awaited and bring no second bus. */
  predicate Safe(s: State, e: Event) {
    match e
    case BusEnds(b, delivers) => b < |s.buses| ==> s.bus.None? || (s.bus == Some(b) && !delivers)
    case Disconnect(closes) => s.bus.Some? && s.bus.value < |s.buses| && s.buses[s.bus.value].closable ==> closes
    case LaunchCallback(n, failed, _) =>
      n < |s.launchPending| && !s.launchPending[n] ==> s.busInitializing.None? && (failed || s.bus.None?)
    case _ => true
  }

  lemma BusEndIsSafeWhen(s: State, b: nat, delivers: bool)
    requires BusOk(s)
    ensures BusOk(OnBusEnds(s, b, delivers)) <==> Safe(s, BusEnds(b, delivers))
  {
    if b < |s.buses| && s.bus.Some? {
      var t := OnBusEnds(s, b, delivers);
      assert t.bus.None? && (t.buses[s.bus.value].live <==> s.bus.value != b || delivers);
    }
  }

  lemma LaunchIsSafeWhen(s: State, n: nat, failed: bool, closable: bool)
    requires BusOk(s)
    ensures BusOk(OnLaunchCallback(s, n, failed, closable)) <==> Safe(s, LaunchCallback(n, failed, closable))
  {
    if n < |s.launchPending| && !s.launchPending[n] {
      var t := OnLaunchCallback(s, n, failed, closable);
      assert s.busInitializing.Some? ==> t.launchPending[s.busInitializing.value];
      assert s.bus.Some? && !failed ==> t.buses[s.bus.value].live;
    }
  }

  lemma DisconnectIsSafeWhen(s: State, closes: bool)
    requires BusOk(s)
    ensures BusOk(OnDisconnect(s, closes)) <==> Safe(s, Disconnect(closes))
  {
    if s.bus.Some? && s.buses[s.bus.value].closable {
      var t := OnDisconnect(s, closes);
      assert t.bus.None? && (t.buses[s.bus.value].live <==> !closes);
    }
  }

  /** The bus invariant survives an event if and only if the event is safe. */
  lemma StepIsSafeWhen(s: State, e: Event)
    requires BusOk(s)
    ensures BusOk(Step(s, e)) <==> Safe(s, e)
  {
    match e
    case BusEnds(b, delivers) => BusEndIsSafeWhen(s, b, delivers);
    case Disconnect(closes) => DisconnectIsSafeWhen(s, closes);
    case LaunchCallback(n, failed, closable) => LaunchIsSafeWhen(s, n, failed, closable);
    case _ =>
  }

  /** PM2 as one would like it: each bus reports its end once at most and is silent then, a
      bus that is closed is silent too, and each launch is answered once at most. */
  predicate WellBehaved(s: State, e: Event) {
    match e
    case BusEnds(b, delivers) => b < |s.buses| ==> !s.buses[b].ended && !delivers
    case Disconnect(closes) => closes
    case LaunchCallback(n, _, _) => n < |s.launchPending| ==> s.launchPending[n]
    case _ => true
  }

  /** A bus that the service has closed reports its end, if at all, while no bus is attached. */
  predicate EndsInTime(s: State, e: Event) {
    e.BusEnds? && e.bus < |s.buses| && s.buses[e.bus].closed ==> s.bus.None?
  }

  /** With a well-behaved PM2 the silent buses are those closed or ended. */
  predicate Accounted(s: State) {
    forall b :: 0 <= b < |s.buses| ==> (s.buses[b].live <==> !s.buses[b].closed && !s.buses[b].ended)
  }

  lemma WellBehavedKeepsAccount(s: State, e: Event)
    requires Accounted(s) && WellBehaved(s, e)
    ensures Accounted(Step(s, e))
  {
  }

  lemma WellBehavedIsSafeWhen(s: State, e: Event)
    requires BusOk(s) && Accounted(s) && WellBehaved(s, e)
    ensures Safe(s, e) <==> EndsInTime(s, e)
  {
  }

  lemma SafeKeepsBus(es: seq<Event>, n: nat)
    requires n <= |es| && AllSafe(Step, Safe, START, es)
    ensures BusOk(After(Step, START, es, n))
  {
    forall s, e | BusOk(s) && Safe(s, e) ensures BusOk(Step(s, e)) {
      StepIsSafeWhen(s, e);
    }
    KeepsWhileSafe(Step, BusOk, Safe, START, es, n);
  }

  lemma WellBehavedAccount(es: seq<Event>, n: nat)
    requires n <= |es| && AllSafe(Step, WellBehaved, START, es)
    ensures Accounted(After(Step, START, es, n))
  {
    forall s, e | Accounted(s) && WellBehaved(s, e) ensures Accounted(Step(s, e)) {
      WellBehavedKeepsAccount(s, e);
    }
    KeepsWhileSafe(Step, Accounted, WellBehaved, START, es, n);
  }

  lemma InTimeKeepsBus(es: seq<Event>, n: nat)
    requires n <= |es| && AllSafe(Step, WellBehaved, START, es) && AllSafe(Step, EndsInTime, START, es)
    ensures BusOk(After(Step, START, es, n))
  {
    forall s, e | BusOk(s) && Accounted(s) && WellBehaved(s, e) && EndsInTime(s, e)
      ensures BusOk(Step(s, e)) && Accounted(Step(s, e))
    {
      WellBehavedIsSafeWhen(s, e);
      StepIsSafeWhen(s, e);
      WellBehavedKeepsAccount(s, e);
    }
    KeepsWhileSafe(Step, s => BusOk(s) && Accounted(s), (s, e) => WellBehaved(s, e) && EndsInTime(s, e), START, es, n);
  }

  lemma InTimeStep(es: seq<Event>, i: nat)
    requires i < |es| && AllSafe(Step, WellBehaved, START, es) && BusOk(After(Step, START, es, i))
    ensures Safe(After(Step, START, es, i), es[i]) <==> EndsInTime(After(Step, START, es, i), es[i])
    ensures BusOk(After(Step, START, es, i + 1)) <==> Safe(After(Step, START, es, i), es[i])
  {
    WellBehavedAccount(es, i);
    WellBehavedIsSafeWhen(After(Step, START, es, i), es[i]);
    StepIsSafeWhen(After(Step, START, es, i), es[i]);
  }

  /** A run of a well-behaved PM2 is safe throughout if and only if every bus that the service
      has closed reports its end, if at all, while no bus is attached. */
  lemma WellBehavedRunIsSafeWhen(es: seq<Event>)
    requires AllSafe(Step, WellBehaved, START, es)
    ensures AllSafe(Step, Safe, START, es) <==> AllSafe(Step, EndsInTime, START, es)
  {
    if AllSafe(Step, Safe, START, es) {
      forall i | 0 <= i < |es| ensures EndsInTime(After(Step, START, es, i), es[i]) {
        SafeKeepsBus(es, i);
        InTimeStep(es, i);
      }
    }
    if AllSafe(Step, EndsInTime, START, es) {
      forall i | 0 <= i < |es| ensures Safe(After(Step, START, es, i), es[i]) {
        InTimeKeepsBus(es, i);
        InTimeStep(es, i);
      }
    }
  }

  /** The bus invariant holds throughout a run if and only if every event of it is safe. */
  lemma BusOkThroughoutWhen(es: seq<Event>)
    ensures Throughout(Step, BusOk, START, es) <==> AllSafe(Step, Safe, START, es)
  {
    forall s, e | BusOk(s) ensures BusOk(Step(s, e)) <==> Safe(s, e) {
      StepIsSafeWhen(s, e);
    }
    HoldsThroughoutWhen(Step, BusOk, Safe, START, es);
  }

  lemma {:induction false} CountOfOne(buses: seq<Bus>, b: nat)
    requires b < |buses| && buses[b].live
    requires forall i :: 0 <= i < |buses| && buses[i].live ==> i == b
    ensures LiveCount(buses) == 1
  {
    if b == 0 {
      CountOfNone(buses[1..]);
    } else {
      CountOfOne(buses[1..], b - 1);
    }
  }

  lemma {:induction false} CountOfNone(buses: seq<Bus>)
    requires forall i :: 0 <= i < |buses| ==> !buses[i].live
    ensures LiveCount(buses) == 0
  {
    if buses != [] {
      CountOfNone(buses[1..]);
    }
  }

  lemma EmitNext(emitted: seq<int>, p: int, buses: seq<Bus>, i: nat)
    requires i < |buses|
    ensures emitted + Repeat(p, LiveCount(buses[i..])) ==
      (if buses[i].live then emitted + [p] else emitted) + Repeat(p, LiveCount(buses[i + 1..]))
  {
    assert buses[i..][1..] == buses[i + 1..];
  }

  lemma PacketOnce(s: State, p: int)
    requires BusOk(s)
    ensures OnPacket(s, p).emitted == s.emitted + (if s.bus.Some? then [p] else [])
  {
    if s.bus.Some? {
      CountOfOne(s.buses, s.bus.value);
      assert Repeat(p, 1) == [p] + Repeat(p, 0) == [p];
    } else {
      CountOfNone(s.buses);
    }
  }

  /** In every interleaving of safe events: at most one launch is unanswered,
      `busInitializing` is set exactly then and never together with a bus; at most one bus is
      live and it is the one referred to; and a packet is re-emitted exactly once, if there is
      a bus. */
  lemma BusRuns(es: seq<Event>, n: nat, p: int)
    requires n <= |es| && AllSafe(Step, Safe, START, es)
    ensures var s := After(Step, START, es, n);
      && (s.busInitializing.Some? <==> exists m :: Awaited(s, m))
      && (forall m, k :: Awaited(s, m) && Awaited(s, k) ==> m == k)
      && !(s.busInitializing.Some? && s.bus.Some?)
      && (forall b :: 0 <= b < |s.buses| ==> (s.buses[b].live <==> s.bus == Some(b)))
      && OnPacket(s, p).emitted == s.emitted + (if s.bus.Some? then [p] else [])
  {
    SafeKeepsBus(es, n);
    PacketOnce(After(Step, START, es, n), p);
  }

  // ----- Runs that double packets --------------------------------------------

  /** `es` is a run from the start that ends in `s`. */
  ghost predicate Leads(es: seq<Event>, s: State) {
    s == After(Step, START, es, |es|)
  }

  /** `es` is such a run, with a PM2 that behaved well. */
  ghost predicate Nicely(es: seq<Event>) {
    AllSafe(Step, WellBehaved, START, es)
  }

  lemma LeadsOn(es: seq<Event>, s: State, e: Event)
    requires Leads(es, s)
    ensures Leads(es + [e], Step(s, e))
  {
    AfterSnoc(Step, START, es, e);
  }

  lemma NicelyOn(es: seq<Event>, s: State, e: Event)
    requires Leads(es, s) && Nicely(es) && WellBehaved(s, e)
    ensures Nicely(es + [e])
  {
    AllSafeSnoc(Step, WellBehaved, START, es, e);
  }

  lemma Then(es: seq<Event>, s: State, e: Event) returns (es': seq<Event>, s': State)
    requires Leads(es, s)
    ensures es' == es + [e] && s' == Step(s, e) && Leads(es', s')
    ensures Nicely(es) && WellBehaved(s, e) ==> Nicely(es')
  {
    es', s' := es + [e], Step(s, e);
    LeadsOn(es, s, e);
    if Nicely(es) && WellBehaved(s, e) {
      NicelyOn(es, s, e);
    }
  }

  /** A service that is connected, with the given buses and no launch awaited. */
  predicate Ready(s: State, buses: seq<Bus>) {
    && s.connected && s.connecting.None? && s.busInitializing.None? && s.emitted == []
    && s.buses == buses
  }

  lemma ThenConnect(es: seq<Event>, s: State) returns (es': seq<Event>, s': State)
    requires Leads(es, s) && !s.connected && s.connecting.None?
    ensures Leads(es', s')
    ensures s' == s.(connected := true, attempts := s.attempts + [Resolved])
    ensures Nicely(es) ==> Nicely(es')
  {
    es', s' := Then(es, s, Connect);
    es', s' := Then(es', s', ConnectCallback(|s.attempts|, false));
    assert (s.attempts + [Unsettled])[|s.attempts| := Resolved] == s.attempts + [Resolved];
  }

  /** ensureConnected attaches a new closable bus when there is none. */
  lemma ThenAttach(es: seq<Event>, s: State) returns (es': seq<Event>, s': State)
    requires Leads(es, s) && s.connected && s.bus.None? && s.busInitializing.None?
    ensures Leads(es', s')
    ensures s' == s.(bus := Some(|s.buses|), buses := s.buses + [NewBus(true)],
                     launchPending := s.launchPending + [false])
    ensures Nicely(es) ==> Nicely(es')
  {
    es', s' := Then(es, s, EnsureBus);
    es', s' := Then(es', s', LaunchCallback(|s.launchPending|, false, true));
  }

  /** A service that is connected, with bus 0 attached. */
  lemma Attached() returns (es: seq<Event>, s: State)
    ensures Leads(es, s) && Ready(s, [NewBus(true)]) && s.bus == Some(0)
    ensures Nicely(es)
  {
    es, s := [], START;
    es, s := ThenConnect(es, s);
    es, s := ThenAttach(es, s);
  }

  lemma TwoLive(dead: seq<Bus>, a: Bus, b: Bus)
    requires |dead| <= 1 && a.live && b.live && forall d :: d in dead ==> !d.live
    ensures LiveCount(dead + [a, b]) == 2 && Repeat(7, 2) == [7, 7]
  {
    var buses := [a, b];
    assert buses[1..] == [b] && |[b][1..]| == 0;
    assert LiveCount([b]) == 1 && LiveCount(buses) == 2;
    if dead == [] {
      assert dead + buses == buses;
    } else {
      assert (dead + buses)[1..] == buses;
    }
    assert Repeat(7, 1) == [7] + Repeat(7, 0);
  }

  lemma ThenPacket(es: seq<Event>, s: State, dead: seq<Bus>, a: Bus, b: Bus) returns (es': seq<Event>)
    requires Leads(es, s) && Ready(s, dead + [a, b])
    requires |dead| <= 1 && a.live && b.live && forall d :: d in dead ==> !d.live
    ensures var end := After(Step, START, es', |es'|); end.emitted == [7, 7] && end.buses == dead + [a, b]
    ensures Nicely(es) ==> Nicely(es')
  {
    var s';
    TwoLive(dead, a, b);
    es', s' := Then(es, s, Packet(7));
  }

  /** Bus 0 reports an error, is replaced by bus 1, then reports its close; that clears the
      reference to bus 1, a third bus is attached, and every packet is re-emitted twice. */
  lemma LateCloseDoublesPackets() returns (es: seq<Event>)
    ensures After(Step, START, es, |es|).emitted == [7, 7]
    ensures After(Step, START, es, |es|).buses == [Bus(false, true, false, true), NewBus(true), NewBus(true)]
  {
    var s, dead := START, Bus(false, true, false, true);
    es, s := Attached();
    es, s := Then(es, s, BusEnds(0, false));
    assert s.buses == [dead];
    es, s := ThenAttach(es, s);
    es, s := Then(es, s, BusEnds(0, false));
    assert s.buses == [dead, NewBus(true)];
    es, s := ThenAttach(es, s);
    assert s.buses == [dead] + [NewBus(true), NewBus(true)];
    es := ThenPacket(es, s, [dead], NewBus(true), NewBus(true));
  }

  /** Bus 0 reports an error and goes on delivering; the service attaches bus 1, and every
      packet is re-emitted twice. */
  lemma LiveErrorDoublesPackets() returns (es: seq<Event>)
    ensures After(Step, START, es, |es|).emitted == [7, 7]
    ensures After(Step, START, es, |es|).buses == [Bus(true, true, false, true), NewBus(true)]
  {
    var s, live := START, Bus(true, true, false, true);
    es, s := Attached();
    es, s := Then(es, s, BusEnds(0, true));
    assert s.buses == [live];
    es, s := ThenAttach(es, s);
    assert s.buses == [] + [live, NewBus(true)];
    es := ThenPacket(es, s, [], live, NewBus(true));
  }

  /** Bus 0 attached, closed by a disconnect, and bus 1 attached after reconnecting. */
  lemma Reattached(closes: bool) returns (es: seq<Event>, s: State)
    ensures Leads(es, s) && Ready(s, [Bus(!closes, true, true, false), NewBus(true)]) && s.bus == Some(1)
    ensures closes ==> Nicely(es)
  {
    es, s := Attached();
    es, s := Then(es, s, Disconnect(closes));
    assert s.buses == [Bus(!closes, true, true, false)];
    es, s := ThenConnect(es, s);
    es, s := ThenAttach(es, s);
  }

  /** With a PM2 that behaves well throughout: bus 0 is closed by a disconnect, bus 1 is
      attached after reconnecting, and only then bus 0 reports its close, the only one it ever
      reports. That clears the reference to bus 1, a third bus is attached, and every packet
      is re-emitted twice. */
  lemma ClosedBusDoublesPackets() returns (es: seq<Event>)
    ensures After(Step, START, es, |es|).emitted == [7, 7] && Nicely(es)
    ensures After(Step, START, es, |es|).buses == [Bus(false, true, true, true), NewBus(true), NewBus(true)]
  {
    var s, dead := START, Bus(false, true, true, true);
    es, s := Reattached(true);
    es, s := Then(es, s, BusEnds(0, false));
    assert s.buses == [dead, NewBus(true)];
    es, s := ThenAttach(es, s);
    assert s.buses == [dead] + [NewBus(true), NewBus(true)];
    es := ThenPacket(es, s, [dead], NewBus(true), NewBus(true));
  }

  /** close() of bus 0 throws and the bus goes on delivering; after reconnecting bus 1 is
      attached, and every packet is re-emitted twice. */
  lemma FailedCloseDoublesPackets() returns (es: seq<Event>)
    ensures After(Step, START, es, |es|).emitted == [7, 7]
    ensures After(Step, START, es, |es|).buses == [Bus(true, true, true, false), NewBus(true)]
  {
    var s, live := START, Bus(true, true, true, false);
    es, s := Reattached(false);
    assert s.buses == [] + [live, NewBus(true)];
    es := ThenPacket(es, s, [], live, NewBus(true));
  }

  // ----- Synchronous callbacks -----------------------------------------------

  /** connect() when PM2 calls back before pm2.connect returns: the callback clears
      `connecting`, then the assignment stores the settled promise. */
  function ConnectSynchronously(s: State, failed: bool): State {
    if s.connected || s.connecting.Some? then s
    else
      var a := |s.attempts|;
      s.(attempts := s.attempts + [if failed then Rejected else Resolved], connected := !failed, connecting := Some(a))
  }

  predicate Stuck(s: State, a: nat) {
    s.connecting == Some(a) && forall i :: 0 <= i < |s.attempts| ==> s.attempts[i] != Unsettled
  }

  /** A synchronous answer breaks the connection invariant exactly when connect() makes an
      attempt. */
  lemma SynchronousIsSafeWhen(s: State, failed: bool)
    requires ConnectionOk(s)
    ensures ConnectionOk(ConnectSynchronously(s, failed)) <==> s.connected || s.connecting.Some?
  {
    if !s.connected && s.connecting.None? {
      var t := ConnectSynchronously(s, failed);
      assert t.attempts[|s.attempts|] != Unsettled;
    }
  }

  /** Not connected, `connecting` holding a settled promise: whatever follows, the service
      never makes another attempt and never is connected. */
  lemma StuckForever(s0: State, a: nat, es: seq<Event>, n: nat)
    requires Stuck(s0, a) && !s0.connected && n <= |es|
    ensures var s := After(Step, s0, es, n);
      s.connecting == Some(a) && !s.connected && |s.attempts| == |s0.attempts|
  {
    var m := |s0.attempts|;
    forall s, e | Stuck(s, a) && !s.connected && |s.attempts| == m
      ensures Stuck(Step(s, e), a) && !Step(s, e).connected && |Step(s, e).attempts| == m
    {
    }
    Keeps(Step, s => Stuck(s, a) && !s.connected && |s.attempts| == m, s0, es, n);
  }

  /** A synchronous failure would stick, at whatever attempt it happens; a synchronous success
      would stick at the next disconnect. */
  lemma SynchronousCallbackSticks(s0: State, closes: bool, es: seq<Event>, n: nat)
    requires ConnectionOk(s0) && !s0.connected && s0.connecting.None? && n <= |es|
    ensures var s := After(Step, ConnectSynchronously(s0, true), es, n);
      s.connecting == Some(|s0.attempts|) && !s.connected && |s.attempts| == |s0.attempts| + 1
    ensures var s := After(Step, OnDisconnect(ConnectSynchronously(s0, false), closes), es, n);
      s.connecting == Some(|s0.attempts|) && !s.connected && |s.attempts| == |s0.attempts| + 1
  {
    StuckForever(ConnectSynchronously(s0, true), |s0.attempts|, es, n);
    StuckForever(OnDisconnect(ConnectSynchronously(s0, false), closes), |s0.attempts|, es, n);
  }

  // ----- The service object --------------------------------------------------

  class Pm2Service {
    var connected: bool
    var connecting: Option<nat>
    var bus: Option<nat>
    var busInitializing: Option<nat>
    /** What PM2 was asked and gave, and the packets re-emitted. */
    var attempts: seq<Attempt>
    var launchPending: seq<bool>
    var buses: seq<Bus>
    var emitted: seq<int>

    function Now(): State
      reads this
    {
      State(connected, connecting, bus, busInitializing, attempts, launchPending, buses, emitted)
    }

    predicate Valid()
      reads this
    {
      ConnectionOk(Now()) && (bus.Some? ==> bus.value < |buses|)
    }

    constructor ()
      ensures Now() == START && Valid() && BusOk(Now())
    {
      connected, connecting, bus, busInitializing := false, None, None, None;
      attempts, launchPending, buses, emitted := [], [], [], [];
    }

    /** The attempt the caller waits for; None when already connected. */
    method Connect() returns (promise: Option<nat>)
      requires Valid()
      modifies this
      ensures Valid() && Now() == Step(old(Now()), Event.Connect)
      ensures promise == (if connected then None else connecting)
      ensures promise.Some? ==> Open(Now(), promise.value)
    {
      if connected {
        return None;
      }
      if connecting.Some? {
        return connecting;
      }
      attempts := attempts + [Unsettled];
      connecting := Some(|attempts| - 1);
      promise := connecting;
    }

    method ConnectTimedOut(a: nat)
      requires Valid()
      modifies this
      ensures Valid() && Now() == Step(old(Now()), ConnectTimeout(a))
    {
      if a >= |attempts| || attempts[a] != Unsettled {
        return;
      }
      attempts := attempts[a := TimedOut];
      connecting := None;
    }

    method ConnectAnswered(a: nat, failed: bool)
      requires Valid()
      modifies this
      ensures Valid() && Now() == Step(old(Now()), ConnectCallback(a, failed))
    {
      if a >= |attempts| || attempts[a] != Unsettled {
        return;
      }
      connecting := None;
      if failed {
        attempts := attempts[a := Rejected];
        return;
      }
      connected := true;
      attempts := attempts[a := Resolved];
    }

    /** `closes` is whether close() takes effect or throws; an exception is swallowed. */
    method Disconnect(closes: bool)
      requires Valid()
      modifies this
      ensures Valid() && Now() == Step(old(Now()), Event.Disconnect(closes))
    {
      if bus.Some? && buses[bus.value].closable {
        buses := buses[bus.value := buses[bus.value].(closed := true)];
        if closes {
          buses := buses[bus.value := buses[bus.value].(live := false)];
        }
        bus := None;
      }
      if connected {
        connected := false;
      }
    }

    /** ensureConnected's second half, and attachBus. */
    method EnsureBus()
      requires Valid()
      modifies this
      ensures Valid() && Now() == Step(old(Now()), Event.EnsureBus)
    {
      if connected && bus.None? {
        if busInitializing.Some? {
          return;
        }
        launchPending := launchPending + [true];
        busInitializing := Some(|launchPending| - 1);
      }
    }

    /** launchBus calls back for launch `n`, perhaps again. */
    method BusLaunched(n: nat, failed: bool, closable: bool)
      requires Valid() && n < |launchPending|
      modifies this
      ensures Valid() && Now() == Step(old(Now()), LaunchCallback(n, failed, closable))
    {
      launchPending := launchPending[n := false];
      busInitializing := None;
      if failed {
        return;
      }
      buses := buses + [NewBus(closable)];
      bus := Some(|buses| - 1);
    }

    /** Bus `b` reports close or error, perhaps again, and does or does not go on delivering. */
    method BusEnded(b: nat, delivers: bool)
      requires Valid() && b < |buses|
      modifies this
      ensures Valid() && Now() == Step(old(Now()), BusEnds(b, delivers))
    {
      if !delivers {
        buses := buses[b := buses[b].(live := false)];
      }
      buses := buses[b := buses[b].(ended := true)];
      bus := None;
    }

    /** Every live bus hands the packet to its handler, which re-emits it. */
    method Deliver(p: int)
      requires Valid()
      modifies this
      ensures Valid() && Now() == Step(old(Now()), Packet(p))
      ensures BusOk(old(Now())) ==> emitted == old(emitted) + (if bus.Some? then [p] else [])
    {
      if BusOk(Now()) {
        PacketOnce(Now(), p);
      }
      var i := 0;
      while i < |buses|
        modifies this`emitted
        invariant 0 <= i <= |buses|
        invariant emitted + Repeat(p, LiveCount(buses[i..])) == old(emitted) + Repeat(p, LiveCount(buses))
      {
        EmitNext(emitted, p, buses, i);
        if buses[i].live {
          emitted := emitted + [p];
        }
        i := i + 1;
      }
    }
  }
}
