/**
 The services orchestrator (`ServicesManager`). It aggregates the clients'
 statuses into one overall status by a first-match chain, in a one-client
 build (NovaLogic only) and a two-client build (with TagoIO). It reacts to
 reachability twice: immediately through the prober's callback, and in its
 own periodic `loop`.

 Each client's status callback re-enters the orchestrator synchronously, at
 the moment of the change. A client's notification log records those moments
 in order, so after each client operation the orchestrator replays the new
 notifications. Each replay sees the client status that was current at that
 moment.
 */
module Services {
  import opened Types
  import ViewModel
  import NovaLogic
  import TagoIo
  import ServiceBase

  /** Milliseconds between two periodic re-aggregations. */
  const StateCheckIntervalMs: nat := 10000

  /** Callback identities the orchestrator registers with its clients. */
  const NovaHandler: Handler := 0
  const TagoHandler: Handler := 1

  /** The firmware is built with NovaLogic alone, or with both clients. */
  datatype Build = SingleClient | AllServices

  predicate AllAre(cs: seq<ServiceStatus>, s: ServiceStatus) {
    forall i :: 0 <= i < |cs| ==> cs[i] == s
  }

  /** `updateOverallStatus`'s decision over the client statuses `cs`, from
      the current overall status `cur`. The checks run in this order and the
      first one that holds decides:
       - every client CONNECTED gives CONNECTED;
       - any CONNECTING gives CONNECTING;
       - any STARTING gives STARTING, but only from STOPPED;
       - any ERROR gives ERROR;
       - any NOT_CONNECTED gives NOT_CONNECTED, except from STARTING;
       - every client STOPPED gives STOPPED.
      Anything else, such as one client CONNECTED and one STOPPED, keeps
      `cur`. */
  function Aggregate(cur: ServiceStatus, cs: seq<ServiceStatus>): (r: ServiceStatus)
    requires |cs| > 0
    ensures AllAre(cs, SvcConnected) ==> r == SvcConnected
    ensures SvcConnecting in cs ==> r == SvcConnecting
    ensures SvcStarting in cs && SvcConnecting !in cs ==> r == (if cur == SvcStopped then SvcStarting else cur)
    ensures SvcError in cs && SvcConnecting !in cs && SvcStarting !in cs ==> r == SvcError
    ensures SvcNotConnected in cs && SvcConnecting !in cs && SvcStarting !in cs && SvcError !in cs ==>
              r == (if cur == SvcStarting then cur else SvcNotConnected)
    ensures AllAre(cs, SvcStopped) ==> r == SvcStopped
    ensures SvcConnected in cs && SvcStopped in cs && AllIn(cs, {SvcConnected, SvcStopped}) ==> r == cur
  {
    if AllAre(cs, SvcConnected) then assert cs[0] == SvcConnected; SvcConnected
    else if SvcConnecting in cs then SvcConnecting
    else if SvcStarting in cs then (if cur == SvcStopped then SvcStarting else cur)
    else if SvcError in cs then SvcError
    else if SvcNotConnected in cs && cur != SvcStarting then SvcNotConnected
    else if SvcNotConnected in cs then cur
    else if AllAre(cs, SvcStopped) then SvcStopped
    else cur
  }

  predicate AllIn(cs: seq<ServiceStatus>, allowed: set<ServiceStatus>) {
    forall i :: 0 <= i < |cs| ==> cs[i] in allowed
  }

  /** The overall status moves only when a client justifies it: STARTING
      only from STOPPED or by staying, and NOT_CONNECTED only from a client
      that is NOT_CONNECTED. */
  lemma AggregateJustified(cur: ServiceStatus, cs: seq<ServiceStatus>)
    requires |cs| > 0
    ensures Aggregate(cur, cs) == SvcStarting ==> cur == SvcStopped || cur == SvcStarting
    ensures Aggregate(cur, cs) == SvcNotConnected ==> cur == SvcNotConnected || SvcNotConnected in cs
    ensures Aggregate(cur, cs) == SvcConnected ==> cur == SvcConnected || AllAre(cs, SvcConnected)
  {
  }

  /** Re-aggregating with unchanged client statuses changes nothing. */
  lemma AggregateIdempotent(cur: ServiceStatus, cs: seq<ServiceStatus>)
    requires |cs| > 0
    ensures Aggregate(Aggregate(cur, cs), cs) == Aggregate(cur, cs)
  {
  }

  /** The one-client build behaves like the two-client build whose second
      client mirrors the first. */
  lemma SingleIsMirroredPair(cur: ServiceStatus, s: ServiceStatus)
    ensures Aggregate(cur, [s]) == Aggregate(cur, [s, s])
  {
    assert s in [s] && s in [s, s];
  }

  /** The two-client decision does not depend on which client is which. */
  lemma AggregateSymmetric(cur: ServiceStatus, a: ServiceStatus, b: ServiceStatus)
    ensures Aggregate(cur, [a, b]) == Aggregate(cur, [b, a])
  {
    assert forall s :: s in [a, b] <==> s in [b, a];
  }

  datatype Orchestrator = Orchestrator(
    build: Build,
    state: ServiceStatus,
    initialized: bool,
    lastMqttConnected: bool,
    lastStateCheck: nat,
    callback: Option<Handler>,
    nova: NovaLogic.Nova,
    tago: TagoIo.Tago,
    vm: ViewModel.Model,
    notices: seq<Notice<ServiceStatus>>,
    mqttNotices: seq<bool>)

  /** The client statuses the build aggregates. */
  function Clients(build: Build, nova: ServiceStatus, tago: ServiceStatus): (cs: seq<ServiceStatus>)
    ensures 0 < |cs| && cs[0] == nova
    ensures build == AllServices ==> cs == [nova, tago]
    ensures build == SingleClient ==> cs == [nova]
  {
    match build
    case SingleClient => [nova]
    case AllServices => [nova, tago]
  }

  function ClientsOf(o: Orchestrator): seq<ServiceStatus> {
    Clients(o.build, o.nova.base.status, o.tago.base.status)
  }

  /** The read model shows the overall status and both clients keep their
      own invariant. */
  predicate Valid(o: Orchestrator) {
    o.vm.services == o.state && NovaLogic.Valid(o.nova) && TagoIo.Valid(o.tago)
  }

  /** Fields only the orchestrator's own lifecycle changes. */
  predicate Frame(o: Orchestrator, r: Orchestrator) {
    r.build == o.build && r.initialized == o.initialized && r.callback == o.callback
    && r.lastStateCheck == o.lastStateCheck
  }

  /** The constructor: both status callbacks registered (TagoIO only in the
      two-client build), overall STOPPED, not yet initialised. */
  function Init(build: Build, id: string, vm: ViewModel.Model): (o: Orchestrator)
    requires vm.services == SvcStopped
    ensures o.state == SvcStopped && !o.initialized && !o.lastMqttConnected && o.lastStateCheck == 0
    ensures o.nova.base.callback == Some(NovaHandler)
    ensures build == AllServices <==> o.tago.base.callback == Some(TagoHandler)
    ensures Valid(o)
  {
    var nova := NovaLogic.Init(id);
    var tago := TagoIo.Init();
    Orchestrator(build, SvcStopped, false, false, 0, None,
                 nova.(base := nova.base.(callback := Some(NovaHandler))),
                 if build == AllServices then tago.(base := tago.base.(callback := Some(TagoHandler))) else tago,
                 vm, [], [])
  }

  /** `setState`: a change is written to the read model and delivered once
      to the callback; an equal state changes nothing. */
  function SetState(o: Orchestrator, s: ServiceStatus): (r: Orchestrator)
    ensures r.state == s
    ensures s == o.state ==> r == o
    ensures s != o.state ==> r.vm == ViewModel.SetServicesStatus(o.vm, s) && r.notices == o.notices + Deliver(o.callback, s)
    ensures r.nova == o.nova && r.tago == o.tago && r.mqttNotices == o.mqttNotices && Frame(o, r)
    ensures Valid(o) ==> Valid(r)
  {
    if s == o.state then o
    else o.(state := s, vm := ViewModel.SetServicesStatus(o.vm, s), notices := o.notices + Deliver(o.callback, s))
  }

  /** `updateOverallStatus` on given client statuses. */
  function Reaggregate(o: Orchestrator, nova: ServiceStatus, tago: ServiceStatus): (r: Orchestrator)
    ensures r.state == Aggregate(o.state, Clients(o.build, nova, tago))
    ensures r == SetState(o, r.state)
  {
    SetState(o, Aggregate(o.state, Clients(o.build, nova, tago)))
  }

  /** `updateOverallStatus` on the clients' current statuses. */
  function UpdateOverallStatus(o: Orchestrator): (r: Orchestrator)
    ensures r.state == Aggregate(o.state, ClientsOf(o))
    ensures r.nova == o.nova && r.tago == o.tago && Frame(o, r)
    ensures Valid(o) ==> Valid(r)
  {
    Reaggregate(o, o.nova.base.status, o.tago.base.status)
  }

  /** A second evaluation with the same client statuses changes nothing. */
  lemma UpdateOverallStatusIdempotent(o: Orchestrator)
    ensures UpdateOverallStatus(UpdateOverallStatus(o)) == UpdateOverallStatus(o)
  {
    AggregateIdempotent(o.state, ClientsOf(o));
  }

  /** `onServiceStatusChange`, at the moment a client status changes: re-
      aggregate, then tell the logging manager when NovaLogic's connected
      flag has flipped. */
  function OnServiceStatusChange(o: Orchestrator, nova: ServiceStatus, tago: ServiceStatus): (r: Orchestrator)
    ensures r.state == Aggregate(o.state, Clients(o.build, nova, tago))
    ensures r.lastMqttConnected == (nova == SvcConnected)
    ensures r.mqttNotices == o.mqttNotices + (if o.lastMqttConnected != (nova == SvcConnected) then [nova == SvcConnected] else [])
    ensures r.nova == o.nova && r.tago == o.tago && Frame(o, r)
    ensures Valid(o) ==> Valid(r)
  {
    var a := Reaggregate(o, nova, tago);
    var up := nova == SvcConnected;
    if a.lastMqttConnected != up then a.(lastMqttConnected := up, mqttNotices := a.mqttNotices + [up]) else a
  }

  /** Replay of a client's new notifications, in order. */
  function Replay(o: Orchestrator, recent: seq<Notice<ServiceStatus>>, fromNova: bool): (r: Orchestrator)
    ensures r.nova == o.nova && r.tago == o.tago && Frame(o, r)
    ensures Valid(o) ==> Valid(r)
    ensures recent == [] ==> r == o
    decreases |recent|
  {
    if recent == [] then o
    else
      var nova := if fromNova then recent[0].value else o.nova.base.status;
      var tago := if fromNova then o.tago.base.status else recent[0].value;
      Replay(OnServiceStatusChange(o, nova, tago), recent[1..], fromNova)
  }

  /** Install the result of a NovaLogic operation, replaying what its status
      callback saw. */
  function NovaStep(o: Orchestrator, nova: NovaLogic.Nova): (r: Orchestrator)
    requires o.nova.base.notices <= nova.base.notices
    ensures r.nova == nova && r.tago == o.tago && Frame(o, r)
    ensures Valid(o) && NovaLogic.Valid(nova) ==> Valid(r)
  {
    Replay(o, nova.base.notices[|o.nova.base.notices|..], true).(nova := nova)
  }

  /** Install the result of a TagoIO operation likewise. */
  function TagoStep(o: Orchestrator, tago: TagoIo.Tago): (r: Orchestrator)
    requires o.tago.base.notices <= tago.base.notices
    ensures r.tago == tago && r.nova == o.nova && Frame(o, r)
    ensures Valid(o) && TagoIo.Valid(tago) ==> Valid(r)
  {
    Replay(o, tago.base.notices[|o.tago.base.notices|..], false).(tago := tago)
  }

  /** Every client of the build is stopped, NovaLogic first. */
  function StopClients(o: Orchestrator): (r: Orchestrator)
    ensures r.nova.base.status == SvcStopped
    ensures o.build == AllServices ==> r.tago.base.status == SvcStopped
    ensures o.build == SingleClient ==> r.tago == o.tago
    ensures r.nova.published == o.nova.published && r.tago.published == o.tago.published
    ensures Frame(o, r)
    ensures Valid(o) ==> Valid(r)
  {
    var a := NovaStep(o, NovaLogic.Stop(o.nova));
    if o.build == AllServices then TagoStep(a, TagoIo.Stop(a.tago)) else a
  }

  /** The clients of the build are started, each only when STOPPED or, on a
      retry, ERROR. A client's own `start` acts only from STOPPED. */
  function StartClients(o: Orchestrator, retry: bool): (r: Orchestrator)
    ensures o.nova.base.status == SvcStopped ==> r.nova.base.status == SvcStarting
    ensures o.nova.base.status != SvcStopped ==> r.nova == o.nova
    ensures o.build == AllServices && o.tago.base.status == SvcStopped ==> r.tago.base.status == SvcStarting
    ensures o.build == SingleClient || o.tago.base.status != SvcStopped ==> r.tago == o.tago
    ensures Frame(o, r)
    ensures Valid(o) ==> Valid(r)
  {
    var novaDue := o.nova.base.status == SvcStopped || (retry && o.nova.base.status == SvcError);
    var a := if novaDue then NovaStep(o, NovaLogic.Start(o.nova)) else o;
    var tagoDue := o.build == AllServices
                   && (a.tago.base.status == SvcStopped || (retry && a.tago.base.status == SvcError));
    if tagoDue then TagoStep(a, TagoIo.Start(a.tago)) else a
  }

  /** `begin`: both clients begun, overall STOPPED, and the loop live. */
  function Begin(o: Orchestrator): (r: Orchestrator)
    ensures r.state == SvcStopped && r.initialized
    ensures r.nova.initialized && r.nova.base.status == SvcStopped
    ensures o.build == AllServices ==> r.tago.initialized && r.tago.base.status == SvcStopped
    ensures Valid(o) ==> Valid(r)
  {
    var a := NovaStep(o, NovaLogic.Begin(o.nova));
    var b := if o.build == AllServices then TagoStep(a, TagoIo.Begin(a.tago)) else a;
    SetState(b, SvcStopped).(initialized := true)
  }

  /** `stop`: every client stopped, overall STOPPED, and the loop inert. */
  function Stop(o: Orchestrator): (r: Orchestrator)
    ensures r.state == SvcStopped && !r.initialized
    ensures r.nova.base.status == SvcStopped
    ensures o.build == AllServices ==> r.tago.base.status == SvcStopped
    ensures Valid(o) ==> Valid(r)
  {
    SetState(StopClients(o), SvcStopped).(initialized := false)
  }

  /** `setStateChangeCallback`: the slot is replaced. */
  function SetStateChangeCallback(o: Orchestrator, cb: Option<Handler>): (r: Orchestrator)
    ensures r.callback == cb
    ensures r.(callback := o.callback) == o
  {
    o.(callback := cb)
  }

  /** What the overall state does once reachability is known, shared by the
      callback path and the periodic path except for CONNECTED going
      offline. */
  function GoOffline(o: Orchestrator, to: ServiceStatus): (r: Orchestrator)
    ensures r.state == to && r.nova.base.status == SvcStopped
    ensures o.build == AllServices ==> r.tago.base.status == SvcStopped
    ensures Frame(o, r)
    ensures Valid(o) ==> Valid(r)
  {
    SetState(StopClients(o), to)
  }

  /** The notifications a client's `start` produces all carry STARTING. */
  lemma StartNotices(b: ServiceBase.Base)
    ensures var r := ServiceBase.Start(b);
            && b.notices <= r.notices
            && forall i :: |b.notices| <= i < |r.notices| ==> r.notices[i].value == SvcStarting
  {
  }

  /** While the overall state is STARTING and no client is CONNECTING,
      replaying STARTING notifications of a client the build aggregates
      keeps it STARTING. */
  lemma {:induction false} ReplayStarting(o: Orchestrator, recent: seq<Notice<ServiceStatus>>, fromNova: bool)
    requires o.state == SvcStarting && SvcConnecting !in ClientsOf(o)
    requires forall i :: 0 <= i < |recent| ==> recent[i].value == SvcStarting
    requires !fromNova ==> o.build == AllServices
    ensures Replay(o, recent, fromNova).state == SvcStarting
    decreases |recent|
  {
    if recent != [] {
      var nova := if fromNova then recent[0].value else o.nova.base.status;
      var tago := if fromNova then o.tago.base.status else recent[0].value;
      var cs := Clients(o.build, nova, tago);
      assert SvcStarting in cs && SvcConnecting !in cs by {
        if fromNova { assert cs[0] == SvcStarting; } else { assert cs[|cs| - 1] == SvcStarting; }
      }
      var a := OnServiceStatusChange(o, nova, tago);
      assert ClientsOf(a) == ClientsOf(o);
      ReplayStarting(a, recent[1..], fromNova);
    }
  }

  /** Starting the clients under an overall STARTING keeps it STARTING when
      no client is CONNECTING: every notification they send is STARTING. */
  lemma StartClientsKeepStarting(o: Orchestrator, retry: bool)
    requires o.state == SvcStarting && SvcConnecting !in ClientsOf(o)
    ensures StartClients(o, retry).state == SvcStarting
  {
    var novaDue := o.nova.base.status == SvcStopped || (retry && o.nova.base.status == SvcError);
    var a := o;
    if novaDue {
      var n := NovaLogic.Start(o.nova);
      StartNotices(o.nova.base);
      ReplayStarting(o, n.base.notices[|o.nova.base.notices|..], true);
      a := NovaStep(o, n);
      assert ClientsOf(a)[0] == n.base.status;
    }
    assert a.state == SvcStarting && SvcConnecting !in ClientsOf(a);
    var tagoDue := o.build == AllServices
                   && (a.tago.base.status == SvcStopped || (retry && a.tago.base.status == SvcError));
    if tagoDue {
      var t := TagoIo.Start(a.tago);
      StartNotices(a.tago.base);
      ReplayStarting(a, t.base.notices[|a.tago.base.notices|..], false);
    }
  }

  /** Overall STARTING, then the clients started; the state stays STARTING
      unless a client is already CONNECTING. */
  function Restart(o: Orchestrator, retry: bool): (r: Orchestrator)
    ensures SvcConnecting !in ClientsOf(o) ==> r.state == SvcStarting
    ensures o.nova.base.status == SvcStopped ==> r.nova.base.status == SvcStarting
    ensures o.nova.base.status != SvcStopped ==> r.nova == o.nova
    ensures o.build == AllServices && o.tago.base.status == SvcStopped ==> r.tago.base.status == SvcStarting
    ensures o.build == SingleClient || o.tago.base.status != SvcStopped ==> r.tago == o.tago
    ensures Frame(o, r)
    ensures Valid(o) ==> Valid(r)
  {
    var a := SetState(o, SvcStarting);
    if SvcConnecting in ClientsOf(o) then StartClients(a, retry)
    else StartClientsKeepStarting(a, retry); StartClients(a, retry)
  }

  /** `onConnectivityChanged`: CHECKING is ignored. OFFLINE or ONLINE
      re-aggregates first and then acts on the resulting overall state:
       - going offline from any active state stops every client and ends
         STOPPED;
       - coming online from STOPPED, ERROR or NOT_CONNECTED goes to STARTING
         and starts the clients. */
  function OnConnectivityChanged(o: Orchestrator, c: ConnectivityStatus): (r: Orchestrator)
    ensures c == Checking ==> r == o
    ensures c == Offline ==> r.state == SvcStopped
    ensures c == Offline && UpdateOverallStatus(o).state != SvcStopped ==>
              r.nova.base.status == SvcStopped && (o.build == AllServices ==> r.tago.base.status == SvcStopped)
    ensures c == Online && UpdateOverallStatus(o).state in {SvcStopped, SvcError, SvcNotConnected} ==>
              && r.state == SvcStarting
              && (o.nova.base.status == SvcStopped ==> r.nova.base.status == SvcStarting)
              && (o.nova.base.status != SvcStopped ==> r.nova == o.nova)
              && (o.build == AllServices && o.tago.base.status == SvcStopped ==> r.tago.base.status == SvcStarting)
              && (o.build == SingleClient || o.tago.base.status != SvcStopped ==> r.tago == o.tago)
    ensures c == Online && UpdateOverallStatus(o).state in {SvcStarting, SvcConnecting, SvcConnected} ==>
              r == UpdateOverallStatus(o)
    ensures Frame(o, r)
    ensures Valid(o) ==> Valid(r)
  {
    if c == Checking then o
    else
      var a := UpdateOverallStatus(o);
      match a.state
      case SvcStopped => if c == Online then Restart(a, false) else a
      case SvcStarting => if c == Offline then GoOffline(a, SvcStopped) else a
      case SvcConnecting => if c == Offline then GoOffline(a, SvcStopped) else a
      case SvcConnected => if c == Offline then GoOffline(a, SvcStopped) else a
      case SvcError => if c == Offline then GoOffline(a, SvcStopped) else Restart(a, true)
      case SvcNotConnected => if c == Offline then GoOffline(a, SvcStopped) else Restart(a, true)
  }

  /** The state machine step of `loop` on the overall state, given whether
      the prober reports ONLINE. */
  function Decide(o: Orchestrator, online: bool): (r: Orchestrator)
    ensures o.state == SvcStopped && !online ==> r == o
    ensures o.state in {SvcStarting, SvcConnecting} && !online ==> r.state == SvcStopped
    ensures o.state == SvcConnected && !online ==> r.state == SvcNotConnected
    ensures o.state in {SvcError, SvcNotConnected} && !online ==> r.state == SvcStopped
    ensures o.state != SvcStopped && !online ==>
              r.nova.base.status == SvcStopped && (o.build == AllServices ==> r.tago.base.status == SvcStopped)
    ensures o.state in {SvcStarting, SvcConnecting, SvcConnected} && online ==> r == o
    ensures o.state in {SvcStopped, SvcError, SvcNotConnected} && online ==>
              && (SvcConnecting !in ClientsOf(o) ==> r.state == SvcStarting)
              && (o.nova.base.status == SvcStopped ==> r.nova.base.status == SvcStarting)
              && (o.nova.base.status != SvcStopped ==> r.nova == o.nova)
              && (o.build == AllServices && o.tago.base.status == SvcStopped ==> r.tago.base.status == SvcStarting)
              && (o.build == SingleClient || o.tago.base.status != SvcStopped ==> r.tago == o.tago)
    ensures Frame(o, r)
    ensures Valid(o) ==> Valid(r)
  {
    match o.state
    case SvcStopped => if online then Restart(o, false) else o
    case SvcStarting => if !online then GoOffline(o, SvcStopped) else o
    case SvcConnecting => if !online then GoOffline(o, SvcStopped) else o
    case SvcConnected => if !online then GoOffline(o, SvcNotConnected) else o
    case SvcError => if !online then GoOffline(o, SvcStopped) else Restart(o, true)
    case SvcNotConnected => if !online then GoOffline(o, SvcStopped) else Restart(o, true)
  }

  /** The first part of `loop`: each client's own loop, with the session
      callbacks each pump delivers replayed into the orchestrator. */
  function PumpClients(o: Orchestrator, now: nat,
                       novaEvents: seq<NovaLogic.SessionEvent>, tagoEvents: seq<TagoIo.SessionEvent>): (r: Orchestrator)
    ensures o.build == SingleClient ==> r.tago == o.tago
    ensures Frame(o, r)
    ensures Valid(o) ==> Valid(r)
  {
    var a := NovaStep(o, NovaLogic.Loop(o.nova, now, novaEvents));
    if o.build == AllServices then TagoStep(a, TagoIo.Loop(a.tago, now, tagoEvents)) else a
  }

  /** The periodic evaluation of `loop`: at most once per interval the
      overall status is re-aggregated and the timer restamped. */
  function Evaluate(o: Orchestrator, now: nat): (r: Orchestrator)
    ensures Since(now, o.lastStateCheck) >= StateCheckIntervalMs ==>
              r.state == Aggregate(o.state, ClientsOf(o)) && r.lastStateCheck == now
    ensures Since(now, o.lastStateCheck) < StateCheckIntervalMs ==> r == o
    ensures r.nova == o.nova && r.tago == o.tago && r.build == o.build && r.initialized == o.initialized
    ensures Valid(o) ==> Valid(r)
  {
    if Since(now, o.lastStateCheck) >= StateCheckIntervalMs
    then UpdateOverallStatus(o).(lastStateCheck := now) else o
  }

  /** `loop`, one tick: the clients' loops, the periodic evaluation, then
      the state machine on the evaluated state `c`. Offline, every active
      state stops the clients, CONNECTED ending NOT_CONNECTED and the rest
      STOPPED; online, STOPPED, ERROR and NOT_CONNECTED restart the clients
      and active states are left alone. */
  function Loop(o: Orchestrator, now: nat, online: bool,
                novaEvents: seq<NovaLogic.SessionEvent>, tagoEvents: seq<TagoIo.SessionEvent>): (r: Orchestrator)
    ensures !o.initialized ==> r == o
    ensures o.initialized ==>
              var p := PumpClients(o, now, novaEvents, tagoEvents);
              var c := Evaluate(p, now);
              && (Since(now, o.lastStateCheck) >= StateCheckIntervalMs ==>
                    c.state == Aggregate(p.state, ClientsOf(p)) && r.lastStateCheck == now)
              && (Since(now, o.lastStateCheck) < StateCheckIntervalMs ==> c == p && r.lastStateCheck == o.lastStateCheck)
              && (!online && c.state == SvcStopped ==> r == c)
              && (!online && c.state in {SvcStarting, SvcConnecting, SvcError, SvcNotConnected} ==> r.state == SvcStopped)
              && (!online && c.state == SvcConnected ==> r.state == SvcNotConnected)
              && (!online && c.state != SvcStopped ==>
                    r.nova.base.status == SvcStopped && (o.build == AllServices ==> r.tago.base.status == SvcStopped))
              && (online && c.state in {SvcStarting, SvcConnecting, SvcConnected} ==> r == c)
              && (online && c.state in {SvcStopped, SvcError, SvcNotConnected} ==>
                    && (SvcConnecting !in ClientsOf(c) ==> r.state == SvcStarting)
                    && (c.nova.base.status == SvcStopped ==> r.nova.base.status == SvcStarting)
                    && (o.build == AllServices && c.tago.base.status == SvcStopped ==> r.tago.base.status == SvcStarting))
    ensures r.build == o.build && r.initialized == o.initialized
    ensures Valid(o) ==> Valid(r)
  {
    if !o.initialized then o
    else Decide(Evaluate(PumpClients(o, now, novaEvents, tagoEvents), now), online)
  }

  /** The two online paths agree: the prober's callback does what the
      periodic loop's state machine does on a freshly evaluated state. */
  lemma OnlinePathsAgree(o: Orchestrator)
    ensures OnConnectivityChanged(o, Online) == Decide(UpdateOverallStatus(o), true)
  {
  }

  /** Coming online from STOPPED, ERROR or NOT_CONNECTED ends STARTING on
      both paths: the aggregate rules out a CONNECTING client there. */
  lemma OnlineRestarts(o: Orchestrator)
    requires UpdateOverallStatus(o).state in {SvcStopped, SvcError, SvcNotConnected}
    ensures OnConnectivityChanged(o, Online).state == SvcStarting
    ensures Decide(UpdateOverallStatus(o), true).state == SvcStarting
  {
    var a := UpdateOverallStatus(o);
    assert SvcConnecting !in ClientsOf(a);
  }

  /** The two offline paths disagree on a CONNECTED overall state: the
      prober's callback ends STOPPED, the periodic loop ends NOT_CONNECTED.
      Both stop the clients. */
  lemma OfflinePathsDiffer(o: Orchestrator)
    requires Valid(o) && o.state == SvcConnected && UpdateOverallStatus(o).state == SvcConnected
    ensures OnConnectivityChanged(o, Offline).state == SvcStopped
    ensures Decide(o, false).state == SvcNotConnected
    ensures OnConnectivityChanged(o, Offline).nova.base.status == SvcStopped
    ensures Decide(o, false).nova.base.status == SvcStopped
  {
  }

  /** Retrying from ERROR does not restart an ERROR client: its `start`
      ignores it, and recovery is left to the client's own retry gate. */
  lemma RetryLeavesErrorClient(o: Orchestrator)
    requires Valid(o) && o.nova.base.status == SvcError
    ensures Restart(o, true).nova == o.nova
  {
  }
}
