/**
 The TagoIO cloud client (`TagoIOService`): the shared service lifecycle
 with a 30-second connect timeout, a session whose callbacks arrive while the
 client is pumped, an "online" heartbeat every minute, a data-queue timer,
 and publish operations that do nothing unless CONNECTED. Payloads are JSON
 documents with floating-point values and timestamps; the model keeps only
 what each one reports.
 */
module TagoIo {
  import opened Types
  import ServiceBase

  /** Milliseconds a connection attempt may take before it is an error. */
  const ConnectionTimeoutMs: nat := 30000
  /** Milliseconds between two "online" heartbeats. */
  const KeepAliveIntervalMs: nat := 60000
  /** Milliseconds between two runs of the data queue. */
  const DataSendIntervalMs: nat := 10000
  /** The one topic every publication goes to. */
  const DataTopic: string := "tago/data/post"

  /** What a publication reports: a device status word, one sensor
      variable (with its unit, if any), or a batch of items. */
  datatype Body =
    | DeviceStatusBody(status: string)
    | SensorBody(variable: string, unit: Option<string>)
    | BatchBody(items: nat)

  datatype Post = Post(topic: string, body: Body, qos: nat)

  datatype SessionEvent = SessionUp | SessionDown

  datatype Tago = Tago(
    base: ServiceBase.Base,
    initialized: bool,
    client: bool,
    lastKeepAlive: nat,
    lastDataSend: nat,
    published: seq<Post>)

  /** A client exists whenever a connection is under way or up. */
  predicate Valid(t: Tago) {
    (t.base.status == SvcConnecting || t.base.status == SvcConnected) ==> t.client
  }

  /** What an operation never takes back. */
  predicate Grows(t: Tago, r: Tago) {
    && r.initialized == t.initialized
    && r.base.callback == t.base.callback
    && t.base.notices <= r.base.notices
    && t.published <= r.published
  }

  predicate Connected(t: Tago) {
    t.base.status == SvcConnected
  }

  function Init(): (t: Tago)
    ensures t.base.status == SvcStopped && !t.initialized && !t.client && t.published == []
    ensures Valid(t)
  {
    Tago(ServiceBase.Init(), false, false, 0, 0, [])
  }

  /** `publishToTago`: QoS 1 on the data topic, only with a client and while
      CONNECTED. */
  function PublishToTago(t: Tago, body: Body): (r: Tago)
    ensures t.client && Connected(t) ==> r.published == t.published + [Post(DataTopic, body, 1)]
    ensures !(t.client && Connected(t)) ==> r == t
    ensures r.(published := t.published) == t
  {
    if t.client && Connected(t) then t.(published := t.published + [Post(DataTopic, body, 1)]) else t
  }

  /** `publishDeviceStatus`: nothing unless CONNECTED. */
  function PublishDeviceStatus(t: Tago, status: string): (r: Tago)
    ensures !Connected(t) ==> r == t
    ensures Valid(t) && Connected(t) ==> r.published == t.published + [Post(DataTopic, DeviceStatusBody(status), 1)]
    ensures r.(published := t.published) == t
  {
    if !Connected(t) then t else PublishToTago(t, DeviceStatusBody(status))
  }

  /** `publishSensorData`: nothing unless CONNECTED. */
  function PublishSensorData(t: Tago, variable: string, unit: Option<string>): (r: Tago)
    ensures !Connected(t) ==> r == t
    ensures Valid(t) && Connected(t) ==> r.published == t.published + [Post(DataTopic, SensorBody(variable, unit), 1)]
    ensures r.(published := t.published) == t
  {
    if !Connected(t) then t else PublishToTago(t, SensorBody(variable, unit))
  }

  /** `publishBatchData`: nothing unless CONNECTED. */
  function PublishBatchData(t: Tago, items: nat): (r: Tago)
    ensures !Connected(t) ==> r == t
    ensures Valid(t) && Connected(t) ==> r.published == t.published + [Post(DataTopic, BatchBody(items), 1)]
    ensures r.(published := t.published) == t
  {
    if !Connected(t) then t else PublishToTago(t, BatchBody(items))
  }

  /** `begin`: STOPPED, and the loop becomes live. */
  function Begin(t: Tago): (r: Tago)
    ensures r.base.status == SvcStopped && r.initialized
    ensures r.client == t.client && r.published == t.published
    ensures Valid(r)
  {
    t.(base := ServiceBase.SetStatus(t.base, SvcStopped), initialized := true)
  }

  /** `start`: only a STOPPED client moves, to STARTING. */
  function Start(t: Tago): (r: Tago)
    ensures t.base.status == SvcStopped ==> r.base.status == SvcStarting
    ensures t.base.status != SvcStopped ==> r == t
    ensures r.client == t.client && r.published == t.published
    ensures Grows(t, r)
    ensures Valid(t) ==> Valid(r)
  {
    t.(base := ServiceBase.Start(t.base))
  }

  /** `stop`: always STOPPED; the client is destroyed only from CONNECTING
      or CONNECTED; the client stays initialised. */
  function Stop(t: Tago): (r: Tago)
    ensures r.base.status == SvcStopped
    ensures ServiceBase.NeedsTeardown(t.base) ==> !r.client
    ensures !ServiceBase.NeedsTeardown(t.base) ==> r.client == t.client
    ensures r.published == t.published && r.base.lastConnectionAttempt == t.base.lastConnectionAttempt
    ensures Grows(t, r) && Valid(r)
  {
    var torn := if ServiceBase.NeedsTeardown(t.base) then t.(client := false) else t;
    torn.(base := ServiceBase.SetStatus(torn.base, SvcStopped))
  }

  /** `connectMQTT`: the client is created if missing and the attempt time
      recorded. */
  function ConnectMqtt(t: Tago, now: nat): (r: Tago)
    ensures r.client && r.base.lastConnectionAttempt == now
    ensures r.base.status == t.base.status && r.base.notices == t.base.notices && r.published == t.published
    ensures Grows(t, r)
  {
    t.(client := true, base := ServiceBase.UpdateLastConnectionAttempt(t.base, now))
  }

  /** `onMQTTConnected`: CONNECTED, the "connected" status report, and both
      timers restarted. */
  function OnSessionUp(t: Tago, now: nat): (r: Tago)
    ensures r.base.status == SvcConnected
    ensures r.published == t.published + (if t.client then [Post(DataTopic, DeviceStatusBody("connected"), 1)] else [])
    ensures r.lastKeepAlive == now && r.lastDataSend == now && r.client == t.client
    ensures t.base.status != SvcConnected ==> r.base.notices == t.base.notices + Deliver(t.base.callback, SvcConnected)
    ensures Grows(t, r)
  {
    var up := t.(base := ServiceBase.SetStatus(t.base, SvcConnected));
    PublishDeviceStatus(up, "connected").(lastKeepAlive := now, lastDataSend := now)
  }

  /** `onMQTTDisconnected`: ERROR; the client object is kept. */
  function OnSessionDown(t: Tago): (r: Tago)
    ensures r.base.status == SvcError && r.client == t.client && r.published == t.published
    ensures Grows(t, r)
  {
    t.(base := ServiceBase.SetStatus(t.base, SvcError))
  }

  function OnEvent(t: Tago, e: SessionEvent, now: nat): (r: Tago)
    ensures Grows(t, r) && r.client == t.client
    ensures e == SessionDown ==> r.published == t.published && !Connected(r)
    ensures r.base.status == SvcNotConnected ==> t.base.status == SvcNotConnected
  {
    match e
    case SessionUp => OnSessionUp(t, now)
    case SessionDown => OnSessionDown(t)
  }

  /** The callbacks of one pump of the client, in order. */
  function OnEvents(t: Tago, es: seq<SessionEvent>, now: nat): (r: Tago)
    ensures Grows(t, r) && r.client == t.client
    ensures r.base.status == SvcNotConnected ==> t.base.status == SvcNotConnected
    decreases |es|
  {
    if es == [] then t else OnEvents(OnEvent(t, es[0], now), es[1..], now)
  }

  /** `processKeepAlive`: while CONNECTED, "online" once the interval has
      elapsed, restarting the timer. */
  function ProcessKeepAlive(t: Tago, now: nat): (r: Tago)
    ensures Valid(t) && Connected(t) && Since(now, t.lastKeepAlive) >= KeepAliveIntervalMs ==>
              r.published == t.published + [Post(DataTopic, DeviceStatusBody("online"), 1)] && r.lastKeepAlive == now
    ensures !(Connected(t) && Since(now, t.lastKeepAlive) >= KeepAliveIntervalMs) ==> r == t
    ensures r.base == t.base && r.client == t.client && r.lastDataSend == t.lastDataSend && Grows(t, r)
  {
    if Connected(t) && Since(now, t.lastKeepAlive) >= KeepAliveIntervalMs then
      PublishDeviceStatus(t, "online").(lastKeepAlive := now)
    else t
  }

  /** `processDataQueue`: the data timer restarts once the interval has
      elapsed; nothing is published. */
  function ProcessDataQueue(t: Tago, now: nat): (r: Tago)
    ensures r.lastDataSend == (if Since(now, t.lastDataSend) >= DataSendIntervalMs then now else t.lastDataSend)
    ensures r.(lastDataSend := t.lastDataSend) == t
  {
    if Since(now, t.lastDataSend) >= DataSendIntervalMs then t.(lastDataSend := now) else t
  }

  predicate Pumped(t: Tago) {
    t.client && (t.base.status == SvcConnecting || t.base.status == SvcConnected)
  }

  /** `loop`, one tick: pump the client, then the shared lifecycle decision;
      CONNECTED runs the heartbeat and then the data queue. */
  function Loop(t: Tago, now: nat, events: seq<SessionEvent>): (r: Tago)
    ensures !t.initialized ==> r == t
    ensures t.initialized && t.base.status == SvcStopped ==> r == t
    ensures Grows(t, r)
    ensures Valid(t) ==> Valid(r)
    ensures r.base.status == SvcNotConnected ==> t.base.status == SvcNotConnected
  {
    if !t.initialized then t
    else
      var pumped := if Pumped(t) then OnEvents(t, events, now) else t;
      match ServiceBase.LoopAction(pumped.base, now, ConnectionTimeoutMs)
      case Connect => ConnectMqtt(pumped.(base := ServiceBase.SetStatus(pumped.base, SvcConnecting)), now)
      case TimeOut => pumped.(base := ServiceBase.SetStatus(pumped.base, SvcError))
      case Serve => ProcessDataQueue(ProcessKeepAlive(pumped, now), now)
      case Idle => pumped
  }

  /** Once the connect gate opens, a tick without callbacks moves STARTING,
      ERROR and NOT_CONNECTED to CONNECTING with a fresh attempt time; a
      CONNECTING attempt older than 30 s becomes ERROR. */
  lemma LoopLifecycle(t: Tago, now: nat)
    requires t.initialized && Valid(t)
    ensures t.base.status in {SvcStarting, SvcError, SvcNotConnected} && ServiceBase.CanAttemptConnection(t.base, now) ==>
              var r := Loop(t, now, []);
              r.base.status == SvcConnecting && r.base.lastConnectionAttempt == now && r.client
    ensures t.base.status in {SvcStarting, SvcError, SvcNotConnected} && !ServiceBase.CanAttemptConnection(t.base, now) ==>
              Loop(t, now, []) == t
    ensures t.base.status == SvcConnecting ==>
              Loop(t, now, []).base.status == (if Since(now, t.base.lastConnectionAttempt) > ConnectionTimeoutMs then SvcError else SvcConnecting)
  {
    assert OnEvents(t, [], now) == t;
  }

  /** Without a session-up callback a client that is not CONNECTED publishes
      nothing and does not become CONNECTED. */
  lemma {:induction false} SilentWithoutSession(t: Tago, es: seq<SessionEvent>, now: nat)
    requires !Connected(t) && SessionUp !in es
    ensures OnEvents(t, es, now).published == t.published
    ensures !Connected(OnEvents(t, es, now))
    decreases |es|
  {
    if es != [] {
      assert es[0] == SessionDown;
      assert SessionUp !in es[1..];
      SilentWithoutSession(OnEvent(t, es[0], now), es[1..], now);
    }
  }

  /** A connected client that stays connected sends its heartbeat at most
      once per interval. */
  lemma HeartbeatSpacing(t: Tago, now: nat, later: nat)
    requires Valid(t) && Connected(t) && now <= later && later < now + KeepAliveIntervalMs
    requires Since(now, t.lastKeepAlive) >= KeepAliveIntervalMs
    ensures var a := ProcessKeepAlive(t, now);
            |a.published| == |t.published| + 1 && ProcessKeepAlive(a, later) == a
  {
  }

  lemma StopIdempotent(t: Tago)
    ensures Stop(Stop(t)) == Stop(t)
  {
  }

  lemma StartAfterStop(t: Tago)
    ensures Start(Stop(t)).base.status == SvcStarting
  {
  }
}
