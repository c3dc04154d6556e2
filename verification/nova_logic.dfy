/**
 The NovaLogic cloud client (`NovaLogicService`): the shared service
 lifecycle with a 10-second connect timeout, a publish/subscribe session
 whose callbacks arrive as events while the client is pumped, a keepalive,
 the command dispatcher and the offered-firmware check. The MQTT session is
 foreign: its callbacks are `SessionEvent`s and its publications are logged.
 */
module NovaLogic {
  import opened Types
  import ServiceBase
  import Version

  /** Milliseconds a connection attempt may take before it is an error. */
  const ConnectionTimeoutMs: nat := 10000
  /** Milliseconds between two retained "connected" publications. */
  const KeepAliveIntervalMs: nat := 10000
  /** Size of the topic buffer `snprintf` writes into, terminator included. */
  const TopicBufferSize: nat := 128

  const DeviceModel: string := "DL1000v1"

  /** Command payloads. The firmware names these through macros its
      definitions header does not define; the values of the header's
      similarly named macros are used, and only their distinctness matters. */
  const DeviceModelRequest: string := "REQUEST_DEVICE_MODEL"
  const FirmwareVersionRequest: string := "REQUEST_DEVICE_FIRMWARE_VERSION"
  const VersionQuery: string := "REQUEST_FIRMWARE_VERSION"
  const UpdateQuery: string := "REQUEST_FIRMWARE_UPDATE"

  /** One publication: topic, payload, QoS level and retain flag. */
  datatype Message = Message(topic: string, payload: string, qos: nat, retain: bool)

  /** A message handed to the external command callback. */
  datatype Command = Command(topic: string, payload: string)

  /** The live MQTT client: its last-will message and whether the four
      subscriptions have been made on it. */
  datatype Client = Client(will: Message, subscribed: bool)

  /** The subscribed topics, by suffix: "messages", "ota/version",
      "ota/md5" and "ota/update". */
  datatype Channel = Messages | OtaVersion | OtaMd5 | OtaUpdate

  /** What the session delivers while the client is pumped. */
  datatype SessionEvent = SessionUp | SessionDown | Received(channel: Channel, payload: string)

  datatype Nova = Nova(
    base: ServiceBase.Base,
    deviceId: string,
    initialized: bool,
    client: Option<Client>,
    lastKeepAlive: nat,
    commandCallback: Option<Handler>,
    published: seq<Message>,
    forwarded: seq<Notice<Command>>)

  /** A client exists whenever a connection is under way or up. */
  predicate Valid(n: Nova) {
    (n.base.status == SvcConnecting || n.base.status == SvcConnected) ==> n.client.Some?
  }

  /** What an operation never takes back: identity, the initialised flag,
      the callback slots, and the logs, which only grow. */
  predicate Grows(n: Nova, r: Nova) {
    && r.deviceId == n.deviceId
    && r.initialized == n.initialized
    && r.base.callback == n.base.callback
    && r.commandCallback == n.commandCallback
    && n.base.notices <= r.base.notices
    && n.published <= r.published
    && n.forwarded <= r.forwarded
  }

  predicate Connected(n: Nova) {
    n.base.status == SvcConnected
  }

  /** The topic "devices/<id>/<suffix>" as `snprintf` leaves it in the
      128-byte buffer: cut to 127 characters when longer. */
  function TopicPath(id: string, suffix: string): (r: string)
    ensures |r| < TopicBufferSize
    ensures r <= "devices/" + id + "/" + suffix
    ensures |"devices/" + id + "/" + suffix| < TopicBufferSize ==> r == "devices/" + id + "/" + suffix
  {
    var full := "devices/" + id + "/" + suffix;
    if |full| < TopicBufferSize then full else full[..TopicBufferSize - 1]
  }

  /** The suffix of a topic under this device's prefix, if it has it. */
  function SuffixOf(topic: string, id: string): (r: Option<string>)
    ensures r.Some? <==> "devices/" + id + "/" <= topic
    ensures r.Some? ==> topic == "devices/" + id + "/" + r.value
  {
    var prefix := "devices/" + id + "/";
    if prefix <= topic then Some(topic[|prefix|..]) else None
  }

  /** The last will: "false" on the retained "connected" topic, QoS 1. */
  function WillMessage(id: string): (m: Message)
    ensures m.payload == "false" && m.qos == 1 && m.retain
  {
    Message(TopicPath(id, "connected"), "false", 1, true)
  }

  function Init(id: string): (n: Nova)
    ensures n.base.status == SvcStopped && !n.initialized && n.client.None?
    ensures n.published == [] && n.forwarded == [] && n.commandCallback.None?
    ensures Valid(n)
  {
    Nova(ServiceBase.Init(), id, false, None, 0, None, [], [])
  }

  /** A publication on the device's topic `suffix`. */
  function Publish(n: Nova, suffix: string, payload: string, qos: nat, retain: bool): (r: Nova)
    ensures r.published == n.published + [Message(TopicPath(n.deviceId, suffix), payload, qos, retain)]
    ensures r.(published := n.published) == n
  {
    n.(published := n.published + [Message(TopicPath(n.deviceId, suffix), payload, qos, retain)])
  }

  /** `sendConnectionStatus`: "true"/"false", QoS 1, retained. Only the
      "true" report is held back while not CONNECTED. */
  function SendConnectionStatus(n: Nova, up: bool): (r: Nova)
    ensures up && !Connected(n) ==> r == n
    ensures !up || Connected(n) ==>
              r.published == n.published + [Message(TopicPath(n.deviceId, "connected"), if up then "true" else "false", 1, true)]
    ensures r.(published := n.published) == n
  {
    if up && !Connected(n) then n
    else Publish(n, "connected", if up then "true" else "false", 1, true)
  }

  /** `sendFirmwareVersion`: the running version, QoS 1, only while CONNECTED. */
  function SendFirmwareVersion(n: Nova): (r: Nova)
    ensures !Connected(n) ==> r == n
    ensures Connected(n) ==> r.published == n.published + [Message(TopicPath(n.deviceId, "version"), Version.FirmwareVersion, 1, false)]
    ensures r.(published := n.published) == n
  {
    if !Connected(n) then n else Publish(n, "version", Version.FirmwareVersion, 1, false)
  }

  /** `sendDeviceModel`: the model name, QoS 1, only while CONNECTED. */
  function SendDeviceModel(n: Nova): (r: Nova)
    ensures !Connected(n) ==> r == n
    ensures Connected(n) ==> r.published == n.published + [Message(TopicPath(n.deviceId, "model"), DeviceModel, 1, false)]
    ensures r.(published := n.published) == n
  {
    if !Connected(n) then n else Publish(n, "model", DeviceModel, 1, false)
  }

  /** `checkOTAVersion`: ask the server for the current firmware version on
      the "messages" topic, QoS 0, only while CONNECTED. */
  function CheckOtaVersion(n: Nova): (r: Nova)
    ensures !Connected(n) ==> r == n
    ensures Connected(n) ==> r.published == n.published + [Message(TopicPath(n.deviceId, "messages"), VersionQuery, 0, false)]
    ensures r.(published := n.published) == n
  {
    if !Connected(n) then n else Publish(n, "messages", VersionQuery, 0, false)
  }

  /** `requestOTAUpdate`: ask for the firmware image, only while CONNECTED. */
  function RequestOtaUpdate(n: Nova): (r: Nova)
    ensures !Connected(n) ==> r == n
    ensures Connected(n) ==> r.published == n.published + [Message(TopicPath(n.deviceId, "messages"), UpdateQuery, 0, false)]
    ensures r.(published := n.published) == n
  {
    if !Connected(n) then n else Publish(n, "messages", UpdateQuery, 0, false)
  }

  /** `begin`: STOPPED, and the loop becomes live. */
  function Begin(n: Nova): (r: Nova)
    ensures r.base.status == SvcStopped && r.initialized
    ensures r.client == n.client && r.published == n.published
    ensures Valid(r)
  {
    n.(base := ServiceBase.SetStatus(n.base, SvcStopped), initialized := true)
  }

  /** `start`: only a STOPPED client moves, to STARTING; an ERROR client is
      left to its own retry gate. */
  function Start(n: Nova): (r: Nova)
    ensures n.base.status == SvcStopped ==> r.base.status == SvcStarting
    ensures n.base.status != SvcStopped ==> r == n
    ensures r.client == n.client && r.published == n.published
    ensures Grows(n, r)
    ensures Valid(n) ==> Valid(r)
  {
    n.(base := ServiceBase.Start(n.base))
  }

  /** `disconnectMQTT`: the client, its will and its subscriptions are gone. */
  function DisconnectMqtt(n: Nova): (r: Nova)
    ensures r.client.None?
    ensures r.(client := n.client) == n
  {
    n.(client := None)
  }

  /** `stop`: always STOPPED; the session is torn down only from CONNECTING or
      CONNECTED; the client stays initialised. */
  function Stop(n: Nova): (r: Nova)
    ensures r.base.status == SvcStopped
    ensures ServiceBase.NeedsTeardown(n.base) ==> r.client.None?
    ensures !ServiceBase.NeedsTeardown(n.base) ==> r.client == n.client
    ensures r.published == n.published && r.lastKeepAlive == n.lastKeepAlive
    ensures r.base.lastConnectionAttempt == n.base.lastConnectionAttempt
    ensures Grows(n, r) && Valid(r)
  {
    var torn := if ServiceBase.NeedsTeardown(n.base) then DisconnectMqtt(n) else n;
    torn.(base := ServiceBase.SetStatus(torn.base, SvcStopped))
  }

  /** `setCommandCallback`: the slot is replaced. */
  function SetCommandCallback(n: Nova, cb: Option<Handler>): (r: Nova)
    ensures r.commandCallback == cb
    ensures r.(commandCallback := n.commandCallback) == n
  {
    n.(commandCallback := cb)
  }

  /** `connectMQTT`: the client is created if missing (keeping an existing
      one's subscriptions), its will is set, and the attempt time recorded. */
  function ConnectMqtt(n: Nova, now: nat): (r: Nova)
    ensures r.client == Some(Client(WillMessage(n.deviceId), n.client.Some? && n.client.value.subscribed))
    ensures r.base.lastConnectionAttempt == now
    ensures r.base.status == n.base.status && r.base.notices == n.base.notices
    ensures r.published == n.published && r.forwarded == n.forwarded
    ensures Grows(n, r)
  {
    var subscribed := n.client.Some? && n.client.value.subscribed;
    n.(client := Some(Client(WillMessage(n.deviceId), subscribed)),
       base := ServiceBase.UpdateLastConnectionAttempt(n.base, now))
  }

  /** `setupSubscriptions`: only on a live client. */
  function SetupSubscriptions(n: Nova): (r: Nova)
    ensures n.client.None? ==> r == n
    ensures n.client.Some? ==> r.client == Some(n.client.value.(subscribed := true))
    ensures r.(client := n.client) == n
  {
    match n.client
    case None => n
    case Some(c) => n.(client := Some(c.(subscribed := true)))
  }

  /** What a session-up publishes, in order: the retained "true" flag, the
      firmware version, the device model, and the version request. */
  function Greeting(id: string): (ms: seq<Message>)
    ensures |ms| == 4
    ensures ms[0] == Message(TopicPath(id, "connected"), "true", 1, true)
    ensures ms[3].payload == VersionQuery
  {
    [Message(TopicPath(id, "connected"), "true", 1, true),
     Message(TopicPath(id, "version"), Version.FirmwareVersion, 1, false),
     Message(TopicPath(id, "model"), DeviceModel, 1, false),
     Message(TopicPath(id, "messages"), VersionQuery, 0, false)]
  }

  /** `onMQTTConnected`: CONNECTED, subscriptions, the greeting, and the
      keepalive timer restarted. */
  function OnSessionUp(n: Nova, now: nat): (r: Nova)
    ensures r.base.status == SvcConnected
    ensures r.published == n.published + Greeting(n.deviceId)
    ensures r.lastKeepAlive == now
    ensures n.client.Some? ==> r.client.Some? && r.client.value.subscribed
    ensures n.client.None? ==> r.client.None?
    ensures n.base.status != SvcConnected ==> r.base.notices == n.base.notices + Deliver(n.base.callback, SvcConnected)
    ensures Grows(n, r)
  {
    var up := n.(base := ServiceBase.SetStatus(n.base, SvcConnected));
    var r := CheckOtaVersion(SendDeviceModel(SendFirmwareVersion(SendConnectionStatus(SetupSubscriptions(up), true))));
    r.(lastKeepAlive := now)
  }

  /** `onMQTTDisconnected`: ERROR; the client object is kept. */
  function OnSessionDown(n: Nova): (r: Nova)
    ensures r.base.status == SvcError
    ensures r.client == n.client && r.published == n.published
    ensures Grows(n, r)
  {
    n.(base := ServiceBase.SetStatus(n.base, SvcError))
  }

  /** `parseMQTTMessage`: the two known requests are answered (if CONNECTED);
      anything else goes to the command callback, or is dropped without one. */
  function ParseMessage(n: Nova, topic: string, payload: string): (r: Nova)
    ensures payload == DeviceModelRequest ==>
              r.forwarded == n.forwarded
              && r.published == n.published + (if Connected(n) then [Message(TopicPath(n.deviceId, "model"), DeviceModel, 1, false)] else [])
    ensures payload == FirmwareVersionRequest ==>
              r.forwarded == n.forwarded
              && r.published == n.published + (if Connected(n) then [Message(TopicPath(n.deviceId, "version"), Version.FirmwareVersion, 1, false)] else [])
    ensures payload != DeviceModelRequest && payload != FirmwareVersionRequest ==>
              r.published == n.published
              && r.forwarded == n.forwarded + Deliver(n.commandCallback, Command(topic, payload))
    ensures r.base == n.base && r.client == n.client && r.lastKeepAlive == n.lastKeepAlive
    ensures Grows(n, r)
  {
    if payload == DeviceModelRequest then SendDeviceModel(n)
    else if payload == FirmwareVersionRequest then SendFirmwareVersion(n)
    else n.(forwarded := n.forwarded + Deliver(n.commandCallback, Command(topic, payload)))
  }

  /** The "ota/version" handler: the image is requested (if CONNECTED)
      exactly when the offered version is newer than the running 1.0.5. */
  function OnOfferedVersion(n: Nova, payload: string): (r: Nova)
    ensures r.published == n.published + (if Connected(n) && Version.Newer(Version.Parse(payload), Version.Triple(1, 0, 5))
                                          then [Message(TopicPath(n.deviceId, "messages"), UpdateQuery, 0, false)] else [])
    ensures r.(published := n.published) == n
  {
    // `isOTAVersionNewer`, with the running version already read
    // (Version.NewerThanRunning).
    if Version.Newer(Version.Parse(payload), Version.Triple(1, 0, 5)) then RequestOtaUpdate(n) else n
  }

  /** A message on one of the subscribed topics. The firmware image itself
      (on "ota/update") is not part of this model. */
  function OnReceived(n: Nova, ch: Channel, payload: string): (r: Nova)
    ensures ch == OtaVersion ==> r == OnOfferedVersion(n, payload)
    ensures ch == OtaMd5 || ch == OtaUpdate ==> r == n
    ensures ch == Messages ==> r == ParseMessage(n, TopicPath(n.deviceId, "messages"), payload)
    ensures r.base == n.base && r.client == n.client && r.lastKeepAlive == n.lastKeepAlive
    ensures Grows(n, r)
  {
    match ch
    case Messages => ParseMessage(n, TopicPath(n.deviceId, "messages"), payload)
    case OtaVersion => OnOfferedVersion(n, payload)
    case OtaMd5 => n
    case OtaUpdate => n
  }

  /** One session callback. Messages arrive only through subscriptions. */
  function OnEvent(n: Nova, e: SessionEvent, now: nat): (r: Nova)
    ensures Grows(n, r)
    ensures Valid(n) && n.client.Some? ==> Valid(r) && r.client.Some?
    ensures e != SessionUp && !Connected(n) ==> r.published == n.published && !Connected(r)
    ensures r.base.status == SvcNotConnected ==> n.base.status == SvcNotConnected
  {
    match e
    case SessionUp => OnSessionUp(n, now)
    case SessionDown => OnSessionDown(n)
    case Received(ch, payload) =>
      if n.client.Some? && n.client.value.subscribed then OnReceived(n, ch, payload) else n
  }

  /** The callbacks of one pump of the client, in order. */
  function OnEvents(n: Nova, es: seq<SessionEvent>, now: nat): (r: Nova)
    ensures Grows(n, r)
    ensures Valid(n) && n.client.Some? ==> Valid(r) && r.client.Some?
    ensures r.base.status == SvcNotConnected ==> n.base.status == SvcNotConnected
    decreases |es|
  {
    if es == [] then n else OnEvents(OnEvent(n, es[0], now), es[1..], now)
  }

  /** `processKeepAlive`: while CONNECTED, the retained "true" flag is
      republished once the interval has elapsed, restarting the timer. */
  function ProcessKeepAlive(n: Nova, now: nat): (r: Nova)
    ensures Connected(n) && Since(now, n.lastKeepAlive) >= KeepAliveIntervalMs ==>
              r.published == n.published + [Message(TopicPath(n.deviceId, "connected"), "true", 1, true)]
              && r.lastKeepAlive == now
    ensures !(Connected(n) && Since(now, n.lastKeepAlive) >= KeepAliveIntervalMs) ==> r == n
    ensures r.base == n.base && r.client == n.client && Grows(n, r)
  {
    if Connected(n) && Since(now, n.lastKeepAlive) >= KeepAliveIntervalMs then
      SendConnectionStatus(n, true).(lastKeepAlive := now)
    else n
  }

  /** Whether `loop` pumps the client this tick. */
  predicate Pumped(n: Nova) {
    n.client.Some? && (n.base.status == SvcConnecting || n.base.status == SvcConnected)
  }

  /** `loop`, one tick. The client is pumped first (delivering `events`),
      then the lifecycle decision of the shared base is taken on the status
      the callbacks left. */
  function Loop(n: Nova, now: nat, events: seq<SessionEvent>): (r: Nova)
    ensures !n.initialized ==> r == n
    ensures n.initialized && n.base.status == SvcStopped ==> r == n
    ensures Grows(n, r)
    ensures Valid(n) ==> Valid(r)
    ensures r.base.status == SvcNotConnected ==> n.base.status == SvcNotConnected
  {
    if !n.initialized then n
    else
      var pumped := if Pumped(n) then OnEvents(n, events, now) else n;
      match ServiceBase.LoopAction(pumped.base, now, ConnectionTimeoutMs)
      case Connect => ConnectMqtt(pumped.(base := ServiceBase.SetStatus(pumped.base, SvcConnecting)), now)
      case TimeOut => pumped.(base := ServiceBase.SetStatus(pumped.base, SvcError))
      case Serve => ProcessKeepAlive(pumped, now)
      case Idle => pumped
  }

  /** Once the connect gate opens, a tick without callbacks moves STARTING,
      ERROR and NOT_CONNECTED to CONNECTING with a fresh attempt time and a
      client carrying the will; a CONNECTING attempt older than the timeout
      becomes ERROR. */
  lemma LoopLifecycle(n: Nova, now: nat)
    requires n.initialized && Valid(n)
    ensures n.base.status in {SvcStarting, SvcError, SvcNotConnected} && ServiceBase.CanAttemptConnection(n.base, now) ==>
              var r := Loop(n, now, []);
              r.base.status == SvcConnecting && r.base.lastConnectionAttempt == now
              && r.client.Some? && r.client.value.will == WillMessage(n.deviceId)
    ensures n.base.status in {SvcStarting, SvcError, SvcNotConnected} && !ServiceBase.CanAttemptConnection(n.base, now) ==>
              Loop(n, now, []) == n
    ensures n.base.status == SvcConnecting ==>
              Loop(n, now, []).base.status == (if Since(now, n.base.lastConnectionAttempt) > ConnectionTimeoutMs then SvcError else SvcConnecting)
  {
    assert OnEvents(n, [], now) == n;
  }

  /** Without a session-up callback a client that is not CONNECTED publishes
      nothing and does not become CONNECTED, whatever else the session says. */
  lemma {:induction false} SilentWithoutSession(n: Nova, es: seq<SessionEvent>, now: nat)
    requires !Connected(n) && SessionUp !in es
    ensures OnEvents(n, es, now).published == n.published
    ensures !Connected(OnEvents(n, es, now))
    decreases |es|
  {
    if es != [] {
      assert es[0] != SessionUp;
      assert SessionUp !in es[1..];
      SilentWithoutSession(OnEvent(n, es[0], now), es[1..], now);
    }
  }

  /** A connected client offered the version "a.b.c" asks for the image
      exactly when a.b.c is newer than the running 1.0.5. */
  lemma OfferedUpdateRequested(n: Nova, a: nat, b: nat, c: nat)
    requires Connected(n)
    ensures var r := OnOfferedVersion(n, Version.Render(a, b, c));
            (|r.published| == |n.published| + 1) <==> Version.Newer(Version.Triple(a, b, c), Version.Triple(1, 0, 5))
  {
    Version.ParseRender(a, b, c);
  }

  /** Stopping twice is stopping once. */
  lemma StopIdempotent(n: Nova)
    ensures Stop(Stop(n)) == Stop(n)
  {
  }

  /** After `stop`, `start` always gets the client going again. */
  lemma StartAfterStop(n: Nova)
    ensures Start(Stop(n)).base.status == SvcStarting
  {
  }

  /** A device's topic reads back its suffix when it fits the buffer. */
  lemma TopicRoundTrip(id: string, suffix: string)
    requires |id| + |suffix| + 9 < TopicBufferSize
    ensures SuffixOf(TopicPath(id, suffix), id) == Some(suffix)
  {
    var full := "devices/" + id + "/" + suffix;
    assert full == ("devices/" + id + "/") + suffix;
  }

  /** With the 8-character serial number as device id, different suffixes
      give different topics. */
  lemma TopicsDistinct(id: string, s1: string, s2: string)
    requires |id| == 8 && |s1| < 100 && |s2| < 100 && s1 != s2
    ensures TopicPath(id, s1) != TopicPath(id, s2)
  {
    TopicRoundTrip(id, s1);
    TopicRoundTrip(id, s2);
  }
}
