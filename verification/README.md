# DL1000 gateway firmware — a Dafny model of its control core

The DL1000 is an ESP32 gateway that watches a DSE generator controller over
Modbus RTU and reports to two MQTT clouds (NovaLogic and TagoIO). This
project models the decision logic of its firmware as pure functions over
immutable state records, and proves what that logic promises.

- **Link monitor** (`Networking`): Ethernet driver events, the 30-second
  address timeout and the retry counter that escalates three soft retries
  into a full interface restart.
- **Reachability prober** (`Connectivity`): gated by the link having an
  address, a check cycle of up to three echo attempts at most every
  30 seconds.
- **Cloud clients** (`ServiceBase`, `NovaLogic`, `TagoIo`, `Version`):
  - the shared status setter, callback slot and 30-second retry gate;
  - each client's connect/timeout/error lifecycle and session callbacks;
  - keepalives and publish guards;
  - NovaLogic's command dispatcher and firmware-version comparison.
- **Services orchestrator** (`Services`): the first-match aggregation of
  the clients' statuses (one-client and two-client builds), the reaction to
  reachability changes, and the periodic loop.
- **Status view model** (`ViewModel`): change-only setters, the dirty flag,
  the fixed-size text buffers and the status-label precedence.
- **User interface**:
  - the general menu engine (`Menu`);
  - the legacy menu state machine the display task actually runs, with the
    display's dim/off power management (`LegacyMenu`);
  - the keypad's factory-reset gesture and confirmation dialog (`Keypad`);
  - the MAC and serial-number strings (`DeviceIdentity`);
  - the status LEDs (`Leds`).
- **Modbus**:
  - the CRC-16/MODBUS of section 2.5.1.2 and Appendix B of the Modbus over
    Serial Line Specification V1.02 (`Crc16`);
  - the bus sniffer's poll builder and byte recogniser (`ModbusMonitor`);
  - the page scheduler, decoder and status logic of the Modbus monitor
    service (`ModbusService`).

How the outside world enters the model:

- Time is an explicit `nat` argument. Elapsed time is `Types.Since`, which
  is 0 when the clock reads earlier than the mark.
- Each callback slot holds at most one handler. Deliveries are appended to a
  notice log, so "fires exactly once" is a statement about the log.
- Foreign parts are inputs. Ethernet driver events and the echo replies are
  arguments (`ping(i)` answers attempt `i`). MQTT session callbacks are
  `SessionEvent`s, and MQTT publications are logged. The factory MAC read is
  an optional six-byte value. SHA-256 is a function argument. Whether the
  Modbus client queues a request or initialises is a boolean argument.
- A client's status callback re-enters the orchestrator synchronously. The
  orchestrator replays each client's new notices in order after every
  client operation.
- Modbus responses handed to the monitor service are the client library's
  messages: slave ID, function code, byte count and data, without the CRC.
- The sniffer works on `bv8`/`bv16` so that the CRC is bit-exact. The rest
  of the model uses the integer newtype `Types.Byte`.

NovaLogic uses command macros that the definitions header does not
define: its dispatcher compares payloads with `MQTT_SVR_CMD_*`
(`src/services/novaLogicService.cpp:567-575`), and its firmware-version
and update requests publish `MQTT_DVC_CMD_VERSION` and
`MQTT_DVC_CMD_UPDATE` (`src/services/novaLogicService.cpp:295`, `:388`).
The model uses the values of the header's similarly named macros,
`MQTT_SRV_CMD_*` and `MQTT_OTA_CMD_*` (`include/definitions.h:111-114`);
only their distinctness matters.

The link monitor's retry counter is reset when the cable reports CONNECTED
as well as on an address. The model follows the code, in
`src/managers/networkingManager.cpp:230-244`, rather than a reading in which
only an address resets it.

## Model

| member | source | states |
|---|---|---|
| Types.Deliver | src/services/baseService.cpp:21-25 | a status change reaches the registered callback exactly once, with the new value, and nothing is delivered when no callback is registered |
| Types.NetOrdinal | include/definitions.h:140-148 | each link state's number is its position in the declaration order (so the six numbers are distinct and ordered as declared) |
| Types.NetOrdinalOrder | include/definitions.h:140-148 | the i-th declared link state is numbered i, and equal numbers mean equal states |
| ViewModel.Text | src/statusViewModel.cpp:150-189 | every label text is non-empty and fits the 16-byte status buffer with its terminator |
| ViewModel.Derive | src/statusViewModel.cpp:147-189 | each of the ten labels is produced by exactly the statuses that select it: device trouble first, then the services status, then reachability, then the link |
| ViewModel.Truncate | src/statusViewModel.cpp:63-67 | a `strncpy` of size-1 bytes keeps a prefix of the text, the whole text when it fits and exactly size-1 characters when it does not |
| ViewModel.Refresh | src/statusViewModel.cpp:147-193 | the label is recomputed from the four statuses and the model is marked dirty; the buffer bounds are kept |
| ViewModel.Init | src/statusViewModel.cpp:3-17 | a new model starts with every status at its first value, empty MAC and serial, the label STARTING (the "INIT" placeholder is overwritten) and the dirty flag set |
| ViewModel.SetDeviceStatus | src/statusViewModel.cpp:81-89 | an equal status changes nothing at all; a new one is stored, the label is recomputed and the model is dirty; other fields and buffer bounds are kept |
| ViewModel.SetNetworkStatus | src/statusViewModel.cpp:91-99 | as for the device status, for the link status |
| ViewModel.SetConnectivityStatus | src/statusViewModel.cpp:101-109 | as for the device status, for reachability |
| ViewModel.SetServicesStatus | src/statusViewModel.cpp:111-119 | as for the device status, for the services status |
| ViewModel.SetMacAddress | src/statusViewModel.cpp:61-69 | a null or equal MAC changes nothing; otherwise the truncated copy is stored and the model is dirty |
| ViewModel.SetSerialNumber | src/statusViewModel.cpp:71-79 | a null or equal serial changes nothing; otherwise the truncated copy is stored and the model is dirty |
| ViewModel.SetStatusString | src/statusViewModel.cpp:121-129 | a null or equal label changes nothing; otherwise the truncated label is stored and the model is dirty |
| ViewModel.ClearDirty | src/statusViewModel.cpp:137-140 | only the dirty flag changes, and it is cleared |
| ViewModel.CustomLabelOverwritten | src/statusViewModel.cpp:91-98 | a custom label is replaced by the computed one at the next effective status change |
| ViewModel.SetStatusStringIdempotent | src/statusViewModel.cpp:121-129 | setting the same fitting label twice is the same as setting it once |
| ServiceBase.Init | src/services/baseService.cpp:3-7 | a new service is STOPPED, has never attempted a connection and has no callback |
| ServiceBase.SetStatus | src/services/baseService.cpp:13-50 | an equal status changes nothing; a new status is stored and delivered once to the callback; the attempt time and slot are kept |
| ServiceBase.SetStatusChangeCallback | src/services/baseService.cpp:52-55 | the callback slot is replaced and nothing else changes |
| ServiceBase.UpdateLastConnectionAttempt | src/services/baseService.cpp:65-68 | the attempt time becomes now and nothing else changes |
| ServiceBase.GateAfterAttempt | src/services/baseService.cpp:57-63 | after an attempt at a non-zero time the gate reopens exactly 30000 ms later; an attempt stamped 0 leaves it open |
| ServiceBase.CallbackReplaced | src/services/baseService.cpp:52-55 | after two registrations a status change notifies only the second callback |
| ServiceBase.LoopAction | src/services/novaLogicService.cpp:52-88 | the shared loop connects from STARTING, ERROR or NOT_CONNECTED exactly when the gate is open, times out a CONNECTING attempt exactly when it is older than the timeout, and serves exactly when CONNECTED |
| ServiceBase.Start | src/services/novaLogicService.cpp:104-112 | only a STOPPED service moves, to STARTING; any other is left as it is |
| NovaLogic.TopicPath | src/services/novaLogicService.cpp:283-286 | the topic "devices/<id>/<suffix>" is cut to fit the 128-byte buffer and is a prefix of the full path, equal to it when it fits |
| NovaLogic.SuffixOf | src/services/novaLogicService.cpp:283-286 | the inverse of the topic path: a suffix is found exactly when the topic starts with the device prefix, and prefix plus suffix give back the topic |
| NovaLogic.WillMessage | src/services/novaLogicService.cpp:217-232 | the last will is "false", QoS 1, retained |
| NovaLogic.Init | src/services/novaLogicService.cpp:13-17 | a new client is STOPPED, uninitialised, without MQTT client, publications, forwards or command callback |
| NovaLogic.Publish | src/services/novaLogicService.cpp:329-331 | one message on the device's topic is appended to the publication log and nothing else changes |
| NovaLogic.SendConnectionStatus | src/services/novaLogicService.cpp:324-334 | the "true" report is held back unless CONNECTED, the "false" report never is; both are QoS 1 and retained |
| NovaLogic.SendFirmwareVersion | src/services/novaLogicService.cpp:300-310 | the running version is published on "version" with QoS 1 only while CONNECTED |
| NovaLogic.SendDeviceModel | src/services/novaLogicService.cpp:312-322 | the model name is published on "model" with QoS 1 only while CONNECTED |
| NovaLogic.CheckOtaVersion | src/services/novaLogicService.cpp:288-298 | the version query is published on "messages" only while CONNECTED |
| NovaLogic.RequestOtaUpdate | src/services/novaLogicService.cpp:381-391 | the update request is published on "messages" only while CONNECTED |
| NovaLogic.Begin | src/services/novaLogicService.cpp:28-36 | the client is STOPPED and initialised, and the client object and log are kept |
| NovaLogic.Start | src/services/novaLogicService.cpp:104-112 | only a STOPPED client moves, to STARTING; nothing is lost and the client invariant is kept |
| NovaLogic.DisconnectMqtt | src/services/novaLogicService.cpp:155-172 | the MQTT client is destroyed and nothing else changes |
| NovaLogic.Stop | src/services/novaLogicService.cpp:91-102 | the result is always STOPPED; the session is torn down exactly when it was CONNECTING or CONNECTED; the client stays initialised |
| NovaLogic.SetCommandCallback | src/services/novaLogicService.cpp:114-118 | the command callback slot is replaced and nothing else changes |
| NovaLogic.ConnectMqtt | src/services/novaLogicService.cpp:141-153 | a client carrying the will exists afterwards, an existing client keeps its subscriptions, the attempt time is now and the status is unchanged |
| NovaLogic.SetupSubscriptions | src/services/novaLogicService.cpp:174-215 | subscriptions are made only on a live client |
| NovaLogic.Greeting | src/services/novaLogicService.cpp:234-256 | the session-up greeting is four messages, the retained "true" flag first and the version query last |
| NovaLogic.OnSessionUp | src/services/novaLogicService.cpp:234-256 | the client becomes CONNECTED, subscribes, publishes the greeting in order and restarts the keepalive timer; the status callback hears CONNECTED once |
| NovaLogic.OnSessionDown | src/services/novaLogicService.cpp:258-268 | the client becomes ERROR and keeps its MQTT client |
| NovaLogic.ParseMessage | src/services/novaLogicService.cpp:562-592 | the two known requests are answered when CONNECTED and never forwarded; every other payload is forwarded to the command callback, or dropped without one |
| NovaLogic.OnOfferedVersion | src/services/novaLogicService.cpp:194-200 | the image is requested exactly when CONNECTED and the offered version reads as newer than the running 1.0.5 |
| NovaLogic.OnReceived | src/services/novaLogicService.cpp:174-215 | each subscribed topic reaches its handler; the MD5 topic is ignored |
| NovaLogic.OnEvent | src/services/novaLogicService.cpp:129-137 | no callback takes anything back; without session-up an unconnected client publishes nothing; nothing moves a client into NOT_CONNECTED |
| NovaLogic.OnEvents | src/services/novaLogicService.cpp:45-49 | the callbacks of one pump keep the client invariant and the logs only grow |
| NovaLogic.ProcessKeepAlive | src/services/novaLogicService.cpp:270-281 | while CONNECTED and once the 10000 ms interval has passed, "true" is republished and the timer restarts; otherwise nothing changes |
| NovaLogic.Loop | src/services/novaLogicService.cpp:38-89 | an uninitialised or STOPPED client is left as it is; the logs only grow; the client invariant is kept |
| NovaLogic.LoopLifecycle | src/services/novaLogicService.cpp:52-88 | with the gate open, STARTING, ERROR and NOT_CONNECTED move to CONNECTING with a fresh attempt and the will set; with it closed nothing changes; CONNECTING becomes ERROR exactly after the 10000 ms timeout |
| NovaLogic.SilentWithoutSession | src/services/novaLogicService.cpp:324-327 | without a session-up callback an unconnected client publishes nothing and stays unconnected |
| NovaLogic.OfferedUpdateRequested | src/services/novaLogicService.cpp:336-379 | a connected client offered "a.b.c" requests the image exactly when a.b.c is newer than 1.0.5 |
| NovaLogic.StopIdempotent | src/services/novaLogicService.cpp:91-102 | stopping twice is stopping once |
| NovaLogic.StartAfterStop | src/services/novaLogicService.cpp:104-112 | start after stop always yields STARTING |
| NovaLogic.TopicRoundTrip | src/services/novaLogicService.cpp:283-286 | a topic that fits the buffer reads back its suffix |
| NovaLogic.TopicsDistinct | src/services/novaLogicService.cpp:283-286 | with an 8-character device id, different short suffixes give different topics |
| Version.IndexOf | src/services/novaLogicService.cpp:347-351 | the position of the first dot, or -1 exactly when there is none; no dot comes before it |
| Version.LastIndexOf | src/services/novaLogicService.cpp:348-352 | the position of the last dot, or -1 exactly when there is none; no dot comes after it |
| Version.Unsigned | src/services/novaLogicService.cpp:347-348 | a non-negative position passes unchanged; -1 becomes the largest unsigned value |
| Version.Substring | src/services/novaLogicService.cpp:347-352 | a cut never outgrows the string and, with ordered in-range bounds, is exactly that slice |
| Version.DigitPrefix | src/services/novaLogicService.cpp:347-352 | `toInt` reads the longest run of leading digits: all digits, and the next character is not one |
| Version.SkipSpaces | src/services/novaLogicService.cpp:347-352 | leading blanks are dropped and what remains is a suffix starting with a non-blank |
| Version.NewerIrreflexive | src/services/novaLogicService.cpp:354-371 | no version is newer than itself |
| Version.NewerAsymmetric | src/services/novaLogicService.cpp:354-371 | of two versions at most one is newer than the other |
| Version.NewerTransitive | src/services/novaLogicService.cpp:354-371 | the newer relation is transitive |
| Version.NewerTotal | src/services/novaLogicService.cpp:354-371 | two different versions are always ordered one way or the other |
| Version.NatToString | src/services/novaLogicService.cpp:340-341 | a rendered number is a non-empty run of digits without a dot |
| Version.DigitsValueOfNat | src/services/novaLogicService.cpp:347-352 | the digits of a rendered number denote that number |
| Version.DigitPrefixOfDigits | src/services/novaLogicService.cpp:347-352 | an all-digit string is read whole |
| Version.AtolOfNat | src/services/novaLogicService.cpp:347-352 | `toInt` reads back a rendered number |
| Version.FirstDot | src/services/novaLogicService.cpp:347 | the first dot of "a.rest" follows a dot-free a |
| Version.LastDot | src/services/novaLogicService.cpp:349 | the last dot of "init.c" precedes a dot-free c |
| Version.DotPositions | src/services/novaLogicService.cpp:347-349 | in "a.b.c" with dot-free parts the first dot follows a and the last precedes c |
| Version.Regroup | src/services/novaLogicService.cpp:347-349 | joining "a.b.c" groups either way |
| Version.SubstringParts | src/services/novaLogicService.cpp:347-352 | the three cuts of "a.b.c" are a, b and c |
| Version.ParseParts | src/services/novaLogicService.cpp:347-352 | three dot-free parts joined by dots are read part by part |
| Version.ParseAt | src/services/novaLogicService.cpp:347-352 | once the dots are located, the triple is the three cuts read as numbers |
| Version.ParseRender | src/services/novaLogicService.cpp:347-352 | a well-formed "major.minor.patch" reads back as its triple |
| Version.OfferedVersionNewer | src/services/novaLogicService.cpp:336-379 | an offered well-formed version is newer exactly when its triple exceeds (1, 0, 5) |
| Version.NewerThanRunning | src/services/novaLogicService.cpp:336-379 | any offered string is newer exactly when it reads as a triple above (1, 0, 5) |
| Version.FirmwareVersionParsed | include/definitions.h:5 | the running version "1.0.5" reads as (1, 0, 5) |
| Version.UndottedReadsThrice | src/services/novaLogicService.cpp:347-352 | a version without dots is read as the same number for major, minor and patch |
| TagoIo.Init | src/services/tagoIOService.cpp:10-14 | a new client is STOPPED, uninitialised, without MQTT client or publications |
| TagoIo.PublishToTago | src/services/tagoIOService.cpp:295-309 | one QoS-1 post on the data topic exactly when a client exists and the service is CONNECTED; nothing else changes |
| TagoIo.PublishDeviceStatus | src/services/tagoIOService.cpp:244-261 | a status report is posted only while CONNECTED |
| TagoIo.PublishSensorData | src/services/tagoIOService.cpp:224-242 | a sensor value is posted only while CONNECTED |
| TagoIo.PublishBatchData | src/services/tagoIOService.cpp:263-277 | a batch is posted only while CONNECTED |
| TagoIo.Begin | src/services/tagoIOService.cpp:25-33 | the client is STOPPED and initialised, keeping its client object and log |
| TagoIo.Start | src/services/tagoIOService.cpp:102-110 | only a STOPPED client moves, to STARTING; the client invariant is kept |
| TagoIo.Stop | src/services/tagoIOService.cpp:89-100 | the result is always STOPPED; the client is destroyed exactly when it was CONNECTING or CONNECTED |
| TagoIo.ConnectMqtt | src/services/tagoIOService.cpp:132-141 | a client exists afterwards, the attempt time is now and the status is unchanged |
| TagoIo.OnSessionUp | src/services/tagoIOService.cpp:175-189 | the client becomes CONNECTED, reports "connected" and restarts both timers; the status callback hears CONNECTED once |
| TagoIo.OnSessionDown | src/services/tagoIOService.cpp:191-195 | the client becomes ERROR and keeps its MQTT client |
| TagoIo.OnEvent | src/services/tagoIOService.cpp:175-195 | a disconnect publishes nothing and leaves the client unconnected; no callback moves it into NOT_CONNECTED |
| TagoIo.OnEvents | src/services/tagoIOService.cpp:43-46 | the callbacks of one pump keep the client object and the logs only grow |
| TagoIo.ProcessKeepAlive | src/services/tagoIOService.cpp:197-209 | while CONNECTED and once 60000 ms have passed, "online" is posted and the timer restarts; otherwise nothing changes |
| TagoIo.ProcessDataQueue | src/services/tagoIOService.cpp:211-222 | only the data timer moves, to now, once 10000 ms have passed |
| TagoIo.Loop | src/services/tagoIOService.cpp:35-87 | an uninitialised or STOPPED client is left as it is; the logs only grow; the client invariant is kept |
| TagoIo.LoopLifecycle | src/services/tagoIOService.cpp:49-86 | with the gate open, STARTING, ERROR and NOT_CONNECTED move to CONNECTING with a fresh attempt; with it closed nothing changes; CONNECTING becomes ERROR exactly after 30000 ms |
| TagoIo.SilentWithoutSession | src/services/tagoIOService.cpp:244-261 | without a session-up callback an unconnected client publishes nothing and stays unconnected |
| TagoIo.HeartbeatSpacing | src/services/tagoIOService.cpp:197-209 | a heartbeat is sent at most once per 60000 ms interval |
| TagoIo.StopIdempotent | src/services/tagoIOService.cpp:89-100 | stopping twice is stopping once |
| TagoIo.StartAfterStop | src/services/tagoIOService.cpp:102-110 | start after stop always yields STARTING |
| Networking.Init | src/managers/networkingManager.cpp:21-25 | a new monitor is STOPPED with a zero counter, zero timer and no callback, and agrees with the read model |
| Networking.HasIp | src/managers/networkingManager.cpp:154-157 | the enumerator comparison holds exactly in CONNECTED_IP |
| Networking.IsConnected | src/managers/networkingManager.cpp:149-152 | the enumerator comparison holds exactly in CONNECTED and CONNECTED_IP |
| Networking.SetState | src/managers/networkingManager.cpp:172-216 | an equal state changes nothing; a new one is stored with its time, pushed to the read model and delivered once; only entering STARTED restarts the connect timer; the counter is kept |
| Networking.OnEvent | src/managers/networkingManager.cpp:218-264 | each driver event asserts its state and other events change nothing; cable-connected and got-address zero the counter and restart the timer; at most one notice per event |
| Networking.ApplyEvents | src/managers/networkingManager.cpp:218-264 | a batch of driver events keeps the callback and the monitor invariant |
| Networking.ApplyEventsAppend | src/managers/networkingManager.cpp:218-264 | delivering two batches in turn is delivering their concatenation |
| Networking.Begin | src/managers/networkingManager.cpp:27-32 | `begin` enters STARTED and, from another state, starts the connect timer |
| Networking.Restart | src/managers/networkingManager.cpp:164-170 | a manual restart (`restartEthernet`, lines 52-67, then STARTED) ends in STARTED whatever the driver reported meanwhile, stamped when `restartEthernet`'s 1000 ms wait ends |
| Networking.SetCallback | src/managers/networkingManager.cpp:159-162 | the callback slot is replaced and nothing else changes |
| Networking.Loop | src/managers/networkingManager.cpp:71-142 | STOPPED, DISCONNECTED and CONNECTED_IP wait; STARTED and CONNECTED wait until the 30000 ms timeout, then retry softly (STOPPED, a 1000 ms wait, STARTED, counter up) or, at the third timeout, restart fully with a zeroed counter (STOPPED, 1000 ms plus the restart's 1000 ms, STARTED), keeping an address that arrived meanwhile; LOST_IP goes through DISCONNECTED and the same 2000 ms of waits to STARTED; STARTED is stamped when the wait ends |
| Networking.EscalationAfterThreeTimeouts | src/managers/networkingManager.cpp:85-116 | three timeouts in a row from a fresh counter (each measured from the end of the previous retry's wait) give counts 1, 2 and then 0 with the link back in STARTED |
| Connectivity.Init | src/managers/connectivityManager.cpp:10-15 | a new prober is OFFLINE, has never probed and agrees with the read model |
| Connectivity.SetState | src/managers/connectivityManager.cpp:70-103 | an equal state changes nothing; a new one is stored with its time, pushed to the read model and delivered once; the probe timer and slot are kept |
| Connectivity.Begin | src/managers/connectivityManager.cpp:17-21 | `begin` leaves the prober OFFLINE, and changes nothing when it already is |
| Connectivity.SetCallback | src/managers/connectivityManager.cpp:59-62 | the callback slot is replaced and nothing else changes |
| Connectivity.ForceCheck | src/managers/connectivityManager.cpp:64-68 | only the probe timer is cleared |
| Connectivity.PerformPing | src/managers/connectivityManager.cpp:117-155 | the probe succeeds exactly when one of the three attempts is answered; it stops at the first answer, makes all three attempts otherwise, and pauses between attempts but not after the last |
| Connectivity.CheckConnectivity | src/managers/connectivityManager.cpp:105-115 | the prober passes through CHECKING and ends ONLINE exactly when the probe succeeds, OFFLINE otherwise, notifying both changes in order |
| Connectivity.Loop | src/managers/connectivityManager.cpp:23-47 | without an address the prober falls to OFFLINE (once); with one, an ONLINE prober or one whose 30000 ms interval has not elapsed is left alone, and otherwise the cycle runs with the timer stamped now |
| Connectivity.ForceCheckIdempotent | src/managers/connectivityManager.cpp:64-68 | forcing twice is forcing once |
| Connectivity.ForceCheckProbesNextTick | src/managers/connectivityManager.cpp:37-46 | after a forced check the next tick with an address probes whatever the time |
| Services.Aggregate | src/managers/servicesManager.cpp:253-339 | the first-match chain over the client statuses: all CONNECTED gives CONNECTED; any CONNECTING gives CONNECTING; any STARTING gives STARTING only from STOPPED; any ERROR gives ERROR; any NOT_CONNECTED gives it except from STARTING; all STOPPED gives STOPPED; a CONNECTED/STOPPED mix keeps the current status |
| Services.AggregateJustified | src/managers/servicesManager.cpp:253-339 | the overall status reaches STARTING only from STOPPED or STARTING, NOT_CONNECTED only when some client is NOT_CONNECTED, and CONNECTED only when every client is |
| Services.AggregateIdempotent | src/managers/servicesManager.cpp:253-339 | a second evaluation with the same client statuses changes nothing |
| Services.SingleIsMirroredPair | src/managers/servicesManager.cpp:292-323 | the one-client build decides as the two-client build whose second client mirrors the first |
| Services.AggregateSymmetric | src/managers/servicesManager.cpp:263-320 | the two-client decision does not depend on which client is which |
| Services.Clients | src/managers/servicesManager.cpp:255-258 | the one-client build aggregates NovaLogic alone, the two-client build NovaLogic then TagoIO |
| Services.Init | src/managers/servicesManager.cpp:7-26 | overall STOPPED and uninitialised; NovaLogic's status callback is registered, TagoIO's exactly in the two-client build |
| Services.SetState | src/managers/servicesManager.cpp:211-251 | an equal state changes nothing; a new one is written to the read model and delivered once |
| Services.Reaggregate | src/managers/servicesManager.cpp:328-338 | the aggregate is installed through the change-only setter |
| Services.UpdateOverallStatus | src/managers/servicesManager.cpp:253-339 | the overall status becomes the aggregate of the current client statuses; clients are untouched |
| Services.UpdateOverallStatusIdempotent | src/managers/servicesManager.cpp:253-339 | evaluating twice is evaluating once |
| Services.OnServiceStatusChange | src/managers/servicesManager.cpp:341-366 | a client's status change re-aggregates at once, and the logging manager hears exactly the flips of NovaLogic's connected flag |
| Services.Replay | src/managers/servicesManager.cpp:17-24 | replaying a client's notifications in order leaves the clients untouched and keeps the invariant |
| Services.NovaStep | src/managers/servicesManager.cpp:17-19 | installing a NovaLogic result, after its callbacks, keeps the invariant |
| Services.TagoStep | src/managers/servicesManager.cpp:22-24 | installing a TagoIO result, after its callbacks, keeps the invariant |
| Services.StopClients | src/managers/servicesManager.cpp:177-181 | every client of the build ends STOPPED, NovaLogic first; nothing is published |
| Services.StartClients | src/managers/servicesManager.cpp:156-167 | each client of the build that is STOPPED ends STARTING; any other is left untouched, an ERROR client included |
| Services.Begin | src/managers/servicesManager.cpp:33-48 | the clients are begun, overall STOPPED, and the loop is live |
| Services.Stop | src/managers/servicesManager.cpp:173-187 | every client STOPPED, overall STOPPED, and the loop inert |
| Services.SetStateChangeCallback | src/managers/servicesManager.cpp:407-410 | the callback slot is replaced and nothing else changes |
| Services.GoOffline | src/managers/servicesManager.cpp:95-105 | every client is stopped and the overall state becomes the given one |
| Services.Restart | src/managers/servicesManager.cpp:150-167 | overall STARTING, then every STOPPED client of the build started and any other left untouched; the state stays STARTING through the clients' own notifications unless a client was already CONNECTING |
| Services.StartClientsKeepStarting | src/managers/servicesManager.cpp:341-366 | starting clients under an overall STARTING keeps it STARTING when no client is CONNECTING, although each start re-aggregates at once |
| Services.OnConnectivityChanged | src/managers/servicesManager.cpp:412-494 | CHECKING is ignored; OFFLINE always ends STOPPED, stopping the clients from any active state; ONLINE, when re-aggregation gives STOPPED, ERROR or NOT_CONNECTED, ends STARTING with every STOPPED client of the build (TagoIO included) started and the others untouched, and from STARTING, CONNECTING or CONNECTED only re-aggregates |
| Services.Decide | src/managers/servicesManager.cpp:71-170 | offline, STARTING, CONNECTING, ERROR and NOT_CONNECTED end STOPPED and CONNECTED ends NOT_CONNECTED, each with the clients stopped, and STOPPED stays as it is; online, STOPPED, ERROR and NOT_CONNECTED end STARTING (no client CONNECTING) with every STOPPED client started, and an active state is left alone |
| Services.PumpClients | src/managers/servicesManager.cpp:57-61 | the clients' loops run with their callbacks replayed; the orchestrator's own fields and invariant are kept and the one-client build never touches TagoIO |
| Services.Evaluate | src/managers/servicesManager.cpp:63-69 | once the 10000 ms interval has passed the overall status becomes the aggregate and the timer is restamped; before that nothing changes |
| Services.Loop | src/managers/servicesManager.cpp:50-171 | an uninitialised orchestrator is left alone; otherwise, on the state after the client loops and the periodic evaluation, offline stops the clients from any active state, ending NOT_CONNECTED from CONNECTED and STOPPED otherwise, and online restarts from STOPPED, ERROR or NOT_CONNECTED (ending STARTING, stopped clients started) and leaves active states alone; the timer is restamped exactly when due |
| Services.OfflinePathsDiffer | src/managers/servicesManager.cpp:123-132 | losing reachability while CONNECTED ends STOPPED through the prober's callback but NOT_CONNECTED through the loop; both stop NovaLogic |
| Services.OnlinePathsAgree | src/managers/servicesManager.cpp:71-170 | coming online, the prober's callback does exactly what the loop's state machine does on a freshly re-aggregated state |
| Services.OnlineRestarts | src/managers/servicesManager.cpp:424-494 | coming online from STOPPED, ERROR or NOT_CONNECTED ends STARTING on both paths |
| Services.RetryLeavesErrorClient | src/managers/servicesManager.cpp:156-160 | the retry path calls `start` on an ERROR client, which ignores it |
| Menu.Init | src/managers/menuManager.cpp:5-10 | a new manager is inactive, without current or root menu, with the 30000 ms timeout |
| Menu.NibbleUp | src/managers/menuManager.cpp:86-101 | the edited nibble (high at position 0, low otherwise) goes up by one modulo 16 and the other nibble is kept |
| Menu.NibbleDown | src/managers/menuManager.cpp:138-153 | the edited nibble goes down by one, 0 wrapping to F, and the other nibble is kept |
| Menu.NibbleRoundTrip | src/managers/menuManager.cpp:86-153 | Down undoes Up and Up undoes Down on the same position |
| Menu.NibblesDetermine | src/managers/menuManager.cpp:93-100 | a byte is determined by its two nibbles |
| Menu.BaudIndex | src/managers/menuManager.cpp:186-195 | the position of a rate in the five-rate list, -1 exactly for an unlisted rate |
| Menu.BaudLeft | src/managers/menuManager.cpp:183-207 | Left gives the previous listed rate; the first rate and unlisted rates give 115200 |
| Menu.BaudRight | src/managers/menuManager.cpp:230-254 | Right gives the next listed rate; the last rate and unlisted rates give 9600 |
| Menu.BaudRoundTrip | src/managers/menuManager.cpp:177-269 | on listed rates Left and Right undo each other |
| Menu.BaudCycle | src/managers/menuManager.cpp:230-254 | five steps Right come back to the same listed rate |
| Menu.ValueNext | src/managers/menuManager.cpp:313-325 | Select adds one and wraps to the minimum past the maximum, staying in range |
| Menu.UpdateScroll | src/managers/menuManager.cpp:596-608 | a scrolling menu's window moves just enough to show the selection; otherwise nothing changes |
| Menu.SetCurrentKind | src/managers/menuManager.cpp:85-100 | only the selected item's bound value changes |
| Menu.PageUp | src/managers/menuManager.cpp:81-131 | an empty menu is left alone; a bound hex byte has its nibble increased; otherwise the selection moves up, wrapping from the first item to the last with the window at the end, and the selection stays visible |
| Menu.PageDown | src/managers/menuManager.cpp:133-175 | an empty menu is left alone; otherwise the selection moves down, wrapping from the last item to the first with the window at the top, and stays visible |
| Menu.PageSide | src/managers/menuManager.cpp:177-269 | Left/Right step a bound baud rate through the list and flip a bound hex byte's edit position; the selection and window never move |
| Menu.UpdatePage | src/managers/menuManager.cpp:393-395 | one menu of the store is replaced and the references stay valid |
| Menu.HideMenu | src/managers/menuManager.cpp:35-43 | the manager becomes inactive without current menu and the exit callback fires once |
| Menu.ReturnToParent | src/managers/menuManager.cpp:407-420 | the parent becomes current with the timeout restarted; without a parent nothing changes |
| Menu.GoBack | src/managers/menuManager.cpp:361-372 | back goes to the parent if there is one, else leaves the menu system |
| Menu.OpenSubmenu | src/managers/menuManager.cpp:374-405 | a missing, empty or inactive-time submenu is refused; otherwise it records the current menu as parent, becomes current at its first item, and restarts the timeout |
| Menu.ShowMenu | src/managers/menuManager.cpp:21-33 | the given menu, else the root, becomes current at its first item and the manager is active; without either nothing changes |
| Menu.SetRootMenu | src/managers/menuManager.cpp:16-19 | only the root changes |
| Menu.SelectItem | src/managers/menuManager.cpp:271-359 | an action or submenu item with an action is logged as run; Exit leaves the menu system; a bound toggle flips, a bound value steps with wrap, a bound hex byte's nibble goes up; unbound items change nothing |
| Menu.HandleKeyPress | src/managers/menuManager.cpp:51-79 | nothing happens while inactive or without a menu; otherwise the timeout restarts and Up, Down, Left and Right replace only the current menu by its PageUp, PageDown or PageSide (backward/forward) successor, Select selects the item and Menu goes back, and any other key does nothing else |
| Menu.CheckTimeout | src/managers/menuManager.cpp:614-620 | the menu system is left exactly when active, a timeout is set and it has elapsed |
| Menu.OpenThenBack | src/managers/menuManager.cpp:374-420 | opening a submenu and going back returns to the menu it was opened from, still active |
| Menu.ToggleTwice | src/managers/menuManager.cpp:303-311 | selecting a bound toggle twice restores the menus |
| LegacyMenu.Init | src/managers/displayManager.cpp:22-51 | the menu starts on the normal display, main screen, selection 0, with no screen drawn (every count 0) and the 30-second menu timer stopped |
| LegacyMenu.ItemCount | src/managers/displayManager.cpp:673-970 | each legacy screen declares a positive number of selectable items when drawn: main 4, device info 1, ethernet info 1, settings 2, logging 3 |
| LegacyMenu.EthernetLineCount | src/managers/displayManager.cpp:801-844 | the ethernet screen shows between 2 and 10 lines, and all 10 exactly when the network has an address and the link is up |
| LegacyMenu.Draw | src/managers/displayManager.cpp:331-355 | drawing a screen records its item count (and the info screens' line counts) and changes nothing else in the menu |
| LegacyMenu.Exit | src/managers/displayManager.cpp:579-585 | leaving the menu returns to the normal display at the top of the main screen with the menu timer stopped |
| LegacyMenu.StartTimeout | src/managers/displayManager.cpp:406-410 | starting the menu timer restarts it from now, so it has not fired yet, and touches nothing else |
| LegacyMenu.CheckTimeout | src/managers/displayManager.cpp:62-82 | outside an OTA update, a fired timer in menu mode resets the menu to the normal display with every scroll at the top; otherwise nothing changes |
| LegacyMenu.MainUp | src/managers/displayManager.cpp:443-470 | Up on the main menu moves the selection up one, pulling the window with it, or wraps to the last item with the window at the bottom; a selection inside its window stays inside it |
| LegacyMenu.WindowDown | src/managers/displayManager.cpp:504-543 | Down on a windowed menu moves the selection down one, pushing the window, or wraps both to the top; the selection stays in range and inside its window |
| LegacyMenu.PlainUp | src/managers/displayManager.cpp:472-483 | Up on an unwindowed menu moves up one or wraps to the last item |
| LegacyMenu.PlainDown | src/managers/displayManager.cpp:545-556 | Down on an unwindowed menu moves down one or wraps to the first item |
| LegacyMenu.ScrollUp | src/managers/displayManager.cpp:427-442 | Up on an information screen scrolls up one line unless already at the top |
| LegacyMenu.ScrollDown | src/managers/displayManager.cpp:486-503 | Down on an information screen scrolls one line only while lines remain below the visible window, never past the last line |
| LegacyMenu.HandleKey | src/managers/displayManager.cpp:412-671 | every key restarts the menu timer unless it stops it on exit; keys other than U, D, S and M change nothing else; a key either keeps the display mode or returns to the normal display |
| LegacyMenu.EnterSound | src/coreApplication.cpp:439-447 | entering the menu from the normal display and drawing it gives a menu whose selection is a drawn item inside its window |
| LegacyMenu.KeyThenDrawSound | src/managers/displayManager.cpp:412-671 | from a drawn menu, any key followed by a redraw either leaves the menu at the top of the main screen or gives a menu whose selection is again a drawn item inside its window |
| LegacyMenu.SelectThenBack | src/managers/displayManager.cpp:558-662 | Select on a main-menu entry followed by Back returns to the main screen with the same entry selected |
| LegacyMenu.InfoScrollBounded | src/managers/displayManager.cpp:435-502 | on the device information screen no key scrolls above the first line or past the last one |
| LegacyMenu.UpBeforeFirstDraw | src/managers/displayManager.cpp:443-469 | a key pressed before any screen is drawn sees an item count of 0: Up selects item -1, which Select then ignores |
| LegacyMenu.StaleCountOverruns | src/managers/displayManager.cpp:524-543 | keys pressed between a screen change and its first draw use the previous screen's count, so three Downs in settings select item 3 of 2 |
| LegacyMenu.PowerInit | src/managers/displayManager.cpp:34-51 | the display starts neither dimmed nor off, its power timers not yet started |
| LegacyMenu.Poll | src/managers/displayManager.cpp:1438-1448 | polling a countdown reports whether it has fired and restarts it from now exactly when it has |
| LegacyMenu.CheckPower | src/managers/displayManager.cpp:1424-1457 | the first check starts both power timers; an off display stays off; turning off clears the dimmed flag; the dimmed/off state stays consistent |
| LegacyMenu.Wake | src/managers/displayManager.cpp:1396-1417 | waking reports true exactly when the display was off or dimmed and leaves it fully on, changing nothing else |
| LegacyMenu.Activity | src/managers/displayManager.cpp:1386-1394 | any activity restarts both power timers from now, so neither has fired, and wakes the display, reporting whether it was dark |
| LegacyMenu.WakeOnce | src/managers/displayManager.cpp:1396-1417 | waking twice is the same as waking once, and the second wake reports that nothing changed |
| LegacyMenu.PowerOnlyDarkens | src/managers/displayManager.cpp:1424-1457 | a power check on a dimmed or off display never brightens it |
| LegacyMenu.UpdateDisplay | src/managers/displayManager.cpp:62-139 | during an OTA update the display task does nothing; otherwise it runs the power check and, in menu mode, the drawn menu's count matches its screen |
| Keypad.Init | src/coreApplication.cpp:39-45 | the keypad starts with no combo held, Cancel chosen, no release to ignore, no reset requested and not restarting |
| Keypad.ConfirmRelease | src/coreApplication.cpp:374-426 | in the reset dialog the first S or M release after it opened is swallowed; L/U choose Cancel, R/D choose Confirm; S or M close the dialog; a reset is requested exactly when S is released with Confirm chosen; the menu itself is untouched |
| Keypad.Navigate | src/coreApplication.cpp:377-402 | in the dialog a release of S or M still to be ignored only clears its flag, L/U choose Cancel and R/D choose Confirm; other keys that do not close the dialog change nothing, and the menu and reset request are never touched |
| Keypad.CloseDialog | src/coreApplication.cpp:403-423 | Select and Menu leave the dialog for the normal display; only Select with Confirm chosen requests and performs the reset (showing its labels, restarting exactly when the flash has a bootable factory image), every other close shows "Started" again and never restarts; any other key changes nothing |
| Keypad.ResetLabels | src/coreApplication.cpp:656-689 | a reset first shows "Factory Reset"; a missing factory partition then shows "Factory Error", a refused boot switch "Boot Error", each followed by "Started"; a successful switch shows "Restarting..." instead |
| Keypad.PerformFactoryReset | src/coreApplication.cpp:656-689 | the status label passes through the reset's labels in order; the device restarts exactly when the factory partition exists and is accepted as boot partition; on either failure it is left showing "Started", on success "Restarting..."; nothing else of the keypad changes |
| Keypad.NormalRelease | src/coreApplication.cpp:428-485 | outside the dialog M opens the menu from the normal display (starting its timer), S/M/D/U/R go to the menu while it is shown, and every other release changes nothing; the dialog is never opened by a release |
| Keypad.OnKeyRelease | src/coreApplication.cpp:370-486 | a release requests a reset only as the un-ignored S of the dialog with Confirm chosen, and in the dialog the menu state is kept |
| Keypad.Releases | src/coreApplication.cpp:299-330 | handling a scan's releases in order never touches the combo tracking |
| Keypad.TrackCombo | src/coreApplication.cpp:341-360 | outside the dialog, S and M both active start the hold timer once (a repeated scan keeps the first start), and losing either cancels it; in the dialog nothing is tracked |
| Keypad.UpdateKeyPad | src/coreApplication.cpp:290-362 | a scan in which no key changed state changes nothing |
| Keypad.CheckFactoryResetCombo | src/coreApplication.cpp:632-654 | a combo held for at least five seconds opens the confirmation dialog on Cancel, ignoring the next S and M releases and showing "Confirm reset?"; before that nothing changes; it never requests the reset itself |
| Keypad.ReleasesNeedDialog | src/coreApplication.cpp:370-426 | a sequence of releases that newly requests a reset started in the confirmation dialog |
| Keypad.ResetOnlyFromDialog | src/coreApplication.cpp:131-142 | outside the dialog no pass of the core loop requests a factory reset: it needs the five-second hold first |
| Keypad.ResetGesture | src/coreApplication.cpp:290-454 | holding S and M five seconds, releasing both, then Down and Select requests the reset; before Select the dialog is up with no reset requested; afterwards the device restarts exactly when the flash has a bootable factory image, and otherwise shows "Started" |
| Keypad.CancelKeepsDevice | src/coreApplication.cpp:411-418 | releasing S with Cancel chosen closes the dialog without requesting a reset and keeps the menu's screen |
| DeviceIdentity.HexDigit | src/coreApplication.cpp:176-179 | a value below 16 is written as one upper-case hexadecimal digit |
| DeviceIdentity.HexDigitValue | src/coreApplication.cpp:176-179 | the hexadecimal digit of a value reads back as that value |
| DeviceIdentity.MacString | src/coreApplication.cpp:174-186 | six bytes give a 17-character text with colons at positions 2, 5, 8, 11 and 14 |
| DeviceIdentity.ParseMac | src/coreApplication.cpp:174-186 | a colon-separated MAC text reads back into six bytes |
| DeviceIdentity.MacShapedString | src/coreApplication.cpp:174-186 | the formatted MAC has the "XX:XX:XX:XX:XX:XX" shape |
| DeviceIdentity.MacRoundTrip | src/coreApplication.cpp:174-186 | the formatted MAC reads back as exactly the bytes it was made from |
| DeviceIdentity.GetMacAddress | src/coreApplication.cpp:163-188 | a failed factory-MAC read gives "00:00:00:00:00:00"; a successful one gives a MAC-shaped text that reads back as the six bytes read |
| DeviceIdentity.ZeroMacLooksFailed | src/coreApplication.cpp:168-172 | a MAC of six zero bytes formats to the failure text, so it cannot be told from a failed read |
| DeviceIdentity.ModulusIs36To8 | src/coreApplication.cpp:202 | the modulus 2821109907456 is 36 to the eighth |
| DeviceIdentity.Digit36 | src/coreApplication.cpp:203 | a value below 36 is written as the matching character of the base-36 alphabet |
| DeviceIdentity.Value36 | src/coreApplication.cpp:203 | a base-36 character reads back as the value whose digit it is |
| DeviceIdentity.Base36 | src/coreApplication.cpp:235-243 | the base-36 text of a value has the requested length and only base-36 characters |
| DeviceIdentity.Base36RoundTrip | src/coreApplication.cpp:235-243 | a value below 36^n written in n base-36 digits reads back as the value |
| DeviceIdentity.ModStep | src/coreApplication.cpp:229-233 | reducing after each shifted byte gives the same remainder as reducing the whole number once |
| DeviceIdentity.FoldDigest | src/coreApplication.cpp:228-233 | the byte fold yields the digest, read as one big-endian number, modulo 36^8, and never overflows 64 bits |
| DeviceIdentity.GetSerialNumber | src/coreApplication.cpp:190-246 | an unread MAC gives "00000000"; a missing digest gives "ERRMD000" and a failed one "ERRMD001"; otherwise eight base-36 digits whose value is the SHA-256 of "DL1000" plus the MAC text, modulo 36^8 |
| Leds.Code | src/ledManager.cpp:25-100 | every named colour the firmware uses has byte-sized channels |
| Leds.Scale | src/ledManager.cpp:153-169 | the 0..255 to 0..128 rescale truncates: the result is the largest value whose 255-fold does not exceed 128 times the input, so a byte never exceeds 128 |
| Leds.ScaleMonotone | src/ledManager.cpp:165-169 | a brighter input never gives a dimmer scaled level |
| Leds.ScaleRgb | src/ledManager.cpp:206-213 | a scaled colour has every channel at most 128 |
| Leds.SystemColour | src/ledManager.cpp:25-39 | the system LED is green exactly when started, blue exactly when updating, red exactly after a failed update |
| Leds.NetworkColour | src/ledManager.cpp:41-101 | the network LED is green exactly when an address is held, the internet is reachable and the services are connected; without an address it shows the link state; without reachability violet or cyan |
| Leds.NetworkColourLayers | src/ledManager.cpp:44-101 | reachability and services cannot change the network LED while no address is held, nor the services while offline |
| Leds.Init | src/ledManager.cpp:111-120 | a new strip is off, neither pulsing nor cycling, with its level set from the maximum brightness |
| Leds.InitHalfBrightness | src/ledManager.cpp:117-120 | the initial level is 64, half the maximum, because 128 is rescaled as if it were on the 0..255 scale |
| Leds.SetLedColour | src/ledManager.cpp:206-215 | one LED's stored and shown colour become the scaled colour; the other LEDs and the on/off states are untouched |
| Leds.Off | src/ledManager.cpp:136-141 | off blacks every pixel and marks the strip off but keeps the stored colours |
| Leds.On | src/ledManager.cpp:130-134 | on marks the strip on and changes nothing else |
| Leds.Toggle | src/ledManager.cpp:122-128 | toggle inverts the on flag, switching off a lit strip and on a dark one |
| Leds.ToggleTwiceDark | src/ledManager.cpp:122-141 | toggling a lit strip twice leaves it on with every pixel black, its stored colours kept |
| Leds.TogglePulsing | src/ledManager.cpp:143-146 | toggling the pulse flips only the pulse flag |
| Leds.ToggleRainbow | src/ledManager.cpp:148-151 | toggling the rainbow flips only the rainbow flag |
| Leds.SetBrightness | src/ledManager.cpp:165-169 | the level is the truncated rescale of the requested brightness, at most 128 for a byte, and nothing else changes |
| Leds.SetColour | src/ledManager.cpp:153-163 | every pixel shows the scaled colour and the rainbow stops; the stored per-LED colours and the on flag stay |
| Leds.SetLedState | src/ledManager.cpp:217-232 | an index outside the strip is ignored; otherwise that LED shows its stored colour when on and black when off, and the others stay |
| Leds.OffOnRestores | src/ledManager.cpp:217-232 | switching one LED off and on again shows its stored colour |
| Leds.UpdateLeds | src/ledManager.cpp:15-109 | only a changed status repaints the LEDs: the system and network LEDs get the colours of the current status, the middle LED stays, and the change is acknowledged |
| Leds.UpdateLedsOnce | src/ledManager.cpp:15-109 | a second pass with no new change leaves the status and the LEDs as they are |
| Leds.Update | src/ledManager.cpp:171-204 | while on, the pulse level moves one step toward its target end and turns exactly at 0 and 128; in rainbow mode the index advances, every pixel k is repainted with hue k times the advanced index (modulo 256), and the index wraps at 255 after the fill; outside rainbow mode the pixels stay; while off nothing changes; the stored colours and on/off slots are never touched |
| Leds.PulseStep | src/ledManager.cpp:175-190 | in pulse mode the level moves one step toward the end it is heading for, the strip brightness follows it rescaled, and the direction turns exactly at 0 and 128; nothing else changes |
| Leds.RainbowStep | src/ledManager.cpp:193-201 | in rainbow mode the index advances, pixel k is repainted with hue k times the advanced index modulo 256, and the index wraps at 255 after the fill; nothing else changes |
| Leds.StripRainbow | src/ledManager.cpp:197 | the rainbow fill of the three-LED strip from hue 0 gives pixel k hue k times the step, modulo 256 |
| Leds.FillRainbowHues | src/ledManager.cpp:197 | the pixel-by-pixel rainbow fill, each pixel adding the hue step in a byte, gives pixel k the hue start + k * step modulo 256 |
| Leds.Run | src/ledManager.cpp:171-204 | any number of update ticks keeps the pulse level in 0..128 and the rainbow index below 255 |
| Leds.PulseClimbs | src/ledManager.cpp:175-183 | going up, n ticks raise the level by n and the direction turns exactly when the top is reached |
| Crc16.Join | exclude/modbusMonitor.cpp:609 | two bytes, low first, join into the 16-bit value whose low and high bytes they are |
| Crc16.SplitJoin | exclude/modbusMonitor.cpp:191-193 | a CRC split into its low and high bytes joins back into the same CRC |
| Crc16.Trailer | exclude/modbusMonitor.cpp:191-193 | the appended trailer is two bytes that, read low byte first, give the message's CRC |
| Crc16.CalculateCrc | exclude/modbusMonitor.cpp:623-642 | the byte loop with its inner eight-step shift computes the CRC-16/MODBUS of the message |
| Crc16.ModbusCrc | exclude/modbusMonitor.cpp:726-738 | the conditional-expression variant computes the same CRC-16/MODBUS, so both routines agree on every message |
| Crc16.ValidateCrc | exclude/modbusMonitor.cpp:607-621 | a frame validates exactly when its last two bytes are the trailer of everything before them |
| Crc16.AppendValidates | exclude/modbusMonitor.cpp:607-642 | any message followed by its trailer validates, and the body comes back unchanged as its prefix |
| Crc16.ValidatingSplits | exclude/modbusMonitor.cpp:607-621 | every validating frame is its body followed by the body's trailer |
| Crc16.Residue | exclude/modbusMonitor.cpp:623-642 | running the register over a message's own trailer leaves zero |
| Crc16.CrcStep | exclude/modbusMonitor.cpp:628-639 | the CRC of a message extended by one byte is eight register shifts of the old CRC with the byte folded in |
| Crc16.EightShifts | exclude/modbusMonitor.cpp:632-638 | the eight-step inner loop is eight single shifts |
| ModbusMonitor.PageByteCount | exclude/modbusMonitor.h:16-18 | the byte count a page's response announces is twice the number of registers its poll asks for |
| ModbusMonitor.PageIndex | exclude/modbusMonitor.cpp:42-44 | each known page has a position in the pattern table holding that page |
| ModbusMonitor.Init | exclude/modbusMonitor.cpp:32-44 | the sniffer starts waiting for a start byte, inactive, with an empty buffer, the first target (page 4) to poll next and nothing parsed |
| ModbusMonitor.Reset | exclude/modbusMonitor.cpp:300-306 | resetting returns to waiting for a start byte with an empty buffer and no page, keeping the status, the poll position and what was parsed |
| ModbusMonitor.PollFrame | exclude/modbusMonitor.cpp:181-194 | a poll is 8 bytes: slave 0x0A, function 0x03, start register high then low, count 0 then the register count, and it validates under the CRC check |
| ModbusMonitor.SendNextPoll | exclude/modbusMonitor.cpp:172-216 | sending resets the recogniser, transmits the current target's poll and moves to the next target, wrapping after the third |
| ModbusMonitor.PollCycle | exclude/modbusMonitor.cpp:180-181 | three polls from the start send pages 4, 5 and 7 in turn and return to the first target |
| ModbusMonitor.PollsArePatterns | exclude/modbusMonitor.cpp:26-30 | each built poll equals, byte for byte, the header pattern the recogniser listens for |
| ModbusMonitor.MatchPageHeader | exclude/modbusMonitor.cpp:308-343 | an eight-byte header gives 4, 5 or 7 exactly when it is that page's poll pattern, and 0 exactly when it is none of them |
| ModbusMonitor.GetPageByteSize | exclude/modbusMonitor.cpp:345-364 | a known page's response length is its byte count plus five (0x87, 0x09, 0x31); an unknown page gives 0 |
| ModbusMonitor.ValidateFrame | exclude/modbusMonitor.cpp:366-458 | a frame is rejected for its slave ID, then its function code, then its byte count, then its CRC, each exactly when the earlier checks passed and that one fails; it is accepted exactly when all four pass |
| ModbusMonitor.Response | exclude/modbusMonitor.cpp:13-18 | the controller's reply to a page has exactly the length the recogniser waits for |
| ModbusMonitor.ResponseAccepted | exclude/modbusMonitor.cpp:366-458 | a well-formed reply to the page just selected is accepted |
| ModbusMonitor.AcceptedIsResponse | exclude/modbusMonitor.cpp:366-458 | every accepted frame of the page's length is the well-formed reply carrying its own data bytes |
| ModbusMonitor.Receive | exclude/modbusMonitor.cpp:218-298 | only 0x0A opens a header; eight header bytes either select a page or reset; exactly the expected number of data bytes completes a frame, which is parsed with status valid exactly when it validates and otherwise counted invalid; the buffer stays far below its 262 bytes |
| ModbusMonitor.Feed | exclude/modbusMonitor.cpp:218-298 | any byte stream keeps the recogniser consistent, only ever hands validating frames to the parser, and leaves the poll position alone |
| ModbusMonitor.QuietUntilFrameEnds | exclude/modbusMonitor.cpp:220-257 | bytes that do not complete a frame change neither the status nor what was parsed |
| ModbusMonitor.HeaderFill | exclude/modbusMonitor.cpp:233-257 | completing a header enters the page's data phase when it is a known poll and resets otherwise |
| ModbusMonitor.DataFill | exclude/modbusMonitor.cpp:259-298 | completing a response returns to the start and parses the frame exactly when it validates |
| ModbusMonitor.FeedAppend | exclude/modbusMonitor.cpp:218-298 | feeding two streams one after the other is feeding their concatenation |
| ModbusMonitor.PollSelectsPage | exclude/modbusMonitor.cpp:220-257 | a poll heard from the start selects its page and waits for that page's length |
| ModbusMonitor.PollThenResponse | exclude/modbusMonitor.cpp:218-306 | a poll followed by the controller's well-formed reply reaches the parser and sets the status to valid data |
| ModbusMonitor.ResponseAloneIsNotAHeader | exclude/modbusMonitor.cpp:308-343 | a page-4 or page-7 reply heard without its poll is never taken for a poll |
| ModbusMonitor.Page5ResponseMimicsPoll4 | exclude/modbusMonitor.cpp:308-343 | a page-5 reply carrying 00 00 41 85 begins with the page-4 poll, so a recogniser joining between a page-5 poll and its reply mistakes it for that poll |
| ModbusMonitor.ConvertTo32Bits | exclude/modbusMonitor.cpp:644-649 | four bytes, most significant first, give a 32-bit signed value that is negative exactly when the first byte is 0x80 or more, and splits back into the same four bytes |
| ModbusMonitor.SplitUnsigned | exclude/modbusMonitor.cpp:646 | the unsigned 32-bit value of four bytes fits in 32 bits and each byte can be read back from its place |
| ModbusMonitor.Split32 | exclude/modbusMonitor.cpp:646 | a 32-bit value splits into four bytes |
| ModbusService.PageSize | include/modbusData.h:20-23 | every page has at least one register: 66, 2, 34 and 2 for pages 4 to 7 |
| ModbusService.PageAddress | src/services/modbusMonitorService.cpp:186-204 | the first register requested for a page is 256 times the page number, plus 10 on page 5 and 6 on page 7 |
| ModbusService.AddressNamesPage | include/modbusData.h:25-28 | the address requested for a page lies in that page's 256-register block |
| ModbusService.NextPage | src/services/modbusMonitorService.cpp:218-223 | the page after a page in 4..7 is again in 4..7, and it is 4 exactly after page 7 |
| ModbusService.Init | src/services/modbusMonitorService.cpp:9-36 | a new service is stopped and inactive, without a client, with page 4 and token 1 next, nothing sent and every page zeroed and invalid |
| ModbusService.ZeroPages | src/services/modbusMonitorService.cpp:32-33 | the zeroed store holds each page's number of registers, all 0 and none valid |
| ModbusService.Begin | src/services/modbusMonitorService.cpp:54-69 | with a client the service becomes CONNECTED and the monitor INACTIVE; without one it is in ERROR; stored pages and the polling position are kept |
| ModbusService.Stop | src/services/modbusMonitorService.cpp:98-104 | stop leaves the service STOPPED, without a client and INACTIVE, keeping stored pages and the polling position |
| ModbusService.StartAfterStop | src/services/modbusMonitorService.cpp:98-109 | start after stop restores the client exactly when it initialises, is CONNECTED exactly then, and keeps pages, counters and polling position |
| ModbusService.RequestNextPage | src/services/modbusMonitorService.cpp:176-229 | without a client nothing happens; an out-of-range page is put back to 4 with nothing sent; otherwise a token is used up, and only a queued request is recorded and moves the current page on |
| ModbusService.PollingRound | src/services/modbusMonitorService.cpp:186-223 | four queued requests from page 4 ask for (1024, 66), (1290, 2), (1536, 34) and (1798, 2) with consecutive tokens and return to page 4 |
| ModbusService.RefusedRequestRetriesPage | src/services/modbusMonitorService.cpp:213-228 | a request the client refuses is asked again for the same page next time |
| ModbusService.Decode | src/services/modbusMonitorService.cpp:261-265 | a response yields one 16-bit register per whole byte pair after its three header bytes |
| ModbusService.Encode | src/services/modbusMonitorService.cpp:264 | registers are written as big-endian byte pairs, two bytes per register |
| ModbusService.DecodeEncode | src/services/modbusMonitorService.cpp:261-265 | decoding a header followed by encoded registers gives back exactly those registers |
| ModbusService.DecodeEncodeAt | src/services/modbusMonitorService.cpp:264 | each decoded register equals the one that was encoded at its position |
| ModbusService.DecodeAt | src/services/modbusMonitorService.cpp:264 | register i is byte 3+2i shifted left by eight joined with byte 3+2i+1 |
| ModbusService.ProcessPageResponse | src/services/modbusMonitorService.cpp:231-275 | the page's leading registers become the decoded values and the rest keep theirs, the page becomes valid, the update time is taken, and no other page changes |
| ModbusService.StoredRegisterCount | src/services/modbusMonitorService.cpp:261-262 | the copy writes one register per whole byte pair after the header, whatever the page's size |
| ModbusService.ClassifyAsWritten | src/services/modbusMonitorService.cpp:471-480 | the page chosen from the byte count is always 4..7, and any page but the default 4 has exactly that byte count |
| ModbusService.Page7NeverFiled | src/services/modbusMonitorService.cpp:471-480 | no byte count is ever filed as page 7; a 4-byte response goes to page 5 |
| ModbusService.UnmatchedCountOverrunsPage4 | src/services/modbusMonitorService.cpp:258-265 | a response with byte count 250 is filed as page 4 and writes 125 registers into a page of 66 |
| ModbusService.RequestedPage | src/services/modbusMonitorService.cpp:211 | the page found for a token is the page of a recorded request with that token; none is found exactly when no request carries it |
| ModbusService.HandleDataAsWritten | src/services/modbusMonitorService.cpp:449-485 | every response counts as received and valid and marks activity; without the token, one of at least three bytes from the configured slave reading registers is copied into the page its byte count names (page 4 when none matches) and marks that page valid, other pages untouched; anything else stores nothing |
| ModbusService.Page7ReplyDiverges | src/services/modbusMonitorService.cpp:471-482 | the reply to a page-7 request lands in page 5 with page 7 untouched as written, and in page 7 under the corrected handler |
| ModbusService.ShortReplyDiverges | src/services/modbusMonitorService.cpp:466-482 | a reply whose byte count names no page still marks page 4 valid as written, while the corrected handler stores nothing |
| ModbusService.HandleData | src/services/modbusMonitorService.cpp:449-485 | the corrected handler of the Findings: every response counts as received and valid and marks activity, as in the source; registers are stored only for the configured slave and a register read, under the page of the request the token answers, and only when its byte count and length are that page's |
| ModbusService.Page7Stored | src/services/modbusMonitorService.cpp:471-482 | the answer to a page-7 request is stored as page 7 with its two registers |
| ModbusService.StoredFitsPage | src/services/modbusMonitorService.cpp:258-265 | a stored response writes exactly as many registers as its page holds |
| ModbusService.HandleError | src/services/modbusMonitorService.cpp:487-494 | an error counts as received and invalid, marks activity and leaves the data and status alone |
| ModbusService.UpdateStatus | src/services/modbusMonitorService.cpp:277-324 | the status is VALID exactly when there was traffic in the last 15 s and some page holds data, ACTIVE exactly when there was traffic and none does, INACTIVE otherwise; data older than 30 s without traffic loses its valid flags, and otherwise the pages are untouched; registers never change |
| ModbusService.Loop | src/services/modbusMonitorService.cpp:71-96 | nothing happens unless CONNECTED with a client; then the status is refreshed once a second and, every ten seconds, the (possibly refreshed) service makes its next page request, stamped now; the frame counters keep received = valid + invalid |
| ModbusService.DueLoopRequestsPage | src/services/modbusMonitorService.cpp:71-96 | a connected loop whose request is due sends the current page's request with the next token and moves to the next page, refreshed status or not |

## Left out

- OTA flashing (`handleOTAUpdate`, `publishOTAStatus`): it streams chunks into flash with the Update library. The model stops at deciding to request an update.
- Rendering: `updateDisplayNormal`, every `draw*` function, `MenuManager::draw`, `truncateTextToWidth` (font metrics) and the menu's redraw callback. Only the item and line counts a draw records are modelled.
- FastLED output and the `show` calls: the model keeps the pixel values the strip is given. The library's HSV to RGB conversion used by the rainbow fill is the `Wheel` parameter of `Leds.Update`; only the hue each pixel gets is modelled. The firmware itself never calls `LEDManager::update` or turns the rainbow or pulse modes on: `initLEDs` (`src/coreApplication.cpp:281-286`) uses only `init`, `off` and `setLEDColour`.
- NVS settings (`loadSettings`, `saveSettings`): toggling a logging flag is modelled; persisting it is not.
- The SHA-256 computation and the efuse MAC read: they are parameters. The partition lookup and boot switch of `performFactoryReset` are the device's fixed `FlashLayout`; `esp_restart` is the `restarting` flag, and the three- and two-second pauses between labels take no time.
- Floating-point decoding: `parseRegistersPage4/5/7`, `getDataRecord`, the generator power/voltage getters and the TagoIO JSON payloads. Publications record only what they report.
- FreeRTOS tasks, queues, semaphores and delays: each driver, session or client callback is one atomic step between ticks. The link monitor's waits are modelled as the later time at which its tick resumes, with the driver events of the wait taken at that moment rather than when they arrived; the other short waits (around MQTT teardown, in the reachability probe and in the factory reset) take no time in the model. `TaskModBusMonitor`'s queue and `updateModbusActivityMonitor` are not modelled.
- The logging manager, the serial debug menu and `runTestCodeBlock`.
- The eModbus client, HardwareSerial and RS-485 pin switching.
- The configuration setters of the Modbus monitor service (baud rate, slave ID, output flags): the slave ID is a field with its default.
- The router keepalive over UDP and the echo implementation.
- The 32-bit wrap of `millis()` and the unsigned subtractions built on it: time is unbounded and `Since` clamps at zero.
- The 32-bit wrap of the Modbus service's `nextToken`: tokens are unbounded.
- `atol` overflow on very long version components: components are read as unbounded numbers.
- BlockNot timers: approximated as a start time, a duration and a running flag that fire once the duration has passed.
- `sendConnectionStatus(false)`: never called by the firmware, so only the retained "connected" publication is modelled.
- The superseded copies under `src/` and `exclude/` other than `exclude/modbusMonitor.cpp`, and the `example/` sample, are not part of this model.
- Leds.SetLedColour: requires an index below 3, because the firmware writes past its three-element arrays for any other index and that memory is not modelled.
- ModbusService.ProcessPageResponse: requires the response to fit its page. The as-written copy writes past the page's storage for longer responses, which `StoredRegisterCount` and the Findings describe.
- ModbusService.HandleDataAsWritten: requires that the copy fits the page its byte count names; a longer response would be written past the page's storage, which the model cannot represent (`UnmatchedCountOverrunsPage4` exhibits such a response).
- ModbusMonitor.Receive: the overrun branches of `processModbusSerial` are not modelled as branches. These are a header at the buffer's limit, data beyond the expected length, and data at the buffer's limit. The recogniser's invariant shows they are never reached, because a frame ends at its expected length (at most 135 bytes), far below the 262-byte buffer.

## Findings

| source | as written | input that shows it | evidently intended | confidence | as-written member | corrected member |
|---|---|---|---|---|---|---|
| src/services/modbusMonitorService.cpp:471-480 | the page of a response is chosen by its byte count, first match wins, and pages 5 and 7 both have two registers | any page-7 reply: byte count 4 is filed as page 5, so page 7 is never stored and its data lands in page 5 | the page the request asked for (the token names the request) | high; not executed | ModbusService.HandleDataAsWritten (with ModbusService.Page7NeverFiled and ModbusService.Page7ReplyDiverges) | ModbusService.HandleData (with ModbusService.Page7Stored) |
| src/services/modbusMonitorService.cpp:258-265 | an unmatched byte count defaults to page 4, and the copy writes (size − 3) / 2 registers whatever the page holds | a response with byte count 250 and 250 data bytes writes 125 registers into page 4's 66 | store only a response whose byte count and length are the requested page's | medium; not executed | ModbusService.HandleDataAsWritten (with ModbusService.UnmatchedCountOverrunsPage4 and ModbusService.ShortReplyDiverges) | ModbusService.HandleData (with ModbusService.StoredFitsPage) |
