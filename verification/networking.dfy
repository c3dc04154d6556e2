/**
 The link monitor (`NetworkingManager`): Ethernet driver events are applied as
 facts, a per-tick timeout runs from the moment the link (re)entered STARTED,
 and a retry counter escalates a soft retry into a full interface restart.
 The driver itself is foreign: its events are inputs, and events that arrive
 while a tick waits for the interface to come back are passed to the tick.
 */
module Networking {
  import opened Types
  import ViewModel

  /** Milliseconds to wait for an address after (re)starting. */
  const ConnectTimeoutMs: nat := 30000
  /** Timeouts in a row that escalate a soft retry into a full restart. */
  const MaxRetryCount: nat := 3
  /** The wait before a soft retry or a restart of the interface. */
  const RetryDelayMs: nat := 1000
  /** The wait inside `restartEthernet` between shutdown and bring-up. */
  const EthernetRestartDelayMs: nat := 1000

  /** Driver events the monitor reacts to; every other event is `OtherEvent`. */
  datatype Event = EthStart | EthConnected | EthGotIp | EthLostIp | EthDisconnected | EthStop | OtherEvent

  datatype Link = Link(
    state: NetworkStatus,
    connectStartTime: nat,
    lastStateChange: nat,
    retryCount: nat,
    callback: Option<Handler>)

  /** The link monitor together with the read model it writes and the
      notifications its callback slot has delivered. */
  datatype World = World(link: Link, vm: ViewModel.Model, notices: seq<Notice<NetworkStatus>>)

  /** The counter stays below the escalation threshold, and the read model
      shows the monitor's state. */
  predicate Valid(w: World) {
    w.link.retryCount < MaxRetryCount && w.vm.network == w.link.state
  }

  function Init(vm: ViewModel.Model): (w: World)
    requires vm.network == NetStopped
    ensures w.link.state == NetStopped && w.link.retryCount == 0
    ensures w.link.connectStartTime == 0 && w.link.callback.None? && w.notices == []
    ensures Valid(w)
  {
    World(Link(NetStopped, 0, 0, 0, None), vm, [])
  }

  /** `hasIP`: the enumerator of the state is at least CONNECTED_IP. */
  function HasIp(s: NetworkStatus): (r: bool)
    ensures r <==> s == NetConnectedIp
  {
    NetOrdinal(s) >= NetOrdinal(NetConnectedIp)
  }

  /** `isConnected`: the enumerator of the state is at least CONNECTED. */
  function IsConnected(s: NetworkStatus): (r: bool)
    ensures r <==> s == NetConnected || s == NetConnectedIp
  {
    NetOrdinal(s) >= NetOrdinal(NetConnected)
  }

  /** `setState`: a change is stored with its time, pushed to the read model
      and delivered once to the callback; entering STARTED restarts the
      connect timer. An equal state changes nothing. */
  function SetState(w: World, s: NetworkStatus, now: nat): (r: World)
    ensures r.link.state == s
    ensures s == w.link.state ==> r == w
    ensures s != w.link.state ==>
              && r.link.lastStateChange == now
              && r.vm == ViewModel.SetNetworkStatus(w.vm, s)
              && r.notices == w.notices + Deliver(w.link.callback, s)
    ensures s != w.link.state && s == NetStarted ==> r.link.connectStartTime == now
    ensures s != NetStarted ==> r.link.connectStartTime == w.link.connectStartTime
    ensures r.link.retryCount == w.link.retryCount && r.link.callback == w.link.callback
    ensures |w.notices| <= |r.notices| <= |w.notices| + 1
    ensures Valid(w) ==> Valid(r)
  {
    if s == w.link.state then w
    else
      var start := if s == NetStarted then now else w.link.connectStartTime;
      World(w.link.(state := s, lastStateChange := now, connectStartTime := start),
            ViewModel.SetNetworkStatus(w.vm, s),
            w.notices + Deliver(w.link.callback, s))
  }

  /** The state each driver event asserts. */
  function Target(e: Event): Option<NetworkStatus> {
    match e
    case EthStart => Some(NetStarted)
    case EthConnected => Some(NetConnected)
    case EthGotIp => Some(NetConnectedIp)
    case EthLostIp => Some(NetLostIp)
    case EthDisconnected => Some(NetDisconnected)
    case EthStop => Some(NetStopped)
    case OtherEvent => None
  }

  /** `onNetworkEvent`. Cable-connected and got-address also zero the retry
      counter and restart the connect timer. */
  function OnEvent(w: World, e: Event, now: nat): (r: World)
    ensures Target(e).None? ==> r == w
    ensures Target(e).Some? ==> r.link.state == Target(e).value
    ensures e == EthConnected || e == EthGotIp ==> r.link.retryCount == 0 && r.link.connectStartTime == now
    ensures e != EthConnected && e != EthGotIp ==> r.link.retryCount == w.link.retryCount
    ensures r.link.callback == w.link.callback
    ensures |r.notices| <= |w.notices| + 1
    ensures Valid(w) ==> Valid(r)
  {
    match e
    case EthStart => SetState(w, NetStarted, now)
    case EthConnected =>
      var w1 := SetState(w.(link := w.link.(retryCount := 0)), NetConnected, now);
      w1.(link := w1.link.(connectStartTime := now))
    case EthGotIp =>
      SetState(w.(link := w.link.(retryCount := 0, connectStartTime := now)), NetConnectedIp, now)
    case EthLostIp => SetState(w, NetLostIp, now)
    case EthDisconnected => SetState(w, NetDisconnected, now)
    case EthStop => SetState(w, NetStopped, now)
    case OtherEvent => w
  }

  /** Driver events delivered one after another. */
  function ApplyEvents(w: World, es: seq<Event>, now: nat): (r: World)
    ensures es == [] ==> r == w
    ensures r.link.callback == w.link.callback
    ensures Valid(w) ==> Valid(r)
    decreases |es|
  {
    if es == [] then w else ApplyEvents(OnEvent(w, es[0], now), es[1..], now)
  }

  /** Delivering two batches is delivering their concatenation. */
  lemma {:induction false} ApplyEventsAppend(w: World, a: seq<Event>, b: seq<Event>, now: nat)
    ensures ApplyEvents(w, a + b, now) == ApplyEvents(ApplyEvents(w, a, now), b, now)
    decreases |a|
  {
    if a == [] {
      assert a + b == b;
    } else {
      assert (a + b)[1..] == a[1..] + b;
      ApplyEventsAppend(OnEvent(w, a[0], now), a[1..], b, now);
    }
  }

  /** `begin`: the monitor enters STARTED; bringing up the driver is foreign. */
  function Begin(w: World, now: nat): (r: World)
    ensures r.link.state == NetStarted
    ensures w.link.state != NetStarted ==> r.link.connectStartTime == now
    ensures Valid(w) ==> Valid(r)
  {
    SetState(w, NetStarted, now)
  }

  /** `restart`: the interface is restarted, which waits
      `EthernetRestartDelayMs`; the events in `raced` arrive during that wait
      and are taken when it ends. The monitor then enters STARTED whatever
      they said, stamped at the end of the wait. */
  function Restart(w: World, now: nat, raced: seq<Event>): (r: World)
    ensures r.link.state == NetStarted
    ensures raced == [] && w.link.state != NetStarted ==> r.link.connectStartTime == now + EthernetRestartDelayMs
    ensures Valid(w) ==> Valid(r)
  {
    var resumed := now + EthernetRestartDelayMs;
    SetState(ApplyEvents(w, raced, resumed), NetStarted, resumed)
  }

  /** `setCallback`: the slot is replaced. */
  function SetCallback(w: World, cb: Option<Handler>): (r: World)
    ensures r.link.callback == cb
    ensures r.link.(callback := w.link.callback) == w.link && r.vm == w.vm && r.notices == w.notices
  {
    w.(link := w.link.(callback := cb))
  }

  /** True when a STARTED/CONNECTED link has waited longer than the timeout. */
  predicate TimedOut(w: World, now: nat) {
    (w.link.state == NetStarted || w.link.state == NetConnected)
    && Since(now, w.link.connectStartTime) > ConnectTimeoutMs
  }

  /** `loop`, one tick. A timed-out link bumps the counter; at the threshold
      the counter is zeroed and the interface fully restarted, otherwise it is
      retried softly. LOST_IP is transient: DISCONNECTED, restart, STARTED.
      The tick waits before bringing the link back: `RetryDelayMs` for a
      soft retry, that plus `EthernetRestartDelayMs` for a restart. `raced`
      are the driver events delivered during the wait, taken when it ends;
      the leaving state is stamped at `now` and STARTED when the wait ends. */
  function Loop(w: World, now: nat, raced: seq<Event>): (r: World)
    ensures Valid(w) ==> Valid(r)
    ensures r.link.callback == w.link.callback
    ensures w.link.state in {NetStopped, NetDisconnected, NetConnectedIp} ==> r == w
    ensures (w.link.state == NetStarted || w.link.state == NetConnected) && !TimedOut(w, now) ==> r == w
    ensures TimedOut(w, now) && raced == [] ==>
              && r.link.state == NetStarted
              && r.link.connectStartTime == (if w.link.retryCount + 1 >= MaxRetryCount
                                             then now + RetryDelayMs + EthernetRestartDelayMs
                                             else now + RetryDelayMs)
              && r.link.lastStateChange == r.link.connectStartTime
              && r.link.retryCount == (if w.link.retryCount + 1 >= MaxRetryCount then 0 else w.link.retryCount + 1)
              && r.notices == w.notices + Deliver(w.link.callback, NetStopped) + Deliver(w.link.callback, NetStarted)
    ensures TimedOut(w, now) && w.link.retryCount + 1 >= MaxRetryCount ==>
              r.link.state == NetStarted || r.link.state == NetConnectedIp
    ensures TimedOut(w, now) && w.link.retryCount + 1 < MaxRetryCount ==> r.link.state == NetStarted
    ensures w.link.state == NetLostIp ==> r.link.state == NetStarted
    ensures w.link.state == NetLostIp && raced == [] ==>
              && r.link.connectStartTime == now + RetryDelayMs + EthernetRestartDelayMs
              && r.link.lastStateChange == now + RetryDelayMs + EthernetRestartDelayMs
              && r.notices == w.notices + Deliver(w.link.callback, NetDisconnected) + Deliver(w.link.callback, NetStarted)
  {
    var softResume := now + RetryDelayMs;
    var fullResume := now + RetryDelayMs + EthernetRestartDelayMs;
    match w.link.state
    case NetStopped => w
    case NetDisconnected => w
    case NetConnectedIp => w
    case NetLostIp =>
      SetState(ApplyEvents(SetState(w, NetDisconnected, now), raced, fullResume), NetStarted, fullResume)
    case _ =>
      if Since(now, w.link.connectStartTime) > ConnectTimeoutMs then
        var count := w.link.retryCount + 1;
        if count >= MaxRetryCount then
          var stopped := SetState(w.(link := w.link.(retryCount := 0)), NetStopped, now);
          var back := ApplyEvents(stopped, raced, fullResume);
          if NetOrdinal(back.link.state) < NetOrdinal(NetConnectedIp) then SetState(back, NetStarted, fullResume)
          else back
        else
          var stopped := SetState(w.(link := w.link.(retryCount := count)), NetStopped, now);
          SetState(ApplyEvents(stopped, raced, softResume), NetStarted, softResume)
      else w
  }

  /** Three timeouts in a row from a fresh counter: two soft retries, then a
      full restart that zeroes the counter again. */
  lemma {:induction false} EscalationAfterThreeTimeouts(w: World, t1: nat, t2: nat, t3: nat)
    requires Valid(w) && w.link.state == NetStarted && w.link.retryCount == 0
    requires w.link.connectStartTime + ConnectTimeoutMs < t1
    requires t1 + RetryDelayMs + ConnectTimeoutMs < t2 && t2 + RetryDelayMs + ConnectTimeoutMs < t3
    ensures Loop(w, t1, []).link.retryCount == 1
    ensures Loop(Loop(w, t1, []), t2, []).link.retryCount == 2
    ensures Loop(Loop(Loop(w, t1, []), t2, []), t3, []).link.retryCount == 0
    ensures Loop(Loop(Loop(w, t1, []), t2, []), t3, []).link.state == NetStarted
  {
    var a := Loop(w, t1, []);
    assert TimedOut(w, t1);
    assert a.link.state == NetStarted && a.link.connectStartTime == t1 + RetryDelayMs;
    var b := Loop(a, t2, []);
    assert TimedOut(a, t2);
    assert b.link.connectStartTime == t2 + RetryDelayMs;
    assert TimedOut(b, t3);
  }
}
