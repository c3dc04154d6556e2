/**
 The reachability prober (`ConnectivityManager`). It is gated by the link
 having an address, runs a check cycle at most once per interval while not
 ONLINE, and a check cycle makes up to three echo attempts. The echo itself
 is foreign: `ping(i)` is the reply to attempt `i`.
 */
module Connectivity {
  import opened Types
  import ViewModel

  /** Milliseconds between check cycles while not ONLINE. */
  const PingIntervalMs: nat := 30000
  /** Echo attempts per check cycle. */
  const PingRetryCount: nat := 3
  /** Pause between two attempts, in milliseconds. */
  const RetryPauseMs: nat := 1000

  datatype Prober = Prober(
    state: ConnectivityStatus,
    lastPingTime: nat,
    lastStateChange: nat,
    callback: Option<Handler>)

  datatype World = World(prober: Prober, vm: ViewModel.Model, notices: seq<Notice<ConnectivityStatus>>)

  /** The read model shows the prober's state. */
  predicate Valid(w: World) {
    w.vm.connectivity == w.prober.state
  }

  function Init(vm: ViewModel.Model): (w: World)
    requires vm.connectivity == Offline
    ensures w.prober.state == Offline && w.prober.lastPingTime == 0 && w.notices == []
    ensures Valid(w)
  {
    World(Prober(Offline, 0, 0, None), vm, [])
  }

  /** `setState`: an equal state changes nothing; a change is stored with its
      time, pushed to the read model and delivered once to the callback. */
  function SetState(w: World, s: ConnectivityStatus, now: nat): (r: World)
    ensures r.prober.state == s
    ensures s == w.prober.state ==> r == w
    ensures s != w.prober.state ==>
              && r.prober.lastStateChange == now
              && r.vm == ViewModel.SetConnectivityStatus(w.vm, s)
              && r.notices == w.notices + Deliver(w.prober.callback, s)
    ensures r.prober.lastPingTime == w.prober.lastPingTime && r.prober.callback == w.prober.callback
    ensures Valid(w) ==> Valid(r)
  {
    if s == w.prober.state then w
    else
      World(w.prober.(state := s, lastStateChange := now),
            ViewModel.SetConnectivityStatus(w.vm, s),
            w.notices + Deliver(w.prober.callback, s))
  }

  /** `begin`. */
  function Begin(w: World, now: nat): (r: World)
    ensures r.prober.state == Offline
    ensures w.prober.state == Offline ==> r == w
    ensures Valid(w) ==> Valid(r)
  {
    SetState(w, Offline, now)
  }

  /** `setCallback`: the slot is replaced. */
  function SetCallback(w: World, cb: Option<Handler>): (r: World)
    ensures r.prober.callback == cb
    ensures r.prober.(callback := w.prober.callback) == w.prober && r.vm == w.vm && r.notices == w.notices
  {
    w.(prober := w.prober.(callback := cb))
  }

  /** `forceCheck`: only the interval timer is cleared, so the next tick with
      an address probes at once. */
  function ForceCheck(w: World): (r: World)
    ensures r.prober.lastPingTime == 0
    ensures r.prober.(lastPingTime := w.prober.lastPingTime) == w.prober && r.vm == w.vm && r.notices == w.notices
  {
    w.(prober := w.prober.(lastPingTime := 0))
  }

  /** Some attempt of a cycle is answered. */
  predicate ProbeSucceeds(ping: nat -> bool) {
    exists i :: 0 <= i < PingRetryCount && ping(i)
  }

  /** `performPing`: attempts in order until one is answered, at most
      `PingRetryCount` of them, pausing between attempts but never after the
      last one. */
  method PerformPing(ping: nat -> bool) returns (success: bool, attempts: nat, pauses: nat)
    ensures success <==> ProbeSucceeds(ping)
    ensures 1 <= attempts <= PingRetryCount
    ensures success ==> ping(attempts - 1)
    ensures forall j :: 0 <= j < attempts - 1 ==> !ping(j)
    ensures !success ==> attempts == PingRetryCount
    ensures pauses == attempts - 1
  {
    success := false;
    attempts := 0;
    pauses := 0;
    var i: nat := 0;
    while i < PingRetryCount
      invariant i <= PingRetryCount
      invariant !success
      invariant attempts == i
      invariant forall j :: 0 <= j < i ==> !ping(j)
      invariant pauses == (if i < PingRetryCount then i else PingRetryCount - 1)
    {
      attempts := i + 1;
      success := ping(i);
      if success {
        break;
      }
      if i < PingRetryCount - 1 {
        pauses := pauses + 1;
      }
      i := i + 1;
    }
  }

  /** `checkConnectivity`: CHECKING, the probe, then ONLINE or OFFLINE. */
  function CheckConnectivity(w: World, ping: nat -> bool, now: nat): (r: World)
    ensures r.prober.state == Online <==> ProbeSucceeds(ping)
    ensures r.prober.state != Checking
    ensures w.prober.state != Checking ==>
              r.notices == w.notices + Deliver(w.prober.callback, Checking)
                           + Deliver(w.prober.callback, r.prober.state)
    ensures r.prober.lastPingTime == w.prober.lastPingTime
    ensures Valid(w) ==> Valid(r)
  {
    var checking := SetState(w, Checking, now);
    SetState(checking, if ProbeSucceeds(ping) then Online else Offline, now)
  }

  /** A new cycle is due: never probed, or the interval has elapsed. */
  predicate Due(p: Prober, now: nat) {
    p.lastPingTime == 0 || Since(now, p.lastPingTime) >= PingIntervalMs
  }

  /** `loop`, one tick, given whether the link has an address. */
  function Loop(w: World, hasIp: bool, now: nat, ping: nat -> bool): (r: World)
    ensures Valid(w) ==> Valid(r)
    ensures !hasIp ==> r.prober.state == Offline && r.prober.lastPingTime == w.prober.lastPingTime
    ensures !hasIp && w.prober.state == Offline ==> r == w
    ensures !hasIp && w.prober.state != Offline ==>
              r.notices == w.notices + Deliver(w.prober.callback, Offline)
    ensures hasIp && w.prober.state == Online ==> r == w
    ensures hasIp && w.prober.state != Online && !Due(w.prober, now) ==> r == w
    ensures hasIp && w.prober.state != Online && Due(w.prober, now) ==>
              && r.prober.lastPingTime == now
              && (r.prober.state == Online <==> ProbeSucceeds(ping))
              && (w.prober.state != Checking ==>
                    r.notices == w.notices + Deliver(w.prober.callback, Checking)
                                 + Deliver(w.prober.callback, r.prober.state))
  {
    if !hasIp then
      if w.prober.state != Offline then SetState(w, Offline, now) else w
    else if w.prober.state != Online && Due(w.prober, now) then
      CheckConnectivity(w.(prober := w.prober.(lastPingTime := now)), ping, now)
    else w
  }

  /** Forcing a check twice is forcing it once. */
  lemma ForceCheckIdempotent(w: World)
    ensures ForceCheck(ForceCheck(w)) == ForceCheck(w)
  {
  }

  /** After a forced check, the next tick with an address and not ONLINE
      probes whatever the time. */
  lemma ForceCheckProbesNextTick(w: World, now: nat, ping: nat -> bool)
    requires w.prober.state != Online
    ensures Loop(ForceCheck(w), true, now, ping).prober.lastPingTime == now
    ensures Loop(ForceCheck(w), true, now, ping).prober.state == Online <==> ProbeSucceeds(ping)
  {
  }
}
