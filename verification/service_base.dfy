/**
 What every cloud client shares (`BaseService`): a status with a
 change-only setter and a single callback slot, and a retry gate that lets a
 connection attempt through on the first try or once the retry interval has
 passed. The lifecycle decisions both clients make identically in their
 `loop` are stated here once.
 */
module ServiceBase {
  import opened Types

  /** Milliseconds between two connection attempts. */
  const ConnectionRetryIntervalMs: nat := 30000

  datatype Base = Base(
    status: ServiceStatus,
    lastConnectionAttempt: nat,
    callback: Option<Handler>,
    notices: seq<Notice<ServiceStatus>>)

  /** A new service: STOPPED, never attempted, no callback. */
  function Init(): (b: Base)
    ensures b.status == SvcStopped && b.lastConnectionAttempt == 0
    ensures b.callback.None? && b.notices == []
  {
    Base(SvcStopped, 0, None, [])
  }

  /** `setStatus`: an equal status changes nothing; a new status is stored
      and handed to the callback exactly once. */
  function SetStatus(b: Base, s: ServiceStatus): (r: Base)
    ensures r.status == s
    ensures s == b.status ==> r == b
    ensures s != b.status ==> r.notices == b.notices + Deliver(b.callback, s)
    ensures r.lastConnectionAttempt == b.lastConnectionAttempt && r.callback == b.callback
  {
    if s == b.status then b else b.(status := s, notices := b.notices + Deliver(b.callback, s))
  }

  /** `setStatusChangeCallback`: the slot is replaced; later changes reach
      only the new callback. */
  function SetStatusChangeCallback(b: Base, cb: Option<Handler>): (r: Base)
    ensures r.callback == cb
    ensures r.status == b.status && r.lastConnectionAttempt == b.lastConnectionAttempt && r.notices == b.notices
  {
    b.(callback := cb)
  }

  /** The retry gate: never attempted, or the interval has elapsed. */
  predicate CanAttemptConnection(b: Base, now: nat) {
    b.lastConnectionAttempt == 0 || Since(now, b.lastConnectionAttempt) >= ConnectionRetryIntervalMs
  }

  /** `updateLastConnectionAttempt`: record the attempt time. */
  function UpdateLastConnectionAttempt(b: Base, now: nat): (r: Base)
    ensures r.lastConnectionAttempt == now
    ensures r.status == b.status && r.callback == b.callback && r.notices == b.notices
  {
    b.(lastConnectionAttempt := now)
  }

  /** `isConnected`. */
  predicate IsConnected(b: Base) {
    b.status == SvcConnected
  }

  /** An attempt made at `now > 0` closes the gate for exactly the retry
      interval. An attempt at time 0 records 0, so the gate stays open. */
  lemma GateAfterAttempt(b: Base, now: nat, later: nat)
    requires now <= later
    ensures now > 0 ==>
              (CanAttemptConnection(UpdateLastConnectionAttempt(b, now), later)
               <==> later >= now + ConnectionRetryIntervalMs)
    ensures now == 0 ==> CanAttemptConnection(UpdateLastConnectionAttempt(b, now), later)
  {
  }

  /** Registering a callback and then changing status notifies the new
      callback and no other. */
  lemma CallbackReplaced(b: Base, first: Handler, second: Handler, s: ServiceStatus)
    requires s != b.status
    ensures SetStatus(SetStatusChangeCallback(SetStatusChangeCallback(b, Some(first)), Some(second)), s).notices
            == b.notices + [Notice(second, s)]
  {
  }

  /** What a client's `loop` does in its state machine. */
  datatype Action = Idle | Connect | TimeOut | Serve

  /** The `loop` decision both clients share: STOPPED waits; STARTING,
      ERROR and NOT_CONNECTED connect when the gate is open; CONNECTING gives
      up once the attempt is older than `connectTimeout`; CONNECTED serves. */
  function LoopAction(b: Base, now: nat, connectTimeout: nat): (a: Action)
    ensures a == Connect <==>
              (b.status in {SvcStarting, SvcError, SvcNotConnected} && CanAttemptConnection(b, now))
    ensures a == TimeOut <==>
              (b.status == SvcConnecting && Since(now, b.lastConnectionAttempt) > connectTimeout)
    ensures a == Serve <==> b.status == SvcConnected
  {
    match b.status
    case SvcStopped => Idle
    case SvcConnecting => if Since(now, b.lastConnectionAttempt) > connectTimeout then TimeOut else Idle
    case SvcConnected => Serve
    case _ => if CanAttemptConnection(b, now) then Connect else Idle
  }

  /** `start`: only a STOPPED service moves, to STARTING. */
  function Start(b: Base): (r: Base)
    ensures b.status == SvcStopped ==> r.status == SvcStarting
    ensures b.status != SvcStopped ==> r == b
  {
    if b.status == SvcStopped then SetStatus(b, SvcStarting) else b
  }

  /** Whether `stop` must tear the session down first. */
  predicate NeedsTeardown(b: Base) {
    b.status == SvcConnected || b.status == SvcConnecting
  }
}
