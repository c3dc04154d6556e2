/**
 Shared vocabulary of the DL1000 firmware model: the status enumerations of
 `include/definitions.h` and `src/services/baseService.h`, an explicit
 clock helper, and the single-slot callback used by every manager.
 */
module Types {

  datatype Option<T> = None | Some(value: T)

  /** An eight-bit byte, as an integer so that arithmetic on it stays cheap. */
  newtype Byte = x: int | 0 <= x < 256

  /** Identity of a registered callback. A slot holds at most one. */
  type Handler = nat

  /** One delivery of `value` to the callback registered in a slot. */
  datatype Notice<T> = Notice(handler: Handler, value: T)

  /** What a status setter delivers: one notice to the registered callback,
      nothing when the slot is empty. */
  function Deliver<T>(slot: Option<Handler>, value: T): (r: seq<Notice<T>>)
    ensures slot.None? <==> r == []
    ensures slot.Some? ==> |r| == 1 && r[0].handler == slot.value && r[0].value == value
  {
    match slot
    case None => []
    case Some(h) => [Notice(h, value)]
  }

  /** Milliseconds elapsed since timestamp `t`. The firmware subtracts
      `unsigned long` millisecond stamps; with a monotonic clock the stamp is
      never later than `now`, and a later stamp counts as no time elapsed. */
  function Since(now: nat, t: nat): (r: nat)
    ensures t <= now ==> t + r == now
    ensures now < t ==> r == 0
  {
    if t <= now then now - t else 0
  }

  datatype DeviceStatus = DeviceStarted | DeviceUpdating | DeviceUpdateFailed

  /** Link states, declared in the firmware's enumeration order. */
  datatype NetworkStatus =
    | NetStopped | NetStarted | NetDisconnected | NetLostIp | NetConnected | NetConnectedIp

  /** The link states in declaration order. */
  const NetStates: seq<NetworkStatus> :=
    [NetStopped, NetStarted, NetDisconnected, NetLostIp, NetConnected, NetConnectedIp]

  /** The enumerator value of a link state; `hasIP` and `isConnected`
      compare these numbers. */
  function NetOrdinal(s: NetworkStatus): (r: nat)
    ensures r < |NetStates| && NetStates[r] == s
  {
    match s
    case NetStopped => 0
    case NetStarted => 1
    case NetDisconnected => 2
    case NetLostIp => 3
    case NetConnected => 4
    case NetConnectedIp => 5
  }

  /** Enumerator values follow the declaration order: the i-th declared
      state has value i, so values are distinct and ordered as declared. */
  lemma NetOrdinalOrder()
    ensures forall i :: 0 <= i < |NetStates| ==> NetOrdinal(NetStates[i]) == i
    ensures forall a, b :: NetOrdinal(a) == NetOrdinal(b) ==> a == b
  {
  }

  datatype ConnectivityStatus = Offline | Checking | Online

  /** Status of one service client, and of the services layer as a whole:
      the two enumerations of the firmware have the same members in the same
      order. */
  datatype ServiceStatus =
    | SvcStopped | SvcStarting | SvcConnecting | SvcConnected | SvcError | SvcNotConnected

  datatype DisplayMode = Normal | MenuMode | FactoryResetConfirm
}
