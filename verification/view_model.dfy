/**
 The shared read model the display and the LEDs render from: four status
 fields written by the managers, three fixed-size text buffers, a dirty flag
 and a derived one-word status label.
 */
module ViewModel {
  import opened Types

  /** Buffer sizes, terminator included. */
  const MacBuffer: nat := 18
  const SerialBuffer: nat := 32
  const StatusBuffer: nat := 16

  datatype Model = Model(
    device: DeviceStatus,
    network: NetworkStatus,
    connectivity: ConnectivityStatus,
    services: ServiceStatus,
    mac: string,
    serial: string,
    status: string,
    dirty: bool)

  /** Every text buffer holds at most its size minus the terminator. */
  predicate Valid(m: Model) {
    |m.mac| < MacBuffer && |m.serial| < SerialBuffer && |m.status| < StatusBuffer
  }

  /** No service activity that the label reports ahead of the lower layers. */
  predicate ServicesQuiet(d: DeviceStatus, s: ServiceStatus) {
    d == DeviceStarted && s != SvcConnected && s != SvcConnecting && s != SvcError
  }

  /** The one-word summary `updateStatusString` writes. */
  datatype Label =
    | Updating | UpdateFailed | ServicesOnline | ServicesConnecting | ServicesError
    | InternetOk | InternetChecking | EthernetOk | EthernetDisconnected | Starting

  function Text(l: Label): (r: string)
    ensures 0 < |r| < StatusBuffer
  {
    match l
    case Updating => "UPDATING"
    case UpdateFailed => "UPD_FAIL"
    case ServicesOnline => "ONLINE"
    case ServicesConnecting => "CONNECTING"
    case ServicesError => "SVC_ERROR"
    case InternetOk => "INET_OK"
    case InternetChecking => "CHECKING"
    case EthernetOk => "ETH_OK"
    case EthernetDisconnected => "ETH_DISC"
    case Starting => "STARTING"
  }

  /** The derived label: device trouble first, then the services layer, then
      reachability, then the link. Each label is characterised by exactly the
      statuses that produce it. */
  function Derive(d: DeviceStatus, n: NetworkStatus, c: ConnectivityStatus, s: ServiceStatus): (r: Label)
    ensures r == Updating <==> d == DeviceUpdating
    ensures r == UpdateFailed <==> d == DeviceUpdateFailed
    ensures r == ServicesOnline <==> d == DeviceStarted && s == SvcConnected
    ensures r == ServicesConnecting <==> d == DeviceStarted && s == SvcConnecting
    ensures r == ServicesError <==> d == DeviceStarted && s == SvcError
    ensures r == InternetOk <==> ServicesQuiet(d, s) && c == Online
    ensures r == InternetChecking <==> ServicesQuiet(d, s) && c == Checking
    ensures r == EthernetOk <==> ServicesQuiet(d, s) && c == Offline && n == NetConnectedIp
    ensures r == EthernetDisconnected <==> ServicesQuiet(d, s) && c == Offline && n == NetDisconnected
    ensures r == Starting <==>
              ServicesQuiet(d, s) && c == Offline && n != NetConnectedIp && n != NetDisconnected
  {
    match d
    case DeviceUpdating => Updating
    case DeviceUpdateFailed => UpdateFailed
    case DeviceStarted =>
      if s == SvcConnected then ServicesOnline
      else if s == SvcConnecting then ServicesConnecting
      else if s == SvcError then ServicesError
      else match c
        case Online => InternetOk
        case Checking => InternetChecking
        case Offline =>
          if n == NetConnectedIp then EthernetOk
          else if n == NetDisconnected then EthernetDisconnected
          else Starting
  }

  function LabelOf(m: Model): string {
    Text(Derive(m.device, m.network, m.connectivity, m.services))
  }

  /** What a `strncpy` into a buffer of `size` bytes keeps of a string. */
  function Truncate(s: string, size: nat): (r: string)
    requires size > 0
    ensures |r| < size
    ensures r <= s
    ensures |s| < size ==> r == s
    ensures |s| >= size ==> |r| == size - 1
  {
    if |s| < size then s else s[..size - 1]
  }

  /** `updateStatusString`: recompute the label and mark the model dirty. */
  function Refresh(m: Model): (r: Model)
    ensures r.status == LabelOf(m) && r.dirty
    ensures Valid(m) ==> Valid(r)
  {
    m.(status := LabelOf(m), dirty := true)
  }

  /** The state the constructor leaves: every status at its first value,
      empty strings, and the label recomputed over the "INIT" placeholder. */
  function Init(): (r: Model)
    ensures r.device == DeviceStarted && r.network == NetStopped
    ensures r.connectivity == Offline && r.services == SvcStopped
    ensures r.mac == "" && r.serial == ""
    ensures r.status == "STARTING" && r.dirty
    ensures Valid(r)
  {
    Refresh(Model(DeviceStarted, NetStopped, Offline, SvcStopped, "", "", "INIT", true))
  }

  /** The MAC and serial buffers are the same in both models. */
  predicate SameText(a: Model, b: Model) {
    a.mac == b.mac && a.serial == b.serial
  }

  function SetDeviceStatus(m: Model, d: DeviceStatus): (r: Model)
    ensures r.device == d && SameText(r, m)
    ensures r.network == m.network && r.connectivity == m.connectivity && r.services == m.services
    ensures d == m.device ==> r == m
    ensures d != m.device ==> r.dirty && r.status == LabelOf(r)
    ensures m.dirty ==> r.dirty
    ensures Valid(m) ==> Valid(r)
  {
    if d == m.device then m else Refresh(m.(device := d))
  }

  function SetNetworkStatus(m: Model, n: NetworkStatus): (r: Model)
    ensures r.network == n && SameText(r, m)
    ensures r.device == m.device && r.connectivity == m.connectivity && r.services == m.services
    ensures n == m.network ==> r == m
    ensures n != m.network ==> r.dirty && r.status == LabelOf(r)
    ensures m.dirty ==> r.dirty
    ensures Valid(m) ==> Valid(r)
  {
    if n == m.network then m else Refresh(m.(network := n))
  }

  function SetConnectivityStatus(m: Model, c: ConnectivityStatus): (r: Model)
    ensures r.connectivity == c && SameText(r, m)
    ensures r.device == m.device && r.network == m.network && r.services == m.services
    ensures c == m.connectivity ==> r == m
    ensures c != m.connectivity ==> r.dirty && r.status == LabelOf(r)
    ensures m.dirty ==> r.dirty
    ensures Valid(m) ==> Valid(r)
  {
    if c == m.connectivity then m else Refresh(m.(connectivity := c))
  }

  function SetServicesStatus(m: Model, s: ServiceStatus): (r: Model)
    ensures r.services == s && SameText(r, m)
    ensures r.device == m.device && r.network == m.network && r.connectivity == m.connectivity
    ensures s == m.services ==> r == m
    ensures s != m.services ==> r.dirty && r.status == LabelOf(r)
    ensures m.dirty ==> r.dirty
    ensures Valid(m) ==> Valid(r)
  {
    if s == m.services then m else Refresh(m.(services := s))
  }

  /** `setMacAddress`: a null or equal argument changes nothing; otherwise the
      truncated copy is stored and the model is marked dirty. */
  function SetMacAddress(m: Model, mac: Option<string>): (r: Model)
    ensures mac.None? ==> r == m
    ensures mac.Some? && mac.value == m.mac ==> r == m
    ensures mac.Some? && mac.value != m.mac ==>
              r == m.(mac := Truncate(mac.value, MacBuffer), dirty := true)
    ensures m.dirty ==> r.dirty
    ensures Valid(m) ==> Valid(r)
  {
    match mac
    case Some(s) => if s != m.mac then m.(mac := Truncate(s, MacBuffer), dirty := true) else m
    case None => m
  }

  function SetSerialNumber(m: Model, serial: Option<string>): (r: Model)
    ensures serial.None? ==> r == m
    ensures serial.Some? && serial.value == m.serial ==> r == m
    ensures serial.Some? && serial.value != m.serial ==>
              r == m.(serial := Truncate(serial.value, SerialBuffer), dirty := true)
    ensures m.dirty ==> r.dirty
    ensures Valid(m) ==> Valid(r)
  {
    match serial
    case Some(s) => if s != m.serial then m.(serial := Truncate(s, SerialBuffer), dirty := true) else m
    case None => m
  }

  /** `setStatusString`: a custom label, kept until the next effective
      status change recomputes it. */
  function SetStatusString(m: Model, status: Option<string>): (r: Model)
    ensures status.None? ==> r == m
    ensures status.Some? && status.value == m.status ==> r == m
    ensures status.Some? && status.value != m.status ==>
              r == m.(status := Truncate(status.value, StatusBuffer), dirty := true)
    ensures m.dirty ==> r.dirty
    ensures Valid(m) ==> Valid(r)
  {
    match status
    case Some(s) => if s != m.status then m.(status := Truncate(s, StatusBuffer), dirty := true) else m
    case None => m
  }

  function ClearDirty(m: Model): (r: Model)
    ensures !r.dirty
    ensures r.(dirty := m.dirty) == m
  {
    m.(dirty := false)
  }

  /** A custom label survives only until a status setter actually changes
      something: then the computed label replaces it. */
  lemma CustomLabelOverwritten(m: Model, text: string, n: NetworkStatus)
    requires n != m.network
    ensures SetNetworkStatus(SetStatusString(m, Some(text)), n).status
            == Text(Derive(m.device, n, m.connectivity, m.services))
  {
  }

  /** Setting the same text twice is the same as setting it once, as long as
      it fits the buffer. */
  lemma SetStatusStringIdempotent(m: Model, text: string)
    requires |text| < StatusBuffer
    ensures SetStatusString(SetStatusString(m, Some(text)), Some(text)) == SetStatusString(m, Some(text))
  {
  }
}
