/**
 The Modbus monitor service (`src/services/modbusMonitorService.cpp`): a
 `BaseService` that polls the DSE controller's register pages 4, 5, 6 and 7
 in turn through a Modbus RTU client, stores the decoded registers of each
 response, keeps frame counters and derives an activity status.

 The client library is foreign: whether it queues a request and whether it
 initialises are parameters, and its data and error callbacks are steps
 of their own. Responses arrive as the library hands them over: slave ID,
 function code, byte count and data, without the CRC.
 */
module ModbusService {
  import opened Types
  import ServiceBase

  const DefaultSlaveId: Byte := 0x0A
  const ReadHoldingRegisters: Byte := 0x03
  const ActivityTimeoutMs: nat := 15000
  const RequestIntervalMs: nat := 10000
  const StatusUpdateIntervalMs: nat := 1000

  /** `ModbusMonitorStatus`. The enumeration is declared outside the
      modelled files; these are the three values the service uses. */
  datatype MonitorStatus = MonitorInactive | MonitorActive | MonitorValid

  /** The registers of one page and whether they hold received data. */
  datatype Page = Page(registers: seq<nat>, valid: bool)

  /** One request the client accepted. */
  datatype Request = Request(token: nat, slave: Byte, address: nat, count: nat)

  datatype Service = Service(
    base: ServiceBase.Base,
    clientInitialized: bool,
    status: MonitorStatus,
    slaveId: Byte,
    lastActivityTime: nat,
    framesReceived: nat,
    validFrames: nat,
    invalidFrames: nat,
    lastRequestTime: nat,
    lastStatusUpdate: nat,   // the static timestamp inside `loop`
    currentPage: int,
    nextToken: nat,
    pages: seq<Page>,        // pages 4, 5, 6 and 7, in that order
    lastUpdateTime: nat,
    sent: seq<Request>)

  // The register map ------------------------------------------------------------

  predicate IsPage(page: int) {
    4 <= page <= 7
  }

  /** Registers per page (`MODBUS_PAGEn_SIZE`). */
  function PageSize(page: int): (n: nat)
    requires IsPage(page)
    ensures n > 0
  {
    if page == 4 then 66 else if page == 5 then 2 else if page == 6 then 34 else 2
  }

  /** The first register requested for a page: the page start (256 registers
      per page) plus the inner offset the service reads from. */
  function PageAddress(page: int): (a: nat)
    requires IsPage(page)
    ensures a == 256 * page + (if page == 5 then 10 else if page == 7 then 6 else 0)
  {
    if page == 4 then 1024 else if page == 5 then 1280 + 10 else if page == 6 then 1536 else 1792 + 6
  }

  /** The page a requested address belongs to. */
  function AddressPage(address: nat): int {
    address / 256
  }

  lemma AddressNamesPage(page: int)
    requires IsPage(page)
    ensures AddressPage(PageAddress(page)) == page
  {
  }

  function Slot(page: int): (i: nat)
    requires IsPage(page)
    ensures i < 4
  {
    page - 4
  }

  /** The page after `page` in the polling order, page 7 wrapping to 4. */
  function NextPage(page: int): (r: int)
    requires IsPage(page)
    ensures IsPage(r)
    ensures r == 4 <==> page == 7
  {
    if page + 1 > 7 then 4 else page + 1
  }

  /** A request carries the byte count of a whole page; `handleModbusData`
      compares the count with twice each page's size. */
  function ByteCountOf(page: int): (n: nat)
    requires IsPage(page)
  {
    2 * PageSize(page)
  }

  predicate Counted(s: Service) {
    s.framesReceived == s.validFrames + s.invalidFrames
  }

  /** Four pages, each with its own number of 16-bit registers. */
  predicate PagesValid(pages: seq<Page>) {
    && |pages| == 4
    && (forall i :: 0 <= i < 4 ==> |pages[i].registers| == PageSize(i + 4))
    && (forall i :: 0 <= i < |pages| ==> forall j :: 0 <= j < |pages[i].registers| ==> pages[i].registers[j] < 0x1_0000)
  }

  /** Tokens are handed out in increasing order, so each names one request. */
  predicate TokensFresh(sent: seq<Request>, nextToken: nat) {
    && (forall k :: 0 <= k < |sent| ==> sent[k].token < nextToken)
    && (forall a, b :: 0 <= a < b < |sent| ==> sent[a].token < sent[b].token)
  }

  predicate Valid(s: Service) {
    PagesValid(s.pages) && Counted(s) && TokensFresh(s.sent, s.nextToken)
  }

  /** The constructor: status INACTIVE, no frames, page 4 first, token 1,
      and all register data zeroed and invalid. */
  function Init(): (s: Service)
    ensures Valid(s) && s.currentPage == 4 && s.nextToken == 1 && !s.clientInitialized
    ensures s.status == MonitorInactive && s.base.status == SvcStopped
    ensures s.pages == ZeroPages() && s.sent == []
  {
    var pages := ZeroPages();
    assert TokensFresh([], 1);
    Service(ServiceBase.Init(), false, MonitorInactive, DefaultSlaveId, 0, 0, 0, 0, 0, 0, 4, 1, pages, 0, [])
  }

  /** The zeroed register store. */
  function ZeroPages(): (pages: seq<Page>)
    ensures PagesValid(pages)
    ensures forall i :: 0 <= i < |pages| ==> !pages[i].valid
    ensures forall i, j :: 0 <= i < |pages| && 0 <= j < |pages[i].registers| ==> pages[i].registers[j] == 0
  {
    [Page(Zeros(66), false), Page(Zeros(2), false), Page(Zeros(34), false), Page(Zeros(2), false)]
  }

  function Zeros(n: nat): (r: seq<nat>)
    ensures |r| == n && forall j :: 0 <= j < n ==> r[j] == 0
  {
    seq(n, _ => 0)
  }

  // Lifecycle ---------------------------------------------------------------------

  /** `begin` (and `start`, which calls it): with a client the service is
      CONNECTED and INACTIVE; without one it is in ERROR. */
  function Begin(s: Service, clientOk: bool): (r: Service)
    requires Valid(s)
    ensures Valid(r)
    ensures r.clientInitialized == clientOk
    ensures clientOk ==> r.base.status == SvcConnected && r.status == MonitorInactive
    ensures !clientOk ==> r.base.status == SvcError && r.status == s.status
    ensures r.pages == s.pages && r.currentPage == s.currentPage && r.sent == s.sent
  {
    if clientOk then
      s.(clientInitialized := true, status := MonitorInactive, base := ServiceBase.SetStatus(s.base, SvcConnected))
    else
      s.(clientInitialized := false, base := ServiceBase.SetStatus(s.base, SvcError))
  }

  /** `stop`: STOPPED, the client released, status INACTIVE. */
  function Stop(s: Service): (r: Service)
    requires Valid(s)
    ensures Valid(r)
    ensures r.base.status == SvcStopped && !r.clientInitialized && r.status == MonitorInactive
    ensures r.pages == s.pages && r.currentPage == s.currentPage && r.sent == s.sent
  {
    s.(base := ServiceBase.SetStatus(s.base, SvcStopped), clientInitialized := false, status := MonitorInactive)
  }

  /** `start` after `stop` is `begin` again: the client comes back exactly
      when it initialises, and the stored pages, the counters and the
      polling position survive. */
  lemma StartAfterStop(s: Service, clientOk: bool)
    requires Valid(s)
    ensures var r := Begin(Stop(s), clientOk);
            && r.clientInitialized == clientOk
            && (clientOk <==> ServiceBase.IsConnected(r.base))
            && r.status == MonitorInactive
            && r.pages == s.pages && r.currentPage == s.currentPage && r.framesReceived == s.framesReceived
  {
  }

  // Polling ---------------------------------------------------------------------------

  /** `requestNextPage`. Without a client nothing happens. A page number
      outside 4..7 is put back to 4 and nothing is sent. Otherwise the next
      token is used up whatever the client answers, and the current page
      moves on only when the client queued the request. */
  function RequestNextPage(s: Service, queued: bool): (r: Service)
    requires Valid(s)
    ensures Valid(r)
    ensures !s.clientInitialized ==> r == s
    ensures s.clientInitialized && !IsPage(s.currentPage) ==> r == s.(currentPage := 4)
    ensures s.clientInitialized && IsPage(s.currentPage) ==>
              && r.nextToken == s.nextToken + 1
              && (queued ==> r.currentPage == NextPage(s.currentPage)
                             && r.sent == s.sent + [Request(s.nextToken, s.slaveId, PageAddress(s.currentPage), PageSize(s.currentPage))])
              && (!queued ==> r.currentPage == s.currentPage && r.sent == s.sent)
    ensures r.pages == s.pages && r.status == s.status && r.base == s.base
  {
    if !s.clientInitialized then s
    else if !IsPage(s.currentPage) then s.(currentPage := 4)
    else
      var request := Request(s.nextToken, s.slaveId, PageAddress(s.currentPage), PageSize(s.currentPage));
      var s1 := s.(nextToken := s.nextToken + 1);
      if queued then s1.(currentPage := NextPage(s.currentPage), sent := s.sent + [request]) else s1
  }

  /** Four queued requests from page 4 ask for pages 4, 5, 6 and 7 in order
      and leave the current page at 4 again. */
  lemma PollingRound(s: Service)
    requires Valid(s) && s.clientInitialized && s.currentPage == 4
    ensures var r := RequestNextPage(RequestNextPage(RequestNextPage(RequestNextPage(s, true), true), true), true);
            && r.currentPage == 4
            && r.sent[|s.sent|..] == [
                 Request(s.nextToken, s.slaveId, 1024, 66),
                 Request(s.nextToken + 1, s.slaveId, 1290, 2),
                 Request(s.nextToken + 2, s.slaveId, 1536, 34),
                 Request(s.nextToken + 3, s.slaveId, 1798, 2)]
  {
    var r1 := RequestNextPage(s, true);
    var r2 := RequestNextPage(r1, true);
    var r3 := RequestNextPage(r2, true);
    var r4 := RequestNextPage(r3, true);
    assert r4.sent == s.sent + [r1.sent[|s.sent|], r2.sent[|s.sent| + 1], r3.sent[|s.sent| + 2], r4.sent[|s.sent| + 3]];
  }

  /** A request the client keeps refusing is retried for the same page. */
  lemma RefusedRequestRetriesPage(s: Service)
    requires Valid(s) && s.clientInitialized && IsPage(s.currentPage)
    ensures RequestNextPage(RequestNextPage(s, false), true).sent[|s.sent|].address == PageAddress(s.currentPage)
  {
  }

  // Responses -------------------------------------------------------------------------

  /** The registers a response carries: big-endian pairs from byte 3 on, as
      many whole pairs as the response holds. */
  function Decode(response: seq<Byte>): (regs: seq<nat>)
    requires |response| >= 3
    ensures |regs| == (|response| - 3) / 2
    ensures forall i :: 0 <= i < |regs| ==> regs[i] < 0x1_0000
  {
    seq((|response| - 3) / 2, i requires 0 <= i < (|response| - 3) / 2 =>
      response[3 + 2 * i] as nat * 256 + response[3 + 2 * i + 1] as nat)
  }

  /** Registers on the wire, most significant byte first. */
  function Encode(regs: seq<nat>): (bytes: seq<Byte>)
    requires forall i :: 0 <= i < |regs| ==> regs[i] < 0x1_0000
    ensures |bytes| == 2 * |regs|
    ensures forall i :: 0 <= i < |regs| ==> bytes[2 * i] as nat == regs[i] / 256 && bytes[2 * i + 1] as nat == regs[i] % 256
  {
    if regs == [] then []
    else
      var rest := Encode(regs[1..]);
      assert forall i :: 1 <= i < |regs| ==> regs[i] == regs[1..][i - 1];
      [(regs[0] / 256) as Byte, (regs[0] % 256) as Byte] + rest
  }

  /** Decoding a response built from registers gives those registers back. */
  lemma DecodeEncode(header: seq<Byte>, regs: seq<nat>)
    requires |header| == 3
    requires forall i :: 0 <= i < |regs| ==> regs[i] < 0x1_0000
    ensures Decode(header + Encode(regs)) == regs
  {
    var d := Decode(header + Encode(regs));
    assert |d| == |regs|;
    forall i | 0 <= i < |regs|
      ensures d[i] == regs[i]
    {
      DecodeEncodeAt(header, regs, i);
    }
  }

  lemma DecodeEncodeAt(header: seq<Byte>, regs: seq<nat>, i: nat)
    requires |header| == 3 && i < |regs|
    requires forall k :: 0 <= k < |regs| ==> regs[k] < 0x1_0000
    ensures |Decode(header + Encode(regs))| == |regs|
    ensures Decode(header + Encode(regs))[i] == regs[i]
  {
    var e := Encode(regs);
    var response := header + e;
    assert response[3 + 2 * i] == e[2 * i] && response[3 + 2 * i + 1] == e[2 * i + 1];
    DecodeAt(response, i);
    Pair(regs[i]);
  }

  lemma DecodeAt(response: seq<Byte>, i: nat)
    requires |response| >= 3 && i < (|response| - 3) / 2
    ensures Decode(response)[i] == response[3 + 2 * i] as nat * 256 + response[3 + 2 * i + 1] as nat
  {
  }

  lemma Pair(r: nat)
    ensures r / 256 * 256 + r % 256 == r
  {
  }

  /** `processPageResponse` for a page whose registers the response fits:
      the leading registers are overwritten with the decoded values, the
      page becomes valid and the update time is taken. (A response longer
      than the page is written past the page's storage; see
      `StoredRegisterCount`.) */
  function ProcessPageResponse(s: Service, response: seq<Byte>, page: int, now: nat): (r: Service)
    requires Valid(s) && IsPage(page) && |response| >= 3
    requires (|response| - 3) / 2 <= PageSize(page)
    ensures Valid(r)
    ensures var old_ := s.pages[Slot(page)].registers;
            var regs := r.pages[Slot(page)].registers;
            && regs[..(|response| - 3) / 2] == Decode(response)
            && regs[(|response| - 3) / 2..] == old_[(|response| - 3) / 2..]
    ensures r.pages[Slot(page)].valid && r.lastUpdateTime == now
    ensures forall i :: 0 <= i < 4 && i != Slot(page) ==> r.pages[i] == s.pages[i]
    ensures r == s.(pages := r.pages, lastUpdateTime := now)
  {
    var regs := Decode(response);
    var old_ := s.pages[Slot(page)].registers;
    var updated := regs + old_[|regs|..];
    assert updated[..|regs|] == regs && updated[|regs|..] == old_[|regs|..];
    s.(pages := s.pages[Slot(page) := Page(updated, true)], lastUpdateTime := now)
  }

  /** How many registers `processPageResponse` writes: every whole pair
      after the header, however many the page has room for. */
  function StoredRegisterCount(response: seq<Byte>): (n: nat)
    requires |response| >= 3
    ensures n == |Decode(response)|
  {
    (|response| - 3) / 2
  }

  /** `handleModbusData`'s page choice, as written: the first page whose
      byte count matches, page 4 when none does. */
  function ClassifyAsWritten(byteCount: Byte): (page: int)
    ensures IsPage(page)
    ensures page != 4 ==> byteCount as nat == ByteCountOf(page)
  {
    if byteCount as nat == 66 * 2 then 4
    else if byteCount as nat == 2 * 2 then 5
    else if byteCount as nat == 34 * 2 then 6
    else if byteCount as nat == 2 * 2 then 7
    else 4
  }

  /** Pages 5 and 7 both have two registers, so a response for page 7 is
      filed as page 5: no byte count ever selects page 7. */
  lemma Page7NeverFiled(byteCount: Byte)
    ensures ClassifyAsWritten(byteCount) != 7
    ensures ClassifyAsWritten(4) == 5
  {
  }

  /** A byte count that matches no page is filed as page 4 with all its
      registers, though page 4 has room for 66. */
  lemma UnmatchedCountOverrunsPage4()
    ensures var response := [DefaultSlaveId, ReadHoldingRegisters, 250 as Byte] + seq(250, _ => 0 as Byte);
            && ClassifyAsWritten(response[2]) == 4
            && StoredRegisterCount(response) == 125 > PageSize(4)
  {
  }

  /** Whether a response reaches `processPageResponse` in the handler as
      written: at least three bytes, from the configured slave, a register
      read. */
  predicate AsWrittenStores(s: Service, response: seq<Byte>) {
    |response| >= 3 && response[0] == s.slaveId && response[1] == ReadHoldingRegisters
  }

  /** Whether the as-written copy stays inside the page it chose. */
  predicate AsWrittenFits(s: Service, response: seq<Byte>) {
    AsWrittenStores(s, response) ==> StoredRegisterCount(response) <= PageSize(ClassifyAsWritten(response[2]))
  }

  /** `handleModbusData` as written: the token is not consulted. Every
      response is counted; one from the configured slave reading registers
      is filed under the page its byte count names (page 4 by default) and
      copied in whatever its length, marking that page valid. */
  function HandleDataAsWritten(s: Service, response: seq<Byte>, now: nat): (r: Service)
    requires Valid(s) && AsWrittenFits(s, response)
    ensures Valid(r)
    ensures r.framesReceived == s.framesReceived + 1 && r.validFrames == s.validFrames + 1
    ensures r.invalidFrames == s.invalidFrames && r.lastActivityTime == now
    ensures !AsWrittenStores(s, response) ==> r.pages == s.pages && r.lastUpdateTime == s.lastUpdateTime
    ensures AsWrittenStores(s, response) ==>
              var page := ClassifyAsWritten(response[2]);
              var n := StoredRegisterCount(response);
              && r.pages[Slot(page)].valid && r.lastUpdateTime == now
              && r.pages[Slot(page)].registers[..n] == Decode(response)
              && r.pages[Slot(page)].registers[n..] == s.pages[Slot(page)].registers[n..]
              && (forall i :: 0 <= i < 4 && i != Slot(page) ==> r.pages[i] == s.pages[i])
  {
    var s1 := s.(framesReceived := s.framesReceived + 1, validFrames := s.validFrames + 1, lastActivityTime := now);
    if AsWrittenStores(s, response) then
      ProcessPageResponse(s1, response, ClassifyAsWritten(response[2]), now)
    else s1
  }

  /** The answer to a page-7 request: the as-written handler files it in
      page 5 and leaves page 7 untouched, while the corrected handler
      stores it in page 7. */
  lemma Page7ReplyDiverges(s: Service, k: nat, regs: seq<nat>, now: nat)
    requires Valid(s) && k < |s.sent| && s.sent[k].address == PageAddress(7)
    requires |regs| == 2 && regs[0] < 0x1_0000 && regs[1] < 0x1_0000
    ensures var response := [s.slaveId, ReadHoldingRegisters, 4 as Byte] + Encode(regs);
            var asWritten := HandleDataAsWritten(s, response, now);
            var corrected := HandleData(s, response, s.sent[k].token, now);
            && asWritten.pages[Slot(5)] == Page(regs, true)
            && asWritten.pages[Slot(7)] == s.pages[Slot(7)]
            && corrected.pages[Slot(7)] == Page(regs, true)
  {
    var response := [s.slaveId, ReadHoldingRegisters, 4 as Byte] + Encode(regs);
    DecodeEncode([s.slaveId, ReadHoldingRegisters, 4 as Byte], regs);
    assert ClassifyAsWritten(response[2]) == 5;
    assert StoredRegisterCount(response) == 2 == PageSize(5);
    var r := HandleDataAsWritten(s, response, now);
    assert r.pages[Slot(5)].registers == r.pages[Slot(5)].registers[..2];
    Page7Stored(s, k, regs, now);
  }

  /** A short response whose byte count names no page: the as-written
      handler marks page 4 valid with five new registers, while the
      corrected handler stores nothing. */
  lemma ShortReplyDiverges(s: Service, token: nat, now: nat)
    requires Valid(s)
    ensures var response := [s.slaveId, ReadHoldingRegisters, 10 as Byte] + seq(10, _ => 0 as Byte);
            && HandleDataAsWritten(s, response, now).pages[Slot(4)].valid
            && HandleData(s, response, token, now).pages == s.pages
  {
    var response := [s.slaveId, ReadHoldingRegisters, 10 as Byte] + seq(10, _ => 0 as Byte);
    assert AsWrittenStores(s, response) && ClassifyAsWritten(response[2]) == 4;
    assert !Storable(s, response, token);
  }

  /** The page a response answers: the page of the accepted request with
      the response's token, if there is one. */
  function RequestedPage(sent: seq<Request>, token: nat): (page: Option<int>)
    ensures page.Some? ==> exists k :: 0 <= k < |sent| && sent[k].token == token && AddressPage(sent[k].address) == page.value
    ensures page.None? ==> forall k :: 0 <= k < |sent| ==> sent[k].token != token
  {
    if sent == [] then None
    else if sent[|sent| - 1].token == token then Some(AddressPage(sent[|sent| - 1].address))
    else
      var p := RequestedPage(sent[..|sent| - 1], token);
      assert forall k :: 0 <= k < |sent| - 1 ==> sent[..|sent| - 1][k] == sent[k];
      p
  }

  /** `handleModbusData` with the page taken from the request the token
      answers, and the registers stored only when the byte count is the
      page's and the data is all there. The frame counters and activity time
      are updated for every response, as in the source. */
  function HandleData(s: Service, response: seq<Byte>, token: nat, now: nat): (r: Service)
    requires Valid(s)
    ensures Valid(r)
    ensures r.framesReceived == s.framesReceived + 1 && r.validFrames == s.validFrames + 1
    ensures r.invalidFrames == s.invalidFrames && r.lastActivityTime == now
    ensures r.pages != s.pages ==>
              && |response| >= 3 && response[0] == s.slaveId && response[1] == ReadHoldingRegisters
              && RequestedPage(s.sent, token).Some?
    ensures Storable(s, response, token) ==>
              var page := RequestedPage(s.sent, token).value;
              r.pages[Slot(page)] == Page(Decode(response), true) && r.lastUpdateTime == now
    ensures !Storable(s, response, token) ==> r.pages == s.pages && r.lastUpdateTime == s.lastUpdateTime
  {
    var s1 := s.(framesReceived := s.framesReceived + 1, validFrames := s.validFrames + 1, lastActivityTime := now);
    if Storable(s, response, token) then
      var page := RequestedPage(s.sent, token).value;
      var r := ProcessPageResponse(s1, response, page, now);
      assert r.pages[Slot(page)].registers == Decode(response);
      r
    else s1
  }

  /** Whether a response is stored: from the configured slave, a register
      read, answering a known request for a page, and carrying exactly that
      page's byte count and data. */
  predicate Storable(s: Service, response: seq<Byte>, token: nat) {
    && |response| >= 3 && response[0] == s.slaveId && response[1] == ReadHoldingRegisters
    && var page := RequestedPage(s.sent, token);
    && page.Some? && IsPage(page.value)
    && response[2] as nat == ByteCountOf(page.value) && |response| == 3 + ByteCountOf(page.value)
  }

  /** The answer to an accepted page-7 request is stored as page 7. */
  lemma Page7Stored(s: Service, k: nat, regs: seq<nat>, now: nat)
    requires Valid(s) && k < |s.sent| && s.sent[k].address == PageAddress(7)
    requires |regs| == 2 && regs[0] < 0x1_0000 && regs[1] < 0x1_0000
    ensures var response := [s.slaveId, ReadHoldingRegisters, 4 as Byte] + Encode(regs);
            HandleData(s, response, s.sent[k].token, now).pages[Slot(7)] == Page(regs, true)
  {
    var response := [s.slaveId, ReadHoldingRegisters, 4 as Byte] + Encode(regs);
    AddressNamesPage(7);
    assert RequestedPage(s.sent, s.sent[k].token) == Some(7);
    assert Storable(s, response, s.sent[k].token);
    DecodeEncode([s.slaveId, ReadHoldingRegisters, 4 as Byte], regs);
  }

  /** A stored response fills its page exactly: the byte count the
      request asked for is twice the page's registers. */
  lemma StoredFitsPage(s: Service, response: seq<Byte>, token: nat)
    requires Valid(s) && Storable(s, response, token)
    ensures StoredRegisterCount(response) == PageSize(RequestedPage(s.sent, token).value)
  {
  }

  /** `handleModbusError`: the frame is counted as received and invalid. */
  function HandleError(s: Service, now: nat): (r: Service)
    requires Valid(s)
    ensures Valid(r)
    ensures r.framesReceived == s.framesReceived + 1 && r.invalidFrames == s.invalidFrames + 1
    ensures r.validFrames == s.validFrames && r.lastActivityTime == now
    ensures r.pages == s.pages && r.status == s.status
  {
    s.(framesReceived := s.framesReceived + 1, invalidFrames := s.invalidFrames + 1, lastActivityTime := now)
  }

  // Status -----------------------------------------------------------------------------

  predicate AnyValid(s: Service)
    requires |s.pages| == 4
  {
    s.pages[0].valid || s.pages[1].valid || s.pages[2].valid || s.pages[3].valid
  }

  /** `updateStatus`: traffic within the last 15 s means VALID when some
      page holds data and ACTIVE otherwise. Without traffic the status is
      INACTIVE, and data older than 30 s is no longer valid. */
  function UpdateStatus(s: Service, now: nat): (r: Service)
    requires Valid(s)
    ensures Valid(r)
    ensures r.status == MonitorValid <==> Since(now, s.lastActivityTime) < ActivityTimeoutMs && AnyValid(s)
    ensures r.status == MonitorActive <==> Since(now, s.lastActivityTime) < ActivityTimeoutMs && !AnyValid(s)
    ensures Since(now, s.lastActivityTime) >= ActivityTimeoutMs && Since(now, s.lastUpdateTime) > 2 * ActivityTimeoutMs ==>
              forall i :: 0 <= i < 4 ==> !r.pages[i].valid
    ensures Since(now, s.lastActivityTime) < ActivityTimeoutMs || Since(now, s.lastUpdateTime) <= 2 * ActivityTimeoutMs ==>
              r.pages == s.pages
    ensures forall i :: 0 <= i < 4 ==> r.pages[i].registers == s.pages[i].registers
    ensures forall i :: 0 <= i < 4 ==> r.pages[i].valid ==> s.pages[i].valid
    ensures r == s.(status := r.status, pages := r.pages)
  {
    if Since(now, s.lastActivityTime) < ActivityTimeoutMs then
      s.(status := if AnyValid(s) then MonitorValid else MonitorActive)
    else if Since(now, s.lastUpdateTime) > ActivityTimeoutMs * 2 then
      s.(status := MonitorInactive, pages := seq(4, i requires 0 <= i < 4 => s.pages[i].(valid := false)))
    else
      s.(status := MonitorInactive)
  }

  /** `loop`: nothing unless the service is CONNECTED with a client. Then
      the status is refreshed once a second and the next page requested
      every ten seconds. */
  function Loop(s: Service, now: nat, queued: bool): (r: Service)
    requires Valid(s)
    ensures Valid(r)
    ensures !ServiceBase.IsConnected(s.base) || !s.clientInitialized ==> r == s
    ensures ServiceBase.IsConnected(s.base) && s.clientInitialized ==>
              && (Since(now, s.lastStatusUpdate) >= StatusUpdateIntervalMs ==>
                    r.lastStatusUpdate == now && r.status == UpdateStatus(s, now).status)
              && (Since(now, s.lastStatusUpdate) < StatusUpdateIntervalMs ==>
                    r.lastStatusUpdate == s.lastStatusUpdate && r.status == s.status)
              && (Since(now, s.lastRequestTime) >= RequestIntervalMs ==>
                    var refreshed := if Since(now, s.lastStatusUpdate) >= StatusUpdateIntervalMs
                                     then UpdateStatus(s, now).(lastStatusUpdate := now) else s;
                    r == RequestNextPage(refreshed, queued).(lastRequestTime := now))
              && (Since(now, s.lastRequestTime) < RequestIntervalMs ==> r.sent == s.sent && r.nextToken == s.nextToken)
    ensures Counted(r) && r.framesReceived == s.framesReceived
  {
    if !ServiceBase.IsConnected(s.base) || !s.clientInitialized then s
    else
      var s1 := if Since(now, s.lastStatusUpdate) >= StatusUpdateIntervalMs
                then UpdateStatus(s, now).(lastStatusUpdate := now) else s;
      if Since(now, s1.lastRequestTime) >= RequestIntervalMs
      then RequestNextPage(s1, queued).(lastRequestTime := now) else s1
  }

  /** A connected loop whose request is due asks for the current page,
      whether or not the status was refreshed first, and moves on to the
      next page when the client queues it. */
  lemma DueLoopRequestsPage(s: Service, now: nat)
    requires Valid(s) && ServiceBase.IsConnected(s.base) && s.clientInitialized && IsPage(s.currentPage)
    requires Since(now, s.lastRequestTime) >= RequestIntervalMs
    ensures var r := Loop(s, now, true);
            && r.sent == s.sent + [Request(s.nextToken, s.slaveId, PageAddress(s.currentPage), PageSize(s.currentPage))]
            && r.currentPage == NextPage(s.currentPage) && r.nextToken == s.nextToken + 1
            && r.lastRequestTime == now
  {
    var s1 := if Since(now, s.lastStatusUpdate) >= StatusUpdateIntervalMs
              then UpdateStatus(s, now).(lastStatusUpdate := now) else s;
    assert s1.sent == s.sent && s1.currentPage == s.currentPage && s1.nextToken == s.nextToken;
    assert s1.slaveId == s.slaveId && s1.clientInitialized;
  }
}
