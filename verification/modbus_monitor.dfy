/**
 The bus sniffer of `exclude/modbusMonitor.cpp`. It polls a DSE generator
 controller for three register pages in turn, and recognises the traffic
 byte by byte: a request whose eight bytes equal one of the three known polls
 selects a page, and the response that follows is collected until the page's
 length is reached, then checked and either parsed or counted as invalid.
 The register parsing itself is floating point and is represented by the log
 of frames handed to it.
 */
module ModbusMonitor {
  import opened Crc16
  import Types

  const SlaveId: bv8 := 0x0A
  const ReadHoldingRegisters: bv8 := 0x03
  const PatternLength: nat := 8
  /** The receive buffer holds 262 bytes; the last index is kept free. */
  const BufferSize: nat := 262
  const BufferIndexMax: nat := BufferSize - 1

  /** The three polls on the wire, CRC included. */
  const Pattern4: seq<bv8> := [0x0A, 0x03, 0x04, 0x00, 0x00, 0x41, 0x85, 0xB1]
  const Pattern5: seq<bv8> := [0x0A, 0x03, 0x05, 0x0A, 0x00, 0x02, 0xE5, 0xBE]
  const Pattern7: seq<bv8> := [0x0A, 0x03, 0x07, 0x00, 0x00, 0x16, 0xC4, 0x0B]
  const Patterns: seq<seq<bv8>> := [Pattern4, Pattern5, Pattern7]

  /** A poll: the first register and how many to read. */
  datatype Target = Target(startReg: bv16, regCount: bv8)

  const Targets: seq<Target> := [Target(1024, 65), Target(1290, 2), Target(1792, 22)]
  /** The page number each polling target stands for. */
  const Pages: seq<int> := [4, 5, 7]

  /** The status the sniffer publishes. The enumeration is declared outside
      the modelled files; its four values are the ones the sniffer sets. */
  datatype ModbusStatus = NotActive | Active | ActiveValidData | ActiveInvalidData

  datatype Phase = Start | Header | Data

  datatype Monitor = Monitor(
    phase: Phase,
    buffer: seq<bv8>,        // dataBuffer[0 .. bufferIndex)
    pageMatch: int,
    expected: int,           // pageBytesExpected
    status: ModbusStatus,
    pollIndex: int,          // lastPollingPageIndex
    parsed: seq<seq<bv8>>)   // frames handed to parseFrameData

  /** The response data byte count a page announces. */
  function PageByteCount(page: int): (n: nat)
    ensures page in Pages ==> n == 2 * Targets[PageIndex(page)].regCount as nat
  {
    if page == 4 then 0x82 else if page == 5 then 0x04 else if page == 7 then 0x2C else 0
  }

  /** The polling target of a page. */
  function PageIndex(page: int): (i: nat)
    requires page in Pages
    ensures i < |Pages| && Pages[i] == page
  {
    if page == 4 then 0 else if page == 5 then 1 else 2
  }

  /** A frame that reached the parser: from the controller, a register read,
      one of the three byte counts, its length that count plus five, and a
      good CRC. */
  predicate Genuine(f: seq<bv8>) {
    && 3 <= |f| <= 255
    && f[0] == SlaveId && f[1] == ReadHoldingRegisters
    && (exists i :: 0 <= i < |Pages| && f[2] as int == PageByteCount(Pages[i]) && |f| == PageByteCount(Pages[i]) + 5)
    && ValidateCrc(f)
  }

  predicate Valid(m: Monitor) {
    && 0 <= m.pollIndex < |Targets|
    && (m.phase == Start ==> m.buffer == [] && m.pageMatch == 0 && m.expected == 0)
    && (m.phase == Header ==> 1 <= |m.buffer| < PatternLength && m.pageMatch == 0 && m.expected == 0)
    && (m.phase == Data ==> m.pageMatch in Pages && m.expected == GetPageByteSize(m.pageMatch) && |m.buffer| < m.expected)
    && (forall i :: 0 <= i < |m.parsed| ==> Genuine(m.parsed[i]))
  }

  /** The sniffer once its serial port is open: waiting for a start byte,
      status NOT_ACTIVE, first target page 4. */
  function Init(): (m: Monitor)
    ensures Valid(m) && m.phase == Start && m.status == NotActive && m.parsed == []
    ensures m.buffer == [] && m.pollIndex == 0 && Pages[m.pollIndex] == 4
  {
    Monitor(Start, [], 0, 0, NotActive, 0, [])
  }

  /** `resetMonitorState`: back to waiting for a start byte. */
  function Reset(m: Monitor): (r: Monitor)
    ensures r.phase == Start && r.buffer == [] && r.pageMatch == 0 && r.expected == 0
    ensures r.status == m.status && r.pollIndex == m.pollIndex && r.parsed == m.parsed
  {
    m.(phase := Start, buffer := [], pageMatch := 0, expected := 0)
  }

  // Polling ------------------------------------------------------------------

  /** The Read Holding Registers request of section 6.3 of the MODBUS
      Application Protocol Specification V1.1b3: slave, function, start
      register high then low, count high (always zero) and low, then the CRC
      low byte first. */
  function PollFrame(t: Target): (f: seq<bv8>)
    ensures |f| == 8
    ensures f[..6] == [SlaveId, ReadHoldingRegisters, Hi(t.startReg), Lo(t.startReg), 0x00, t.regCount]
    ensures ValidateCrc(f)
  {
    var body := [SlaveId, ReadHoldingRegisters, Hi(t.startReg), Lo(t.startReg), 0x00, t.regCount];
    AppendValidates(body);
    body + Trailer(body)
  }

  /** `sendNextPollingCommand`: the recogniser is reset, the current target's
      poll is sent, and the next target becomes current, wrapping after the
      third. */
  function SendNextPoll(m: Monitor): (res: (Monitor, seq<bv8>))
    requires Valid(m)
    ensures Valid(res.0)
    ensures res.1 == PollFrame(Targets[m.pollIndex])
    ensures res.0 == Reset(m).(pollIndex := res.0.pollIndex)
    ensures res.0.pollIndex == if m.pollIndex == 2 then 0 else m.pollIndex + 1
  {
    (Reset(m).(pollIndex := (m.pollIndex + 1) % 3), PollFrame(Targets[m.pollIndex]))
  }

  /** Three polls bring the target back to where it was, sending pages 4, 5
      and 7 in that order from the start. */
  lemma PollCycle(m: Monitor)
    requires Valid(m) && m.pollIndex == 0
    ensures var (m1, f1) := SendNextPoll(m);
            var (m2, f2) := SendNextPoll(m1);
            var (m3, f3) := SendNextPoll(m2);
            && m3.pollIndex == m.pollIndex
            && f1 == PollFrame(Targets[0]) && f2 == PollFrame(Targets[1]) && f3 == PollFrame(Targets[2])
  {
  }

  /** Each built poll is, byte for byte, the pattern the recogniser waits
      for. */
  lemma PollsArePatterns()
    ensures forall i :: 0 <= i < |Targets| ==> PollFrame(Targets[i]) == Patterns[i]
  {
    Poll4IsPattern();
    Poll5IsPattern();
    Poll7IsPattern();
  }

  /** Every poll starts with the slave ID and the read function code. */
  lemma PollPrefix()
    ensures Crc([0x0A, 0x03]) == 0x1147
  {
    CrcStep([], 0x0A, 0xFFFF, [0x0A]);
    CrcStep([0x0A], 0x03, 0x473F, [0x0A, 0x03]);
  }

  lemma Poll4IsPattern()
    ensures PollFrame(Targets[0]) == Pattern4
  {
    PollPrefix();
    CrcStep([0x0A, 0x03], 0x04, 0x1147, [0x0A, 0x03, 0x04]);
    CrcStep([0x0A, 0x03, 0x04], 0x00, 0xF150, [0x0A, 0x03, 0x04, 0x00]);
    CrcStep([0x0A, 0x03, 0x04, 0x00], 0x00, 0x3CF1, [0x0A, 0x03, 0x04, 0x00, 0x00]);
    CrcStep([0x0A, 0x03, 0x04, 0x00, 0x00], 0x41, 0x84FD, [0x0A, 0x03, 0x04, 0x00, 0x00, 0x41]);
  }

  lemma Poll5IsPattern()
    ensures PollFrame(Targets[1]) == Pattern5
  {
    PollPrefix();
    CrcStep([0x0A, 0x03], 0x05, 0x1147, [0x0A, 0x03, 0x05]);
    CrcStep([0x0A, 0x03, 0x05], 0x0A, 0x3191, [0x0A, 0x03, 0x05, 0x0A]);
    CrcStep([0x0A, 0x03, 0x05, 0x0A], 0x00, 0xAB70, [0x0A, 0x03, 0x05, 0x0A, 0x00]);
    CrcStep([0x0A, 0x03, 0x05, 0x0A, 0x00], 0x02, 0xE4AA, [0x0A, 0x03, 0x05, 0x0A, 0x00, 0x02]);
  }

  lemma Poll7IsPattern()
    ensures PollFrame(Targets[2]) == Pattern7
  {
    PollPrefix();
    CrcStep([0x0A, 0x03], 0x07, 0x1147, [0x0A, 0x03, 0x07]);
    CrcStep([0x0A, 0x03, 0x07], 0x00, 0xF010, [0x0A, 0x03, 0x07, 0x00]);
    CrcStep([0x0A, 0x03, 0x07, 0x00], 0x00, 0xCCF1, [0x0A, 0x03, 0x07, 0x00, 0x00]);
    CrcStep([0x0A, 0x03, 0x07, 0x00, 0x00], 0x16, 0x840D, [0x0A, 0x03, 0x07, 0x00, 0x00, 0x16]);
  }

  // Recognising frames ----------------------------------------------------------

  /** `matchPageHeader`: the page whose poll the eight header bytes equal,
      or 0. */
  function MatchPageHeader(h: seq<bv8>): (id: int)
    requires |h| == PatternLength
    ensures id == 0 || id in Pages
    ensures id == 0 <==> h !in Patterns
    ensures id in Pages ==> h == Patterns[PageIndex(id)]
  {
    // The source scans all three patterns and keeps the last match.
    if h == Pattern7 then 7 else if h == Pattern5 then 5 else if h == Pattern4 then 4 else 0
  }

  /** `getPageByteSize`: the whole response length of a page, 0 for any
      other number. */
  function GetPageByteSize(page: int): (n: int)
    ensures page in Pages ==> n == PageByteCount(page) + 5
    ensures page !in Pages ==> n == 0
  {
    if page == 4 then 0x87 else if page == 5 then 0x09 else if page == 7 then 0x31 else 0
  }

  /** Why `validateFrame` rejects a frame, checked in this order. */
  datatype Verdict = Accepted | WrongSlave | WrongFunction | WrongByteCount | BadCrc

  /** `validateFrame`: slave ID, function code, the byte count expected for
      the matched page (no count check for any other page number), then the
      CRC over the whole collected frame. */
  function ValidateFrame(f: seq<bv8>, pageMatch: int): (v: Verdict)
    requires 3 <= |f| <= 255
    ensures v == WrongSlave <==> f[0] != SlaveId
    ensures v == WrongFunction <==> f[0] == SlaveId && f[1] != ReadHoldingRegisters
    ensures v == WrongByteCount <==>
              f[0] == SlaveId && f[1] == ReadHoldingRegisters && pageMatch in Pages && f[2] as int != PageByteCount(pageMatch)
    ensures v == Accepted <==>
              && f[0] == SlaveId && f[1] == ReadHoldingRegisters
              && (pageMatch in Pages ==> f[2] as int == PageByteCount(pageMatch))
              && f[|f| - 2..] == Trailer(f[..|f| - 2])
  {
    if f[0] != SlaveId then WrongSlave
    else if f[1] != ReadHoldingRegisters then WrongFunction
    else if pageMatch == 4 && f[2] != 0x82 then WrongByteCount
    else if pageMatch == 5 && f[2] != 0x04 then WrongByteCount
    else if pageMatch == 7 && f[2] != 0x2C then WrongByteCount
    else if ValidateCrc(f) then Accepted
    else BadCrc
  }

  /** The response a controller sends for a page: header, data, CRC. */
  function Response(page: int, data: seq<bv8>): (f: seq<bv8>)
    requires page in Pages && |data| == PageByteCount(page)
    ensures |f| == GetPageByteSize(page)
  {
    var body := [SlaveId, ReadHoldingRegisters, PageByteCount(page) as bv8] + data;
    body + Trailer(body)
  }

  /** A page's response is accepted for that page, and an accepted frame of
      the page's length is that page's response to its own data bytes. */
  lemma ResponseAccepted(page: int, data: seq<bv8>)
    requires page in Pages && |data| == PageByteCount(page)
    ensures ValidateFrame(Response(page, data), page) == Accepted
  {
    var f := Response(page, data);
    ResponseParts(page, data);
    assert f[|f| - 2..] == Trailer(f[..|f| - 2]);
  }

  /** The header bytes, body and trailer of a page's response. */
  lemma ResponseParts(page: int, data: seq<bv8>)
    requires page in Pages && |data| == PageByteCount(page)
    ensures var f := Response(page, data);
            var body := [SlaveId, ReadHoldingRegisters, PageByteCount(page) as bv8] + data;
            && f[0] == SlaveId && f[1] == ReadHoldingRegisters && f[2] as int == PageByteCount(page)
            && f[..|f| - 2] == body && f[|f| - 2..] == Trailer(body)
  {
    var count := PageByteCount(page) as bv8;
    assert count as int == PageByteCount(page) by {
      if page == 4 { assert count == 0x82; } else if page == 5 { assert count == 0x04; } else { assert count == 0x2C; }
    }
    var body := [SlaveId, ReadHoldingRegisters, count] + data;
    var f := body + Trailer(body);
    assert f[..|body|] == body;
    assert f[|body|..] == Trailer(body);
  }

  lemma AcceptedIsResponse(page: int, f: seq<bv8>)
    requires page in Pages && |f| == GetPageByteSize(page)
    requires ValidateFrame(f, page) == Accepted
    ensures f == Response(page, f[3..|f| - 2])
  {
    var body := f[..|f| - 2];
    ValidatingSplits(f);
    assert body == [SlaveId, ReadHoldingRegisters, PageByteCount(page) as bv8] + f[3..|f| - 2];
  }

  /** `processModbusSerial`: one received byte. */
  function Receive(m: Monitor, b: bv8): (r: Monitor)
    requires Valid(m)
    ensures Valid(r)
    ensures r.pollIndex == m.pollIndex
    ensures m.phase == Start ==> r == if b == SlaveId then m.(phase := Header, buffer := [b]) else m
    ensures m.phase == Header && |m.buffer| + 1 < PatternLength ==> r == m.(buffer := m.buffer + [b])
    ensures m.phase == Header && |m.buffer| + 1 == PatternLength ==>
              var id := MatchPageHeader(m.buffer + [b]);
              r == if id == 0 then Reset(m) else m.(phase := Data, buffer := [], pageMatch := id, expected := GetPageByteSize(id))
    ensures m.phase == Data && |m.buffer| + 1 < m.expected ==> r == m.(buffer := m.buffer + [b])
    ensures m.phase == Data && |m.buffer| + 1 == m.expected ==>
              var f := m.buffer + [b];
              && r.phase == Start && r.buffer == []
              && (r.status == ActiveValidData <==> ValidateFrame(f, m.pageMatch) == Accepted)
              && (r.status != ActiveValidData ==> r.status == ActiveInvalidData && r.parsed == m.parsed)
              && (r.status == ActiveValidData ==> r.parsed == m.parsed + [f])
  {
    match m.phase
    case Start =>
      if b == SlaveId then m.(phase := Header, buffer := [b]) else m
    case Header =>
      // The header never nears the end of the buffer.
      var h := m.buffer + [b];
      if |h| == PatternLength then
        var id := MatchPageHeader(h);
        if id == 0 then Reset(m)
        else m.(phase := Data, buffer := [], pageMatch := id, expected := GetPageByteSize(id))
      else m.(buffer := h)
    case Data =>
      // A data phase ends exactly at the expected length, far inside the
      // buffer, so neither overflow branch of the source is ever taken.
      var f := m.buffer + [b];
      if |f| == m.expected then
        if ValidateFrame(f, m.pageMatch) == Accepted then
          assert Genuine(f);
          Reset(m).(status := ActiveValidData, parsed := m.parsed + [f])
        else
          Reset(m).(status := ActiveInvalidData)
      else m.(buffer := f)
  }

  /** Several received bytes, in order. */
  function Feed(m: Monitor, bytes: seq<bv8>): (r: Monitor)
    requires Valid(m)
    ensures Valid(r) && r.pollIndex == m.pollIndex
    decreases |bytes|
  {
    if bytes == [] then m else Feed(Receive(m, bytes[0]), bytes[1..])
  }

  /** While waiting for a start byte and while collecting, the published
      status does not change. */
  lemma QuietUntilFrameEnds(m: Monitor, b: bv8)
    requires Valid(m)
    requires m.phase != Data || |m.buffer| + 1 < m.expected
    ensures Receive(m, b).status == m.status && Receive(m, b).parsed == m.parsed
  {
  }

  /** Collecting the rest of a header ends in the page's data phase when the
      header is a known poll, and back at the start otherwise. */
  lemma {:induction false} HeaderFill(m: Monitor, rest: seq<bv8>)
    requires Valid(m) && m.phase == Header
    requires |m.buffer| + |rest| == PatternLength
    ensures var id := MatchPageHeader(m.buffer + rest);
            Feed(m, rest) == if id == 0 then Reset(m) else m.(phase := Data, buffer := [], pageMatch := id, expected := GetPageByteSize(id))
    decreases |rest|
  {
    var m1 := Receive(m, rest[0]);
    if |rest| > 1 {
      assert m.buffer + rest == m1.buffer + rest[1..];
      HeaderFill(m1, rest[1..]);
    } else {
      assert rest[1..] == [];
      assert m.buffer + rest == m.buffer + [rest[0]];
    }
  }

  /** Collecting the rest of a response ends back at the start, with the
      frame parsed exactly when `validateFrame` accepts it. */
  lemma {:induction false} DataFill(m: Monitor, rest: seq<bv8>)
    requires Valid(m) && m.phase == Data
    requires |m.buffer| + |rest| == m.expected
    ensures var r := Feed(m, rest);
            var f := m.buffer + rest;
            && r.phase == Start && r.pollIndex == m.pollIndex
            && (ValidateFrame(f, m.pageMatch) == Accepted ==> r.status == ActiveValidData && r.parsed == m.parsed + [f])
            && (ValidateFrame(f, m.pageMatch) != Accepted ==> r.status == ActiveInvalidData && r.parsed == m.parsed)
    decreases |rest|
  {
    var m1 := Receive(m, rest[0]);
    if |rest| > 1 {
      assert m.buffer + rest == m1.buffer + rest[1..];
      DataFill(m1, rest[1..]);
    } else {
      assert rest[1..] == [];
      assert m.buffer + rest == m.buffer + [rest[0]];
    }
  }

  lemma {:induction false} FeedAppend(m: Monitor, a: seq<bv8>, b: seq<bv8>)
    requires Valid(m)
    ensures Feed(m, a + b) == Feed(Feed(m, a), b)
    decreases |a|
  {
    if a == [] {
      assert a + b == b;
    } else {
      assert (a + b)[0] == a[0] && (a + b)[1..] == a[1..] + b;
      FeedAppend(Receive(m, a[0]), a[1..], b);
    }
  }

  /** A poll heard from the start selects its page. */
  lemma PollSelectsPage(m: Monitor, i: nat)
    requires Valid(m) && m.phase == Start && i < |Patterns|
    ensures Feed(m, Patterns[i]) == m.(phase := Data, buffer := [], pageMatch := Pages[i], expected := GetPageByteSize(Pages[i]))
  {
    PatternNamesPage(i);
    KnownHeaderFromStart(m, Patterns[i]);
  }

  /** A known header heard from the start opens its page's data phase. */
  lemma KnownHeaderFromStart(m: Monitor, p: seq<bv8>)
    requires Valid(m) && m.phase == Start
    requires |p| == PatternLength && p[0] == SlaveId && MatchPageHeader(p) != 0
    ensures Feed(m, p) == m.(phase := Data, buffer := [], pageMatch := MatchPageHeader(p), expected := GetPageByteSize(MatchPageHeader(p)))
  {
    var m1 := m.(phase := Header, buffer := [p[0]]);
    FeedFromStart(m, p);
    HeaderFill(m1, p[1..]);
  }

  /** A slave ID heard while waiting starts a header. */
  lemma FeedFromStart(m: Monitor, p: seq<bv8>)
    requires Valid(m) && m.phase == Start && |p| > 0 && p[0] == SlaveId
    ensures Valid(m.(phase := Header, buffer := [p[0]]))
    ensures Feed(m, p) == Feed(m.(phase := Header, buffer := [p[0]]), p[1..])
    ensures m.(phase := Header, buffer := [p[0]]).buffer + p[1..] == p
  {
    assert Receive(m, p[0]) == m.(phase := Header, buffer := [p[0]]);
    assert [p[0]] + p[1..] == p;
  }

  /** Each pattern starts with the slave ID and is told from the others by
      its third byte. */
  lemma PatternNamesPage(i: nat)
    requires i < |Patterns|
    ensures |Patterns[i]| == PatternLength && Patterns[i][0] == SlaveId
    ensures MatchPageHeader(Patterns[i]) == Pages[i]
  {
    assert Pattern4[2] == 0x04 && Pattern5[2] == 0x05 && Pattern7[2] == 0x07;
  }

  /** A poll heard from the start, followed by the controller's response to
      it, is recognised: the frame reaches the parser and the status reports
      valid data. */
  lemma PollThenResponse(m: Monitor, i: nat, data: seq<bv8>)
    requires Valid(m) && m.phase == Start && i < |Targets|
    requires |data| == PageByteCount(Pages[i])
    ensures var r := Feed(m, Patterns[i] + Response(Pages[i], data));
            && r.phase == Start
            && r.status == ActiveValidData
            && r.parsed == m.parsed + [Response(Pages[i], data)]
  {
    var resp := Response(Pages[i], data);
    FeedAppend(m, Patterns[i], resp);
    PollSelectsPage(m, i);
    var m2 := Feed(m, Patterns[i]);
    DataFill(m2, resp);
    assert m2.buffer + resp == resp;
    ResponseAccepted(Pages[i], data);
  }

  /** A response heard without its poll is never parsed: in the start phase
      only the slave byte opens a header, and the response's third byte is
      a byte count where every poll has a page number. */
  lemma ResponseAloneIsNotAHeader(page: int, data: seq<bv8>)
    requires (page == 4 || page == 7) && |data| == PageByteCount(page)
    ensures Response(page, data)[..PatternLength] !in Patterns
  {
    assert Response(page, data)[2] == PageByteCount(page) as bv8;
  }

  /** The converse fails for page 5: its response carrying the data bytes
      00 00 41 85 begins with the page-4 poll, because that poll's own CRC
      is 0xB185. A sniffer that starts listening between a page-5 poll and
      its response takes such a response for a page-4 poll. */
  lemma Page5ResponseMimicsPoll4()
    ensures Response(5, [0x00, 0x00, 0x41, 0x85])[..PatternLength] == Pattern4
  {
    CrcStep([], 0x0A, 0xFFFF, [0x0A]);
    CrcStep([0x0A], 0x03, 0x473F, [0x0A, 0x03]);
    CrcStep([0x0A, 0x03], 0x04, 0x1147, [0x0A, 0x03, 0x04]);
    CrcStep([0x0A, 0x03, 0x04], 0x00, 0xF150, [0x0A, 0x03, 0x04, 0x00]);
    CrcStep([0x0A, 0x03, 0x04, 0x00], 0x00, 0x3CF1, [0x0A, 0x03, 0x04, 0x00, 0x00]);
    CrcStep([0x0A, 0x03, 0x04, 0x00, 0x00], 0x41, 0x84FD, [0x0A, 0x03, 0x04, 0x00, 0x00, 0x41]);
    CrcStep([0x0A, 0x03, 0x04, 0x00, 0x00, 0x41], 0x85, 0xB185, [0x0A, 0x03, 0x04, 0x00, 0x00, 0x41, 0x85]);
    var body: seq<bv8> := [0x0A, 0x03, 0x04, 0x00, 0x00, 0x41, 0x85];
    assert [SlaveId, ReadHoldingRegisters, PageByteCount(5) as bv8] + [0x00, 0x00, 0x41, 0x85] == body;
    assert Crc(body) == 0x00B1;
  }

  // Register values -----------------------------------------------------------------

  const TwoTo31: int := 0x8000_0000
  const TwoTo32: int := 0x1_0000_0000

  /** `convertTo32bits`: four bytes, most significant first, stored in a
      32-bit signed `long`, so a leading byte of 0x80 or more reads as a
      negative number. */
  function ConvertTo32Bits(b1: Types.Byte, b2: Types.Byte, b3: Types.Byte, b4: Types.Byte): (r: int)
    ensures -TwoTo31 <= r < TwoTo31
    ensures r < 0 <==> b1 >= 0x80
    ensures Split32(r) == [b1, b2, b3, b4]
  {
    var v := Unsigned32(b1, b2, b3, b4);
    SplitUnsigned(b1, b2, b3, b4);
    if v < TwoTo31 then v else v - TwoTo32
  }

  /** The unsigned value of four bytes, most significant first. */
  function Unsigned32(b1: Types.Byte, b2: Types.Byte, b3: Types.Byte, b4: Types.Byte): int {
    b1 as int * 0x100_0000 + b2 as int * 0x1_0000 + b3 as int * 0x100 + b4 as int
  }

  lemma SplitUnsigned(b1: Types.Byte, b2: Types.Byte, b3: Types.Byte, b4: Types.Byte)
    ensures var v := Unsigned32(b1, b2, b3, b4);
            && 0 <= v < TwoTo32 && (v < TwoTo31 <==> b1 < 0x80)
            && v / 0x100_0000 == b1 as int
            && v / 0x1_0000 % 0x100 == b2 as int
            && v / 0x100 % 0x100 == b3 as int
            && v % 0x100 == b4 as int
  {
    var q1, q2, q3 := b1 as int, b1 as int * 0x100 + b2 as int, b1 as int * 0x1_0000 + b2 as int * 0x100 + b3 as int;
    Place24(q1, b2 as int * 0x1_0000 + b3 as int * 0x100 + b4 as int);
    Place16(q2, b3 as int * 0x100 + b4 as int);
    Place8(q3, b4 as int);
    Place8(q1, b2 as int);
    Place8(q2, b3 as int);
  }

  lemma Place24(q: int, r: int)
    requires 0 <= r < 0x100_0000
    ensures (q * 0x100_0000 + r) / 0x100_0000 == q && (q * 0x100_0000 + r) % 0x100_0000 == r
  {
  }

  lemma Place16(q: int, r: int)
    requires 0 <= r < 0x1_0000
    ensures (q * 0x1_0000 + r) / 0x1_0000 == q && (q * 0x1_0000 + r) % 0x1_0000 == r
  {
  }

  lemma Place8(q: int, r: int)
    requires 0 <= r < 0x100
    ensures (q * 0x100 + r) / 0x100 == q && (q * 0x100 + r) % 0x100 == r
  {
  }

  /** The four bytes of a 32-bit two's-complement value, most significant
      first. */
  function Split32(r: int): (bytes: seq<Types.Byte>)
    requires -TwoTo31 <= r < TwoTo31
    ensures |bytes| == 4
  {
    var v := if r < 0 then r + TwoTo32 else r;
    [(v / 0x100_0000) as Types.Byte, (v / 0x10000 % 0x100) as Types.Byte,
     (v / 0x100 % 0x100) as Types.Byte, (v % 0x100) as Types.Byte]
  }
}
