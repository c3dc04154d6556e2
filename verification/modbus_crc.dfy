/**
 The CRC-16 of Modbus RTU, as the sniffer in `exclude/modbusMonitor.cpp`
 computes and checks it. The reference definition follows section 2.5.1.2
 and Appendix B of the Modbus over Serial Line Specification V1.02: the
 register starts at 0xFFFF, each byte is XORed into its low half, and eight
 right shifts follow, each XORing in the reflected polynomial 0xA001 when a
 one falls out. There is no final XOR. The CRC travels low byte first.
 */
module Crc16 {

  const Initial: bv16 := 0xFFFF
  const Polynomial: bv16 := 0xA001

  /** One shift of the register. */
  function Shift(c: bv16): bv16 {
    if c & 1 == 1 then (c >> 1) ^ Polynomial else c >> 1
  }

  /** `n` shifts of the register. */
  function Shifts(c: bv16, n: nat): bv16 {
    if n == 0 then c else Shift(Shifts(c, n - 1))
  }

  /** The register after one more byte. */
  function Step(c: bv16, b: bv8): bv16 {
    Shifts(c ^ (b as bv16), 8)
  }

  /** The CRC of a message: the register after every byte, first byte first. */
  function Crc(data: seq<bv8>): bv16 {
    if |data| == 0 then Initial else Step(Crc(data[..|data| - 1]), data[|data| - 1])
  }

  /** The two bytes of a 16-bit value. */
  function Lo(c: bv16): bv8 {
    (c & 0xFF) as bv8
  }

  function Hi(c: bv16): bv8 {
    (c >> 8) as bv8
  }

  /** The value whose low byte comes first on the wire. */
  function Join(lo: bv8, hi: bv8): (c: bv16)
    ensures Lo(c) == lo && Hi(c) == hi
  {
    (lo as bv16) | ((hi as bv16) << 8)
  }

  lemma SplitJoin(c: bv16)
    ensures Join(Lo(c), Hi(c)) == c
  {
  }

  /** The trailer appended to a message: its CRC, low byte first. */
  function Trailer(data: seq<bv8>): (t: seq<bv8>)
    ensures |t| == 2 && Join(t[0], t[1]) == Crc(data)
  {
    SplitJoin(Crc(data));
    [Lo(Crc(data)), Hi(Crc(data))]
  }

  /** `calculateCRC`: a byte loop around an eight-step bit loop, the shift
      written as an if-statement. The length is a `uint8_t`. */
  method CalculateCrc(data: seq<bv8>) returns (crc: bv16)
    requires |data| <= 255
    ensures crc == Crc(data)
  {
    crc := Initial;
    var i := 0;
    while i < |data|
      invariant 0 <= i <= |data|
      invariant crc == Crc(data[..i])
    {
      assert data[..i + 1][..i] == data[..i];
      var start := crc ^ (data[i] as bv16);
      crc := start;
      var j := 0;
      while j < 8
        invariant 0 <= j <= 8
        invariant crc == Shifts(start, j)
      {
        if crc & 1 == 1 {
          crc := (crc >> 1) ^ 0xA001;
        } else {
          crc := crc >> 1;
        }
        j := j + 1;
      }
      i := i + 1;
    }
    assert data[..|data|] == data;
  }

  /** `modbusCRC`: the same register update written with a conditional
      expression. It computes the same function as `calculateCRC`. */
  method ModbusCrc(data: seq<bv8>) returns (crc: bv16)
    requires |data| <= 255
    ensures crc == Crc(data)
  {
    crc := 0xFFFF;
    for i := 0 to |data|
      invariant crc == Crc(data[..i])
    {
      assert data[..i + 1][..i] == data[..i];
      var bits := 0;
      ghost var start := crc ^ (data[i] as bv16);
      crc := crc ^ (data[i] as bv16);
      while bits < 8
        invariant bits <= 8
        invariant crc == Shifts(start, bits)
      {
        crc := if crc & 1 == 1 then (crc >> 1) ^ 0xA001 else crc >> 1;
        bits := bits + 1;
      }
    }
    assert data[..|data|] == data;
  }

  /** `validateCRC`: the last two bytes, low byte first, must equal the CRC
      of everything before them. The length is a `uint8_t` of at least two. */
  function ValidateCrc(data: seq<bv8>): (ok: bool)
    requires 2 <= |data| <= 255
    ensures ok <==> data[|data| - 2..] == Trailer(data[..|data| - 2])
  {
    var received := Join(data[|data| - 2], data[|data| - 1]);
    var t := Trailer(data[..|data| - 2]);
    assert received == Crc(data[..|data| - 2]) ==> data[|data| - 2..] == t by {
      if received == Crc(data[..|data| - 2]) {
        SplitJoin(received);
      }
    }
    received == Crc(data[..|data| - 2])
  }

  /** A message followed by its trailer validates, and a validating frame is
      its body followed by the body's trailer. */
  lemma AppendValidates(body: seq<bv8>)
    requires |body| <= 253
    ensures var frame := body + Trailer(body);
            && |frame| == |body| + 2
            && frame[..|body|] == body
            && ValidateCrc(frame)
  {
    var frame := body + Trailer(body);
    assert frame[..|body|] == body;
    assert frame[|frame| - 2..] == Trailer(body);
  }

  lemma ValidatingSplits(frame: seq<bv8>)
    requires 2 <= |frame| <= 255 && ValidateCrc(frame)
    ensures frame == frame[..|frame| - 2] + Trailer(frame[..|frame| - 2])
  {
    assert frame == frame[..|frame| - 2] + frame[|frame| - 2..];
  }

  /** Running the register over a message and its trailer leaves zero: the
      residue of CRC-16/MODBUS. */
  lemma Residue(c: bv16)
    ensures Step(Step(c, Lo(c)), Hi(c)) == 0
  {
    LowByteStep(c);
    HighByteStep(Hi(c));
  }

  /** The low byte of the CRC leaves the register holding the high byte. */
  lemma LowByteStep(c: bv16)
    ensures Step(c, Lo(c)) == Hi(c) as bv16
  {
    assert c ^ (Lo(c) as bv16) == c & 0xFF00;
    HighByteShifts(c);
  }

  /** A byte stepped into a register holding just that byte leaves zero. */
  lemma HighByteStep(h: bv8)
    ensures Step(h as bv16, h) == 0
  {
    assert (h as bv16) ^ (h as bv16) == 0;
    EightShifts(0);
  }

  /** With the low byte clear no one falls out during eight shifts, so the
      register ends up holding its old high byte. */
  lemma HighByteShifts(c: bv16)
    ensures Shifts(c & 0xFF00, 8) == c >> 8
  {
    var x := c & 0xFF00;
    assert Shift(x) == x >> 1;
    assert Shift(x >> 1) == x >> 2;
    assert Shift(x >> 2) == x >> 3;
    assert Shift(x >> 3) == x >> 4;
    assert Shift(x >> 4) == x >> 5;
    assert Shift(x >> 5) == x >> 6;
    assert Shift(x >> 6) == x >> 7;
    assert Shift(x >> 7) == x >> 8;
    EightShifts(x);
  }

  /** The register after one more byte, spelled out shift by shift, so that
      known registers can be stepped through. */
  lemma CrcStep(d: seq<bv8>, b: bv8, c: bv16, e: seq<bv8>)
    requires Crc(d) == c && e == d + [b]
    ensures Crc(e) == Shift(Shift(Shift(Shift(Shift(Shift(Shift(Shift(c ^ (b as bv16)))))))))
  {
    assert e[..|d|] == d;
    EightShifts(c ^ (b as bv16));
  }

  lemma EightShifts(c: bv16)
    ensures Shifts(c, 8) == Shift(Shift(Shift(Shift(Shift(Shift(Shift(Shift(c))))))))
  {
    assert Shifts(c, 1) == Shift(c);
    assert Shifts(c, 2) == Shift(Shifts(c, 1));
    assert Shifts(c, 3) == Shift(Shifts(c, 2));
    assert Shifts(c, 4) == Shift(Shifts(c, 3));
    assert Shifts(c, 5) == Shift(Shifts(c, 4));
    assert Shifts(c, 6) == Shift(Shifts(c, 5));
    assert Shifts(c, 7) == Shift(Shifts(c, 6));
  }
}
