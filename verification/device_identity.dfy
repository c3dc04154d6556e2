/**
 The device's identity strings (`getMacAddress`, `getSerialNumber`). The
 factory MAC read and the SHA-256 digest are foreign: the MAC read is an
 optional six-byte value, and the digest is a function from the input string
 to a digest outcome. The serial number folds the digest, read as one
 big-endian number, modulo 36^8 and writes it as eight base-36 digits.
 */
module DeviceIdentity {
  import opened Types

  const DeviceName: string := "DL1000"
  const MacFailure: string := "00:00:00:00:00:00"
  const SerialFailure: string := "00000000"
  const NoDigestInfo: string := "ERRMD000"
  const DigestFailed: string := "ERRMD001"
  const SerialLength: nat := 8
  /** 36^8. */
  const SerialModulus: nat := 2821109907456
  const Base36Alphabet: string := "0123456789ABCDEFGHIJKLMNOPQRSTUVWXYZ"
  const TwoTo64: nat := 0x1_0000_0000_0000_0000

  /** The digest library's outcome: no SHA-256 available, a failing step, or
      the digest bytes. */
  datatype Digest = Unavailable | Failed | Bytes(bytes: seq<Byte>)

  // MAC address -------------------------------------------------------------

  /** The upper-case hexadecimal digit of a value below 16. */
  function HexDigit(n: nat): (c: char)
    requires n < 16
    ensures IsHex(c)
  {
    if n < 10 then ('0' as int + n) as char else ('A' as int + n - 10) as char
  }

  predicate IsHex(c: char) {
    '0' <= c <= '9' || 'A' <= c <= 'F'
  }

  function HexValue(c: char): (n: nat)
    requires IsHex(c)
    ensures n < 16
  {
    if '0' <= c <= '9' then c as int - '0' as int else c as int - 'A' as int + 10
  }

  lemma HexDigitValue(n: nat)
    requires n < 16
    ensures HexValue(HexDigit(n)) == n
  {
  }

  /** The two digits of `%02X`. */
  function High(b: Byte): char {
    HexDigit(b as nat / 16)
  }

  function Low(b: Byte): char {
    HexDigit(b as nat % 16)
  }

  /** The six bytes as `%02X` pairs joined by ':'. */
  function MacString(b: seq<Byte>): (r: string)
    requires |b| == 6
    ensures |r| == 17
    ensures r[2] == ':' && r[5] == ':' && r[8] == ':' && r[11] == ':' && r[14] == ':'
  {
    [High(b[0]), Low(b[0]), ':', High(b[1]), Low(b[1]), ':', High(b[2]), Low(b[2]), ':',
     High(b[3]), Low(b[3]), ':', High(b[4]), Low(b[4]), ':', High(b[5]), Low(b[5])]
  }

  /** The byte a pair of hex digits denotes. */
  function PairValue(hi: char, lo: char): Byte
    requires IsHex(hi) && IsHex(lo)
  {
    (HexValue(hi) * 16 + HexValue(lo)) as Byte
  }

  /** Whether the two characters from `i` on are hex digits. */
  predicate HexAt(s: string, i: nat) {
    i + 1 < |s| && IsHex(s[i]) && IsHex(s[i + 1])
  }

  /** Whether `s` has the "XX:XX:XX:XX:XX:XX" shape. */
  predicate MacShaped(s: string) {
    && |s| == 17
    && HexAt(s, 0) && HexAt(s, 3) && HexAt(s, 6) && HexAt(s, 9) && HexAt(s, 12) && HexAt(s, 15)
    && s[2] == ':' && s[5] == ':' && s[8] == ':' && s[11] == ':' && s[14] == ':'
  }

  function ByteAt(s: string, i: nat): Byte
    requires HexAt(s, i)
  {
    PairValue(s[i], s[i + 1])
  }

  /** The reading of an "XX:XX:XX:XX:XX:XX" string back into bytes. */
  function ParseMac(s: string): (r: seq<Byte>)
    requires MacShaped(s)
    ensures |r| == 6
  {
    [ByteAt(s, 0), ByteAt(s, 3), ByteAt(s, 6), ByteAt(s, 9), ByteAt(s, 12), ByteAt(s, 15)]
  }

  /** The pair at `i` of `s` is the hex pair of `b`, so it reads back as `b`. */
  lemma PairAt(s: string, i: nat, b: Byte)
    requires i + 1 < |s| && s[i] == High(b) && s[i + 1] == Low(b)
    ensures HexAt(s, i) && ByteAt(s, i) == b
  {
    HexDigitValue(b as nat / 16);
    HexDigitValue(b as nat % 16);
  }

  /** The `k`-th pair of the formatted MAC reads back as the `k`-th byte. */
  lemma PairOf(b: seq<Byte>, k: nat)
    requires |b| == 6 && k < 6
    ensures HexAt(MacString(b), 3 * k) && ByteAt(MacString(b), 3 * k) == b[k]
  {
    var s := MacString(b);
    var i := 3 * k;
    assert s[i] == High(b[k]) && s[i + 1] == Low(b[k]) by {
      if k == 0 { assert i == 0; }
      else if k == 1 { assert i == 3; }
      else if k == 2 { assert i == 6; }
      else if k == 3 { assert i == 9; }
      else if k == 4 { assert i == 12; }
      else { assert i == 15; }
    }
    PairAt(s, i, b[k]);
  }

  /** The formatted MAC has the "XX:XX:XX:XX:XX:XX" shape. */
  lemma MacShapedString(b: seq<Byte>)
    requires |b| == 6
    ensures MacShaped(MacString(b))
  {
  }

  /** The formatted MAC reads back as the bytes it was made from. */
  lemma MacRoundTrip(b: seq<Byte>)
    requires |b| == 6
    ensures MacShaped(MacString(b))
    ensures ParseMac(MacString(b)) == b
  {
    MacShapedString(b);
    PairOf(b, 0); PairOf(b, 1); PairOf(b, 2);
    PairOf(b, 3); PairOf(b, 4); PairOf(b, 5);
    assert b == [b[0], b[1], b[2], b[3], b[4], b[5]];
  }

  /** `getMacAddress`: the all-zero text when the factory MAC cannot be
      read, otherwise its six bytes in upper-case hex. */
  function GetMacAddress(read: Option<seq<Byte>>): (r: string)
    requires read.Some? ==> |read.value| == 6
    ensures |r| == 17
    ensures read.None? ==> r == MacFailure
    ensures read.Some? ==> MacShaped(r) && ParseMac(r) == read.value
  {
    match read
    case None => MacFailure
    case Some(b) => MacRoundTrip(b); MacString(b)
  }

  /** A MAC that really is all zeros cannot be told from a failed read. */
  lemma ZeroMacLooksFailed()
    ensures GetMacAddress(Some([0, 0, 0, 0, 0, 0])) == MacFailure
  {
    assert High(0) == '0' && Low(0) == '0';
  }

  // Base-36 serial number -----------------------------------------------------

  function Pow36(n: nat): (r: nat)
    ensures r > 0
  {
    if n == 0 then 1 else 36 * Pow36(n - 1)
  }

  lemma ModulusIs36To8()
    ensures Pow36(SerialLength) == SerialModulus
  {
  }

  /** The base-36 digit character of a value below 36. */
  function Digit36(n: nat): (c: char)
    requires n < 36
    ensures c == Base36Alphabet[n]
    ensures Is36(c)
  {
    if n < 10 then ('0' as int + n) as char else ('A' as int + n - 10) as char
  }

  predicate Is36(c: char) {
    '0' <= c <= '9' || 'A' <= c <= 'Z'
  }

  function Value36(c: char): (n: nat)
    requires Is36(c)
    ensures n < 36 && Digit36(n) == c
  {
    if '0' <= c <= '9' then c as int - '0' as int else c as int - 'A' as int + 10
  }

  /** The last `n` base-36 digits of `v`, most significant first. */
  function Base36(v: nat, n: nat): (r: string)
    ensures |r| == n
    ensures forall i :: 0 <= i < |r| ==> Is36(r[i])
  {
    if n == 0 then "" else Base36(v / 36, n - 1) + [Digit36(v % 36)]
  }

  /** The number a string of base-36 digits denotes. */
  function Decode36(s: string): nat
    requires forall i :: 0 <= i < |s| ==> Is36(s[i])
  {
    if |s| == 0 then 0 else Decode36(s[..|s| - 1]) * 36 + Value36(s[|s| - 1])
  }

  /** Writing a value below 36^n in `n` base-36 digits and reading them back
      gives the value. */
  lemma {:induction false} Base36RoundTrip(v: nat, n: nat)
    requires v < Pow36(n)
    ensures Decode36(Base36(v, n)) == v
    decreases n
  {
    if n > 0 {
      var s := Base36(v, n);
      var q, d := v / 36, v % 36;
      assert s[..|s| - 1] == Base36(q, n - 1) && s[|s| - 1] == Digit36(d);
      assert q < Pow36(n - 1) by {
        assert v < 36 * Pow36(n - 1);
      }
      Base36RoundTrip(q, n - 1);
      DigitValue36(d);
      assert Decode36(s) == Decode36(s[..|s| - 1]) * 36 + Value36(s[|s| - 1]);
      assert v == q * 36 + d;
    }
  }

  lemma DigitValue36(n: nat)
    requires n < 36
    ensures Value36(Digit36(n)) == n
  {
  }

  /** A remainder by 36^8 is recognised by its quotient. */
  lemma UniqueMod(v: nat, a: nat, r: nat)
    requires r < SerialModulus && v == a * SerialModulus + r
    ensures v % SerialModulus == r
  {
  }

  /** The big-endian number a byte string denotes. */
  function BigEndian(s: seq<Byte>): nat {
    if |s| == 0 then 0 else BigEndian(s[..|s| - 1]) * 256 + s[|s| - 1] as nat
  }

  /** Shifting in a byte commutes with the reduction. */
  lemma ModStep(a: nat, h: nat)
    ensures (((a % SerialModulus) * 256) % SerialModulus + h) % SerialModulus == (a * 256 + h) % SerialModulus
  {
    var m := SerialModulus;
    var q, r := a / m, a % m;
    var q2, r2 := (r * 256) / m, (r * 256) % m;
    var q3, r3 := (r2 + h) / m, (r2 + h) % m;
    assert a * 256 + h == (q * 256 + q2 + q3) * m + r3;
    UniqueMod(a * 256 + h, q * 256 + q2 + q3, r3);
  }

  /** The digest fold of `getSerialNumber`: one byte at a time, the running
      value shifted left by eight and reduced. The shift never leaves 64 bits,
      as the running value stays below 36^8. */
  method FoldDigest(hash: seq<Byte>) returns (m: nat)
    ensures m == BigEndian(hash) % SerialModulus
    ensures m < SerialModulus
  {
    m := 0;
    var i := 0;
    while i < |hash|
      invariant 0 <= i <= |hash|
      invariant m == BigEndian(hash[..i]) % SerialModulus
      invariant m * 256 < TwoTo64
    {
      ModStep(BigEndian(hash[..i]), hash[i] as nat);
      assert hash[..i + 1][..i] == hash[..i];
      m := ((m * 256) % SerialModulus + hash[i] as nat) % SerialModulus;
      i := i + 1;
    }
    assert hash[..|hash|] == hash;
  }

  /** `getSerialNumber`: "00000000" when the MAC looks unread, an error code
      when the digest library fails, otherwise eight base-36 digits of the
      digest of the device name followed by the MAC text. */
  method GetSerialNumber(read: Option<seq<Byte>>, sha256: string -> Digest) returns (serial: string)
    requires read.Some? ==> |read.value| == 6
    ensures GetMacAddress(read) == MacFailure ==> serial == SerialFailure
    ensures GetMacAddress(read) != MacFailure ==>
              match sha256(DeviceName + GetMacAddress(read))
              case Unavailable => serial == NoDigestInfo
              case Failed => serial == DigestFailed
              case Bytes(h) =>
                && |serial| == SerialLength
                && (forall i :: 0 <= i < |serial| ==> Is36(serial[i]))
                && Decode36(serial) == BigEndian(h) % SerialModulus
  {
    var mac := GetMacAddress(read);
    if mac == MacFailure {
      return SerialFailure;
    }
    match sha256(DeviceName + mac)
    case Unavailable => serial := NoDigestInfo;
    case Failed => serial := DigestFailed;
    case Bytes(h) =>
      var m := FoldDigest(h);
      serial := Base36(m, SerialLength);
      ModulusIs36To8();
      Base36RoundTrip(m, SerialLength);
  }
}
