/** The two iBeacon payload parsers: the private member extension
    `ByteArray.parseIBeacon` of GestorAsistenciaBLEReceptor.kt (the one the
    scan callback calls) and the top-level `ByteArray.parseIBeacon` of
    BLEExtensiones.kt. An iBeacon advertisement carries, inside a
    Manufacturer Specific Data AD structure (Bluetooth Core Specification
    Supplement, Part A, section 1.4), the type byte 0x02 and the length
    byte 0x15 followed by a 16-byte proximity UUID, a 2-byte major, a
    2-byte minor (both big-endian) and a signed 1-byte measured power. */
module BeaconPayload {
  import opened Wrappers

  /** A JVM `Byte`: signed, two's complement. */
  newtype int8 = x: int | -128 <= x < 128

  const TwoTo64: int := 0x1_0000_0000_0000_0000
  const TwoTo63: int := 0x8000_0000_0000_0000

  /** `b.toInt() and 0xFF`. */
  function Unsigned(b: int8): (u: int)
    ensures 0 <= u < 256
    ensures (u - b as int) % 256 == 0
    ensures 0 <= b ==> u == b as int
  {
    if b < 0 then b as int + 256 else b as int
  }

  /** The byte whose unsigned value is `u`: `u.toByte()`. */
  function ByteOf(u: int): (b: int8)
    requires 0 <= u < 256
    ensures Unsigned(b) == u
  {
    if u >= 128 then (u - 256) as int8 else u as int8
  }

  /** The unsigned big-endian value of a byte string. */
  function BigEndian(bs: seq<int8>): nat {
    if bs == [] then 0 else BigEndian(bs[..|bs| - 1]) * 256 + Unsigned(bs[|bs| - 1])
  }

  function Pow256(n: nat): nat {
    if n == 0 then 1 else 256 * Pow256(n - 1)
  }

  /** The `n`-byte big-endian encoding of `v`. */
  function BigEndianBytes(v: nat, n: nat): (bs: seq<int8>)
    ensures |bs| == n
  {
    if n == 0 then [] else BigEndianBytes(v / 256, n - 1) + [ByteOf(v % 256)]
  }

  lemma {:induction false} BigEndianRoundTrip(v: nat, n: nat)
    requires v < Pow256(n)
    ensures BigEndian(BigEndianBytes(v, n)) == v
  {
    if n > 0 {
      var bs := BigEndianBytes(v, n);
      assert bs[..n - 1] == BigEndianBytes(v / 256, n - 1);
      assert v / 256 < Pow256(n - 1);
      BigEndianRoundTrip(v / 256, n - 1);
    }
  }

  /** `ByteBuffer.getLong()`: eight bytes, big-endian, as a signed 64-bit value. */
  function ToSigned64(u: nat): int {
    if u >= TwoTo63 then u - TwoTo64 else u
  }

  function FromSigned64(s: int): nat
    requires -TwoTo63 <= s < TwoTo63
  {
    if s < 0 then s + TwoTo64 else s
  }

  /** `java.util.UUID(msb, lsb)`: the two signed 64-bit halves. */
  datatype Uuid = Uuid(msb: int, lsb: int)

  /** GestorAsistenciaBLEReceptor.IBeacon. */
  datatype IBeacon = IBeacon(uuid: Uuid, major: int, minor: int, txPower: int8)

  /** `(hi and 0xFF) shl 8) + (lo and 0xFF)`. */
  function Word(hi: int8, lo: int8): (w: int)
    ensures 0 <= w <= 65535
    ensures w / 256 == Unsigned(hi) && w % 256 == Unsigned(lo)
  {
    Unsigned(hi) * 256 + Unsigned(lo)
  }

  /** The 16 UUID bytes read as two big-endian longs. */
  function UuidAt(b: seq<int8>, j: int): Uuid
    requires 0 <= j && j + 16 <= |b|
  {
    Uuid(ToSigned64(BigEndian(b[j..j + 8])), ToSigned64(BigEndian(b[j + 8..j + 16])))
  }

  /** The iBeacon fields that start at `j`, right after the 0x02 0x15 prefix. */
  function DecodeAt(b: seq<int8>, j: int): IBeacon
    requires 0 <= j && j + 21 <= |b|
  {
    IBeacon(UuidAt(b, j), Word(b[j + 16], b[j + 17]), Word(b[j + 18], b[j + 19]), b[j + 20])
  }

  /** The iBeacon prefix (type 0x02, length 0x15) at index `p`. */
  predicate PrefixAt(b: seq<int8>, p: int) {
    0 <= p && p + 1 < |b| && Unsigned(b[p]) == 0x02 && Unsigned(b[p + 1]) == 0x15
  }

  /** Candidate index `k` of a scan is in range (both loops run while
      `k + 30 < size`) and has the prefix `shift` bytes after it. */
  predicate Hit(b: seq<int8>, k: int, shift: nat) {
    0 <= k && k + 30 < |b| && PrefixAt(b, k + shift)
  }

  /** The scan from candidate index `i` on: the first hit wins. */
  function ScanFrom(b: seq<int8>, i: nat, shift: nat): (r: Option<IBeacon>)
    requires shift <= 2
    ensures r.None? ==> forall k | i <= k :: !Hit(b, k, shift)
    ensures r.Some? ==> exists k | i <= k ::
              Hit(b, k, shift)
              && (forall m | i <= m < k :: !Hit(b, m, shift))
              && r.value == DecodeAt(b, k + shift + 2)
    decreases |b| - i
  {
    if i + 30 >= |b| then None
    else if PrefixAt(b, i + shift) then
      assert Hit(b, i, shift);
      Some(DecodeAt(b, i + shift + 2))
    else ScanFrom(b, i + 1, shift)
  }

  /** The receiver's parser: the prefix at bytes i, i+1 for i in
      0 until size-30, the fields from i+2. */
  function ReceiverParse(b: seq<int8>): Option<IBeacon> {
    ScanFrom(b, 0, 0)
  }

  /** The extension's parser as specified: the prefix at bytes i+2, i+3
      while i+30 < size, the fields from i+4. */
  function ExtensionParse(b: seq<int8>): Option<IBeacon> {
    ScanFrom(b, 0, 2)
  }

  /** The extension's `while` loop, comparing the signed bytes with 0x02 and
      0x15 as written. */
  method ParseIBeacon(b: seq<int8>) returns (r: Option<IBeacon>)
    ensures r == ExtensionParse(b)
  {
    r := None;
    var i := 0;
    while i + 30 < |b|
      invariant 0 <= i
      invariant ScanFrom(b, i, 2) == ScanFrom(b, 0, 2)
      decreases |b| - i
    {
      if b[i + 2] as int == 0x02 && b[i + 3] as int == 0x15 {
        SignedCompareAgrees(b[i + 2], 0x02);
        SignedCompareAgrees(b[i + 3], 0x15);
        return Some(DecodeAt(b, i + 4));
      }
      SignedCompareAgrees(b[i + 2], 0x02);
      SignedCompareAgrees(b[i + 3], 0x15);
      i := i + 1;
    }
  }

  /** Comparing a signed byte with a constant below 0x80 agrees with
      comparing its unsigned value. */
  lemma SignedCompareAgrees(b: int8, c: int)
    requires 0 <= c < 0x80
    ensures b as int == c <==> Unsigned(b) == c
  {
  }

  /** Payloads of 30 bytes or fewer never parse, in either parser. */
  lemma ShortPayloadsNeverParse(b: seq<int8>)
    requires |b| <= 30
    ensures ReceiverParse(b) == None && ExtensionParse(b) == None
  {
  }

  /** Major and minor are 16-bit values whose high and low bytes are the
      payload bytes. */
  lemma DecodedFields(b: seq<int8>, j: int)
    requires 0 <= j && j + 21 <= |b|
    ensures 0 <= DecodeAt(b, j).major <= 65535 && 0 <= DecodeAt(b, j).minor <= 65535
    ensures DecodeAt(b, j).major == 256 * Unsigned(b[j + 16]) + Unsigned(b[j + 17])
    ensures DecodeAt(b, j).minor == 256 * Unsigned(b[j + 18]) + Unsigned(b[j + 19])
    ensures DecodeAt(b, j).txPower == b[j + 20]
  {
  }

  /** The 16 bytes of a UUID, most significant half first. */
  function UuidBytes(u: Uuid): (bs: seq<int8>)
    requires -TwoTo63 <= u.msb < TwoTo63 && -TwoTo63 <= u.lsb < TwoTo63
    ensures |bs| == 16
  {
    BigEndianBytes(FromSigned64(u.msb), 8) + BigEndianBytes(FromSigned64(u.lsb), 8)
  }

  /** Reading the two longs back recovers any UUID. */
  lemma UuidRoundTrip(u: Uuid)
    requires -TwoTo63 <= u.msb < TwoTo63 && -TwoTo63 <= u.lsb < TwoTo63
    ensures UuidAt(UuidBytes(u), 0) == u
  {
    var bs := UuidBytes(u);
    assert Pow256(8) == TwoTo64;
    assert bs[0..8] == BigEndianBytes(FromSigned64(u.msb), 8);
    assert bs[8..16] == BigEndianBytes(FromSigned64(u.lsb), 8);
    BigEndianRoundTrip(FromSigned64(u.msb), 8);
    BigEndianRoundTrip(FromSigned64(u.lsb), 8);
  }

  /** The iBeacon frame for the given fields, as the advertiser sends it. */
  function Frame(beacon: IBeacon): (bs: seq<int8>)
    requires -TwoTo63 <= beacon.uuid.msb < TwoTo63 && -TwoTo63 <= beacon.uuid.lsb < TwoTo63
    requires 0 <= beacon.major <= 65535 && 0 <= beacon.minor <= 65535
    ensures |bs| == 23
  {
    [0x02, 0x15] + UuidBytes(beacon.uuid)
    + [ByteOf(beacon.major / 256), ByteOf(beacon.major % 256)]
    + [ByteOf(beacon.minor / 256), ByteOf(beacon.minor % 256)]
    + [beacon.txPower]
  }

  /** Splitting a 16-bit value into its high and low bytes and reading
      them back gives the value. */
  lemma WordRoundTrip(w: int)
    requires 0 <= w <= 65535
    ensures Word(ByteOf(w / 256), ByteOf(w % 256)) == w
  {
  }

  lemma DecodesFrame(beacon: IBeacon, rest: seq<int8>)
    requires -TwoTo63 <= beacon.uuid.msb < TwoTo63 && -TwoTo63 <= beacon.uuid.lsb < TwoTo63
    requires 0 <= beacon.major <= 65535 && 0 <= beacon.minor <= 65535
    ensures DecodeAt(Frame(beacon) + rest, 2) == beacon
  {
    var b := Frame(beacon) + rest;
    var u := UuidBytes(beacon.uuid);
    assert b[2..18] == u;
    assert b[2..10] == u[0..8] && b[10..18] == u[8..16];
    UuidRoundTrip(beacon.uuid);
    assert UuidAt(b, 2) == beacon.uuid;
    WordRoundTrip(beacon.major);
    WordRoundTrip(beacon.minor);
    assert b[18] == ByteOf(beacon.major / 256) && b[19] == ByteOf(beacon.major % 256);
    assert b[20] == ByteOf(beacon.minor / 256) && b[21] == ByteOf(beacon.minor % 256);
    assert b[22] == beacon.txPower;
  }

  /** A frame placed at the start of a record of at least 31 bytes is
      decoded by the receiver's parser to the beacon it encodes. */
  lemma ReceiverDecodesFrame(beacon: IBeacon, rest: seq<int8>)
    requires -TwoTo63 <= beacon.uuid.msb < TwoTo63 && -TwoTo63 <= beacon.uuid.lsb < TwoTo63
    requires 0 <= beacon.major <= 65535 && 0 <= beacon.minor <= 65535
    requires |rest| >= 8
    ensures ReceiverParse(Frame(beacon) + rest) == Some(beacon)
  {
    var b := Frame(beacon) + rest;
    assert b[0] == 0x02 && b[1] == 0x15;
    assert PrefixAt(b, 0);
    DecodesFrame(beacon, rest);
  }

  /** The two parsers disagree on offsets: the extension parser reads the
      prefix two bytes later, so whatever the receiver finds in a record
      without its first two bytes, the extension finds in the whole record. */
  lemma {:induction false} ExtensionSeesShiftedRecord(b: seq<int8>, i: nat)
    requires |b| >= 2
    requires ScanFrom(b[2..], i, 0).Some?
    ensures ScanFrom(b, i, 2) == ScanFrom(b[2..], i, 0)
    decreases |b| - i
  {
    var c := b[2..];
    if i + 30 < |c| {
      assert PrefixAt(b, i + 2) <==> PrefixAt(c, i);
      if PrefixAt(c, i) {
        assert DecodeAt(b, i + 4) == DecodeAt(c, i + 2) by {
          assert b[i + 4..i + 12] == c[i + 2..i + 10];
          assert b[i + 12..i + 20] == c[i + 10..i + 18];
        }
      } else {
        ExtensionSeesShiftedRecord(b, i + 1);
      }
    }
  }

  /** The offsets really differ: a 31-byte record that opens with an
      iBeacon frame parses in the receiver, but not in the extension,
      which looks for the prefix only at bytes 2 and 3 (here the first UUID
      byte and the second). The all-zero UUID is such a case. */
  lemma ParsersDisagree(beacon: IBeacon, rest: seq<int8>)
    requires -TwoTo63 <= beacon.uuid.msb < TwoTo63 && -TwoTo63 <= beacon.uuid.lsb < TwoTo63
    requires 0 <= beacon.major <= 65535 && 0 <= beacon.minor <= 65535
    requires |rest| == 8
    requires Unsigned(UuidBytes(beacon.uuid)[0]) != 0x02
    ensures ReceiverParse(Frame(beacon) + rest) == Some(beacon)
    ensures ExtensionParse(Frame(beacon) + rest) == None
  {
    ReceiverDecodesFrame(beacon, rest);
    var b := Frame(beacon) + rest;
    assert |b| == 31;
    assert b[2] == UuidBytes(beacon.uuid)[0];
    assert !PrefixAt(b, 2);
    assert ScanFrom(b, 1, 2) == None;
  }

  /** A beacon with the all-zero UUID: the receiver reads its record and
      the extension reads nothing. */
  lemma ZeroUuidDisagrees(major: int, minor: int, txPower: int8, rest: seq<int8>)
    requires 0 <= major <= 65535 && 0 <= minor <= 65535
    requires |rest| == 8
    ensures ReceiverParse(Frame(IBeacon(Uuid(0, 0), major, minor, txPower)) + rest)
              == Some(IBeacon(Uuid(0, 0), major, minor, txPower))
    ensures ExtensionParse(Frame(IBeacon(Uuid(0, 0), major, minor, txPower)) + rest) == None
  {
    ZeroBytes(8);
    assert UuidBytes(Uuid(0, 0))[0] == BigEndianBytes(0, 8)[0];
    ParsersDisagree(IBeacon(Uuid(0, 0), major, minor, txPower), rest);
  }

  lemma {:induction false} ZeroBytes(n: nat)
    ensures forall k | 0 <= k < n :: BigEndianBytes(0, n)[k] == 0
  {
    if n > 0 {
      ZeroBytes(n - 1);
    }
  }
}
