/** The GATT helpers of BLEExtensiones.kt: property and permission bit
    tests, the `printProperties` summaries, the CCCD recogniser and
    `toHexString`. The characteristic property bits are those of the
    Bluetooth Core Specification, Vol 3, Part G, section 3.3.1.1; the
    Client Characteristic Configuration descriptor is the one of section
    3.3.3.3, with 16-bit UUID 0x2902. */
module Gatt {
  import opened Text
  import opened BeaconPayload
  import Collections

  // ---------------------------------------------------------------------
  // Property and permission bits
  // ---------------------------------------------------------------------

  const PropertyRead: bv32 := 0x02
  const PropertyWriteNoResponse: bv32 := 0x04
  const PropertyWrite: bv32 := 0x08
  const PropertyNotify: bv32 := 0x10
  const PropertyIndicate: bv32 := 0x20
  const PermissionRead: bv32 := 0x01
  const PermissionWrite: bv32 := 0x10

  /** `containsProperty` and `containsPermission`: `value and mask != 0`. */
  predicate ContainsFlag(value: bv32, mask: bv32) {
    value & mask != 0
  }

  /** A flag that was set is detected and a flag that was cleared is not. */
  lemma ContainsFlagSetClear(value: bv32, mask: bv32)
    requires mask != 0
    ensures ContainsFlag(value | mask, mask)
    ensures !ContainsFlag(value & !mask, mask)
  {
  }

  // ---------------------------------------------------------------------
  // printProperties
  // ---------------------------------------------------------------------

  /** `joinToString()`: the default separator ", ". */
  function JoinComma(xs: seq<string>): string {
    if xs == [] then ""
    else if |xs| == 1 then xs[0]
    else xs[0] + ", " + JoinComma(xs[1..])
  }

  /** The characteristic flags in the order they are listed. */
  const CharacteristicTable: seq<(bv32, string)> := [
    (PropertyRead, "READABLE"),
    (PropertyWrite, "WRITABLE"),
    (PropertyWriteNoResponse, "WRITABLE WITHOUT RESPONSE"),
    (PropertyIndicate, "INDICATABLE"),
    (PropertyNotify, "NOTIFIABLE")]

  /** The descriptor flags in the order they are listed. */
  const DescriptorTable: seq<(bv32, string)> := [
    (PermissionRead, "READABLE"),
    (PermissionWrite, "WRITABLE")]

  /** `name` when its flag is present, nothing otherwise. */
  function Listed(present: bool, name: string): seq<string> {
    if present then [name] else []
  }

  /** The names of the table's flags present in `value`, in table order. */
  function PresentNames(value: bv32, table: seq<(bv32, string)>): (r: seq<string>)
    ensures |r| <= |table|
  {
    if table == [] then []
    else Listed(ContainsFlag(value, table[0].0), table[0].1) + PresentNames(value, table[1..])
  }

  /** The list a summary joins: the present flags, or "EMPTY" alone. */
  function SummaryNames(value: bv32, table: seq<(bv32, string)>): seq<string> {
    var names := PresentNames(value, table);
    if names == [] then ["EMPTY"] else names
  }

  /** The characteristic `printProperties`: one `if … add` per flag. */
  method PrintCharacteristicProperties(properties: bv32) returns (s: string)
    ensures s == JoinComma(SummaryNames(properties, CharacteristicTable))
  {
    var list: seq<string> := [];
    if ContainsFlag(properties, PropertyRead) { list := list + ["READABLE"]; }
    ghost var named := Listed(ContainsFlag(properties, PropertyRead), "READABLE");
    assert list == named;
    if ContainsFlag(properties, PropertyWrite) { list := list + ["WRITABLE"]; }
    named := named + Listed(ContainsFlag(properties, PropertyWrite), "WRITABLE");
    assert list == named;
    if ContainsFlag(properties, PropertyWriteNoResponse) { list := list + ["WRITABLE WITHOUT RESPONSE"]; }
    named := named + Listed(ContainsFlag(properties, PropertyWriteNoResponse), "WRITABLE WITHOUT RESPONSE");
    assert list == named;
    if ContainsFlag(properties, PropertyIndicate) { list := list + ["INDICATABLE"]; }
    named := named + Listed(ContainsFlag(properties, PropertyIndicate), "INDICATABLE");
    assert list == named;
    if ContainsFlag(properties, PropertyNotify) { list := list + ["NOTIFIABLE"]; }
    named := named + Listed(ContainsFlag(properties, PropertyNotify), "NOTIFIABLE");
    assert list == named;
    PresentNamesFive(properties, CharacteristicTable);
    assert named == PresentNames(properties, CharacteristicTable);
    if list == [] { list := list + ["EMPTY"]; }
    assert list == SummaryNames(properties, CharacteristicTable);
    s := JoinComma(list);
  }

  /** One step of `PresentNames` from position `i` of the table. */
  lemma PresentNamesAt(value: bv32, table: seq<(bv32, string)>, i: int)
    requires 0 <= i < |table|
    ensures PresentNames(value, table[i..]) ==
      Listed(ContainsFlag(value, table[i].0), table[i].1) + PresentNames(value, table[i + 1..])
  {
    assert table[i..][1..] == table[i + 1..];
  }

  /** `PresentNames` of a five-entry table, written out entry by entry. */
  lemma PresentNamesFive(value: bv32, t: seq<(bv32, string)>)
    requires |t| == 5
    ensures PresentNames(value, t) ==
      Listed(ContainsFlag(value, t[0].0), t[0].1)
      + Listed(ContainsFlag(value, t[1].0), t[1].1)
      + Listed(ContainsFlag(value, t[2].0), t[2].1)
      + Listed(ContainsFlag(value, t[3].0), t[3].1)
      + Listed(ContainsFlag(value, t[4].0), t[4].1)
  {
    var a := Listed(ContainsFlag(value, t[0].0), t[0].1);
    var b := Listed(ContainsFlag(value, t[1].0), t[1].1);
    var c := Listed(ContainsFlag(value, t[2].0), t[2].1);
    var d := Listed(ContainsFlag(value, t[3].0), t[3].1);
    var e := Listed(ContainsFlag(value, t[4].0), t[4].1);
    assert PresentNames(value, t[4..]) == e by {
      PresentNamesAt(value, t, 4);
      assert t[5..] == [];
    }
    assert PresentNames(value, t[3..]) == d + e by { PresentNamesAt(value, t, 3); }
    assert PresentNames(value, t[2..]) == c + (d + e) by { PresentNamesAt(value, t, 2); }
    assert PresentNames(value, t[1..]) == b + (c + (d + e)) by { PresentNamesAt(value, t, 1); }
    assert PresentNames(value, t) == a + (b + (c + (d + e))) by {
      PresentNamesAt(value, t, 0);
      assert t[0..] == t;
    }
    AppendRegroup(a, b, c, d, e);
  }

  /** Proof helper: re-associates the five lists, kept apart from
      `PresentNamesFive` so that the solver sees only the concatenations. */
  lemma AppendRegroup(a: seq<string>, b: seq<string>, c: seq<string>, d: seq<string>, e: seq<string>)
    ensures a + (b + (c + (d + e))) == a + b + c + d + e
  {
    assert a + (b + (c + (d + e))) == a + b + c + d + e;
  }

  /** The descriptor `printProperties`. */
  method PrintDescriptorProperties(permissions: bv32) returns (s: string)
    ensures s == JoinComma(SummaryNames(permissions, DescriptorTable))
  {
    var list: seq<string> := [];
    if ContainsFlag(permissions, PermissionRead) { list := list + ["READABLE"]; }
    if ContainsFlag(permissions, PermissionWrite) { list := list + ["WRITABLE"]; }
    if list == [] { list := list + ["EMPTY"]; }
    var t := DescriptorTable;
    assert t[1..][1..] == [];
    assert PresentNames(permissions, t[1..]) == Listed(ContainsFlag(permissions, PermissionWrite), "WRITABLE") + [];
    assert list == SummaryNames(permissions, DescriptorTable);
    s := JoinComma(list);
  }

  /** A flag's name is listed exactly when the flag is set, the names keep
      the table's order, and "EMPTY" is listed exactly when no flag of the
      table is set. */
  lemma {:induction false} SummaryNamesMeans(value: bv32, table: seq<(bv32, string)>)
    requires forall k | 0 <= k < |table| :: table[k].1 != "EMPTY"
    ensures forall k | 0 <= k < |table| && ContainsFlag(value, table[k].0) :: table[k].1 in SummaryNames(value, table)
    ensures forall n | n in PresentNames(value, table) ::
              exists k | 0 <= k < |table| :: table[k].1 == n && ContainsFlag(value, table[k].0)
    ensures "EMPTY" in SummaryNames(value, table) <==> forall k | 0 <= k < |table| :: !ContainsFlag(value, table[k].0)
    ensures Collections.IsSubsequence(PresentNames(value, table), NamesOf(table))
  {
    PresentNamesMeans(value, table);
  }

  function NamesOf(table: seq<(bv32, string)>): (r: seq<string>)
    ensures |r| == |table| && forall k | 0 <= k < |table| :: r[k] == table[k].1
  {
    if table == [] then [] else [table[0].1] + NamesOf(table[1..])
  }

  lemma {:induction false} PresentNamesMeans(value: bv32, table: seq<(bv32, string)>)
    ensures forall k | 0 <= k < |table| && ContainsFlag(value, table[k].0) :: table[k].1 in PresentNames(value, table)
    ensures forall n | n in PresentNames(value, table) ::
              exists k | 0 <= k < |table| :: table[k].1 == n && ContainsFlag(value, table[k].0)
    ensures PresentNames(value, table) == [] <==> forall k | 0 <= k < |table| :: !ContainsFlag(value, table[k].0)
    ensures Collections.IsSubsequence(PresentNames(value, table), NamesOf(table))
  {
    if table != [] {
      var rest := PresentNames(value, table[1..]);
      PresentNamesMeans(value, table[1..]);
      forall k | 1 <= k < |table| ensures table[1..][k - 1] == table[k] { }
      var names := NamesOf(table);
      assert names == [table[0].1] + NamesOf(table[1..]);
      assert names[1..] == NamesOf(table[1..]);
      if ContainsFlag(value, table[0].0) {
        var r := [table[0].1] + rest;
        assert r[0] == names[0] && r[1..] == rest;
      } else {
        Collections.SubsequenceCons(rest, NamesOf(table[1..]), table[0].1);
        assert PresentNames(value, table) == rest;
      }
    }
  }

  // ---------------------------------------------------------------------
  // isCccd
  // ---------------------------------------------------------------------

  const CccdDescriptorUuid := "00002902-0000-1000-8000-00805F9B34FB"

  /** `uuid.toString().uppercase(Locale.US) == CCCD_DESCRIPTOR_UUID.uppercase(Locale.US)`. */
  predicate IsCccd(uuidText: string) {
    Upper(uuidText) == Upper(CccdDescriptorUuid)
  }

  /** `isCccd` is the case-insensitive comparison with the CCCD UUID. */
  lemma IsCccdMeans(uuidText: string)
    ensures IsCccd(uuidText) <==> EqualsIgnoreCase(uuidText, CccdDescriptorUuid)
  {
    if EqualsIgnoreCase(uuidText, CccdDescriptorUuid) {
      assert Upper(uuidText) == Upper(CccdDescriptorUuid);
    }
  }

  function HexLower(d: int): (c: char)
    requires 0 <= d < 16
  {
    if d < 10 then DigitChar(d) else (d - 10 + 'a' as int) as char
  }

  function HexUpper(d: int): (c: char)
    requires 0 <= d < 16
  {
    if d < 10 then DigitChar(d) else (d - 10 + 'A' as int) as char
  }

  /** The value of a hexadecimal digit of either case. */
  function HexValue(c: char): int {
    if '0' <= c <= '9' then c as int - '0' as int
    else if 'a' <= c <= 'f' then c as int - 'a' as int + 10
    else if 'A' <= c <= 'F' then c as int - 'A' as int + 10
    else -1
  }

  lemma HexDigitsRoundTrip(d: int)
    requires 0 <= d < 16
    ensures HexValue(HexLower(d)) == d && HexValue(HexUpper(d)) == d
    ensures UpperChar(HexLower(d)) == HexUpper(d)
  {
  }

  /** Four lower-case hexadecimal digits of a 16-bit value. */
  function Hex4(x: int): (r: string)
    requires 0 <= x < 0x10000
    ensures |r| == 4
  {
    [HexLower(x / 0x1000), HexLower(x / 0x100 % 16), HexLower(x / 16 % 16), HexLower(x % 16)]
  }

  const BaseUuidTail := "-0000-1000-8000-00805f9b34fb"

  /** `UUID.toString()` of the Bluetooth base UUID with 16-bit alias `x`:
      lower-case hexadecimal. */
  function BaseUuidText(x: int): string
    requires 0 <= x < 0x10000
  {
    "0000" + Hex4(x) + BaseUuidTail
  }

  /** Only the alias 0x2902 is recognised as the CCCD. */
  lemma CccdAliasOnly(x: int)
    requires 0 <= x < 0x10000
    requires IsCccd(BaseUuidText(x))
    ensures x == 0x2902
  {
    var t := BaseUuidText(x);
    var h := Hex4(x);
    assert t[4..8] == h;
    var u := Upper(t);
    var c := Upper(CccdDescriptorUuid);
    assert c[4] == '2' && c[5] == '9' && c[6] == '0' && c[7] == '2';
    HexDigitsRoundTrip(x / 0x1000);
    HexDigitsRoundTrip(x / 0x100 % 16);
    HexDigitsRoundTrip(x / 16 % 16);
    HexDigitsRoundTrip(x % 16);
    assert u[4] == HexUpper(x / 0x1000) && u[5] == HexUpper(x / 0x100 % 16);
    assert u[6] == HexUpper(x / 16 % 16) && u[7] == HexUpper(x % 16);
    assert x / 0x1000 == 2 && x / 0x100 % 16 == 9 && x / 16 % 16 == 0 && x % 16 == 2;
  }

  /** The CCCD's own text, as `UUID.toString()` prints it, is recognised. */
  lemma CccdAliasRecognised()
    ensures IsCccd(BaseUuidText(0x2902))
  {
    var t := BaseUuidText(0x2902);
    var c := CccdDescriptorUuid;
    assert Hex4(0x2902) == "2902";
    assert t[..8] == c[..8];
    BaseTailMatches();
    assert t[8..] == BaseUuidTail;
    forall i | 0 <= i < |t| ensures UpperChar(t[i]) == UpperChar(c[i]) {
      if i < 8 {
        assert t[i] == t[..8][i];
      } else {
        assert t[i] == t[8..][i - 8] && c[i] == c[8..][i - 8];
      }
    }
    IsCccdMeans(t);
  }

  /** The base UUID's lower-case tail matches the CCCD text's tail. */
  lemma BaseTailMatches()
    ensures EqualsIgnoreCase(BaseUuidTail, CccdDescriptorUuid[8..])
  {
    var t := BaseUuidTail;
    var c := CccdDescriptorUuid[8..];
    assert c == "-0000-1000-8000-00805F9B34FB";
    assert forall i | 0 <= i < |t| :: UpperChar(t[i]) == UpperChar(c[i]);
  }

  // ---------------------------------------------------------------------
  // toHexString
  // ---------------------------------------------------------------------

  /** `String.format("%02X", b)`: a negative byte is printed as its
      unsigned value. */
  function HexByte(b: int8): (r: string)
    ensures |r| == 2
  {
    [HexUpper(Unsigned(b) / 16), HexUpper(Unsigned(b) % 16)]
  }

  function HexBody(bs: seq<int8>): string {
    if bs == [] then ""
    else if |bs| == 1 then HexByte(bs[0])
    else HexByte(bs[0]) + " " + HexBody(bs[1..])
  }

  /** `joinToString(separator = " ", prefix = "0x") { "%02X" }`. */
  function ToHexString(bs: seq<int8>): string {
    "0x" + HexBody(bs)
  }

  lemma {:induction false} HexBodyLength(bs: seq<int8>)
    ensures bs != [] ==> |HexBody(bs)| == 3 * |bs| - 1
    ensures bs == [] ==> HexBody(bs) == ""
  {
    if |bs| > 1 { HexBodyLength(bs[1..]); }
  }

  /** The dump is 3n+1 characters long for n >= 1 bytes and 2 for none. */
  lemma ToHexStringLength(bs: seq<int8>)
    ensures |ToHexString(bs)| == if bs == [] then 2 else 3 * |bs| + 1
  {
    HexBodyLength(bs);
  }

  /** Reads a dump body back: two hex digits, a separator, and so on. */
  function FromHexBody(s: string): seq<int8>
    decreases |s|
  {
    if |s| < 2 then []
    else
      var v := HexValue(s[0]) * 16 + HexValue(s[1]);
      [if 0 <= v < 256 then ByteOf(v) else 0] + (if |s| < 3 then [] else FromHexBody(s[3..]))
  }

  function FromHexString(s: string): seq<int8> {
    if |s| < 2 then [] else FromHexBody(s[2..])
  }

  lemma HexByteRoundTrip(b: int8)
    ensures HexValue(HexByte(b)[0]) * 16 + HexValue(HexByte(b)[1]) == Unsigned(b)
    ensures ByteOf(Unsigned(b)) == b
  {
    HexDigitsRoundTrip(Unsigned(b) / 16);
    HexDigitsRoundTrip(Unsigned(b) % 16);
  }

  lemma {:induction false} HexBodyRoundTrip(bs: seq<int8>)
    ensures FromHexBody(HexBody(bs)) == bs
  {
    if bs != [] {
      HexByteRoundTrip(bs[0]);
      var s := HexBody(bs);
      if |bs| == 1 {
        assert s == HexByte(bs[0]);
      } else {
        HexBodyRoundTrip(bs[1..]);
        assert s[3..] == HexBody(bs[1..]);
      }
    }
  }

  /** Reading the dump back gives the bytes: every byte is printed as its
      two upper-case hex digits after the "0x" prefix. */
  lemma ToHexStringRoundTrip(bs: seq<int8>)
    ensures FromHexString(ToHexString(bs)) == bs
    ensures ToHexString(bs)[..2] == "0x"
  {
    var s := ToHexString(bs);
    assert s[2..] == HexBody(bs);
    HexBodyRoundTrip(bs);
  }
}
