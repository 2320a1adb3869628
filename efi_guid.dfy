/**
 * The three vendor GUIDs that partition the firmware-variable namespace used
 * by the kernel extension and its plugins, and their registry-format text
 * (`XXXXXXXX-XXXX-XXXX-XXXX-XXXXXXXXXXXX`, upper-case hexadecimal, as the
 * source documents each constant).
 */
module EfiGuid {
  import opened EfiTypes

  /** `EFI_GUID`: a 32-bit, two 16-bit and eight 8-bit fields. */
  datatype Guid = Guid(data1: uint32, data2: uint16, data3: uint16, data4: seq<uint8>)
  {
    ghost predicate Valid() { |data4| == 8 }
  }

  /** Normal variable access by the kernel extension and its plugins. */
  const LiluVendorGuid: Guid := Guid(0x4D1FDA02, 0x38C7, 0x4A6A, [0x9C, 0xC6, 0x4B, 0xCC, 0xA8, 0xB3, 0x01, 0x02])

  /** Read-only after ExitBootServices: firmware refuses writes with EFI_SECURITY_VIOLATION. */
  const LiluReadOnlyGuid: Guid := Guid(0xE09B9297, 0x7928, 0x4440, [0x9A, 0xAB, 0xD1, 0xF8, 0x53, 0x6F, 0xBF, 0x0A])

  /** Write-only after ExitBootServices: firmware refuses reads with EFI_SECURITY_VIOLATION. */
  const LiluWriteOnlyGuid: Guid := Guid(0xF0B9AF8F, 0x2222, 0x4840, [0x8A, 0x37, 0xEC, 0xF7, 0xCC, 0x8C, 0x12, 0xE1])

  // ---------------------------------------------------------------------------
  // Hexadecimal digits

  function Pow16(width: nat): (p: nat)
    ensures p > 0
  {
    if width == 0 then 1 else 16 * Pow16(width - 1)
  }

  predicate IsHexDigit(c: char) {
    '0' <= c <= '9' || 'A' <= c <= 'F' || 'a' <= c <= 'f'
  }

  /** The upper-case digit for `d`. */
  function HexDigit(d: nat): (c: char)
    requires d < 16
    ensures IsHexDigit(c)
  {
    if d < 10 then ('0' as int + d) as char else ('A' as int + d - 10) as char
  }

  /** The value of a hexadecimal digit of either case (0 for any other character). */
  function DigitValue(c: char): (d: nat)
    ensures d < 16
  {
    if '0' <= c <= '9' then c as int - '0' as int
    else if 'A' <= c <= 'F' then c as int - 'A' as int + 10
    else if 'a' <= c <= 'f' then c as int - 'a' as int + 10
    else 0
  }

  /** `n` in exactly `width` upper-case digits, most significant first (leading zeros kept). */
  function Hex(n: nat, width: nat): (s: string)
    ensures |s| == width
  {
    if width == 0 then [] else Hex(n / 16, width - 1) + [HexDigit(n % 16)]
  }

  /** Every character `Hex` prints is a hexadecimal digit. */
  lemma {:induction false} HexDigits(n: nat, width: nat)
    ensures forall i :: 0 <= i < width ==> IsHexDigit(Hex(n, width)[i])
  {
    if width > 0 {
      HexDigits(n / 16, width - 1);
      var s := Hex(n, width);
      assert forall i :: 0 <= i < width - 1 ==> s[i] == Hex(n / 16, width - 1)[i];
    }
  }

  /** The number a string of hexadecimal digits denotes. */
  function HexValue(s: string): (v: nat)
    ensures v < Pow16(|s|)
  {
    if s == [] then 0 else HexValue(s[..|s| - 1]) * 16 + DigitValue(s[|s| - 1])
  }

  /** Printing `n` in `width` digits and reading it back gives `n` when it fits. */
  lemma {:induction false} HexRoundTrip(n: nat, width: nat)
    requires n < Pow16(width)
    ensures HexValue(Hex(n, width)) == n
  {
    if width > 0 {
      HexRoundTrip(n / 16, width - 1);
      var s := Hex(n, width);
      assert s[..|s| - 1] == Hex(n / 16, width - 1);
      assert DigitValue(HexDigit(n % 16)) == n % 16;
    }
  }

  // ---------------------------------------------------------------------------
  // Registry format

  /** Two digits per byte, in order. */
  function HexBytes(bs: seq<uint8>): (s: string)
    ensures |s| == 2 * |bs|
  {
    if bs == [] then [] else Hex(bs[0] as nat, 2) + HexBytes(bs[1..])
  }

  /** Byte `j` of `bs` is printed at positions `2*j` and `2*j+1`. */
  lemma {:induction false} HexBytesAt(bs: seq<uint8>, j: nat)
    requires j < |bs|
    ensures |HexBytes(bs)| == 2 * |bs|
    ensures HexBytes(bs)[2 * j .. 2 * j + 2] == Hex(bs[j] as nat, 2)
  {
    if j > 0 {
      HexBytesAt(bs[1..], j - 1);
      var tail := HexBytes(bs[1..]);
      assert HexBytes(bs) == Hex(bs[0] as nat, 2) + tail;
      assert HexBytes(bs)[2 * j .. 2 * j + 2] == tail[2 * (j - 1) .. 2 * (j - 1) + 2];
    }
  }

  /** The registry-format text of a GUID: 36 characters with dashes at 8, 13, 18 and 23. */
  function Text(g: Guid): (s: string)
    requires g.Valid()
    ensures |s| == 36
  {
    Hex(g.data1 as nat, 8) + "-" + Hex(g.data2 as nat, 4) + "-" + Hex(g.data3 as nat, 4) + "-"
      + HexBytes(g.data4[..2]) + "-" + HexBytes(g.data4[2..])
  }

  predicate IsRegistryFormat(s: string) {
    |s| == 36 && s[8] == '-' && s[13] == '-' && s[18] == '-' && s[23] == '-'
    && forall i :: 0 <= i < 36 && i != 8 && i != 13 && i != 18 && i != 23 ==> IsHexDigit(s[i])
  }

  /** The byte whose two digits start at `i`. */
  function ByteAt(s: string, i: nat): (b: uint8)
    requires i + 2 <= |s|
  {
    var v := HexValue(s[i..i + 2]);
    assert Pow16(2) == 0x100;
    v as uint8
  }

  /** The bytes printed two digits each in `s`. */
  function ParseBytes(s: string): (bs: seq<uint8>)
    ensures |bs| == |s| / 2
  {
    seq(|s| / 2, j requires 0 <= j < |s| / 2 => ByteAt(s, 2 * j))
  }

  /** Reads a registry-format GUID; `None` for any other string. */
  function Parse(s: string): (r: Option<Guid>)
    ensures r.Some? ==> r.value.Valid() && IsRegistryFormat(s)
  {
    if !IsRegistryFormat(s) then None
    else
      assert Pow16(4) == 0x1_0000 && Pow16(8) == 0x1_0000_0000;
      Some(Guid(HexValue(s[0..8]) as uint32, HexValue(s[9..13]) as uint16, HexValue(s[14..18]) as uint16,
                ParseBytes(s[19..23]) + ParseBytes(s[24..36])))
  }

  /** Round trip for byte strings. */
  lemma ParseHexBytes(bs: seq<uint8>)
    ensures ParseBytes(HexBytes(bs)) == bs
  {
    forall j | 0 <= j < |bs|
      ensures ParseBytes(HexBytes(bs))[j] == bs[j]
    {
      HexBytesAt(bs, j);
      HexRoundTrip(bs[j] as nat, 2);
    }
  }

  /** Where each field of a GUID stands in its text. */
  lemma TextLayout(g: Guid)
    requires g.Valid()
    ensures |Text(g)| == 36
    ensures Text(g)[8] == '-' && Text(g)[13] == '-' && Text(g)[18] == '-' && Text(g)[23] == '-'
    ensures Text(g)[0..8] == Hex(g.data1 as nat, 8)
    ensures Text(g)[9..13] == Hex(g.data2 as nat, 4)
    ensures Text(g)[14..18] == Hex(g.data3 as nat, 4)
    ensures Text(g)[19..23] == HexBytes(g.data4[..2])
    ensures Text(g)[24..36] == HexBytes(g.data4[2..])
  {
    var f1, f2, f3 := Hex(g.data1 as nat, 8), Hex(g.data2 as nat, 4), Hex(g.data3 as nat, 4);
    var f4, f5 := HexBytes(g.data4[..2]), HexBytes(g.data4[2..]);
    var p1 := f1 + "-";
    var p2 := p1 + f2 + "-";
    var p3 := p2 + f3 + "-";
    var p4 := p3 + f4 + "-";
    assert Text(g) == p4 + f5;
    assert |p1| == 9 && |p2| == 14 && |p3| == 19 && |p4| == 24;
    assert p4[..23] == p3 + f4 && p3[..18] == p2 + f3 && p2[..13] == p1 + f2;
  }

  /** Every byte string prints as hexadecimal digits only. */
  lemma HexBytesDigits(bs: seq<uint8>)
    ensures forall i :: 0 <= i < |HexBytes(bs)| ==> IsHexDigit(HexBytes(bs)[i])
  {
    forall i | 0 <= i < |HexBytes(bs)|
      ensures IsHexDigit(HexBytes(bs)[i])
    {
      HexBytesAt(bs, i / 2);
      HexDigits(bs[i / 2] as nat, 2);
      assert HexBytes(bs)[i] == HexBytes(bs)[2 * (i / 2) .. 2 * (i / 2) + 2][i % 2];
    }
  }

  /** The text of every GUID is in registry format. */
  lemma TextIsRegistryFormat(g: Guid)
    requires g.Valid()
    ensures IsRegistryFormat(Text(g))
  {
    var s := Text(g);
    TextLayout(g);
    HexDigits(g.data1 as nat, 8);
    HexDigits(g.data2 as nat, 4);
    HexDigits(g.data3 as nat, 4);
    HexBytesDigits(g.data4[..2]);
    HexBytesDigits(g.data4[2..]);
    forall i | 0 <= i < 36 && i != 8 && i != 13 && i != 18 && i != 23
      ensures IsHexDigit(s[i])
    {
      if i < 8 { assert s[i] == s[0..8][i]; }
      else if i < 13 { assert s[i] == s[9..13][i - 9]; }
      else if i < 18 { assert s[i] == s[14..18][i - 14]; }
      else if i < 23 { assert s[i] == s[19..23][i - 19]; }
      else { assert s[i] == s[24..36][i - 24]; }
    }
  }

  /** Round trip: the text of a GUID reads back as that GUID. */
  lemma ParseText(g: Guid)
    requires g.Valid()
    ensures Parse(Text(g)) == Some(g)
  {
    var s := Text(g);
    var d4 := g.data4;
    TextLayout(g);
    TextIsRegistryFormat(g);
    assert Pow16(4) == 0x1_0000 && Pow16(8) == 0x1_0000_0000;
    HexRoundTrip(g.data1 as nat, 8);
    HexRoundTrip(g.data2 as nat, 4);
    HexRoundTrip(g.data3 as nat, 4);
    ParseHexBytes(d4[..2]);
    ParseHexBytes(d4[2..]);
    assert d4[..2] + d4[2..] == d4;
  }

  /** The text determines the GUID: two GUIDs with the same text are equal. */
  lemma TextInjective(g: Guid, h: Guid)
    requires g.Valid() && h.Valid()
    ensures Text(g) == Text(h) ==> g == h
  {
    ParseText(g);
    ParseText(h);
  }

  /** Printing a concatenation of bytes prints each part in turn. */
  lemma {:induction false} HexBytesAppend(a: seq<uint8>, b: seq<uint8>)
    ensures HexBytes(a + b) == HexBytes(a) + HexBytes(b)
  {
    if a != [] {
      assert (a + b)[1..] == a[1..] + b;
      HexBytesAppend(a[1..], b);
    } else {
      assert a + b == b;
    }
  }

  /** The text of a GUID is its five printed fields joined by dashes. */
  lemma TextFields(g: Guid, t1: string, t2: string, t3: string, t4: string, t5: string)
    requires g.Valid()
    requires Hex(g.data1 as nat, 8) == t1 && Hex(g.data2 as nat, 4) == t2 && Hex(g.data3 as nat, 4) == t3
    requires HexBytes(g.data4[..2]) == t4 && HexBytes(g.data4[2..]) == t5
    ensures Text(g) == t1 + "-" + t2 + "-" + t3 + "-" + t4 + "-" + t5
  {
  }

  /**
   * `LiluVendorGuid` prints as the comment above its definition documents it
   * (kern_efi.cpp line 18). The fields are proved one lemma each, below.
   */
  lemma VendorText()
    ensures Text(LiluVendorGuid) == "4D1FDA02" + "-" + "38C7" + "-" + "4A6A" + "-" + "9CC6" + "-" + "4BCCA8B30102"
  {
    VendorData1();
    VendorData2();
    VendorData3();
    VendorData4Head();
    VendorData4Tail();
    TextFields(LiluVendorGuid, "4D1FDA02", "38C7", "4A6A", "9CC6", "4BCCA8B30102");
  }

  lemma VendorData1()
    ensures Hex(LiluVendorGuid.data1 as nat, 8) == "4D1FDA02"
  {
    assert Hex(0x4, 1) == "4";
    assert Hex(0x4D, 2) == "4D";
    assert Hex(0x4D1, 3) == "4D1";
    assert Hex(0x4D1F, 4) == "4D1F";
    assert Hex(0x4D1FD, 5) == "4D1FD";
    assert Hex(0x4D1FDA, 6) == "4D1FDA";
    assert Hex(0x4D1FDA0, 7) == "4D1FDA0";
  }

  lemma VendorData2()
    ensures Hex(LiluVendorGuid.data2 as nat, 4) == "38C7"
  {
  }

  lemma VendorData3()
    ensures Hex(LiluVendorGuid.data3 as nat, 4) == "4A6A"
  {
  }

  lemma VendorData4Head()
    ensures HexBytes(LiluVendorGuid.data4[..2]) == "9CC6"
  {
  }

  lemma VendorData4Tail()
    ensures HexBytes(LiluVendorGuid.data4[2..]) == "4BCCA8B30102"
  {
    var x, y, z: seq<uint8> := [0x4B, 0xCC], [0xA8, 0xB3], [0x01, 0x02];
    assert LiluVendorGuid.data4[2..] == x + y + z;
    assert HexBytes(x) == "4BCC";
    assert HexBytes(y) == "A8B3";
    assert HexBytes(z) == "0102";
    HexBytesAppend(x + y, z);
    HexBytesAppend(x, y);
  }

  /**
   * `LiluReadOnlyGuid` prints as the comment above its definition documents it
   * (kern_efi.cpp line 25). The fields are proved one lemma each, below.
   */
  lemma ReadOnlyText()
    ensures Text(LiluReadOnlyGuid) == "E09B9297" + "-" + "7928" + "-" + "4440" + "-" + "9AAB" + "-" + "D1F8536FBF0A"
  {
    ReadOnlyData1();
    ReadOnlyData2();
    ReadOnlyData3();
    ReadOnlyData4Head();
    ReadOnlyData4Tail();
    TextFields(LiluReadOnlyGuid, "E09B9297", "7928", "4440", "9AAB", "D1F8536FBF0A");
  }

  lemma ReadOnlyData1()
    ensures Hex(LiluReadOnlyGuid.data1 as nat, 8) == "E09B9297"
  {
    assert Hex(0xE, 1) == "E";
    assert Hex(0xE0, 2) == "E0";
    assert Hex(0xE09, 3) == "E09";
    assert Hex(0xE09B, 4) == "E09B";
    assert Hex(0xE09B9, 5) == "E09B9";
    assert Hex(0xE09B92, 6) == "E09B92";
    assert Hex(0xE09B929, 7) == "E09B929";
  }

  lemma ReadOnlyData2()
    ensures Hex(LiluReadOnlyGuid.data2 as nat, 4) == "7928"
  {
  }

  lemma ReadOnlyData3()
    ensures Hex(LiluReadOnlyGuid.data3 as nat, 4) == "4440"
  {
  }

  lemma ReadOnlyData4Head()
    ensures HexBytes(LiluReadOnlyGuid.data4[..2]) == "9AAB"
  {
  }

  lemma ReadOnlyData4Tail()
    ensures HexBytes(LiluReadOnlyGuid.data4[2..]) == "D1F8536FBF0A"
  {
    var x, y, z: seq<uint8> := [0xD1, 0xF8], [0x53, 0x6F], [0xBF, 0x0A];
    assert LiluReadOnlyGuid.data4[2..] == x + y + z;
    assert HexBytes(x) == "D1F8";
    assert HexBytes(y) == "536F";
    assert HexBytes(z) == "BF0A";
    HexBytesAppend(x + y, z);
    HexBytesAppend(x, y);
  }

  /**
   * `LiluWriteOnlyGuid` prints as the comment above its definition documents it
   * (kern_efi.cpp line 34). The fields are proved one lemma each, below.
   */
  lemma WriteOnlyText()
    ensures Text(LiluWriteOnlyGuid) == "F0B9AF8F" + "-" + "2222" + "-" + "4840" + "-" + "8A37" + "-" + "ECF7CC8C12E1"
  {
    WriteOnlyData1();
    WriteOnlyData2();
    WriteOnlyData3();
    WriteOnlyData4Head();
    WriteOnlyData4Tail();
    TextFields(LiluWriteOnlyGuid, "F0B9AF8F", "2222", "4840", "8A37", "ECF7CC8C12E1");
  }

  lemma WriteOnlyData1()
    ensures Hex(LiluWriteOnlyGuid.data1 as nat, 8) == "F0B9AF8F"
  {
    assert Hex(0xF, 1) == "F";
    assert Hex(0xF0, 2) == "F0";
    assert Hex(0xF0B, 3) == "F0B";
    assert Hex(0xF0B9, 4) == "F0B9";
    assert Hex(0xF0B9A, 5) == "F0B9A";
    assert Hex(0xF0B9AF, 6) == "F0B9AF";
    assert Hex(0xF0B9AF8, 7) == "F0B9AF8";
  }

  lemma WriteOnlyData2()
    ensures Hex(LiluWriteOnlyGuid.data2 as nat, 4) == "2222"
  {
  }

  lemma WriteOnlyData3()
    ensures Hex(LiluWriteOnlyGuid.data3 as nat, 4) == "4840"
  {
  }

  lemma WriteOnlyData4Head()
    ensures HexBytes(LiluWriteOnlyGuid.data4[..2]) == "8A37"
  {
  }

  lemma WriteOnlyData4Tail()
    ensures HexBytes(LiluWriteOnlyGuid.data4[2..]) == "ECF7CC8C12E1"
  {
    var x, y, z: seq<uint8> := [0xEC, 0xF7], [0xCC, 0x8C], [0x12, 0xE1];
    assert LiluWriteOnlyGuid.data4[2..] == x + y + z;
    assert HexBytes(x) == "ECF7";
    assert HexBytes(y) == "CC8C";
    assert HexBytes(z) == "12E1";
    HexBytesAppend(x + y, z);
    HexBytesAppend(x, y);
  }

  /** The three namespaces are distinct, so no variable belongs to two of them. */
  lemma NamespacesDistinct()
    ensures LiluVendorGuid != LiluReadOnlyGuid
    ensures LiluVendorGuid != LiluWriteOnlyGuid
    ensures LiluReadOnlyGuid != LiluWriteOnlyGuid
  {
  }
}
