/** Client ids as 32 hexadecimal digits. */
module Hex {
  import opened ByteStrings
  import opened Protocol
  import opened BitCasts

  const UUID_HEX_LENGTH := 32

  predicate IsDigit(c: byte) {
    48 <= c <= 57
  }

  predicate IsXDigit(c: byte) {
    IsDigit(c) || 65 <= c <= 70 || 97 <= c <= 102
  }

  /** `std::tolower` in the "C" locale. */
  function ToLower(c: byte): byte {
    if 65 <= c <= 90 then c + 32 else c
  }

  function LowerAscii(s: Bytes): (r: Bytes)
    ensures |r| == |s|
  {
    seq(|s|, i requires 0 <= i < |s| => ToLower(s[i]))
  }

  predicate ValidHexUuid(s: Bytes) {
    |s| == UUID_HEX_LENGTH && forall i :: 0 <= i < |s| ==> IsXDigit(s[i])
  }

  /** The value of a hexadecimal digit in either case. */
  function DigitValue(c: byte): (v: nat)
    requires IsXDigit(c)
    ensures v < 16
  {
    if IsDigit(c) then c - 48 else if c >= 97 then c - 87 else c - 55
  }

  function HexDigit(v: nat): (c: byte)
    requires v < 16
    ensures IsXDigit(c) && DigitValue(c) == v && ToLower(c) == c
  {
    if v < 10 then 48 + v else 87 + v
  }

  /** Two lower-case digits a byte, the high nibble first. */
  function ToHex(b: Bytes): (s: Bytes)
    ensures |s| == 2 * |b|
  {
    seq(2 * |b|, i requires 0 <= i < 2 * |b| => HexDigit(if i % 2 == 0 then b[i / 2] / 16 else b[i / 2] % 16))
  }

  function FromHex(s: Bytes): (b: Bytes)
    requires |s| % 2 == 0 && forall i :: 0 <= i < |s| ==> IsXDigit(s[i])
    ensures |b| == |s| / 2
  {
    seq(|s| / 2, i requires 0 <= i < |s| / 2 => 16 * DigitValue(s[2 * i]) + DigitValue(s[2 * i + 1]))
  }

  /** Printing then parsing gives back the bytes. */
  lemma ParsePrinted(b: Bytes)
    ensures forall i :: 0 <= i < 2 * |b| ==> IsXDigit(ToHex(b)[i])
    ensures FromHex(ToHex(b)) == b
  {
  }

  /** Parsing then printing gives back the digits in lower case. */
  lemma PrintParsed(s: Bytes)
    requires ValidHexUuid(s)
    ensures ToHex(FromHex(s)) == LowerAscii(s)
  {
    var b := FromHex(s);
    forall k | 0 <= k < |b|
      ensures ToHex(b)[2 * k] == ToLower(s[2 * k]) && ToHex(b)[2 * k + 1] == ToLower(s[2 * k + 1])
    {
      PairPrints(b, s[2 * k], s[2 * k + 1], k);
    }
    forall i | 0 <= i < |s| ensures ToHex(b)[i] == LowerAscii(s)[i] {
      assert i == 2 * (i / 2) || i == 2 * (i / 2) + 1;
    }
  }

  lemma PairPrints(b: Bytes, h: byte, l: byte, k: nat)
    requires k < |b| && IsXDigit(h) && IsXDigit(l) && b[k] == 16 * DigitValue(h) + DigitValue(l)
    ensures ToHex(b)[2 * k] == ToLower(h) && ToHex(b)[2 * k + 1] == ToLower(l)
  {
  }

  lemma HighNibble(v: bv8)
    ensures ((v >> 4) & 0x0F) as int == v as int / 16
    ensures (v & 0x0F) as int == v as int % 16
  {
  }

  method ToLowerAscii(s: Bytes) returns (r: Bytes)
    ensures r == LowerAscii(s)
  {
    r := [];
    for i := 0 to |s|
      invariant |r| == i
      invariant forall j :: 0 <= j < i ==> r[j] == ToLower(s[j])
    {
      r := r + [ToLower(s[i])];
    }
  }

  method IsValidHexUuid(s: Bytes) returns (valid: bool)
    ensures valid <==> ValidHexUuid(s)
  {
    if |s| != UUID_HEX_LENGTH {
      return false;
    }
    for i := 0 to |s|
      invariant forall j :: 0 <= j < i ==> IsXDigit(s[j])
    {
      if !IsXDigit(s[i]) {
        return false;
      }
    }
    return true;
  }

  /** The value of a lower-case hexadecimal digit. */
  function HexNibble(c: byte): byte
    requires IsXDigit(c) && ToLower(c) == c
  {
    if c <= 57 then c - 48 else 10 + (c - 97)
  }

  method UuidHex32ToBytes16(hex: Bytes) returns (r: Result<Bytes>)
    ensures r.Ok? <==> ValidHexUuid(hex)
    ensures r.Ok? ==> r.value == FromHex(hex) && |r.value| == ID_SIZE
  {
    var valid := IsValidHexUuid(hex);
    if !valid {
      return Failed;
    }
    var lowered := ToLowerAscii(hex);
    var out := new byte[ID_SIZE](_ => 0);
    for i := 0 to ID_SIZE
      invariant forall j :: 0 <= j < i ==> out[j] == FromHex(hex)[j]
    {
      assert IsXDigit(hex[2 * i]) && IsXDigit(hex[2 * i + 1]);
      var hi := HexNibble(lowered[2 * i]);
      var lo := HexNibble(lowered[2 * i + 1]);
      out[i] := JoinedByte(hi, lo);
    }
    assert out[..] == FromHex(hex);
    return Ok(out[..]);
  }

  /** `static_cast<uint8_t>((hi << 4) | lo)` */
  function JoinedByte(hi: byte, lo: byte): (b: byte)
    requires hi < 16 && lo < 16
    ensures b == 16 * hi as int + lo as int
  {
    JoinBelow(Bits(hi), Bits(lo));
    ((Bits(hi) << 4) | Bits(lo)) as byte
  }

  lemma JoinBelow(h: bv8, l: bv8)
    requires h as int < 16 && l as int < 16
    ensures ((h << 4) | l) as int == 16 * (h as int) + l as int
  {
  }

  method BytesToHex(bytes: Id) returns (text: Bytes)
    ensures text == ToHex(bytes)
  {
    var ret := new byte[UUID_HEX_LENGTH](_ => 0);
    for i := 0 to ID_SIZE
      invariant forall j :: 0 <= j < 2 * i ==> ret[j] == ToHex(bytes)[j]
    {
      var b := Bits(bytes[i]);
      HighNibble(b);
      ret[2 * i] := HexDigit(((b >> 4) & 0x0F) as nat);
      ret[2 * i + 1] := HexDigit((b & 0x0F) as nat);
    }
    assert ret[..] == ToHex(bytes);
    text := ret[..];
  }

  /** The characters that count as hexadecimal digits, and what each stands for. */
  lemma HexCharacters(c: byte)
    ensures IsXDigit(c) <==> '0' <= c as char <= '9' || 'a' <= c as char <= 'f' || 'A' <= c as char <= 'F'
    ensures ToLower(c) as char == if 'A' <= c as char <= 'Z' then c as char + 32 as char else c as char
    ensures IsXDigit(c) ==> ToLower(c) as char == "0123456789abcdef"[DigitValue(c)]
  {
  }

  /** Each byte is printed as two digits, the one that counts sixteens first. */
  lemma SixteensFirst(b: Bytes, i: nat)
    requires i < |b|
    ensures IsXDigit(ToHex(b)[2 * i]) && IsXDigit(ToHex(b)[2 * i + 1])
    ensures b[i] == 16 * DigitValue(ToHex(b)[2 * i]) + DigitValue(ToHex(b)[2 * i + 1])
  {
    assert ToHex(b)[2 * i] == HexDigit(b[i] / 16) && ToHex(b)[2 * i + 1] == HexDigit(b[i] % 16);
  }
}
