/** Bytes as 8-bit vectors, proved where nothing else is in scope. */
module BitCasts {
  lemma Successor(v: bv8)
    requires v as int < 255
    ensures (v + 1) as int == v as int + 1
  {
  }

  lemma SameNumber(v: bv8, w: bv8)
    requires v as int == w as int
    ensures v == w
  {
  }

  /** The 8-bit vector of value `n`. */
  function Bits(n: nat): (v: bv8)
    requires n < 256
    ensures v as int == n
  {
    if n == 0 then 0
    else
      var v := Bits(n - 1);
      Successor(v);
      v + 1
  }
}

/** The client's byte buffers, its little-endian helpers with their shifts and masks, and the
    request serializer. */
module ClientMessage {
  import opened ByteStrings
  import opened Protocol
  import opened BitCasts

  /** A `std::vector<uint8_t>` that helpers fill through a reference. */
  class ByteBuffer {
    var data: Bytes

    constructor ()
      ensures data == []
    {
      data := [];
    }

    method PushBack(b: byte)
      modifies this
      ensures data == old(data) + [b]
    {
      data := data + [b];
    }

    method Append(bytes: Bytes)
      modifies this
      ensures data == old(data) + bytes
    {
      data := data + bytes;
    }
  }

  /** `static_cast<uint8_t>(v & 0xFF)` */
  function LowBits(v: bv32): bv8 {
    (v & 0xFF) as bv8
  }

  function LowByte(v: bv32): byte {
    LowBits(v) as byte
  }

  function LowByte16(v: bv16): byte {
    (v & 0xFF) as bv8 as byte
  }

  /** Four bytes widened, shifted into place and or-ed together. */
  function Compose(a: bv8, b: bv8, c: bv8, d: bv8): bv32 {
    (a as bv32) | ((b as bv32) << 8) | ((c as bv32) << 16) | ((d as bv32) << 24)
  }

  /** Or-ing shifted bytes is summing base-256 digits. */
  lemma ComposeSums(a: bv8, b: bv8, c: bv8, d: bv8)
    ensures Compose(a, b, c, d) as int
         == a as int + 256 * (b as int) + 0x1_0000 * (c as int) + 0x100_0000 * (d as int)
  {
    ComposedBits(a, b, c, d, Compose(a, b, c, d));
  }

  lemma ComposedBits(a: bv8, b: bv8, c: bv8, d: bv8, v: bv32)
    requires v == (a as bv32) | ((b as bv32) << 8) | ((c as bv32) << 16) | ((d as bv32) << 24)
    ensures v as int == a as int + 256 * (b as int) + 0x1_0000 * (c as int) + 0x100_0000 * (d as int)
  {
  }

  lemma ComposeIsFromLe(a: byte, b: byte, c: byte, d: byte)
    ensures Compose(Bits(a), Bits(b), Bits(c), Bits(d)) as nat == FromLe([a, b, c, d])
  {
    ComposeSums(Bits(a), Bits(b), Bits(c), Bits(d));
    FourDigits(a, b, c, d, Compose(Bits(a), Bits(b), Bits(c), Bits(d)) as nat);
  }

  lemma Rebuild(v: bv32)
    ensures v == Compose(LowBits(v), LowBits(v >> 8), LowBits(v >> 16), LowBits(v >> 24))
  {
  }

  /** Masking and shifting a 32-bit value is taking its base-256 digits. */
  lemma MaskingSums(v: bv32)
    ensures v as int == LowByte(v) as int + 256 * (LowByte(v >> 8) as int)
                        + 0x1_0000 * (LowByte(v >> 16) as int) + 0x100_0000 * (LowByte(v >> 24) as int)
  {
    Rebuild(v);
    ComposeSums(LowBits(v), LowBits(v >> 8), LowBits(v >> 16), LowBits(v >> 24));
  }

  lemma DigitsAreLe(v: bv32)
    ensures [LowByte(v), LowByte(v >> 8), LowByte(v >> 16), LowByte(v >> 24)] == Le(v as nat, 4)
  {
    MaskingSums(v);
    FourDigits(LowByte(v), LowByte(v >> 8), LowByte(v >> 16), LowByte(v >> 24), v as nat);
  }

  lemma MaskingSums16(v: bv16)
    ensures v as int == LowByte16(v) as int + 256 * (LowByte16(v >> 8) as int)
  {
  }

  lemma Digits16AreLe(v: bv16)
    ensures [LowByte16(v), LowByte16(v >> 8)] == Le(v as nat, 2)
  {
    MaskingSums16(v);
    TwoDigits(LowByte16(v), LowByte16(v >> 8), v as nat);
  }

  method AppendUint16LE(buf: ByteBuffer, value: bv16)
    modifies buf
    ensures buf.data == old(buf.data) + Le(value as nat, 2)
  {
    buf.PushBack(LowByte16(value));
    buf.PushBack(LowByte16(value >> 8));
    Digits16AreLe(value);
  }

  method AppendUint32LE(buf: ByteBuffer, value: bv32)
    modifies buf
    ensures buf.data == old(buf.data) + Le(value as nat, 4)
  {
    buf.PushBack(LowByte(value));
    buf.PushBack(LowByte(value >> 8));
    buf.PushBack(LowByte(value >> 16));
    buf.PushBack(LowByte(value >> 24));
    DigitsAreLe(value);
  }

  method ReadUint32LE(data: Bytes, offset: nat) returns (r: Result<bv32>)
    ensures r.Ok? <==> |data| >= offset + 4
    ensures r.Ok? ==> r.value as nat == FromLe(data[offset..offset + 4])
  {
    if |data| < offset + 4 {
      return Failed;
    }
    var b := data[offset..offset + 4];
    var value := OrIntoPlace(Bits(b[0]), Bits(b[1]), Bits(b[2]), Bits(b[3]));
    ComposeIsFromLe(b[0], b[1], b[2], b[3]);
    assert b == [b[0], b[1], b[2], b[3]];
    return Ok(value);
  }

  /** The four `value |= byte << k` statements. */
  method OrIntoPlace(a: bv8, b: bv8, c: bv8, d: bv8) returns (value: bv32)
    ensures value == Compose(a, b, c, d)
  {
    value := 0;
    value := value | (a as bv32);
    value := value | ((b as bv32) << 8);
    value := value | ((c as bv32) << 16);
    value := value | ((d as bv32) << 24);
    OrFromZero(a, b, c, d);
  }

  lemma OrFromZero(a: bv8, b: bv8, c: bv8, d: bv8)
    ensures (((0 | (a as bv32)) | ((b as bv32) << 8)) | ((c as bv32) << 16)) | ((d as bv32) << 24) == Compose(a, b, c, d)
  {
  }

  /** What was appended after any prefix and followed by anything reads back, bit for bit. */
  lemma AppendedReadsBack(prefix: Bytes, v: bv32, suffix: Bytes)
    ensures var data := prefix + [LowByte(v), LowByte(v >> 8), LowByte(v >> 16), LowByte(v >> 24)] + suffix;
            var at := |prefix|;
            && Compose(Bits(data[at]), Bits(data[at + 1]), Bits(data[at + 2]), Bits(data[at + 3])) == v
            && FromLe(data[at..at + 4]) == v as nat
  {
    var b := [LowByte(v), LowByte(v >> 8), LowByte(v >> 16), LowByte(v >> 24)];
    var data, at := prefix + b + suffix, |prefix|;
    MaskingSums(v);
    FourDigits(LowByte(v), LowByte(v >> 8), LowByte(v >> 16), LowByte(v >> 24), v as nat);
    assert data[at..at + 4] == b;
    ByteOfBits(LowBits(v));
    ByteOfBits(LowBits(v >> 8));
    ByteOfBits(LowBits(v >> 16));
    ByteOfBits(LowBits(v >> 24));
    Rebuild(v);
  }

  lemma ByteOfBits(a: bv8)
    ensures Bits(a as byte) == a
  {
    SameNumber(Bits(a as byte), a);
  }

  lemma {:induction false} LeOfRemainder(v: nat, n: nat)
    ensures Le(v % Pow256(n), n) == Le(v, n)
  {
    LeRoundTrip(v, n);
    FromLeRoundTrip(Le(v, n));
  }

  /** `static_cast<uint32_t>(size)` keeps what four bytes can hold. */
  method CastSize(n: nat) returns (size: bv32)
    ensures size as nat == n % TWO_32
  {
    var b := Le(n, 4);
    size := Compose(Bits(b[0]), Bits(b[1]), Bits(b[2]), Bits(b[3]));
    ComposeIsFromLe(b[0], b[1], b[2], b[3]);
    assert b == [b[0], b[1], b[2], b[3]];
    Le4RoundTrip(n);
  }

  class Message {
    const clientId: Id
    const version: byte := CLIENT_VERSION
    const code: bv16
    const payload: Bytes

    constructor (clientId: Id, code: bv16, payload: Bytes)
      ensures this.clientId == clientId && this.code == code && this.payload == payload
    {
      this.clientId, this.code, this.payload := clientId, code, payload;
    }

    method CreateBuffer() returns (buffer: Bytes)
      ensures buffer == Request(clientId, CLIENT_VERSION, code as nat, payload)
    {
      var buf := new ByteBuffer();
      buf.Append(clientId);
      buf.PushBack(version);
      AppendUint16LE(buf, code);
      var size := CastSize(|payload|);
      AppendUint32LE(buf, size);
      Pow256Values();
      LeOfRemainder(|payload|, 4);
      buf.Append(payload);
      buffer := buf.data;
    }
  }
}
