/** The wire format byte for byte: where each field lies and what number its bytes are, in plain
    numbers. Client and server share their constants in this model, so this is where they are
    held against the protocol. */
module Layout {
  import opened ByteStrings
  import opened Protocol
  import opened DatabaseModel
  import opened Records

  /** The number in two bytes of `data`, and in four. */
  function Two(data: Bytes, at: nat): nat
    requires at + 2 <= |data|
  {
    data[at] as int + 256 * (data[at + 1] as int)
  }

  function Four(data: Bytes, at: nat): nat
    requires at + 4 <= |data|
  {
    data[at] as int + 256 * (data[at + 1] as int) + 0x1_0000 * (data[at + 2] as int) + 0x100_0000 * (data[at + 3] as int)
  }

  lemma FromTwo(data: Bytes, at: nat)
    requires at + 2 <= |data|
    ensures FromLe(data[at..at + 2]) == Two(data, at)
  {
    assert data[at..at + 2] == [data[at], data[at + 1]];
    TwoDigits(data[at], data[at + 1], Two(data, at));
  }

  lemma FromFour(data: Bytes, at: nat)
    requires at + 4 <= |data|
    ensures FromLe(data[at..at + 4]) == Four(data, at)
  {
    assert data[at..at + 4] == [data[at], data[at + 1], data[at + 2], data[at + 3]];
    FourDigits(data[at], data[at + 1], data[at + 2], data[at + 3], Four(data, at));
  }

  /** Where the server finds each field. */
  lemma FieldBytes(data: Bytes)
    requires |data| >= 23
    ensures Requester(data) == data[..16] && Code(data) == Two(data, 17) && PayloadSize(data) == Four(data, 19)
    ensures Payload(data) == data[23..]
    ensures |data| >= 39 ==> Target(data) == data[23..39]
    ensures |data| >= 44 ==> Kind(data) == data[39] && ContentSize(data) == Four(data, 40) && Content(data) == data[44..]
    ensures |data| == 438 ==> RegisteredName(data) == UpTo(data[23..278], 0) && RegisteredKey(data) == data[278..438]
  {
    FromTwo(data, 17);
    FromFour(data, 19);
    if |data| >= 44 {
      FromFour(data, 40);
    }
  }

  lemma LeBytes(n: nat)
    ensures Le(n, 2) == [n % 256, n / 256 % 256]
    ensures Le(n, 4) == [n % 256, n / 256 % 256, n / 0x1_0000 % 256, n / 0x100_0000 % 256]
  {
    var a, b, c := n / 256, n / 256 / 256, n / 256 / 256 / 256;
    assert b == n / 0x1_0000 && c == n / 0x100_0000;
    assert Le(c, 1) == [c % 256] + Le(c / 256, 0);
    assert Le(b, 2) == [b % 256] + Le(c, 1);
    assert Le(a, 3) == [a % 256] + Le(b, 2);
    assert Le(a, 1) == [a % 256] + Le(b, 0);
  }

  /** The bytes of a request: id, version, code, size of the payload, payload. */
  lemma RequestBytes(id: Id, code: nat, payload: Bytes)
    requires code < 0x1_0000
    ensures var n := |payload|;
            Request(id, CLIENT_VERSION, code, payload)
            == id + [1, code % 256, code / 256, n % 256, n / 256 % 256, n / 0x1_0000 % 256, n / 0x100_0000 % 256] + payload
  {
    LeBytes(code);
    LeBytes(|payload|);
  }

  /** The bytes of a response: version, code, size of the payload, payload. */
  lemma ResponseBytes(code: nat, payload: Bytes)
    requires code < 0x1_0000
    ensures var n := |payload|;
            Response(code, payload)
            == [2, code % 256, code / 256, n % 256, n / 256 % 256, n / 0x1_0000 % 256, n / 0x100_0000 % 256] + payload
  {
    LeBytes(code);
    LeBytes(|payload|);
  }

  /** The first three bytes of each kind of success. */
  lemma SuccessBytes(payload: Bytes)
    ensures Response(RESPONSE_REGISTER, payload)[..3] == [2, 0x34, 0x08]
    ensures Response(RESPONSE_CLIENT_LIST, payload)[..3] == [2, 0x35, 0x08]
    ensures Response(RESPONSE_PUBLIC_KEY, payload)[..3] == [2, 0x36, 0x08]
    ensures Response(RESPONSE_MESSAGE_SENT, payload)[..3] == [2, 0x37, 0x08]
    ensures Response(RESPONSE_WAITING_MESSAGES, payload)[..3] == [2, 0x38, 0x08]
  {
    hide Response, Le;
    ResponseBytes(RESPONSE_REGISTER, payload);
    ResponseBytes(RESPONSE_CLIENT_LIST, payload);
    ResponseBytes(RESPONSE_PUBLIC_KEY, payload);
    ResponseBytes(RESPONSE_MESSAGE_SENT, payload);
    ResponseBytes(RESPONSE_WAITING_MESSAGES, payload);
  }

  lemma ErrorBytes()
    ensures ErrorResponse() == [2, 0x28, 0x23, 0, 0, 0, 0]
  {
    ResponseBytes(9000, []);
  }

  /** The bytes of a record in a 2104 payload. */
  lemma RowBytes(m: MessageRow)
    ensures EncodeRow(m).Some? <==> m.id < 0x1_0000_0000 && |m.content| < 0x1_0000_0000
    ensures EncodeRow(m).Some? ==>
              var i, n := m.id, |m.content|;
              EncodeRow(m).value
              == m.from + [i % 256, i / 256 % 256, i / 0x1_0000 % 256, i / 0x100_0000 % 256] + [m.kind]
                 + [n % 256, n / 256 % 256, n / 0x1_0000 % 256, n / 0x100_0000 % 256] + m.content
  {
    LeBytes(m.id);
    LeBytes(|m.content|);
  }

  /** A name field: at most 254 bytes of the name, then zeros up to 255. */
  lemma NameBytes(name: Bytes)
    ensures var f, n := NameField(name), if |name| > 254 then 254 else |name|;
            |f| == 255 && f[..n] == name[..n] && forall i :: n <= i < 255 ==> f[i] == 0
  {
  }

  /** A 2101 payload: 271 bytes for each client, its id and then its name field. */
  lemma {:induction false} ListBytes(rows: seq<ClientRow>)
    ensures |EncodeClients(rows)| == 271 * |rows|
  {
    if rows != [] {
      ListBytes(rows[1..]);
    }
  }

  lemma {:induction false} EntryBytes(rows: seq<ClientRow>, i: nat)
    requires i < |rows|
    ensures |EncodeClients(rows)| == 271 * |rows|
    ensures var p := EncodeClients(rows);
            p[271 * i..271 * i + 16] == rows[i].id && p[271 * i + 16..271 * i + 271] == NameField(rows[i].name)
  {
    ListBytes(rows);
    var p, rest := EncodeClients(rows), EncodeClients(rows[1..]);
    assert p == rows[0].id + NameField(rows[0].name) + rest;
    if i > 0 {
      hide EncodeClients, NameField;
      EntryBytes(rows[1..], i - 1);
      EntryShift(p, rest, 271 * (i - 1));
    }
  }

  lemma EntryShift(p: Bytes, rest: Bytes, at: nat)
    requires |p| == 271 + |rest| && p[271..] == rest && at + 271 <= |rest|
    ensures p[at + 271..at + 287] == rest[at..at + 16] && p[at + 287..at + 542] == rest[at + 16..at + 271]
  {
  }
}
