/** The binary layout shared by both programs: request and response headers and the fields
    that the server slices out of a request. */
module Protocol {
  import opened ByteStrings

  const SERVER_VERSION: byte := 2
  const CLIENT_VERSION: byte := 1

  const ID_SIZE := 16
  const NAME_SIZE := 255
  const KEY_SIZE := 160
  const REQUEST_HEADER := 23
  const RESPONSE_HEADER := 7
  const SEND_HEADER := 44     // request header, target id, message type, content size
  const REGISTER_SIZE := 438  // request header, name field, public key

  const REQUEST_REGISTER := 700
  const REQUEST_CLIENTS_LIST := 701
  const REQUEST_PUBLIC_KEY := 702
  const REQUEST_SEND_MESSAGE := 703
  const REQUEST_WAITING_MESSAGES := 704

  const RESPONSE_REGISTER := 2100
  const RESPONSE_CLIENT_LIST := 2101
  const RESPONSE_PUBLIC_KEY := 2102
  const RESPONSE_MESSAGE_SENT := 2103
  const RESPONSE_WAITING_MESSAGES := 2104
  const ERROR_GENERAL := 9000

  const KEY_REQUEST: byte := 1
  const KEY_SEND: byte := 2
  const TEXT_MESSAGE: byte := 3

  type Id = b: Bytes | |b| == ID_SIZE witness seq(ID_SIZE, _ => 0)

  datatype Exchange = Exchange(request: Bytes, response: Bytes)

  /** The bytes of a request. `Le` keeps the low four bytes of the size, as the client's cast
      to `uint32_t` does. */
  function Request(id: Id, version: byte, code: nat, payload: Bytes): Bytes {
    id + [version] + Le(code, 2) + Le(|payload|, 4) + payload
  }

  /** The fields that the server reads from a request. */
  function Requester(data: Bytes): Id
    requires |data| >= REQUEST_HEADER
  {
    data[..ID_SIZE]
  }

  function Code(data: Bytes): nat
    requires |data| >= REQUEST_HEADER
  {
    FromLe(data[17..19])
  }

  function PayloadSize(data: Bytes): nat
    requires |data| >= REQUEST_HEADER
  {
    FromLe(data[19..23])
  }

  function Payload(data: Bytes): Bytes
    requires |data| >= REQUEST_HEADER
  {
    data[REQUEST_HEADER..]
  }

  function Target(data: Bytes): Id
    requires |data| >= REQUEST_HEADER + ID_SIZE
  {
    data[REQUEST_HEADER..REQUEST_HEADER + ID_SIZE]
  }

  function Kind(data: Bytes): byte
    requires |data| >= SEND_HEADER
  {
    data[39]
  }

  function ContentSize(data: Bytes): nat
    requires |data| >= SEND_HEADER
  {
    FromLe(data[40..44])
  }

  function Content(data: Bytes): Bytes
    requires |data| >= SEND_HEADER
  {
    data[SEND_HEADER..]
  }

  /** Python's `raw.split(b'\x00', 1)[0]`, and the client's `strnlen` on a fixed field. */
  function BeforeNul(b: Bytes): (r: Bytes)
    ensures r <= b && 0 !in r
    ensures r == b || b[|r|] == 0
  {
    UpTo(b, 0)
  }

  function RegisteredName(data: Bytes): Bytes
    requires |data| == REGISTER_SIZE
  {
    BeforeNul(data[REQUEST_HEADER..REQUEST_HEADER + NAME_SIZE])
  }

  function RegisteredKey(data: Bytes): Bytes
    requires |data| == REGISTER_SIZE
  {
    data[REQUEST_HEADER + NAME_SIZE..]
  }

  predicate Ascii(b: Bytes) {
    forall c | c in b :: c < 128
  }

  /** A whole request: as many bytes after the header as its size field says. */
  predicate Framed(data: Bytes) {
    |data| >= REQUEST_HEADER && |data| == REQUEST_HEADER + PayloadSize(data)
  }

  /** A request that gets past the header checks: whole, and of the client's version. */
  predicate Acceptable(data: Bytes) {
    Framed(data) && data[16] == CLIENT_VERSION
  }

  function Response(code: nat, payload: Bytes): Bytes {
    [SERVER_VERSION] + Le(code, 2) + Le(|payload|, 4) + payload
  }

  function ErrorResponse(): Bytes {
    Response(ERROR_GENERAL, [])
  }

  /** `_build_response` under the dispatcher's handlers: a payload that `struct.pack` cannot
      measure in four bytes raises, and the exception becomes a general error. */
  function Reply(code: nat, payload: Bytes): Bytes {
    if |payload| < TWO_32 then Response(code, payload) else ErrorResponse()
  }

  function ResponseCode(r: Bytes): nat
    requires |r| >= RESPONSE_HEADER
  {
    FromLe(r[1..3])
  }

  function ResponseSize(r: Bytes): nat
    requires |r| >= RESPONSE_HEADER
  {
    FromLe(r[3..7])
  }

  function ResponsePayload(r: Bytes): Bytes
    requires |r| >= RESPONSE_HEADER
  {
    r[RESPONSE_HEADER..]
  }

  predicate FramedResponse(r: Bytes) {
    |r| >= RESPONSE_HEADER && |r| == RESPONSE_HEADER + ResponseSize(r)
  }

  predicate WellFormedResponse(r: Bytes) {
    && FramedResponse(r)
    && r[0] == SERVER_VERSION
    && ResponseCode(r) in {RESPONSE_REGISTER, RESPONSE_CLIENT_LIST, RESPONSE_PUBLIC_KEY,
                           RESPONSE_MESSAGE_SENT, RESPONSE_WAITING_MESSAGES, ERROR_GENERAL}
  }

  predicate Succeeds(r: Bytes, code: nat) {
    |r| >= RESPONSE_HEADER && ResponseCode(r) == code
  }

  /** Every header field of a request reads back as written; the size field does exactly when
      the payload is below 2^32 bytes, and only then is the request framed. */
  lemma RequestFields(id: Id, version: byte, code: nat, payload: Bytes)
    requires code < 0x1_0000
    ensures var data := Request(id, version, code, payload);
            && |data| == REQUEST_HEADER + |payload|
            && Requester(data) == id && data[16] == version && Code(data) == code
            && Payload(data) == payload
            && PayloadSize(data) == |payload| % TWO_32
            && (Framed(data) <==> |payload| < TWO_32)
  {
    var data := Request(id, version, code, payload);
    assert data[17..19] == Le(code, 2);
    assert data[19..23] == Le(|payload|, 4);
    Le2RoundTrip(code);
    Le4RoundTrip(|payload|);
  }

  lemma ResponseFields(code: nat, payload: Bytes)
    requires code < 0x1_0000 && |payload| < TWO_32
    ensures var r := Response(code, payload);
            && FramedResponse(r) && r[0] == SERVER_VERSION
            && ResponseCode(r) == code && ResponsePayload(r) == payload
  {
    var r := Response(code, payload);
    assert r[1..3] == Le(code, 2);
    assert r[3..7] == Le(|payload|, 4);
    Le2RoundTrip(code);
    Le4RoundTrip(|payload|);
  }

  lemma ReplyWellFormed(code: nat, payload: Bytes)
    requires code in {RESPONSE_REGISTER, RESPONSE_CLIENT_LIST, RESPONSE_PUBLIC_KEY,
                      RESPONSE_MESSAGE_SENT, RESPONSE_WAITING_MESSAGES, ERROR_GENERAL}
    ensures var r := Reply(code, payload);
            && WellFormedResponse(r)
            && (|payload| < TWO_32 ==> ResponseCode(r) == code && ResponsePayload(r) == payload)
            && (|payload| >= TWO_32 ==> ResponseCode(r) == ERROR_GENERAL && r == ErrorResponse())
  {
    if |payload| < TWO_32 {
      ResponseFields(code, payload);
    } else {
      ResponseFields(ERROR_GENERAL, []);
    }
  }

  lemma ErrorWellFormed()
    ensures WellFormedResponse(ErrorResponse()) && ResponseCode(ErrorResponse()) == ERROR_GENERAL
  {
    ResponseFields(ERROR_GENERAL, []);
  }

  lemma BeforeNulOfPadded(name: Bytes, padding: Bytes)
    requires padding != [] && padding[0] == 0
    ensures BeforeNul(name + padding) == BeforeNul(name)
    ensures BeforeNul(name) == name <==> 0 !in name
  {
    var kept := BeforeNul(name);
    if kept == name {
      assert name + padding == kept + [0] + padding[1..];
      UpToFirst(kept, 0, padding[1..]);
    } else {
      var rest := name[|kept| + 1..];
      assert name + padding == kept + [0] + (rest + padding);
      assert name[|kept|] in name;
      UpToFirst(kept, 0, rest + padding);
    }
  }
}
