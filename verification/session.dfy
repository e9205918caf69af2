/** One connection as a state machine: a client that sends its requests one at a time, a server
    that answers each, and between them two byte streams cut into chunks at will. */
module Session {
  import opened ByteStrings
  import opened Protocol

  datatype Client =
    | Idle
    | Sending(rest: Bytes)
    | AwaitHeader(got: Bytes)
    | AwaitPayload(header: Bytes, got: Bytes)

  datatype Server =
    | ReadHeader(got: Bytes)
    | ReadPayload(header: Bytes, got: Bytes)
    | Handling(data: Bytes)
    | Replying(rest: Bytes)

  /** `up` and `down` are the bytes in flight; `answers` is what the handler was asked and what
      it answered; `returned` is what each `sendAndReceive` gave back. */
  datatype Link = Link(next: nat, client: Client, server: Server, up: Bytes, down: Bytes,
                       answers: seq<Exchange>, returned: seq<Bytes>)

  /** `n` is the size of a chunk; `r` is whatever the handler answers. */
  datatype Event =
    | Call
    | Write(n: nat)
    | Take(n: nat)
    | Handle(r: Bytes)
    | Reply(n: nat)
    | Receive(n: nat)

  predicate Chunk(n: nat, available: Bytes, wanted: int) {
    1 <= n <= |available| && n <= wanted
  }

  predicate Enabled(requests: seq<Bytes>, s: Link, e: Event) {
    match e
    case Call => s.client.Idle? && s.next < |requests|
    case Write(n) => s.client.Sending? && Chunk(n, s.client.rest, |s.client.rest|)
    case Take(n) =>
      || (s.server.ReadHeader? && Chunk(n, s.up, REQUEST_HEADER - |s.server.got|))
      || (s.server.ReadPayload? && |s.server.header| == REQUEST_HEADER
          && Chunk(n, s.up, PayloadSize(s.server.header) - |s.server.got|))
    case Handle(r) => s.server.Handling? && WellFormedResponse(r)
    case Reply(n) => s.server.Replying? && Chunk(n, s.server.rest, |s.server.rest|)
    case Receive(n) =>
      || (s.client.AwaitHeader? && Chunk(n, s.down, RESPONSE_HEADER - |s.client.got|))
      || (s.client.AwaitPayload? && |s.client.header| == RESPONSE_HEADER
          && Chunk(n, s.down, ResponseSize(s.client.header) - |s.client.got|))
  }

  /** `receive_exact` of the header, then of the payload; a zero size needs no read. */
  function AfterHeader(got: Bytes): Server {
    if |got| < REQUEST_HEADER then ReadHeader(got)
    else if PayloadSize(got) == 0 then Handling(got) else ReadPayload(got, [])
  }

  function AfterPayload(header: Bytes, got: Bytes): Server
    requires |header| == REQUEST_HEADER
  {
    if |got| < PayloadSize(header) then ReadPayload(header, got) else Handling(header + got)
  }

  /** The client returns the response as soon as it is complete. */
  function WithResponse(s: Link, header: Bytes, got: Bytes, down: Bytes): Link
    requires |header| == RESPONSE_HEADER
  {
    if |got| < ResponseSize(header) then s.(client := AwaitPayload(header, got), down := down)
    else s.(client := Idle, down := down, returned := s.returned + [header + got])
  }

  function Do(requests: seq<Bytes>, s: Link, e: Event): Link
    requires Enabled(requests, s, e)
  {
    match e
    case Call => s.(client := Sending(requests[s.next]), next := s.next + 1)
    case Write(n) =>
      var rest := s.client.rest[n..];
      s.(client := if rest == [] then AwaitHeader([]) else Sending(rest), up := s.up + s.client.rest[..n])
    case Take(n) =>
      var got := s.server.got + s.up[..n];
      s.(server := if s.server.ReadHeader? then AfterHeader(got) else AfterPayload(s.server.header, got),
         up := s.up[n..])
    case Handle(r) => s.(server := Replying(r), answers := s.answers + [Exchange(s.server.data, r)])
    case Reply(n) =>
      var rest := s.server.rest[n..];
      s.(server := if rest == [] then ReadHeader([]) else Replying(rest), down := s.down + s.server.rest[..n])
    case Receive(n) =>
      var got := s.client.got + s.down[..n];
      if s.client.AwaitHeader? then
        if |got| < RESPONSE_HEADER then s.(client := AwaitHeader(got), down := s.down[n..])
        else WithResponse(s, got, [], s.down[n..])
      else WithResponse(s, s.client.header, got, s.down[n..])
  }

  const START := Link(0, Idle, ReadHeader([]), [], [], [], [])

  predicate Completed(requests: seq<Bytes>, s: Link) {
    s.client.Idle? && s.next == |requests|
  }

  function Unsent(c: Client): Bytes {
    if c.Sending? then c.rest else []
  }

  function ClientHas(c: Client): Bytes {
    match c
    case AwaitHeader(got) => got
    case AwaitPayload(header, got) => header + got
    case _ => []
  }

  function ServerHas(s: Server): Bytes {
    match s
    case ReadHeader(got) => got
    case ReadPayload(header, got) => header + got
    case Handling(data) => data
    case Replying(_) => []
  }

  function Unreplied(s: Server): Bytes {
    if s.Replying? then s.rest else []
  }

  predicate ClientShape(c: Client) {
    match c
    case Idle => true
    case Sending(rest) => rest != []
    case AwaitHeader(got) => |got| < RESPONSE_HEADER
    case AwaitPayload(header, got) => |header| == RESPONSE_HEADER && |got| < ResponseSize(header)
  }

  predicate ServerShape(s: Server) {
    match s
    case ReadHeader(got) => |got| < REQUEST_HEADER
    case ReadPayload(header, got) => |header| == REQUEST_HEADER && |got| < PayloadSize(header)
    case Handling(data) => true
    case Replying(rest) => rest != []
  }

  /** What the handler was asked so far is what was sent, and what was returned is what it
      answered. */
  predicate Agree(requests: seq<Bytes>, s: Link) {
    && |s.returned| <= |s.answers| <= |requests|
    && (forall j :: 0 <= j < |s.answers| ==> s.answers[j].request == requests[j] && WellFormedResponse(s.answers[j].response))
    && (forall j :: 0 <= j < |s.returned| ==> s.returned[j] == s.answers[j].response)
  }

  predicate Between(s: Link) {
    && s.client.Idle? && s.next == |s.returned| == |s.answers|
    && s.up == [] && s.down == [] && s.server == ReadHeader([])
  }

  /** The request in progress is spread over the client, the stream and the server. */
  predicate Asking(requests: seq<Bytes>, s: Link) {
    && (s.client.Sending? || s.client == AwaitHeader([])) && !s.server.Replying?
    && s.next == |s.returned| + 1 && |s.answers| == |s.returned| < |requests|
    && s.down == []
    && ServerHas(s.server) + s.up + Unsent(s.client) == requests[|s.returned|]
    && (s.server.Handling? ==> s.up == [] && Unsent(s.client) == [])
  }

  /** Its response is spread over the server, the stream and the client. */
  predicate Answering(s: Link) {
    && (s.client.AwaitHeader? || s.client.AwaitPayload?) && (s.server.Replying? || s.server == ReadHeader([]))
    && s.next == |s.returned| + 1 == |s.answers|
    && s.up == []
    && ClientHas(s.client) + s.down + Unreplied(s.server) == s.answers[|s.returned|].response
  }

  predicate InStep(requests: seq<Bytes>, s: Link) {
    && ClientShape(s.client) && ServerShape(s.server) && Agree(requests, s)
    && (Between(s) || Asking(requests, s) || Answering(s))
  }

  predicate AllFramed(requests: seq<Bytes>) {
    forall j :: 0 <= j < |requests| ==> Framed(requests[j])
  }

  /** The size field of a request is settled by its first 23 bytes. */
  lemma SizeOfPrefix(got: Bytes, rest: Bytes)
    requires |got| >= REQUEST_HEADER
    ensures PayloadSize(got + rest) == PayloadSize(got)
  {
    assert (got + rest)[19..23] == got[19..23];
  }

  lemma ResponseSizeOfPrefix(got: Bytes, rest: Bytes)
    requires |got| >= RESPONSE_HEADER
    ensures ResponseSize(got + rest) == ResponseSize(got)
  {
    assert (got + rest)[3..7] == got[3..7];
  }

  /** The header is complete: the read goes on to the payload, or there is none and the whole
      request has been taken. */
  lemma TakeHeaderInStep(requests: seq<Bytes>, s: Link, n: nat)
    requires AllFramed(requests) && InStep(requests, s) && Enabled(requests, s, Take(n)) && s.server.ReadHeader?
    ensures InStep(requests, Do(requests, s, Take(n)))
  {
    hide Agree, FromLe;
    SameAnswers(requests, s, Do(requests, s, Take(n)));
    var q, rest := requests[|s.returned|], s.up[n..] + Unsent(s.client);
    var got := s.server.got + s.up[..n];
    assert Framed(q) && s.up == s.up[..n] + s.up[n..];
    assert q == got + rest;
    if |got| >= REQUEST_HEADER {
      SizeOfPrefix(got, rest);
      assert got + [] == got;
    }
  }

  lemma TakePayloadInStep(requests: seq<Bytes>, s: Link, n: nat)
    requires AllFramed(requests) && InStep(requests, s) && Enabled(requests, s, Take(n)) && s.server.ReadPayload?
    ensures InStep(requests, Do(requests, s, Take(n)))
  {
    hide Agree, FromLe;
    SameAnswers(requests, s, Do(requests, s, Take(n)));
    var q, rest := requests[|s.returned|], s.up[n..] + Unsent(s.client);
    var got := s.server.got + s.up[..n];
    assert Framed(q) && s.up == s.up[..n] + s.up[n..];
    assert q == s.server.header + (got + rest);
    SizeOfPrefix(s.server.header, got + rest);
    assert q == s.server.header + got + rest;
  }

  /** The response grows by what was received, and returns when it is whole. */
  lemma ReceivedInStep(requests: seq<Bytes>, s: Link, header: Bytes, got: Bytes, down: Bytes)
    requires Agree(requests, s) && ServerShape(s.server) && |header| == RESPONSE_HEADER
    requires s.server.Replying? || s.server == ReadHeader([])
    requires s.next == |s.returned| + 1 == |s.answers| && s.up == []
    requires header + got + down + Unreplied(s.server) == s.answers[|s.returned|].response
    requires |got| <= ResponseSize(header)
    ensures InStep(requests, WithResponse(s, header, got, down))
  {
    hide FromLe;
    var rest := down + Unreplied(s.server);
    var r := s.answers[|s.returned|].response;
    assert WellFormedResponse(r);
    assert r == header + (got + rest);
    ResponseSizeOfPrefix(header, got + rest);
    if |got| == ResponseSize(header) {
      assert rest == [];
      assert header + got + rest == header + got;
    }
  }

  lemma ReceiveHeaderInStep(requests: seq<Bytes>, s: Link, n: nat)
    requires InStep(requests, s) && Enabled(requests, s, Receive(n)) && s.client.AwaitHeader?
    ensures InStep(requests, Do(requests, s, Receive(n)))
  {
    hide FromLe, WithResponse, Agree;
    var got, down := s.client.got + s.down[..n], s.down[n..];
    assert s.down == s.down[..n] + down;
    var r := s.answers[|s.returned|].response;
    assert got + down + Unreplied(s.server) == r;
    if |got| == RESPONSE_HEADER {
      assert got + [] == got;
      ReceivedInStep(requests, s, got, [], down);
    } else {
      SameAnswers(requests, s, Do(requests, s, Receive(n)));
    }
  }

  lemma ReceivePayloadInStep(requests: seq<Bytes>, s: Link, n: nat)
    requires InStep(requests, s) && Enabled(requests, s, Receive(n)) && s.client.AwaitPayload?
    ensures InStep(requests, Do(requests, s, Receive(n)))
  {
    hide FromLe, WithResponse, Agree;
    var got, down := s.client.got + s.down[..n], s.down[n..];
    assert s.down == s.down[..n] + down;
    assert s.client.header + got + down == s.client.header + s.client.got + s.down;
    ReceivedInStep(requests, s, s.client.header, got, down);
  }

  lemma WriteInStep(requests: seq<Bytes>, s: Link, n: nat)
    requires InStep(requests, s) && Enabled(requests, s, Write(n))
    ensures InStep(requests, Do(requests, s, Write(n)))
  {
  }

  lemma ReplyInStep(requests: seq<Bytes>, s: Link, n: nat)
    requires InStep(requests, s) && Enabled(requests, s, Reply(n))
    ensures InStep(requests, Do(requests, s, Reply(n)))
  {
  }

  lemma CallInStep(requests: seq<Bytes>, s: Link)
    requires AllFramed(requests) && InStep(requests, s) && Enabled(requests, s, Call)
    ensures InStep(requests, Do(requests, s, Call))
  {
  }

  lemma SameAnswers(requests: seq<Bytes>, s: Link, s': Link)
    requires Agree(requests, s) && s'.answers == s.answers && s'.returned == s.returned
    ensures Agree(requests, s')
  {
  }

  lemma HandleInStep(requests: seq<Bytes>, s: Link, r: Bytes)
    requires InStep(requests, s) && Enabled(requests, s, Handle(r))
    ensures InStep(requests, Do(requests, s, Handle(r)))
  {
  }

  lemma DoInStep(requests: seq<Bytes>, s: Link, e: Event)
    requires AllFramed(requests) && InStep(requests, s) && Enabled(requests, s, e)
    ensures InStep(requests, Do(requests, s, e))
  {
    hide InStep, Do;
    match e
    case Call => CallInStep(requests, s);
    case Write(n) => WriteInStep(requests, s, n);
    case Take(n) =>
      if s.server.ReadHeader? {
        TakeHeaderInStep(requests, s, n);
      } else {
        TakePayloadInStep(requests, s, n);
      }
    case Handle(r) => HandleInStep(requests, s, r);
    case Reply(n) => ReplyInStep(requests, s, n);
    case Receive(n) =>
      if s.client.AwaitHeader? {
        ReceiveHeaderInStep(requests, s, n);
      } else {
        ReceivePayloadInStep(requests, s, n);
      }
  }

  ghost predicate Step(requests: seq<Bytes>, s: Link, s': Link) {
    exists e :: Enabled(requests, s, e) && s' == Do(requests, s, e)
  }

  lemma StepInStep(requests: seq<Bytes>, s: Link, s': Link)
    requires AllFramed(requests) && InStep(requests, s) && Step(requests, s, s')
    ensures InStep(requests, s')
  {
    hide InStep, Enabled, Do;
    var e :| Enabled(requests, s, e) && s' == Do(requests, s, e);
    DoInStep(requests, s, e);
  }

  lemma StartInStep(requests: seq<Bytes>)
    ensures InStep(requests, START)
  {
  }

  // ---- Every run of the connection completes ----

  /** Which part of a request is going on, counted down. */
  function Stage(s: Link): nat {
    if s.client.Idle? then 3
    else if |s.answers| > |s.returned| then 0
    else if s.server.Handling? then 1
    else 2
  }

  /** Bytes still to be moved: once into a stream and once out of it. */
  function Bytes2Go(s: Link): nat {
    2 * |Unsent(s.client)| + |s.up| + 2 * |Unreplied(s.server)| + |s.down|
  }

  function CallsLeft(requests: seq<Bytes>, s: Link): int {
    |requests| - |s.returned|
  }

  predicate Descends(requests: seq<Bytes>, s: Link, s': Link) {
    || CallsLeft(requests, s') < CallsLeft(requests, s)
    || (CallsLeft(requests, s') == CallsLeft(requests, s) && Stage(s') < Stage(s))
    || (CallsLeft(requests, s') == CallsLeft(requests, s) && Stage(s') == Stage(s) && Bytes2Go(s') < Bytes2Go(s))
  }

  lemma ReceiveDescends(requests: seq<Bytes>, s: Link, n: nat)
    requires InStep(requests, s) && Enabled(requests, s, Receive(n))
    ensures Descends(requests, s, Do(requests, s, Receive(n)))
  {
  }

  lemma TakeDescends(requests: seq<Bytes>, s: Link, n: nat)
    requires InStep(requests, s) && Enabled(requests, s, Take(n))
    ensures Descends(requests, s, Do(requests, s, Take(n)))
  {
  }

  lemma OtherDescends(requests: seq<Bytes>, s: Link, e: Event)
    requires InStep(requests, s) && Enabled(requests, s, e) && !e.Take? && !e.Receive?
    ensures Descends(requests, s, Do(requests, s, e))
  {
  }

  /** Every step brings the connection closer to the end of its calls. */
  lemma StepDescends(requests: seq<Bytes>, s: Link, e: Event)
    requires AllFramed(requests) && InStep(requests, s) && Enabled(requests, s, e)
    ensures CallsLeft(requests, s) >= 0 && Descends(requests, s, Do(requests, s, e))
  {
    hide Do, Descends, Enabled;
    match e
    case Take(n) => TakeDescends(requests, s, n);
    case Receive(n) => ReceiveDescends(requests, s, n);
    case _ => OtherDescends(requests, s, e);
  }

  /** The two sides never wait for each other: until all calls have returned, something can
      happen. */
  lemma NeverStuck(requests: seq<Bytes>, s: Link)
    requires AllFramed(requests) && InStep(requests, s) && !Completed(requests, s)
    ensures exists e :: Enabled(requests, s, e)
  {
    hide FromLe;
    if Between(s) {
      assert Enabled(requests, s, Call);
    } else if Asking(requests, s) {
      if s.client.Sending? {
        assert Enabled(requests, s, Write(1));
      } else if s.server.Handling? {
        ErrorWellFormed();
        assert Enabled(requests, s, Handle(ErrorResponse()));
      } else {
        var q := requests[|s.returned|];
        assert Framed(q);
        if s.up == [] {
          assert q == ServerHas(s.server);
          if s.server.ReadPayload? {
            SizeOfPrefix(s.server.header, s.server.got);
          }
        }
        assert Enabled(requests, s, Take(1));
      }
    } else {
      if s.server.Replying? {
        assert Enabled(requests, s, Reply(1));
      } else {
        var r := s.answers[|s.returned|].response;
        assert WellFormedResponse(r);
        if s.down == [] {
          assert r == ClientHas(s.client);
          if s.client.AwaitPayload? {
            ResponseSizeOfPrefix(s.client.header, s.client.got);
          }
        }
        assert Enabled(requests, s, Receive(1));
      }
    }
  }

  /** An execution: it goes on as long as it can. */
  ghost predicate Execution(requests: seq<Bytes>, f: nat -> Link) {
    && f(0) == START
    && forall i: nat ::
         if exists e :: Enabled(requests, f(i), e) then Step(requests, f(i), f(i + 1)) else f(i + 1) == f(i)
  }

  lemma {:induction false} ExecutionInStep(requests: seq<Bytes>, f: nat -> Link, i: nat)
    requires AllFramed(requests) && Execution(requests, f)
    ensures InStep(requests, f(i))
  {
    hide InStep, Step, Enabled;
    if i == 0 {
      StartInStep(requests);
    } else {
      var j: nat := i - 1;
      ExecutionInStep(requests, f, j);
      assert f(j + 1) == f(i);
      if Step(requests, f(j), f(j + 1)) {
        StepInStep(requests, f(j), f(j + 1));
      }
    }
  }

  /** Lock step: at any moment of any execution, whatever the chunks, the k-th call has returned
      exactly the answer to the k-th request, and between calls both streams are empty. */
  lemma LockStep(requests: seq<Bytes>, f: nat -> Link, i: nat)
    requires AllFramed(requests) && Execution(requests, f)
    ensures var s := f(i);
            && |s.returned| <= |s.answers| <= |requests|
            && (forall k :: 0 <= k < |s.returned| ==>
                  s.returned[k] == s.answers[k].response && s.answers[k].request == requests[k])
            && (s.client.Idle? ==>
                  s.up == [] && s.down == [] && s.server == ReadHeader([]) && |s.returned| == |s.answers| == s.next)
  {
    ExecutionInStep(requests, f, i);
  }

  lemma {:induction false} CompletesFrom(requests: seq<Bytes>, f: nat -> Link, i: nat) returns (n: nat)
    requires AllFramed(requests) && Execution(requests, f)
    ensures Completed(requests, f(n))
    decreases CallsLeft(requests, f(i)), Stage(f(i)), Bytes2Go(f(i))
  {
    ExecutionInStep(requests, f, i);
    if Completed(requests, f(i)) {
      return i;
    }
    NeverStuck(requests, f(i));
    assert Step(requests, f(i), f(i + 1));
    var e :| Enabled(requests, f(i), e) && f(i + 1) == Do(requests, f(i), e);
    StepDescends(requests, f(i), e);
    n := CompletesFrom(requests, f, i + 1);
  }

  /** Every execution reaches the point where each request has got its own response and no byte
      is left over. */
  lemma EveryCallReturns(requests: seq<Bytes>, f: nat -> Link)
    requires AllFramed(requests) && Execution(requests, f)
    ensures exists n: nat :: Completed(requests, f(n)) && |f(n).returned| == |requests|
                             && f(n).up == [] && f(n).down == []
  {
    var n := CompletesFrom(requests, f, 0);
    ExecutionInStep(requests, f, n);
    assert Completed(requests, f(n)) && |f(n).returned| == |requests|;
  }
}
