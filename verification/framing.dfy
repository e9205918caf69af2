/** Exact reads from a stream that arrives in arbitrary chunks, and the per-connection loop of
    the server. */
module Framing {
  import opened ByteStrings
  import opened Protocol
  import opened DatabaseModel
  import opened Handler
  import opened ClientMessage

  /** One end of a connection. `incoming` is all that the peer will have sent before it closes;
      how it is cut into chunks is left open. */
  class Socket {
    var incoming: Bytes
    var outgoing: Bytes

    constructor (incoming: Bytes)
      ensures this.incoming == incoming && outgoing == []
    {
      this.incoming, outgoing := incoming, [];
    }

    /** At most `size` bytes, at least one unless the peer has closed. */
    method Recv(size: nat) returns (chunk: Bytes)
      requires size > 0
      modifies this`incoming
      ensures |chunk| <= size && chunk + incoming == old(incoming)
      ensures chunk == [] <==> old(incoming) == []
    {
      if incoming == [] {
        return [];
      }
      var n: nat :| 1 <= n <= size && n <= |incoming|;
      chunk := incoming[..n];
      incoming := incoming[n..];
    }

    /** A write that raises may have sent any part of its bytes. */
    method SendAll(bytes: Bytes) returns (ok: bool)
      modifies this`outgoing
      ensures ok ==> outgoing == old(outgoing) + bytes
      ensures old(outgoing) <= outgoing <= old(outgoing) + bytes
    {
      ok := *;
      if ok {
        outgoing := outgoing + bytes;
      } else {
        var n: nat :| n <= |bytes|;
        assert bytes == bytes[..n] + bytes[n..];
        assert outgoing + bytes == outgoing + bytes[..n] + bytes[n..];
        outgoing := outgoing + bytes[..n];
      }
    }
  }

  /** The server's `receive_exact`: exactly `size` bytes leave the stream, or the peer has closed
      before sending that many. */
  method ReceiveExact(conn: Socket, size: nat) returns (r: Result<Bytes>)
    modifies conn`incoming
    ensures r.Ok? <==> |old(conn.incoming)| >= size
    ensures r.Ok? ==> r.value == old(conn.incoming)[..size] && conn.incoming == old(conn.incoming)[size..]
    ensures r.Failed? ==> conn.incoming == []
  {
    var data: Bytes := [];
    while |data| < size
      invariant |data| <= size
      invariant data + conn.incoming == old(conn.incoming)
      decreases size - |data|
    {
      var chunk := conn.Recv(size - |data|);
      if chunk == [] {
        return Failed;
      }
      data := data + chunk;
    }
    return Ok(data);
  }

  /** The client's `receiveExact`: a buffer of the requested size filled in place. */
  method FillExact(conn: Socket, size: nat) returns (r: Result<Bytes>)
    modifies conn`incoming
    ensures r.Ok? <==> |old(conn.incoming)| >= size
    ensures r.Ok? ==> r.value == old(conn.incoming)[..size] && conn.incoming == old(conn.incoming)[size..]
    ensures r.Failed? ==> conn.incoming == []
  {
    if size == 0 {
      return Ok([]);
    }
    var buffer := new byte[size](_ => 0);
    var filled: nat := 0;
    while filled < size
      invariant filled <= size
      invariant buffer[..filled] + conn.incoming == old(conn.incoming)
      decreases size - filled
    {
      var chunk := conn.Recv(size - filled);
      if chunk == [] {
        return Failed;
      }
      ghost var before := buffer[..filled];
      forall i | 0 <= i < |chunk| {
        buffer[filled + i] := chunk[i];
      }
      filled := filled + |chunk|;
      assert forall k :: 0 <= k < |before| ==> buffer[k] == before[k];
      assert forall k :: |before| <= k < filled ==> buffer[k] == chunk[k - |before|];
      assert buffer[..filled] == before + chunk;
    }
    return Ok(buffer[..]);
  }

  /** The client's `getPayloadSize`, which throws on a short header. */
  method ResponsePayloadSize(header: Bytes) returns (r: Result<nat>)
    ensures r.Ok? <==> |header| >= RESPONSE_HEADER
    ensures r.Ok? ==> r.value == ResponseSize(header)
  {
    if |header| < RESPONSE_HEADER {
      return Failed;
    }
    var size := ReadUint32LE(header, 3);
    return Ok(size.value as nat);
  }

  /** `sendAndReceive`: the whole request goes out; one framed response is taken off the stream
      and nothing after it. It throws when the write does, or when the stream ends first. */
  method SendAndReceive(conn: Socket, data: Bytes) returns (r: Result<Bytes>, ghost wrote: bool)
    modifies conn
    ensures wrote ==> conn.outgoing == old(conn.outgoing) + data
    ensures !wrote ==> r.Failed? && conn.incoming == old(conn.incoming)
                       && old(conn.outgoing) <= conn.outgoing <= old(conn.outgoing) + data
    ensures r.Ok? ==> r.value + conn.incoming == old(conn.incoming) && FramedResponse(r.value)
    ensures wrote && r.Failed? ==>
              forall n :: 0 <= n <= |old(conn.incoming)| ==> !FramedResponse(old(conn.incoming)[..n])
  {
    var ok := conn.SendAll(data);
    wrote := ok;
    if !ok {
      return Failed, false;
    }
    ghost var stream := conn.incoming;
    var header := FillExact(conn, RESPONSE_HEADER);
    if header.Failed? {
      return Failed, true;
    }
    var size := ResponsePayloadSize(header.value);
    var payload := FillExact(conn, size.value);
    if payload.Failed? {
      forall n | RESPONSE_HEADER <= n <= |stream| ensures !FramedResponse(stream[..n]) {
        SizeFieldOfPrefix(stream, n);
        SizeFieldOfPrefix(stream, RESPONSE_HEADER);
      }
      return Failed, true;
    }
    r := Ok(header.value + payload.value);
    assert r.value[3..7] == header.value[3..7];
  }

  lemma SizeFieldOfPrefix(stream: Bytes, n: nat)
    requires RESPONSE_HEADER <= n <= |stream|
    ensures stream[..n][3..7] == stream[3..7]
  {
  }

  // ---- The server's view of the byte stream ----

  /** The requests that a byte stream is cut into. */
  function Frames(stream: Bytes): seq<Bytes>
    decreases |stream|
  {
    if |stream| < REQUEST_HEADER then []
    else
      var size := REQUEST_HEADER + PayloadSize(stream);
      if |stream| < size then [] else [stream[..size]] + Frames(stream[size..])
  }

  /** Serving requests one after the other; `env(i)` is the environment of the i-th. */
  function ServeAll(frames: seq<Bytes>, db: Tables, env: nat -> nat -> Env, i: nat): (seq<Bytes>, Tables) {
    if frames == [] then ([], db)
    else
      var (r, db') := RunAlone(frames[0], Begin(frames[0]), db, env(i), 0);
      var (rest, end) := ServeAll(frames[1..], db', env, i + 1);
      ([r] + rest, end)
  }

  lemma ServeFirst(data: Bytes, frames: seq<Bytes>, db: Tables, env: nat -> nat -> Env, i: nat)
    ensures var (r, db') := RunAlone(data, Begin(data), db, env(i), 0);
            var (rest, end) := ServeAll(frames, db', env, i + 1);
            ServeAll([data] + frames, db, env, i) == ([r] + rest, end)
  {
    hide RunAlone, Begin;
    assert ([data] + frames)[1..] == frames;
  }

  /** Serving one more request. */
  lemma {:induction false} ServeSnoc(frames: seq<Bytes>, data: Bytes, db: Tables, env: nat -> nat -> Env, i: nat)
    ensures var (done, mid) := ServeAll(frames, db, env, i);
            var (r, end) := RunAlone(data, Begin(data), mid, env(i + |frames|), 0);
            ServeAll(frames + [data], db, env, i) == (done + [r], end)
    decreases |frames|
  {
    hide ServeAll, RunAlone, Begin;
    if frames == [] {
      ServeNothing(db, env, i);
      ServeNothing(RunAlone(data, Begin(data), db, env(i), 0).1, env, i + 1);
      ServeFirst(data, [], db, env, i);
      assert frames + [data] == [data] + [] && i + |frames| == i;
      var x := RunAlone(data, Begin(data), db, env(i), 0).0;
      assert [x] + [] == [] + [x];
    } else {
      var head, tail := frames[0], frames[1..];
      var (r, db') := RunAlone(head, Begin(head), db, env(i), 0);
      ServeSnoc(tail, data, db', env, i + 1);
      ServeFirst(head, tail, db, env, i);
      ServeFirst(head, tail + [data], db, env, i);
      assert frames == [head] + tail && frames + [data] == [head] + (tail + [data]);
      assert i + 1 + |tail| == i + |frames|;
      var (done, mid) := ServeAll(tail, db', env, i + 1);
      var x := RunAlone(data, Begin(data), mid, env(i + |frames|), 0).0;
      assert [r] + (done + [x]) == [r] + done + [x];
    }
  }

  lemma ServeNothing(db: Tables, env: nat -> nat -> Env, i: nat)
    ensures ServeAll([], db, env, i) == ([], db)
  {
  }

  /** The two reads of one round: a whole request, or the end of the requests. */
  method ReadRequest(conn: Socket) returns (r: Result<Bytes>)
    modifies conn`incoming
    ensures r.Ok? ==> Framed(r.value) && r.value + conn.incoming == old(conn.incoming)
    ensures r.Ok? ==> Frames(old(conn.incoming)) == [r.value] + Frames(conn.incoming)
    ensures r.Failed? ==> Frames(old(conn.incoming)) == [] && conn.incoming == []
  {
    ghost var stream := conn.incoming;
    var header := ReceiveExact(conn, REQUEST_HEADER);
    if header.Failed? {
      return Failed;
    }
    assert header.value[19..23] == stream[19..23];
    var payload := ReceiveExact(conn, PayloadSize(header.value));
    if payload.Failed? {
      return Failed;
    }
    var data := header.value + payload.value;
    assert data[19..23] == stream[19..23];
    assert stream == data + conn.incoming;
    FirstFrame(data, conn.incoming);
    return Ok(data);
  }

  /** How a round of the loop ends: the next one, the end of the requests, or a failed write. */
  datatype Round = More | Closed | Broken

  method ServeOne(conn: Socket, db: Database, env: nat -> Env) returns (round: Round, ghost data: Bytes, ghost r: Bytes)
    modifies conn, db
    ensures round.Closed? ==>
              Frames(old(conn.incoming)) == [] && conn.incoming == [] && conn.outgoing == old(conn.outgoing)
              && db.State() == old(db.State())
    ensures !round.Closed? ==>
              Frames(old(conn.incoming)) == [data] + Frames(conn.incoming) && |conn.incoming| < |old(conn.incoming)|
              && (r, db.State()) == RunAlone(data, Begin(data), old(db.State()), env, 0)
    ensures round.More? ==> conn.outgoing == old(conn.outgoing) + r
    ensures round.Broken? ==> old(conn.outgoing) <= conn.outgoing <= old(conn.outgoing) + r
  {
    var request := ReadRequest(conn);
    if request.Failed? {
      return Closed, [], [];
    }
    var response := RequestHandlerMain(request.value, db, env);
    var ok := conn.SendAll(response);
    return if ok then More else Broken, request.value, response;
  }

  /** The tables in the database file. */
  function Opened(file: Option<Tables>): Tables {
    if file.Some? then file.value else Tables([], map[], [], 1)
  }

  /** `handle_client`: the requests are the frames of the stream whatever its chunks, served in
      order from the tables in the file. When the peer closes, the bytes sent are their responses
      in order; when a write fails, that request has been served and its response is cut short. */
  method HandleClient(conn: Socket, file: Option<Tables>, env: nat -> nat -> Env)
    returns (db: Database, ghost served: nat, ghost broken: bool)
    modifies conn
    ensures fresh(db)
    ensures served <= |Frames(old(conn.incoming))|
    ensures var (responses, end) := ServeAll(Frames(old(conn.incoming))[..served], Opened(file), env, 0);
            && db.State() == end && |responses| == served
            && (!broken ==> served == |Frames(old(conn.incoming))| && conn.incoming == []
                            && conn.outgoing == old(conn.outgoing) + Flatten(responses))
            && (broken ==> served > 0
                           && old(conn.outgoing) + Flatten(responses[..served - 1]) <= conn.outgoing
                              <= old(conn.outgoing) + Flatten(responses))
  {
    hide ServeAll, RunAlone, Frames, Flatten;
    ghost var frames, start, tables := Frames(conn.incoming), conn.outgoing, Opened(file);
    db := new Database(file);
    ghost var responses: seq<Bytes> := [];
    served, broken := 0, false;
    ServeNothing(tables, env, 0);
    assert Flatten<byte>([]) == [] by {
      FlattenNothing();
    }
    var i: nat := 0;
    while true
      invariant fresh(db) && i <= |frames| && frames[i..] == Frames(conn.incoming)
      invariant |responses| == i && ServeAll(frames[..i], tables, env, 0) == (responses, db.State())
      invariant conn.outgoing == start + Flatten(responses)
      decreases |conn.incoming|
    {
      var round: Round;
      ghost var data, r;
      round, data, r := ServeOne(conn, db, env(i));
      if round.Closed? {
        assert frames[..i] == frames;
        served := i;
        break;
      }
      assert data == frames[i] && frames[..i + 1] == frames[..i] + [data];
      ServeSnoc(frames[..i], data, tables, env, 0);
      FlattenSnoc(responses, r);
      assert start + (Flatten(responses) + r) == start + Flatten(responses) + r;
      assert (responses + [r])[..i] == responses;
      responses, i := responses + [r], i + 1;
      if round.Broken? {
        served, broken := i, true;
        break;
      }
      assert frames[i..] == frames[i - 1..][1..];
    }
  }

  lemma FlattenNothing()
    ensures Flatten<byte>([]) == []
  {
  }

  // ---- Parsing inverts serialization ----

  datatype Sent = Sent(id: Id, code: nat, payload: Bytes)

  predicate Sendable(m: Sent) {
    m.code < 0x1_0000
  }

  function Buffer(m: Sent): Bytes {
    Request(m.id, CLIENT_VERSION, m.code, m.payload)
  }

  /** The fields that the server reads from a request are those of the message sent. */
  predicate DecodesTo(data: Bytes, m: Sent) {
    && Acceptable(data)
    && Requester(data) == m.id && Code(data) == m.code && Payload(data) == m.payload
  }

  function Buffers(ms: seq<Sent>): (bs: seq<Bytes>)
    ensures |bs| == |ms|
    ensures forall i :: 0 <= i < |ms| ==> bs[i] == Buffer(ms[i])
  {
    seq(|ms|, i requires 0 <= i < |ms| => Buffer(ms[i]))
  }

  lemma FirstFrame(data: Bytes, rest: Bytes)
    requires Framed(data)
    ensures Frames(data + rest) == [data] + Frames(rest)
  {
    var stream := data + rest;
    assert stream[19..23] == data[19..23];
    assert stream[..|data|] == data && stream[|data|..] == rest;
  }

  /** How a stream is cut: whole requests, one after the other, and a rest that does not begin with
      a whole request. */
  lemma {:induction false} FramesCut(stream: Bytes) returns (tail: Bytes)
    ensures stream == Flatten(Frames(stream)) + tail
    ensures forall f :: f in Frames(stream) ==> Framed(f)
    ensures forall n :: 0 <= n <= |tail| ==> !Framed(tail[..n])
    decreases |stream|
  {
    tail := stream;
    if |stream| >= REQUEST_HEADER {
      var size := REQUEST_HEADER + PayloadSize(stream);
      forall n | REQUEST_HEADER <= n <= |stream| ensures PayloadSize(stream[..n]) == PayloadSize(stream) {
        assert stream[..n][19..23] == stream[19..23];
      }
      if |stream| >= size {
        tail := FramesCut(stream[size..]);
        FlattenCons(stream[..size], Frames(stream[size..]));
        assert Framed(stream[..size]);
        assert stream == stream[..size] + (Flatten(Frames(stream[size..])) + tail);
      }
    }
  }

  lemma FlattenCons(b: Bytes, rest: seq<Bytes>)
    ensures Flatten([b] + rest) == b + Flatten(rest)
  {
  }

  /** Any sequence of client buffers, followed by anything, is cut back into those buffers, and
      each gives back the fields it was built from. */
  lemma FramesOfBuffers(ms: seq<Sent>, tail: Bytes)
    requires forall m :: m in ms ==> Sendable(m) && |m.payload| < TWO_32
    ensures Frames(Flatten(Buffers(ms)) + tail) == Buffers(ms) + Frames(tail)
    ensures forall i :: 0 <= i < |ms| ==> DecodesTo(Buffers(ms)[i], ms[i])
  {
    forall i | 0 <= i < |ms| ensures DecodesTo(Buffers(ms)[i], ms[i]) {
      RequestFields(ms[i].id, CLIENT_VERSION, ms[i].code, ms[i].payload);
    }
    FramesOfFramed(Buffers(ms), tail);
  }

  lemma {:induction false} FramesOfFramed(frames: seq<Bytes>, tail: Bytes)
    requires forall i :: 0 <= i < |frames| ==> Framed(frames[i])
    ensures Frames(Flatten(frames) + tail) == frames + Frames(tail)
  {
    hide Frames, Framed;
    if frames == [] {
      assert [] + tail == tail;
    } else {
      FramesOfFramed(frames[1..], tail);
      var rest := Flatten(frames[1..]);
      FirstFrame(frames[0], rest + tail);
      assert frames[0] + rest + tail == frames[0] + (rest + tail);
      assert frames == [frames[0]] + frames[1..];
    }
  }

  /** The limit is exact: one buffer is read back as one request if and only if its payload is
      below 2^32 bytes, because the size field keeps only four bytes of the length. */
  lemma FramedIffSizeFits(m: Sent)
    requires Sendable(m)
    ensures Frames(Buffer(m)) == [Buffer(m)] <==> |m.payload| < TWO_32
  {
    RequestFields(m.id, CLIENT_VERSION, m.code, m.payload);
    var data := Buffer(m);
    if |m.payload| < TWO_32 {
      FirstFrame(data, []);
      assert data + [] == data;
      assert Frames([]) == [];
    } else {
      assert Frames(data)[0] == data[..REQUEST_HEADER + PayloadSize(data)];
      assert |Frames(data)[0]| < |data|;
    }
  }
}
