/** The variable-length records of a 2104 payload and the fixed 271-byte entries of a 2101
    payload: the server's encoders, and the decoders that the client's layout fixes. */
module Records {
  import opened ByteStrings
  import opened Protocol
  import opened DatabaseModel

  const ROW_HEADER := 25  // sender, message id, type, content size
  const ENTRY_SIZE := 271 // client id, name field

  /** One record. `to_bytes(4, ...)` raises when the id or the length needs a fifth byte. */
  function EncodeRow(m: MessageRow): Option<Bytes> {
    if m.id < TWO_32 && |m.content| < TWO_32
    then Some(m.from + Le(m.id, 4) + [m.kind] + Le(|m.content|, 4) + m.content)
    else None
  }

  function EncodeRows(rows: seq<MessageRow>): Option<Bytes> {
    if rows == [] then Some([])
    else match (EncodeRow(rows[0]), EncodeRows(rows[1..]))
         case (Some(a), Some(b)) => Some(a + b)
         case _ => None
  }

  function Ids(rows: seq<MessageRow>): (ids: seq<nat>)
    ensures |ids| == |rows|
    ensures forall i :: 0 <= i < |rows| ==> ids[i] == rows[i].id
  {
    seq(|rows|, i requires 0 <= i < |rows| => rows[i].id)
  }

  /** What a recipient reads out of a 2104 payload; `None` when a record is cut short. */
  function DecodeRows(to: Id, p: Bytes): Option<seq<MessageRow>>
    decreases |p|
  {
    if p == [] then Some([])
    else if |p| < ROW_HEADER then None
    else
      var size := FromLe(p[21..25]);
      if |p| < ROW_HEADER + size then None
      else match DecodeRows(to, p[ROW_HEADER + size..])
           case None => None
           case Some(rest) =>
             Some([MessageRow(FromLe(p[16..20]), to, p[..16], p[20], p[25..25 + size])] + rest)
  }

  predicate AllTo(rows: seq<MessageRow>, to: Id) {
    forall m :: m in rows ==> m.to == to
  }

  lemma EncodeRowFields(m: MessageRow, rest: Bytes)
    requires EncodeRow(m).Some?
    ensures var p := EncodeRow(m).value + rest;
            && |p| == ROW_HEADER + |m.content| + |rest|
            && p[..16] == m.from && FromLe(p[16..20]) == m.id && p[20] == m.kind
            && FromLe(p[21..25]) == |m.content|
            && p[25..25 + |m.content|] == m.content && p[25 + |m.content|..] == rest
  {
    var p := EncodeRow(m).value + rest;
    assert p[16..20] == Le(m.id, 4);
    assert p[21..25] == Le(|m.content|, 4);
    Le4RoundTrip(m.id);
    Le4RoundTrip(|m.content|);
  }

  /** Decoding an encoded mailbox gives back its rows, in order, whatever the contents. */
  lemma {:induction false} DecodeEncoded(rows: seq<MessageRow>, to: Id)
    requires AllTo(rows, to)
    ensures EncodeRows(rows).Some? ==> DecodeRows(to, EncodeRows(rows).value) == Some(rows)
  {
    if rows != [] && EncodeRows(rows).Some? {
      DecodeEncoded(rows[1..], to);
      var rest := EncodeRows(rows[1..]).value;
      EncodeRowFields(rows[0], rest);
      assert EncodeRows(rows).value == EncodeRow(rows[0]).value + rest;
      assert rows == [rows[0]] + rows[1..];
    }
  }

  lemma {:induction false} DecodedTo(p: Bytes, to: Id)
    requires DecodeRows(to, p).Some?
    ensures AllTo(DecodeRows(to, p).value, to)
    decreases |p|
  {
    if p != [] {
      DecodedTo(p[ROW_HEADER + FromLe(p[21..25])..], to);
    }
  }

  lemma EncodeRowsCons(m: MessageRow, rows: seq<MessageRow>)
    requires EncodeRow(m).Some? && EncodeRows(rows).Some?
    ensures EncodeRows([m] + rows) == Some(EncodeRow(m).value + EncodeRows(rows).value)
  {
  }

  /** A payload that decodes is the encoding of what it decodes to, so no two mailboxes and no
      two payloads are confused. */
  lemma {:induction false} EncodeDecoded(p: Bytes, to: Id)
    requires DecodeRows(to, p).Some?
    ensures EncodeRows(DecodeRows(to, p).value) == Some(p)
    decreases |p|
  {
    hide EncodeRow, EncodeRows, FromLe, Le;
    if p == [] {
      EncodeNothing();
    } else {
      var size := FromLe(p[21..25]);
      var rest := p[ROW_HEADER + size..];
      EncodeDecoded(rest, to);
      RowPieces(p, to);
      var m := MessageRow(FromLe(p[16..20]), to, p[..16], p[20], p[25..25 + size]);
      EncodeRowsCons(m, DecodeRows(to, rest).value);
      assert p == p[..ROW_HEADER + size] + rest;
    }
  }

  lemma EncodeNothing()
    ensures EncodeRows([]) == Some([])
  {
  }

  lemma RowPieces(p: Bytes, to: Id)
    requires |p| >= ROW_HEADER && |p| >= ROW_HEADER + FromLe(p[21..25])
    ensures var size := FromLe(p[21..25]);
            EncodeRow(MessageRow(FromLe(p[16..20]), to, p[..16], p[20], p[25..25 + size])) == Some(p[..ROW_HEADER + size])
  {
    FromLe4(p[16..20]);
    FromLe4(p[21..25]);
    var size := FromLe(p[21..25]);
    hide FromLe, Le;
    assert p[..16] + p[16..20] + [p[20]] + p[21..25] + p[25..25 + size] == p[..ROW_HEADER + size];
  }

  /** When the encoder raises: exactly when some row does not fit its 4-byte fields. */
  lemma {:induction false} EncodableRows(rows: seq<MessageRow>)
    ensures EncodeRows(rows).Some? <==>
            forall m :: m in rows ==> m.id < TWO_32 && |m.content| < TWO_32
  {
    if rows != [] {
      EncodableRows(rows[1..]);
      assert forall m :: m in rows <==> m == rows[0] || m in rows[1..];
    }
  }

  lemma {:induction false} EncodeRowsSnoc(rows: seq<MessageRow>, m: MessageRow)
    ensures EncodeRows(rows + [m]) ==
            match (EncodeRows(rows), EncodeRow(m))
            case (Some(a), Some(b)) => Some(a + b)
            case _ => None
  {
    if rows == [] {
      assert [m][1..] == [];
      assert EncodeRows([m][1..]) == Some([]);
      assert [] + [m] == [m];
      if EncodeRow(m).Some? {
        assert EncodeRow(m).value + [] == [] + EncodeRow(m).value == EncodeRow(m).value;
      }
    } else {
      EncodeRowsSnoc(rows[1..], m);
      assert (rows + [m])[1..] == rows[1..] + [m];
      if EncodeRows(rows).Some? && EncodeRow(m).Some? {
        assert EncodeRow(rows[0]).value + (EncodeRows(rows[1..]).value + EncodeRow(m).value)
            == EncodeRow(rows[0]).value + EncodeRows(rows[1..]).value + EncodeRow(m).value;
      }
    }
  }

  /** The loop of `waiting_messages_handler`: the payload and the ids to delete, or the
      exception of `to_bytes`. */
  method BuildMailbox(messages: seq<MessageRow>) returns (payload: Bytes, ids: seq<nat>, raised: bool)
    ensures raised <==> EncodeRows(messages).None?
    ensures !raised ==> Some(payload) == EncodeRows(messages) && ids == Ids(messages)
  {
    hide EncodeRows;
    payload, ids, raised := [], [], false;
    EncodableRows(messages);
    EncodeNothing();
    for i := 0 to |messages|
      invariant Some(payload) == EncodeRows(messages[..i])
      invariant ids == Ids(messages[..i])
    {
      var m := messages[i];
      assert messages[..i + 1] == messages[..i] + [m];
      EncodeRowsSnoc(messages[..i], m);
      ghost var before := payload;
      payload := payload + m.from;
      if m.id >= TWO_32 {
        return [], [], true;
      }
      payload := payload + Le(m.id, 4) + [m.kind];
      if |m.content| >= TWO_32 {
        return [], [], true;
      }
      payload := payload + Le(|m.content|, 4);
      payload := payload + m.content;
      assert payload == before + EncodeRow(m).value;
      ids := ids + [m.id];
    }
    assert messages[..|messages|] == messages;
  }

  function Zeros(n: nat): (z: Bytes)
    ensures |z| == n
    ensures forall i :: 0 <= i < n ==> z[i] == 0
  {
    seq(n, _ => 0)
  }

  /** `username.encode("ascii")[:254]` and the zero padding up to the field size. */
  function NameField(name: Bytes): (f: Bytes)
    ensures |f| == NAME_SIZE
  {
    var kept := if |name| > NAME_SIZE - 1 then name[..NAME_SIZE - 1] else name;
    kept + Zeros(NAME_SIZE - |kept|)
  }

  function EncodeClients(rows: seq<ClientRow>): Bytes {
    if rows == [] then [] else rows[0].id + NameField(rows[0].name) + EncodeClients(rows[1..])
  }

  datatype Entry = Entry(id: Id, name: Bytes)

  /** What the client reads out of a 2101 payload. */
  function DecodeClients(p: Bytes): Option<seq<Entry>> {
    if p == [] then Some([])
    else if |p| < ENTRY_SIZE then None
    else match DecodeClients(p[ENTRY_SIZE..])
         case None => None
         case Some(rest) => Some([Entry(p[..16], BeforeNul(p[16..ENTRY_SIZE]))] + rest)
  }

  function Listed(rows: seq<ClientRow>): (entries: seq<Entry>)
    ensures |entries| == |rows|
    ensures forall i :: 0 <= i < |rows| ==> entries[i] == Entry(rows[i].id, BeforeNul(NameField(rows[i].name)))
  {
    seq(|rows|, i requires 0 <= i < |rows| => Entry(rows[i].id, BeforeNul(NameField(rows[i].name))))
  }

  /** A name survives the listing exactly when it has no NUL and at most 254 bytes. */
  lemma NameSurvivesListing(name: Bytes)
    ensures BeforeNul(NameField(name)) == name <==> 0 !in name && |name| <= NAME_SIZE - 1
  {
    var kept := if |name| > NAME_SIZE - 1 then name[..NAME_SIZE - 1] else name;
    BeforeNulOfPadded(kept, Zeros(NAME_SIZE - |kept|));
  }

  lemma {:induction false} DecodeEncodedClients(rows: seq<ClientRow>)
    ensures DecodeClients(EncodeClients(rows)) == Some(Listed(rows))
  {
    if rows != [] {
      DecodeEncodedClients(rows[1..]);
      var p := EncodeClients(rows);
      assert p[..16] == rows[0].id;
      assert p[16..ENTRY_SIZE] == NameField(rows[0].name);
      assert p[ENTRY_SIZE..] == EncodeClients(rows[1..]);
      assert Listed(rows) == [Listed(rows)[0]] + Listed(rows[1..]);
    }
  }

  lemma {:induction false} EncodeClientsSnoc(rows: seq<ClientRow>, c: ClientRow)
    ensures EncodeClients(rows + [c]) == EncodeClients(rows) + c.id + NameField(c.name)
  {
    if rows == [] {
      assert [c][1..] == [];
      assert EncodeClients([c]) == c.id + NameField(c.name) + [];
      assert [] + [c] == [c];
    } else {
      EncodeClientsSnoc(rows[1..], c);
      assert (rows + [c])[1..] == rows[1..] + [c];
    }
  }

  /** The loop of `clients_list_handler`. */
  method BuildClientList(clients: seq<ClientRow>) returns (payload: Bytes)
    ensures payload == EncodeClients(clients)
  {
    payload := [];
    for i := 0 to |clients|
      invariant payload == EncodeClients(clients[..i])
    {
      assert clients[..i + 1] == clients[..i] + [clients[i]];
      EncodeClientsSnoc(clients[..i], clients[i]);
      payload := payload + clients[i].id;
      var nameBytes := if |clients[i].name| > NAME_SIZE - 1 then clients[i].name[..NAME_SIZE - 1] else clients[i].name;
      nameBytes := nameBytes + Zeros(NAME_SIZE - |nameBytes|);
      payload := payload + nameBytes;
    }
    assert clients[..|clients|] == clients;
  }
}
