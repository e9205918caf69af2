/** The two tables of the server's database and the statements that run against them. Each
    statement with its commit is one atomic step; it may fail and then changes nothing. */
module DatabaseModel {
  import opened ByteStrings
  import opened Protocol

  datatype ClientRow = ClientRow(id: Id, name: Bytes, key: Bytes)

  datatype MessageRow = MessageRow(id: nat, to: Id, from: Id, kind: byte, content: Bytes)

  /** `messages` is in ID order; `nextId` is the AUTOINCREMENT counter, which only grows. The
      LastSeen column is kept apart, since nothing reads it back. */
  datatype Tables = Tables(clients: seq<ClientRow>, lastSeen: map<Id, nat>,
                           messages: seq<MessageRow>, nextId: nat)

  /** SQLite's largest row id; AUTOINCREMENT refuses to go beyond it. */
  const MAX_ROWID: nat := 0x7fff_ffff_ffff_ffff

  predicate HasId(clients: seq<ClientRow>, id: Id) {
    exists r :: r in clients && r.id == id
  }

  predicate HasName(clients: seq<ClientRow>, name: Bytes) {
    exists r :: r in clients && r.name == name
  }

  /** SELECT ID, UserName FROM clients WHERE ID != ? */
  function OtherClients(clients: seq<ClientRow>, id: Id): (others: seq<ClientRow>)
    ensures forall r :: r in others <==> r in clients && r.id != id
  {
    if clients == [] then []
    else if clients[0].id == id then OtherClients(clients[1..], id)
    else [clients[0]] + OtherClients(clients[1..], id)
  }

  /** SELECT PublicKey FROM clients WHERE ID = ? */
  function PublicKey(clients: seq<ClientRow>, id: Id): (key: Option<Bytes>)
    ensures key.Some? <==> HasId(clients, id)
    ensures key.Some? ==> exists r :: r in clients && r.id == id && r.key == key.value
  {
    if clients == [] then None
    else if clients[0].id == id then Some(clients[0].key)
    else PublicKey(clients[1..], id)
  }

  /** SELECT ... FROM messages WHERE ToClient = ? ORDER BY ID ASC */
  function Waiting(messages: seq<MessageRow>, to: Id): seq<MessageRow> {
    if messages == [] then []
    else if messages[0].to == to then [messages[0]] + Waiting(messages[1..], to)
    else Waiting(messages[1..], to)
  }

  /** DELETE FROM messages WHERE ID IN (...) */
  function Without(messages: seq<MessageRow>, ids: seq<nat>): seq<MessageRow> {
    if messages == [] then []
    else if messages[0].id in ids then Without(messages[1..], ids)
    else [messages[0]] + Without(messages[1..], ids)
  }

  lemma {:induction false} WaitingMembers(messages: seq<MessageRow>, to: Id)
    ensures forall m :: m in Waiting(messages, to) <==> m in messages && m.to == to
  {
    if messages != [] {
      WaitingMembers(messages[1..], to);
      assert forall m :: m in messages <==> m == messages[0] || m in messages[1..];
    }
  }

  lemma {:induction false} WithoutMembers(messages: seq<MessageRow>, ids: seq<nat>)
    ensures forall m :: m in Without(messages, ids) <==> m in messages && m.id !in ids
  {
    if messages != [] {
      WithoutMembers(messages[1..], ids);
      assert forall m :: m in messages <==> m == messages[0] || m in messages[1..];
    }
  }

  function Touched(db: Tables, id: Id, now: nat): Tables {
    if HasId(db.clients, id) then db.(lastSeen := db.lastSeen[id := now]) else db
  }

  /** The UNIQUE and PRIMARY KEY constraints on an INSERT into clients. */
  predicate CanAddClient(db: Tables, c: ClientRow) {
    !HasId(db.clients, c.id) && !HasName(db.clients, c.name)
  }

  function WithClient(db: Tables, c: ClientRow, now: nat): Tables {
    db.(clients := db.clients + [c], lastSeen := db.lastSeen[c.id := now])
  }

  function NewRow(db: Tables, to: Id, from: Id, kind: byte, content: Bytes): MessageRow {
    MessageRow(db.nextId, to, from, kind, content)
  }

  function WithMessage(db: Tables, m: MessageRow): Tables {
    db.(messages := db.messages + [m], nextId := m.id + 1)
  }

  /** The tables apart from the LastSeen column. */
  predicate SameData(a: Tables, b: Tables) {
    a.clients == b.clients && a.messages == b.messages && a.nextId == b.nextId
  }

  /** One thread's handle on the database. `fails` is the environment's choice for the
      statement: a lock timeout, a full disk, anything that raises `sqlite3.Error`. */
  class Database {
    var clients: seq<ClientRow>
    var lastSeen: map<Id, nat>
    var messages: seq<MessageRow>
    var nextId: nat

    function State(): Tables
      reads this
    {
      Tables(clients, lastSeen, messages, nextId)
    }

    /** Opening the file creates the tables only if they are not there yet; `None` is a file
        without them. */
    constructor (file: Option<Tables>)
      ensures file.None? ==> State() == Tables([], map[], [], 1)
      ensures file.Some? ==> State() == file.value
    {
      var stored := if file.Some? then file.value else Tables([], map[], [], 1);
      clients, lastSeen, messages, nextId := stored.clients, stored.lastSeen, stored.messages, stored.nextId;
    }

    method AddClient(c: ClientRow, now: nat, fails: bool) returns (ok: bool)
      modifies this
      ensures ok <==> !fails && CanAddClient(old(State()), c)
      ensures State() == if ok then WithClient(old(State()), c, now) else old(State())
    {
      ok := !fails && CanAddClient(State(), c);
      if ok {
        clients := clients + [c];
        lastSeen := lastSeen[c.id := now];
      }
    }

    method UpdateClientLastSeen(id: Id, now: nat, fails: bool) returns (ok: bool)
      modifies this`lastSeen
      ensures ok == !fails
      ensures State() == if ok then Touched(old(State()), id, now) else old(State())
    {
      ok := !fails;
      if ok && HasId(clients, id) {
        lastSeen := lastSeen[id := now];
      }
    }

    method ClientExists(id: Id, fails: bool) returns (r: Result<bool>)
      ensures r == if fails then Failed else Ok(HasId(clients, id))
    {
      r := if fails then Failed else Ok(HasId(clients, id));
    }

    method ListClientsExcept(id: Id, fails: bool) returns (r: Result<seq<ClientRow>>)
      ensures r == if fails then Failed else Ok(OtherClients(clients, id))
    {
      r := if fails then Failed else Ok(OtherClients(clients, id));
    }

    method GetPublicKeyById(id: Id, fails: bool) returns (r: Result<Option<Bytes>>)
      ensures r == if fails then Failed else Ok(PublicKey(clients, id))
    {
      r := if fails then Failed else Ok(PublicKey(clients, id));
    }

    method AddMessage(to: Id, from: Id, kind: byte, content: Bytes, fails: bool) returns (r: Result<nat>)
      modifies this`messages, this`nextId
      ensures r.Ok? <==> !fails && old(nextId) <= MAX_ROWID
      ensures r.Ok? ==> r.value == old(nextId)
      ensures State() == if r.Ok? then WithMessage(old(State()), NewRow(old(State()), to, from, kind, content))
                         else old(State())
    {
      if fails || nextId > MAX_ROWID {
        return Failed;
      }
      r := Ok(nextId);
      messages := messages + [MessageRow(nextId, to, from, kind, content)];
      nextId := nextId + 1;
    }

    method GetWaitingMessages(to: Id, fails: bool) returns (r: Result<seq<MessageRow>>)
      ensures r == if fails then Failed else Ok(Waiting(messages, to))
    {
      r := if fails then Failed else Ok(Waiting(messages, to));
    }

    /** An empty list returns before any statement runs, so it cannot fail. */
    method DeleteMessages(ids: seq<nat>, fails: bool) returns (ok: bool)
      modifies this`messages
      ensures ok <==> ids == [] || !fails
      ensures messages == if ok then Without(old(messages), ids) else old(messages)
    {
      if ids == [] {
        WithoutNothing(messages);
        return true;
      }
      ok := !fails;
      if ok {
        messages := Without(messages, ids);
      }
    }
  }

  lemma {:induction false} WithoutNothing(messages: seq<MessageRow>)
    ensures Without(messages, []) == messages
  {
    if messages != [] {
      WithoutNothing(messages[1..]);
    }
  }
}
