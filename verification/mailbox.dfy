/** The running server: any number of connection threads, each serving one request at a time
    against the same tables, one statement per step in any order. */
module Mailbox {
  import opened ByteStrings
  import opened Protocol
  import opened DatabaseModel
  import opened Records
  import opened Handler

  datatype RawThread = Serving(data: Bytes, pc: Pc)

  type Thread = th: RawThread | Ready(th.data, th.pc) witness Serving([], FAILED)

  datatype Pull = Pull(owner: Id, payload: Bytes)

  /** `log`, `accepted` and `pulls` are histories: the exchanges completed, every row ever
      inserted, and every payload whose DELETE was committed. */
  datatype System = System(db: Tables, threads: map<nat, Thread>, log: seq<Exchange>,
                           accepted: seq<MessageRow>, pulls: seq<Pull>)

  /** A whole request has arrived on connection `t`; its thread runs a statement; its handler
      returns. */
  datatype Action = Arrive(t: nat, data: Bytes) | Execute(t: nat, env: Env) | Return(t: nat)

  predicate Enabled(s: System, a: Action) {
    match a
    case Arrive(t, _) => t !in s.threads
    case Execute(t, _) => t in s.threads && !s.threads[t].pc.Finished?
    case Return(t) => t in s.threads && s.threads[t].pc.Finished?
  }

  function Do(s: System, a: Action): System
    requires Enabled(s, a)
  {
    match a
    case Arrive(t, data) => s.(threads := s.threads[t := Serving(data, Begin(data))])
    case Execute(t, env) =>
      var th := s.threads[t];
      var (pc, db) := Step(th.data, th.pc, s.db, env);
      System(db, s.threads[t := Serving(th.data, pc)], s.log,
             s.accepted + Inserted(th.data, th.pc, s.db, env),
             if Deletes(th.pc, env) then s.pulls + [Pull(Requester(th.data), th.pc.payload)] else s.pulls)
    case Return(t) =>
      var th := s.threads[t];
      s.(threads := s.threads - {t}, log := s.log + [Exchange(th.data, th.pc.response)])
  }

  /** What the server's own statements can leave in the tables. */
  predicate ValidClient(c: ClientRow) {
    |c.key| == KEY_SIZE && c.name != [] && Ascii(c.name) && 0 !in c.name && |c.name| <= NAME_SIZE
  }

  predicate Distinct(clients: seq<ClientRow>) {
    forall i, j :: 0 <= i < j < |clients| ==>
      clients[i].id != clients[j].id && clients[i].name != clients[j].name
  }

  predicate ValidRow(clients: seq<ClientRow>, nextId: nat, m: MessageRow) {
    && m.id < nextId
    && HasId(clients, m.to) && HasId(clients, m.from)
    && m.kind in {KEY_REQUEST, KEY_SEND, TEXT_MESSAGE}
    && (m.kind == KEY_REQUEST ==> m.content == [])
    && SEND_HEADER + |m.content| < REQUEST_HEADER + TWO_32
  }

  predicate Ascending(rows: seq<MessageRow>) {
    forall i, j :: 0 <= i < j < |rows| ==> rows[i].id < rows[j].id
  }

  predicate ValidRows(clients: seq<ClientRow>, nextId: nat, rows: seq<MessageRow>) {
    Ascending(rows) && forall m :: m in rows ==> ValidRow(clients, nextId, m)
  }

  predicate Consistent(db: Tables) {
    && Distinct(db.clients)
    && (forall c :: c in db.clients ==> ValidClient(c))
    && ValidRows(db.clients, db.nextId, db.messages)
  }

  /** A server that starts on a consistent database, an empty one for instance. */
  predicate Init(s: System) {
    Consistent(s.db) && s.threads == map[] && s.log == [] && s.accepted == s.db.messages && s.pulls == []
  }

  ghost predicate Next(s: System, s': System) {
    exists a :: Enabled(s, a) && s' == Do(s, a)
  }

  ghost predicate IsRun(run: seq<System>) {
    && run != [] && Init(run[0])
    && forall i :: 0 <= i < |run| - 1 ==> Next(run[i], run[i + 1])
  }

  predicate SubsetOf(rows: seq<MessageRow>, all: seq<MessageRow>) {
    forall m :: m in rows ==> m in all
  }

  predicate HasRegistration(clients: seq<ClientRow>, data: Bytes, id: Bytes) {
    |data| == REGISTER_SIZE && |id| == ID_SIZE && ClientRow(id, RegisteredName(data), RegisteredKey(data)) in clients
  }

  predicate HasKey(clients: seq<ClientRow>, data: Bytes, payload: Bytes) {
    |data| == REQUEST_HEADER + ID_SIZE
    && exists c :: c in clients && c.id == Target(data) && payload == c.id + c.key
  }

  predicate HasRows(accepted: seq<MessageRow>, data: Bytes, payload: Bytes) {
    && |data| == REQUEST_HEADER
    && DecodeRows(Requester(data), payload).Some?
    && SubsetOf(DecodeRows(Requester(data), payload).value, accepted)
  }

  /** The row that a send's response acknowledges. */
  predicate Acknowledges(data: Bytes, payload: Bytes, m: MessageRow) {
    && |data| >= SEND_HEADER
    && m.to == Target(data) && m.from == Requester(data) && m.kind == Kind(data) && m.content == Content(data)
    && payload == m.to + Le(m.id, 4) && m.id < TWO_32
  }

  predicate HasMessage(accepted: seq<MessageRow>, data: Bytes, payload: Bytes) {
    exists m :: m in accepted && Acknowledges(data, payload, m)
  }

  /** The list of the clients registered at some moment so far. */
  ghost predicate HasListing(clients: seq<ClientRow>, data: Bytes, payload: Bytes) {
    |data| == REQUEST_HEADER
    && exists n :: 0 <= n <= |clients| && payload == EncodeClients(OtherClients(clients[..n], Requester(data)))
  }

  /** What a response to a request implies about the server that gave it. */
  ghost predicate Justified(clients: seq<ClientRow>, accepted: seq<MessageRow>, data: Bytes, r: Bytes) {
    && WellFormedResponse(r)
    && (Succeeds(r, RESPONSE_REGISTER) ==>
          |data| >= REQUEST_HEADER && Code(data) == REQUEST_REGISTER && HasRegistration(clients, data, ResponsePayload(r)))
    && (Succeeds(r, RESPONSE_CLIENT_LIST) ==>
          |data| >= REQUEST_HEADER && Code(data) == REQUEST_CLIENTS_LIST && HasListing(clients, data, ResponsePayload(r)))
    && (Succeeds(r, RESPONSE_MESSAGE_SENT) ==>
          |data| >= REQUEST_HEADER && Code(data) == REQUEST_SEND_MESSAGE && HasMessage(accepted, data, ResponsePayload(r)))
    && (Succeeds(r, RESPONSE_PUBLIC_KEY) ==>
          |data| >= REQUEST_HEADER && Code(data) == REQUEST_PUBLIC_KEY && HasKey(clients, data, ResponsePayload(r)))
    && (Succeeds(r, RESPONSE_WAITING_MESSAGES) ==>
          |data| >= REQUEST_HEADER && Code(data) == REQUEST_WAITING_MESSAGES && HasRows(accepted, data, ResponsePayload(r)))
  }

  /** What a thread has established by the time it is about to run a statement: the rows it
      has seen are still there, and what it is about to delete is what it has encoded. */
  ghost predicate ThreadOk(clients: seq<ClientRow>, accepted: seq<MessageRow>, th: Thread) {
    match th.pc
    case Finished(r) => Justified(clients, accepted, th.data, r)
    case AddClient => true
    case RequesterExists => true
    case AddMessage => HasId(clients, Requester(th.data)) && HasId(clients, Target(th.data))
    case DeleteMessages(ids, payload) =>
      && HasId(clients, Requester(th.data)) && HasRows(accepted, th.data, payload)
      && ids == Ids(DecodeRows(Requester(th.data), payload).value)
    case _ => HasId(clients, Requester(th.data))
  }

  ghost predicate InPull(m: MessageRow, pulls: seq<Pull>) {
    exists p :: p in pulls && p.owner == m.to && DecodeRows(p.owner, p.payload).Some?
                && m in DecodeRows(p.owner, p.payload).value
  }

  /** The invariant of every reachable state. */
  ghost predicate Safe(s: System) {
    && Consistent(s.db)
    && ValidRows(s.db.clients, s.db.nextId, s.accepted)
    && SubsetOf(s.db.messages, s.accepted)
    && (forall t :: t in s.threads ==> ThreadOk(s.db.clients, s.accepted, s.threads[t]))
    && (forall x :: x in s.log ==> Justified(s.db.clients, s.accepted, x.request, x.response))
    && (forall m :: m in s.accepted ==> m in s.db.messages || InPull(m, s.pulls))
  }

  // ---- What a statement keeps ----

  predicate Grows(clients: seq<ClientRow>, accepted: seq<MessageRow>, clients': seq<ClientRow>, accepted': seq<MessageRow>) {
    clients <= clients' && accepted <= accepted'
  }

  lemma ListingGrows(clients: seq<ClientRow>, clients': seq<ClientRow>, data: Bytes, payload: Bytes)
    requires clients <= clients' && HasListing(clients, data, payload)
    ensures HasListing(clients', data, payload)
  {
    var n :| 0 <= n <= |clients| && payload == EncodeClients(OtherClients(clients[..n], Requester(data)));
    assert clients'[..n] == clients[..n];
  }

  lemma GrowKeeps(clients: seq<ClientRow>, accepted: seq<MessageRow>, clients': seq<ClientRow>, accepted': seq<MessageRow>, data: Bytes)
    requires Grows(clients, accepted, clients', accepted')
    ensures forall id :: HasId(clients, id) ==> HasId(clients', id)
    ensures forall r :: Justified(clients, accepted, data, r) ==> Justified(clients', accepted', data, r)
    ensures forall p :: HasRows(accepted, data, p) ==> HasRows(accepted', data, p)
  {
    hide WellFormedResponse, ResponseCode, ResponsePayload, HasListing, Acknowledges;
    forall p | HasListing(clients, data, p) ensures HasListing(clients', data, p) {
      ListingGrows(clients, clients', data, p);
    }
  }

  lemma ThreadGrows(clients: seq<ClientRow>, accepted: seq<MessageRow>, clients': seq<ClientRow>, accepted': seq<MessageRow>, th: Thread)
    requires Grows(clients, accepted, clients', accepted') && ThreadOk(clients, accepted, th)
    ensures ThreadOk(clients', accepted', th)
  {
    hide Justified, HasRows;
    GrowKeeps(clients, accepted, clients', accepted', th.data);
  }

  lemma RowsGrow(clients: seq<ClientRow>, clients': seq<ClientRow>, nextId: nat, nextId': nat, rows: seq<MessageRow>)
    requires clients <= clients' && nextId <= nextId' && ValidRows(clients, nextId, rows)
    ensures ValidRows(clients', nextId', rows)
  {
  }

  lemma RowsSnoc(clients: seq<ClientRow>, nextId: nat, rows: seq<MessageRow>, m: MessageRow)
    requires ValidRows(clients, nextId, rows) && m.id == nextId && ValidRow(clients, nextId + 1, m)
    ensures ValidRows(clients, nextId + 1, rows + [m])
  {
    RowsGrow(clients, clients, nextId, nextId + 1, rows);
    forall i | 0 <= i < |rows| ensures rows[i].id < m.id {
      assert ValidRow(clients, nextId, rows[i]);
    }
  }

  lemma {:induction false} WaitingAscends(messages: seq<MessageRow>, to: Id)
    requires Ascending(messages)
    ensures Ascending(Waiting(messages, to))
  {
    if messages != [] {
      WaitingAscends(messages[1..], to);
      WaitingMembers(messages[1..], to);
      var rest := Waiting(messages[1..], to);
      forall m | m in rest ensures messages[0].id < m.id {
        var i :| 0 <= i < |messages[1..]| && messages[1..][i] == m;
        assert messages[i + 1] == m;
      }
      assert forall i :: 0 <= i < |rest| ==> rest[i] in rest;
    }
  }

  lemma {:induction false} WithoutAscends(messages: seq<MessageRow>, ids: seq<nat>)
    requires Ascending(messages)
    ensures Ascending(Without(messages, ids))
  {
    if messages != [] {
      WithoutAscends(messages[1..], ids);
      WithoutMembers(messages[1..], ids);
      var rest := Without(messages[1..], ids);
      forall m | m in rest ensures messages[0].id < m.id {
        var i :| 0 <= i < |messages[1..]| && messages[1..][i] == m;
        assert messages[i + 1] == m;
      }
      assert forall i :: 0 <= i < |rest| ==> rest[i] in rest;
    }
  }

  /** The row that an INSERT is about to append is valid: its sender and recipient are still
      registered, and its content fits a request. */
  lemma NewRowValid(s: System, th: Thread)
    requires ThreadOk(s.db.clients, s.accepted, th) && th.pc.AddMessage?
    ensures ValidRow(s.db.clients, s.db.nextId + 1,
                     NewRow(s.db, Target(th.data), Requester(th.data), Kind(th.data), Content(th.data)))
  {
    FromLe4(th.data[19..23]);
  }

  lemma NewClientValid(data: Bytes, token: Id)
    requires Ready(data, AddClient)
    ensures ValidClient(ClientRow(token, RegisteredName(data), RegisteredKey(data)))
  {
  }

  lemma AddClientConsistent(db: Tables, c: ClientRow, now: nat, accepted: seq<MessageRow>)
    requires Consistent(db) && CanAddClient(db, c) && ValidClient(c)
    requires ValidRows(db.clients, db.nextId, accepted)
    ensures var db' := WithClient(db, c, now);
            Consistent(db') && ValidRows(db'.clients, db'.nextId, accepted)
  {
  }

  lemma AddMessageConsistent(db: Tables, m: MessageRow, accepted: seq<MessageRow>)
    requires Consistent(db) && m.id == db.nextId && ValidRow(db.clients, db.nextId + 1, m)
    requires ValidRows(db.clients, db.nextId, accepted)
    ensures var db' := WithMessage(db, m);
            Consistent(db') && ValidRows(db'.clients, db'.nextId, accepted + [m])
  {
    RowsSnoc(db.clients, db.nextId, db.messages, m);
    RowsSnoc(db.clients, db.nextId, accepted, m);
  }

  lemma DeleteConsistent(db: Tables, ids: seq<nat>)
    requires Consistent(db)
    ensures Consistent(db.(messages := Without(db.messages, ids)))
  {
    WithoutAscends(db.messages, ids);
    WithoutMembers(db.messages, ids);
  }

  lemma TouchConsistent(db: Tables, id: Id, now: nat)
    requires Consistent(db)
    ensures Consistent(Touched(db, id, now)) && SameData(db, Touched(db, id, now))
  {
  }

  lemma ExecuteConsistent(s: System, t: nat, env: Env)
    requires Safe(s) && Enabled(s, Execute(t, env))
    ensures var s' := Do(s, Execute(t, env));
            && Consistent(s'.db) && ValidRows(s'.db.clients, s'.db.nextId, s'.accepted)
            && Grows(s.db.clients, s.accepted, s'.db.clients, s'.accepted)
            && SubsetOf(s'.db.messages, s'.accepted)
  {
    hide Consistent, ValidRows, ValidRow, ValidClient, InPull, Justified, EncodeRows, EncodeClients, OtherClients, Waiting, Without,
      Reply, Response, Touched;
    var th := s.threads[t];
    var (pc, db) := Step(th.data, th.pc, s.db, env);
    if db != s.db {
      match th.pc
      case AddClient =>
        var c := ClientRow(env.token, RegisteredName(th.data), RegisteredKey(th.data));
        NewClientValid(th.data, env.token);
        AddClientConsistent(s.db, c, env.now, s.accepted);
      case UpdateLastSeen =>
        TouchConsistent(s.db, Requester(th.data), env.now);
      case AddMessage =>
        var m := NewRow(s.db, Target(th.data), Requester(th.data), Kind(th.data), Content(th.data));
        NewRowValid(s, th);
        AddMessageConsistent(s.db, m, s.accepted);
      case DeleteMessages(ids, _) =>
        DeleteConsistent(s.db, ids);
        WithoutMembers(s.db.messages, ids);
    } else {
      assert Inserted(th.data, th.pc, s.db, env) == [] && s.accepted + [] == s.accepted;
    }
  }

  lemma AddedMessageAcknowledged(s: System, t: nat, env: Env)
    requires Enabled(s, Execute(t, env)) && s.threads[t].pc == AddMessage
    ensures var th, s' := s.threads[t], Do(s, Execute(t, env));
            var r := s'.threads[t].pc.response;
            Succeeds(r, RESPONSE_MESSAGE_SENT) ==> HasMessage(s'.accepted, th.data, ResponsePayload(r))
  {
    hide WellFormedResponse, ResponseCode, ResponsePayload, Reply, Response, Le, FromLe, ValidMessage;
    var th, s' := s.threads[t], Do(s, Execute(t, env));
    ErrorWellFormed();
    StepResponse(th.data, th.pc, s.db, env);
    if Succeeds(s'.threads[t].pc.response, RESPONSE_MESSAGE_SENT) {
      var m := NewRow(s.db, Target(th.data), Requester(th.data), Kind(th.data), Content(th.data));
      assert s'.accepted == s.accepted + [m];
      assert Acknowledges(th.data, ResponsePayload(s'.threads[t].pc.response), m);
    }
  }

  /** A response tells the truth about the state that its last statement leaves. */
  lemma ExecuteAnswer(s: System, t: nat, env: Env)
    requires Safe(s) && Enabled(s, Execute(t, env))
    ensures var s' := Do(s, Execute(t, env));
            var th := s'.threads[t];
            th.pc.Finished? ==> Justified(s'.db.clients, s'.accepted, th.data, th.pc.response)
  {
    hide WellFormedResponse, ResponseCode, ResponsePayload, Reply, Response, EncodeRows, EncodeClients, OtherClients,
      Waiting, Without, Le, FromLe, BeforeNul, Consistent, ValidRows, InPull, HasRows;
    var th := s.threads[t];
    var s' := Do(s, Execute(t, env));
    ErrorWellFormed();
    StepResponse(th.data, th.pc, s.db, env);
    assert ThreadOk(s.db.clients, s.accepted, th);
    match th.pc
    case DeleteMessages(_, _) =>
      ExecuteConsistent(s, t, env);
      GrowKeeps(s.db.clients, s.accepted, s'.db.clients, s'.accepted, th.data);
    case ListClients =>
      assert s.db.clients[..|s.db.clients|] == s.db.clients;
    case AddMessage =>
      AddedMessageAcknowledged(s, t, env);
    case _ =>
  }

  lemma ExecuteThread(s: System, t: nat, env: Env)
    requires Safe(s) && Enabled(s, Execute(t, env))
    ensures var s' := Do(s, Execute(t, env)); ThreadOk(s'.db.clients, s'.accepted, s'.threads[t])
  {
    hide Justified, Reply, Response, EncodeRows, EncodeClients, OtherClients, Waiting, Without, Le, FromLe, BeforeNul,
      Consistent, ValidRows, InPull;
    var th := s.threads[t];
    var s' := Do(s, Execute(t, env));
    ExecuteAnswer(s, t, env);
    ExecuteConsistent(s, t, env);
    StepToDelete(th.data, th.pc, s.db, env);
    GrowKeeps(s.db.clients, s.accepted, s'.db.clients, s'.accepted, th.data);
    assert ThreadOk(s.db.clients, s.accepted, th);
    if th.pc.GetWaiting? {
      WaitingMembers(s.db.messages, Requester(th.data));
      DecodeEncoded(Waiting(s.db.messages, Requester(th.data)), Requester(th.data));
    }
  }

  /** A DELETE removes only rows that its thread has encoded for their recipient. */
  lemma DeletedWerePulled(s: System, th: Thread, m: MessageRow)
    requires Safe(s) && ThreadOk(s.db.clients, s.accepted, th) && th.pc.DeleteMessages?
    requires m in s.accepted && m.id in th.pc.ids
    ensures m.to == Requester(th.data) && m in DecodeRows(Requester(th.data), th.pc.payload).value
  {
    var rows := DecodeRows(Requester(th.data), th.pc.payload).value;
    var i :| 0 <= i < |th.pc.ids| && th.pc.ids[i] == m.id;
    assert rows[i] in rows;
    SameIdSameRow(s.accepted, rows[i], m);
    DecodedTo(th.pc.payload, Requester(th.data));
  }

  lemma SameIdSameRow(rows: seq<MessageRow>, a: MessageRow, b: MessageRow)
    requires Ascending(rows) && a in rows && b in rows && a.id == b.id
    ensures a == b
  {
  }

  lemma ExecuteKeepsEvidence(s: System, t: nat, env: Env)
    requires Safe(s) && Enabled(s, Execute(t, env))
    ensures var s' := Do(s, Execute(t, env));
            forall m :: m in s'.accepted ==> m in s'.db.messages || InPull(m, s'.pulls)
  {
    var th := s.threads[t];
    var s' := Do(s, Execute(t, env));
    forall m | m in s'.accepted ensures m in s'.db.messages || InPull(m, s'.pulls) {
      if m in s.accepted {
        if m in s.db.messages && m !in s'.db.messages {
          WithoutMembers(s.db.messages, if th.pc.DeleteMessages? then th.pc.ids else []);
          DeletedWerePulled(s, th, m);
          var p := Pull(Requester(th.data), th.pc.payload);
          assert p in s'.pulls;
        } else if m !in s.db.messages {
          var p :| p in s.pulls && p.owner == m.to && DecodeRows(p.owner, p.payload).Some?
                   && m in DecodeRows(p.owner, p.payload).value;
          assert p in s'.pulls;
        }
      } else {
        assert m in Inserted(th.data, th.pc, s.db, env);
      }
    }
  }

  lemma ExecuteKeepsSafe(s: System, t: nat, env: Env)
    requires Safe(s) && Enabled(s, Execute(t, env))
    ensures Safe(Do(s, Execute(t, env)))
  {
    hide Step, ThreadOk, Justified, Consistent, ValidRows, Deletes, Inserted, InPull;
    var s' := Do(s, Execute(t, env));
    ExecuteConsistent(s, t, env);
    ExecuteThread(s, t, env);
    ExecuteKeepsEvidence(s, t, env);
    forall u | u in s'.threads && u != t ensures ThreadOk(s'.db.clients, s'.accepted, s'.threads[u]) {
      ThreadGrows(s.db.clients, s.accepted, s'.db.clients, s'.accepted, s.threads[u]);
    }
    forall x | x in s'.log ensures Justified(s'.db.clients, s'.accepted, x.request, x.response) {
      GrowKeeps(s.db.clients, s.accepted, s'.db.clients, s'.accepted, x.request);
    }
  }

  lemma NewThreadOk(clients: seq<ClientRow>, accepted: seq<MessageRow>, data: Bytes)
    ensures ThreadOk(clients, accepted, Serving(data, Begin(data)))
  {
    ErrorWellFormed();
  }

  lemma FinishedJustified(clients: seq<ClientRow>, accepted: seq<MessageRow>, th: Thread)
    requires ThreadOk(clients, accepted, th) && th.pc.Finished?
    ensures Justified(clients, accepted, th.data, th.pc.response)
  {
  }

  lemma DoKeepsSafe(s: System, a: Action)
    requires Safe(s) && Enabled(s, a)
    ensures Safe(Do(s, a))
  {
    hide Step, ThreadOk, Justified, Consistent, ValidRows, InPull;
    match a
    case Arrive(t, data) => NewThreadOk(s.db.clients, s.accepted, data);
    case Execute(t, env) => ExecuteKeepsSafe(s, t, env);
    case Return(t) => FinishedJustified(s.db.clients, s.accepted, s.threads[t]);
  }

  lemma NextKeepsSafe(s: System, s': System)
    requires Safe(s) && Next(s, s')
    ensures Safe(s')
  {
    hide Safe, Do;
    var a :| Enabled(s, a) && s' == Do(s, a);
    DoKeepsSafe(s, a);
  }

  lemma RunPrefix(run: seq<System>)
    requires IsRun(run) && |run| > 1
    ensures IsRun(run[..|run| - 1]) && Next(run[|run| - 2], run[|run| - 1])
  {
  }

  /** Every reachable state is safe: whatever the interleaving and whichever statements fail. */
  lemma {:induction false} ReachableSafe(run: seq<System>)
    requires IsRun(run)
    ensures forall i :: 0 <= i < |run| ==> Safe(run[i])
  {
    hide Next;
    if |run| > 1 {
      hide Safe, IsRun;
      var before, n := run[..|run| - 1], |run| - 2;
      RunPrefix(run);
      ReachableSafe(before);
      assert before[n] == run[n];
      NextKeepsSafe(run[n], run[n + 1]);
      assert forall i :: 0 <= i < |before| ==> before[i] == run[i];
    }
  }
}
