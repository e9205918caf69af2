/** The request handler. `Step` is one database statement together with the local computation
    up to the next one; the methods below run the same statements through a `Database`. */
module Handler {
  import opened ByteStrings
  import opened Protocol
  import opened DatabaseModel
  import opened Records

  /** Where a request stands: the statement it will run next, or its response. */
  datatype Pc =
    | AddClient
    | RequesterExists
    | UpdateLastSeen
    | ListClients
    | GetPublicKey
    | TargetExists
    | AddMessage
    | GetWaiting
    | DeleteMessages(ids: seq<nat>, payload: Bytes)
    | Finished(response: Bytes)

  /** What the environment contributes to a statement: whether it raises, the clock, and the
      value of `secrets.token_bytes(16)`. */
  datatype Env = Env(fails: bool, now: nat, token: Id)

  const FAILED := Finished(ErrorResponse())

  /** What the checks before a statement have established about the request. */
  predicate Ready(data: Bytes, pc: Pc) {
    match pc
    case Finished(_) => true
    case AddClient => Acceptable(data) && |data| == REGISTER_SIZE && Code(data) == REQUEST_REGISTER
                      && Ascii(RegisteredName(data)) && RegisteredName(data) != []
    case RequesterExists => Acceptable(data) && Code(data) != REQUEST_REGISTER
    case UpdateLastSeen => Acceptable(data) && Code(data) != REQUEST_REGISTER
    case ListClients => Acceptable(data) && |data| == REQUEST_HEADER && Code(data) == REQUEST_CLIENTS_LIST
    case GetPublicKey => Acceptable(data) && |data| == REQUEST_HEADER + ID_SIZE && Code(data) == REQUEST_PUBLIC_KEY
    case TargetExists => Acceptable(data) && |data| >= SEND_HEADER && Code(data) == REQUEST_SEND_MESSAGE
    case AddMessage => Acceptable(data) && |data| >= SEND_HEADER && Code(data) == REQUEST_SEND_MESSAGE
                       && ValidMessage(data)
    case GetWaiting => Acceptable(data) && |data| == REQUEST_HEADER && Code(data) == REQUEST_WAITING_MESSAGES
    case DeleteMessages(_, _) => Acceptable(data) && |data| == REQUEST_HEADER && Code(data) == REQUEST_WAITING_MESSAGES
  }

  /** The checks of `send_message_handler` after the target is known to exist. */
  predicate ValidMessage(data: Bytes)
    requires |data| >= SEND_HEADER
  {
    && Kind(data) in {KEY_REQUEST, KEY_SEND, TEXT_MESSAGE}
    && |data| == SEND_HEADER + ContentSize(data)
    && (Kind(data) == KEY_REQUEST ==> ContentSize(data) == 0)
  }

  /** Header validation, up to the first statement. */
  function Begin(data: Bytes): (pc: Pc)
    ensures Ready(data, pc)
  {
    if !Acceptable(data) then FAILED
    else if Code(data) != REQUEST_REGISTER then RequesterExists
    else if |data| != REGISTER_SIZE then FAILED
    else if !Ascii(RegisteredName(data)) || RegisteredName(data) == [] then FAILED
    else AddClient
  }

  /** The dispatch on the request code, and each handler's length check. */
  function Dispatch(data: Bytes): (pc: Pc)
    requires Acceptable(data)
    ensures Ready(data, pc)
  {
    var code := Code(data);
    if code == REQUEST_CLIENTS_LIST then (if |data| != REQUEST_HEADER then FAILED else ListClients)
    else if code == REQUEST_PUBLIC_KEY then (if |data| != REQUEST_HEADER + ID_SIZE then FAILED else GetPublicKey)
    else if code == REQUEST_WAITING_MESSAGES then (if |data| != REQUEST_HEADER then FAILED else GetWaiting)
    else if code == REQUEST_SEND_MESSAGE then (if |data| < SEND_HEADER then FAILED else TargetExists)
    else FAILED
  }

  /** One statement. A failure raises out of the handler and becomes a general error; deleting
      an empty list of ids runs no statement. */
  function Step(data: Bytes, pc: Pc, db: Tables, e: Env): (r: (Pc, Tables))
    requires Ready(data, pc)
    ensures Ready(data, r.0)
  {
    if pc.Finished? then (pc, db)
    else if e.fails && !(pc.DeleteMessages? && pc.ids == []) then (FAILED, db)
    else
      match pc
      case AddClient =>
        var c := ClientRow(e.token, RegisteredName(data), RegisteredKey(data));
        if CanAddClient(db, c)
        then (Finished(Reply(RESPONSE_REGISTER, c.id)), WithClient(db, c, e.now))
        else (FAILED, db)
      case RequesterExists =>
        (if HasId(db.clients, Requester(data)) then UpdateLastSeen else FAILED, db)
      case UpdateLastSeen =>
        (Dispatch(data), Touched(db, Requester(data), e.now))
      case ListClients =>
        (Finished(Reply(RESPONSE_CLIENT_LIST, EncodeClients(OtherClients(db.clients, Requester(data))))), db)
      case GetPublicKey =>
        (match PublicKey(db.clients, Target(data))
         case None => FAILED
         case Some(key) =>
           if |key| != KEY_SIZE then FAILED else Finished(Reply(RESPONSE_PUBLIC_KEY, Target(data) + key)),
         db)
      case TargetExists =>
        (if HasId(db.clients, Target(data)) && ValidMessage(data) then AddMessage else FAILED, db)
      case AddMessage =>
        if db.nextId > MAX_ROWID then (FAILED, db)
        else
          var m := NewRow(db, Target(data), Requester(data), Kind(data), Content(data));
          (if m.id < TWO_32 then Finished(Reply(RESPONSE_MESSAGE_SENT, m.to + Le(m.id, 4))) else FAILED,
           WithMessage(db, m))
      case GetWaiting =>
        var rows := Waiting(db.messages, Requester(data));
        (match EncodeRows(rows)
         case None => FAILED
         case Some(payload) => DeleteMessages(Ids(rows), payload),
         db)
      case DeleteMessages(ids, payload) =>
        (Finished(Reply(RESPONSE_WAITING_MESSAGES, payload)), db.(messages := Without(db.messages, ids)))
  }

  /** A statement that ends a request answers it with a well-formed response, and a success
      code tells which statement it was and what the payload holds. */
  lemma StepResponse(data: Bytes, pc: Pc, db: Tables, e: Env)
    requires Ready(data, pc) && !pc.Finished?
    ensures var (pc', _) := Step(data, pc, db, e);
            pc'.Finished? ==>
              && WellFormedResponse(pc'.response)
              && (ResponseCode(pc'.response) == RESPONSE_REGISTER ==>
                    pc.AddClient? && ResponsePayload(pc'.response) == e.token)
              && (ResponseCode(pc'.response) == RESPONSE_CLIENT_LIST ==>
                    pc.ListClients?
                    && ResponsePayload(pc'.response) == EncodeClients(OtherClients(db.clients, Requester(data))))
              && (ResponseCode(pc'.response) == RESPONSE_PUBLIC_KEY ==>
                    pc.GetPublicKey? && PublicKey(db.clients, Target(data)).Some?
                    && ResponsePayload(pc'.response) == Target(data) + PublicKey(db.clients, Target(data)).value)
              && (ResponseCode(pc'.response) == RESPONSE_MESSAGE_SENT ==>
                    pc.AddMessage? && ResponsePayload(pc'.response) == Target(data) + Le(db.nextId, 4))
              && (ResponseCode(pc'.response) == RESPONSE_WAITING_MESSAGES ==>
                    pc.DeleteMessages? && ResponsePayload(pc'.response) == pc.payload)
  {
    hide WellFormedResponse, ResponseCode, ResponsePayload, Reply, Response, EncodeRows, EncodeClients, OtherClients,
      Waiting, Without, Le, FromLe, BeforeNul, HasId, Touched, CanAddClient;
    ErrorWellFormed();
    match pc
    case AddClient => ReplyWellFormed(RESPONSE_REGISTER, e.token);
    case ListClients =>
      ReplyWellFormed(RESPONSE_CLIENT_LIST, EncodeClients(OtherClients(db.clients, Requester(data))));
    case GetPublicKey =>
      if PublicKey(db.clients, Target(data)).Some? {
        ReplyWellFormed(RESPONSE_PUBLIC_KEY, Target(data) + PublicKey(db.clients, Target(data)).value);
      }
    case AddMessage => ReplyWellFormed(RESPONSE_MESSAGE_SENT, Target(data) + Le(db.nextId, 4));
    case DeleteMessages(_, payload) => ReplyWellFormed(RESPONSE_WAITING_MESSAGES, payload);
    case _ =>
  }

  /** Only a SELECT leads to a DELETE, of the ids it read and with the payload they encode to. */
  lemma StepToDelete(data: Bytes, pc: Pc, db: Tables, e: Env)
    requires Ready(data, pc) && !pc.Finished?
    ensures var (pc', db') := Step(data, pc, db, e);
            pc'.DeleteMessages? ==>
              && pc.GetWaiting? && db' == db
              && EncodeRows(Waiting(db.messages, Requester(data))) == Some(pc'.payload)
              && pc'.ids == Ids(Waiting(db.messages, Requester(data)))
  {
  }

  predicate Deletes(pc: Pc, env: Env) {
    pc.DeleteMessages? && (pc.ids == [] || !env.fails)
  }

  lemma StepDelete(data: Bytes, pc: Pc, db: Tables, e: Env)
    requires Ready(data, pc) && Deletes(pc, e)
    ensures Step(data, pc, db, e) ==
            (Finished(Reply(RESPONSE_WAITING_MESSAGES, pc.payload)), db.(messages := Without(db.messages, pc.ids)))
  {
  }

  /** The rows that a statement appends to the messages table. */
  function Inserted(data: Bytes, pc: Pc, db: Tables, e: Env): seq<MessageRow>
    requires Ready(data, pc)
  {
    if pc.AddMessage? && !e.fails && db.nextId <= MAX_ROWID
    then [NewRow(db, Target(data), Requester(data), Kind(data), Content(data))] else []
  }

  /** A statement changes the messages table by one INSERT, one DELETE, or not at all. */
  lemma StepMessages(data: Bytes, pc: Pc, db: Tables, e: Env)
    requires Ready(data, pc)
    ensures Step(data, pc, db, e).1.messages ==
            (if Deletes(pc, e) then Without(db.messages, pc.ids) else db.messages + Inserted(data, pc, db, e))
  {
  }

  /** How many statements can still follow. */
  function Rank(pc: Pc): nat {
    match pc
    case Finished(_) => 0
    case RequesterExists => 4
    case UpdateLastSeen => 3
    case TargetExists => 2
    case GetWaiting => 2
    case _ => 1
  }

  lemma StepRanks(data: Bytes, pc: Pc, db: Tables, e: Env)
    requires Ready(data, pc) && !pc.Finished?
    ensures Rank(Step(data, pc, db, e).0) < Rank(pc)
  {
  }

  /** A request served from `pc` to its response with no other thread in between; `env(k)` is
      the environment of the next statement. */
  function RunAlone(data: Bytes, pc: Pc, db: Tables, env: nat -> Env, k: nat): (Bytes, Tables)
    requires Ready(data, pc)
    decreases Rank(pc)
  {
    if pc.Finished? then (pc.response, db)
    else
      var (pc', db') := Step(data, pc, db, env(k));
      RunAlone(data, pc', db', env, k + 1)
  }

  method RegisterHandler(data: Bytes, db: Database, env: nat -> Env) returns (response: Bytes)
    requires Acceptable(data) && Code(data) == REQUEST_REGISTER
    modifies db
    ensures (response, db.State()) == RunAlone(data, Begin(data), old(db.State()), env, 0)
  {
    if |data| != REGISTER_SIZE {
      return ErrorResponse();
    }
    var rawName := data[REQUEST_HEADER..REQUEST_HEADER + NAME_SIZE];
    var key := data[REQUEST_HEADER + NAME_SIZE..];
    var name := BeforeNul(rawName);
    if !Ascii(name) {
      return ErrorResponse();
    }
    if name == [] {
      return ErrorResponse();
    }
    var id := env(0).token;
    var ok := db.AddClient(ClientRow(id, name, key), env(0).now, env(0).fails);
    if !ok {
      return ErrorResponse();
    }
    return Reply(RESPONSE_REGISTER, id);
  }

  method ClientsListHandler(data: Bytes, db: Database, env: nat -> Env) returns (response: Bytes)
    requires Acceptable(data) && Code(data) == REQUEST_CLIENTS_LIST
    ensures (response, db.State()) == RunAlone(data, Dispatch(data), db.State(), env, 2)
  {
    if |data| != REQUEST_HEADER {
      return ErrorResponse();
    }
    var clients := db.ListClientsExcept(Requester(data), env(2).fails);
    if clients.Failed? {
      return ErrorResponse();
    }
    var payload := BuildClientList(clients.value);
    return Reply(RESPONSE_CLIENT_LIST, payload);
  }

  method PublicKeyHandler(data: Bytes, db: Database, env: nat -> Env) returns (response: Bytes)
    requires Acceptable(data) && Code(data) == REQUEST_PUBLIC_KEY
    ensures (response, db.State()) == RunAlone(data, Dispatch(data), db.State(), env, 2)
  {
    if |data| != REQUEST_HEADER + ID_SIZE {
      return ErrorResponse();
    }
    var key := db.GetPublicKeyById(Target(data), env(2).fails);
    if key.Failed? || key.value.None? || |key.value.value| != KEY_SIZE {
      return ErrorResponse();
    }
    return Reply(RESPONSE_PUBLIC_KEY, Target(data) + key.value.value);
  }

  method WaitingMessagesHandler(data: Bytes, db: Database, env: nat -> Env) returns (response: Bytes)
    requires Acceptable(data) && Code(data) == REQUEST_WAITING_MESSAGES
    modifies db`messages
    ensures (response, db.State()) == RunAlone(data, Dispatch(data), old(db.State()), env, 2)
  {
    if |data| != REQUEST_HEADER {
      return ErrorResponse();
    }
    var messages := db.GetWaitingMessages(Requester(data), env(2).fails);
    if messages.Failed? {
      return ErrorResponse();
    }
    var payload, ids, raised := BuildMailbox(messages.value);
    if raised {
      return ErrorResponse();
    }
    ghost var between := DeleteMessages(ids, payload);
    assert Step(data, GetWaiting, db.State(), env(2)) == (between, db.State());
    var ok := db.DeleteMessages(ids, env(3).fails);
    if !ok {
      return ErrorResponse();
    }
    return Reply(RESPONSE_WAITING_MESSAGES, payload);
  }

  method SendMessageHandler(data: Bytes, db: Database, env: nat -> Env) returns (response: Bytes)
    requires Acceptable(data) && Code(data) == REQUEST_SEND_MESSAGE
    modifies db`messages, db`nextId
    ensures (response, db.State()) == RunAlone(data, Dispatch(data), old(db.State()), env, 2)
  {
    if |data| < SEND_HEADER {
      return ErrorResponse();
    }
    var exists_ := db.ClientExists(Target(data), env(2).fails);
    if exists_.Failed? || !exists_.value {
      return ErrorResponse();
    }
    if Kind(data) !in {KEY_REQUEST, KEY_SEND, TEXT_MESSAGE} {
      return ErrorResponse();
    }
    if |data| != SEND_HEADER + ContentSize(data) {
      return ErrorResponse();
    }
    if Kind(data) == KEY_REQUEST && ContentSize(data) != 0 {
      return ErrorResponse();
    }
    var id := db.AddMessage(Target(data), Requester(data), Kind(data), Content(data), env(3).fails);
    if id.Failed? || id.value >= TWO_32 {
      return ErrorResponse();
    }
    return Reply(RESPONSE_MESSAGE_SENT, Target(data) + Le(id.value, 4));
  }

  /** `request_handler_main`: any byte string gets a response, and the tables end where the
      statement-by-statement run of the request leaves them. */
  method RequestHandlerMain(data: Bytes, db: Database, env: nat -> Env) returns (response: Bytes)
    modifies db
    ensures (response, db.State()) == RunAlone(data, Begin(data), old(db.State()), env, 0)
  {
    if |data| < REQUEST_HEADER {
      return ErrorResponse();
    }
    if |data| != REQUEST_HEADER + PayloadSize(data) {
      return ErrorResponse();
    }
    if data[16] != CLIENT_VERSION {
      return ErrorResponse();
    }
    if Code(data) == REQUEST_REGISTER {
      response := RegisterHandler(data, db, env);
      return;
    }
    var known := db.ClientExists(Requester(data), env(0).fails);
    if known.Failed? || !known.value {
      return ErrorResponse();
    }
    var ok := db.UpdateClientLastSeen(Requester(data), env(1).now, env(1).fails);
    if !ok {
      return ErrorResponse();
    }
    assert Step(data, UpdateLastSeen, old(db.State()), env(1)) == (Dispatch(data), db.State());
    if Code(data) == REQUEST_CLIENTS_LIST {
      response := ClientsListHandler(data, db, env);
    } else if Code(data) == REQUEST_PUBLIC_KEY {
      response := PublicKeyHandler(data, db, env);
    } else if Code(data) == REQUEST_WAITING_MESSAGES {
      response := WaitingMessagesHandler(data, db, env);
    } else if Code(data) == REQUEST_SEND_MESSAGE {
      response := SendMessageHandler(data, db, env);
    } else {
      response := ErrorResponse();
    }
  }
}
