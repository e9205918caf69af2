/** Exactly which requests are granted: for any bytes, any tables and any failures, the condition
    for each success response, in plain numbers, and what it then does. Everything else is
    answered with a general error. */
module Service {
  import opened ByteStrings
  import opened Protocol
  import opened DatabaseModel
  import opened Records
  import opened Handler
  import opened Mailbox
  import opened Effects
  import opened Layout
  import opened Agreement
  import ClientCache
  import opened ClientActions

  // ---- The conditions ----

  /** A whole request of the client's version, with that code. */
  predicate Asks(data: Bytes, code: nat) {
    |data| >= 23 && |data| == 23 + Four(data, 19) && data[16] == 1 && Two(data, 17) == code
  }

  /** The requester is registered, and finding that out and recording it do not fail. */
  predicate Known(data: Bytes, db: Tables, env: nat -> Env)
    requires |data| >= 23
  {
    HasId(db.clients, data[..16]) && !env(0).fails && !env(1).fails
  }

  predicate RegistrationGranted(data: Bytes, db: Tables, env: nat -> Env) {
    && Asks(data, 700) && |data| == 438
    && var name := UpTo(data[23..278], 0);
       && name != [] && (forall c :: c in name ==> c < 128)
       && !env(0).fails && !HasId(db.clients, env(0).token) && !HasName(db.clients, name)
  }

  predicate ListGranted(data: Bytes, db: Tables, env: nat -> Env) {
    && Asks(data, 701) && |data| == 23 && Known(data, db, env) && !env(2).fails
    && 271 * |OtherClients(db.clients, data[..16])| < 0x1_0000_0000
  }

  predicate KeyGranted(data: Bytes, db: Tables, env: nat -> Env) {
    && Asks(data, 702) && |data| == 39 && Known(data, db, env) && !env(2).fails
    && HasId(db.clients, data[23..39]) && |PublicKey(db.clients, data[23..39]).value| == 160
  }

  /** The message is stored. */
  predicate SendStored(data: Bytes, db: Tables, env: nat -> Env) {
    && Asks(data, 703) && |data| >= 44 && Known(data, db, env) && !env(2).fails && HasId(db.clients, data[23..39])
    && 1 <= data[39] <= 3 && |data| == 44 + Four(data, 40) && (data[39] == 1 ==> |data| == 44)
    && !env(3).fails && db.nextId < 0x8000_0000_0000_0000
  }

  predicate SendGranted(data: Bytes, db: Tables, env: nat -> Env) {
    SendStored(data, db, env) && db.nextId < 0x1_0000_0000
  }

  /** The requester's rows are encoded and deleted. */
  predicate PullTaken(data: Bytes, db: Tables, env: nat -> Env) {
    && Asks(data, 704) && |data| == 23 && Known(data, db, env) && !env(2).fails
    && var mail := Waiting(db.messages, data[..16]);
       EncodeRows(mail).Some? && (mail == [] || !env(3).fails)
  }

  predicate PullGranted(data: Bytes, db: Tables, env: nat -> Env) {
    PullTaken(data, db, env) && |EncodeRows(Waiting(db.messages, data[..16])).value| < 0x1_0000_0000
  }

  // ---- Unfolding a run ----

  function Run(data: Bytes, db: Tables, env: nat -> Env): (Bytes, Tables) {
    RunAlone(data, Begin(data), db, env, 0)
  }

  lemma RunStep(data: Bytes, pc: Pc, db: Tables, env: nat -> Env, k: nat)
    requires Ready(data, pc) && !pc.Finished?
    ensures var (pc', db') := Step(data, pc, db, env(k));
            RunAlone(data, pc, db, env, k) == RunAlone(data, pc', db', env, k + 1)
  {
    hide Step, Ready;
  }

  lemma RunEnds(data: Bytes, r: Bytes, db: Tables, env: nat -> Env, k: nat)
    ensures RunAlone(data, Finished(r), db, env, k) == (r, db)
  {
  }

  lemma AsksBytes(data: Bytes, code: nat)
    ensures Asks(data, code) <==> Acceptable(data) && Code(data) == code
  {
    if |data| >= 23 {
      FieldBytes(data);
    }
  }

  /** The two statements before the dispatch. */
  lemma Checked(data: Bytes, db: Tables, env: nat -> Env)
    requires Acceptable(data) && Code(data) != 700
    ensures Run(data, db, env)
         == if Known(data, db, env) then RunAlone(data, Dispatch(data), Touched(db, Requester(data), env(1).now), env, 2)
            else (ErrorResponse(), db)
  {
    hide RunAlone, Dispatch, Code, FromLe, ErrorResponse;
    FieldBytes(data);
    RunStep(data, RequesterExists, db, env, 0);
    if HasId(db.clients, Requester(data)) && !env(0).fails {
      RunStep(data, UpdateLastSeen, db, env, 1);
    }
    RunEnds(data, ErrorResponse(), db, env, 1);
    RunEnds(data, ErrorResponse(), db, env, 2);
  }

  lemma ListEnds(data: Bytes, db: Tables, env: nat -> Env)
    requires Ready(data, ListClients)
    ensures RunAlone(data, ListClients, db, env, 2)
         == (if env(2).fails then ErrorResponse()
             else Reply(RESPONSE_CLIENT_LIST, EncodeClients(OtherClients(db.clients, Requester(data)))), db)
  {
    hide RunAlone, ErrorResponse, Reply, EncodeClients, OtherClients, FromLe;
    RunStep(data, ListClients, db, env, 2);
    var (pc, after) := Step(data, ListClients, db, env(2));
    RunEnds(data, pc.response, after, env, 3);
  }

  lemma KeyEnds(data: Bytes, db: Tables, env: nat -> Env)
    requires Ready(data, GetPublicKey)
    ensures var key := PublicKey(db.clients, Target(data));
            RunAlone(data, GetPublicKey, db, env, 2) ==
            (if env(2).fails || key.None? || |key.value| != 160 then ErrorResponse()
             else Reply(RESPONSE_PUBLIC_KEY, Target(data) + key.value), db)
  {
    hide RunAlone, ErrorResponse, Reply, PublicKey, FromLe;
    RunStep(data, GetPublicKey, db, env, 2);
    var (pc, after) := Step(data, GetPublicKey, db, env(2));
    RunEnds(data, pc.response, after, env, 3);
  }

  lemma SendEnds(data: Bytes, db: Tables, env: nat -> Env)
    requires Ready(data, TargetExists)
    ensures var stored := !env(2).fails && HasId(db.clients, Target(data)) && ValidMessage(data)
                          && !env(3).fails && db.nextId <= MAX_ROWID;
            RunAlone(data, TargetExists, db, env, 2) ==
            (if stored && db.nextId < TWO_32 then Reply(RESPONSE_MESSAGE_SENT, Target(data) + Le(db.nextId, 4))
             else ErrorResponse(),
             if stored then WithMessage(db, NewRow(db, Target(data), Requester(data), Kind(data), Content(data))) else db)
  {
    hide RunAlone, ErrorResponse, Reply, HasId, FromLe, Le, ValidMessage;
    RunStep(data, TargetExists, db, env, 2);
    var (pc, after) := Step(data, TargetExists, db, env(2));
    if pc.AddMessage? {
      RunStep(data, AddMessage, db, env, 3);
      var (pc', after') := Step(data, AddMessage, db, env(3));
      RunEnds(data, pc'.response, after', env, 4);
    } else {
      RunEnds(data, pc.response, after, env, 3);
    }
  }

  lemma PullEnds(data: Bytes, db: Tables, env: nat -> Env)
    requires Ready(data, GetWaiting)
    ensures var mail := Waiting(db.messages, Requester(data));
            var taken := !env(2).fails && EncodeRows(mail).Some? && (mail == [] || !env(3).fails);
            RunAlone(data, GetWaiting, db, env, 2) ==
            (if taken then Reply(RESPONSE_WAITING_MESSAGES, EncodeRows(mail).value) else ErrorResponse(),
             if taken then db.(messages := Without(db.messages, Ids(mail))) else db)
  {
    hide RunAlone, ErrorResponse, Reply, EncodeRows, Waiting, Without, FromLe;
    RunStep(data, GetWaiting, db, env, 2);
    var (pc, after) := Step(data, GetWaiting, db, env(2));
    if pc.DeleteMessages? {
      RunStep(data, pc, db, env, 3);
      var (pc', after') := Step(data, pc, db, env(3));
      RunEnds(data, pc'.response, after', env, 4);
    } else {
      RunEnds(data, pc.response, after, env, 3);
    }
  }

  // ---- What each request is answered ----

  /** A registration: exactly when the statement does not fail and the id drawn and the name are
      both new, the client is added as sent and its id returned; otherwise nothing happens. */
  lemma RegistrationServed(data: Bytes, db: Tables, env: nat -> Env)
    requires Begin(data) == AddClient
    ensures var (r, db') := Run(data, db, env);
            var granted := !env(0).fails && !HasId(db.clients, env(0).token) && !HasName(db.clients, RegisteredName(data));
            && (granted <==> RegistrationGranted(data, db, env))
            && (granted <==> Succeeds(r, 2100))
            && (granted ==>
                  && ResponsePayload(r) == env(0).token
                  && db'.clients == db.clients + [ClientRow(env(0).token, UpTo(data[23..278], 0), data[278..438])]
                  && db'.lastSeen == db.lastSeen[env(0).token := env(0).now]
                  && db'.messages == db.messages && db'.nextId == db.nextId)
            && (!granted ==> r == ErrorResponse() && db' == db)
  {
    FieldBytes(data);
    AsksBytes(data, 700);
    hide RunAlone, Code, FromLe, ErrorResponse, ResponseCode, ResponsePayload, Reply, HasId, HasName, BeforeNul, RegisteredName, RegisteredKey;
    assert RegisteredName(data) == UpTo(data[23..278], 0) && Ascii(RegisteredName(data)) && RegisteredName(data) != [];
    RunStep(data, AddClient, db, env, 0);
    var (pc, after) := Step(data, AddClient, db, env(0));
    RunEnds(data, pc.response, after, env, 1);
    ReplyWellFormed(RESPONSE_REGISTER, env(0).token);
    ErrorWellFormed();
  }

  /** A list request of a registered client: exactly when no statement fails and the list can be
      measured, an exact list is returned; nothing but LastSeen changes. */
  lemma ListServed(data: Bytes, db: Tables, env: nat -> Env)
    requires Acceptable(data) && Code(data) == 701 && |data| == 23
    ensures var (r, db') := Run(data, db, env);
            && SameData(db, db')
            && db'.lastSeen == (if Known(data, db, env) then db.lastSeen[data[..16] := env(1).now] else db.lastSeen)
            && (ListGranted(data, db, env) <==> Succeeds(r, 2101))
            && (ListGranted(data, db, env) && Distinct(db.clients) ==>
                  var listed := DecodeClients(ResponsePayload(r));
                  listed.Some? && ExactList(db.clients, data[..16], listed.value))
            && (!ListGranted(data, db, env) ==> r == ErrorResponse())
  {
    FieldBytes(data);
    AsksBytes(data, 701);
    Checked(data, db, env);
    ErrorWellFormed();
    assert Run(data, db, env) == RunAlone(data, Begin(data), db, env, 0) && Dispatch(data) == ListClients && Ready(data, ListClients);
    hide RunAlone, Run, Step, Begin, Dispatch, Ready, Code, FromLe, Le, Framed, ResponseCode, ResponsePayload, ErrorResponse, Reply,
      HasId, EncodeClients, OtherClients, DecodeClients, ExactList, Distinct;
    if Known(data, db, env) {
      var seen := Touched(db, Requester(data), env(1).now);
      ListEnds(data, seen, env);
      ListBytes(OtherClients(db.clients, Requester(data)));
      ReplyWellFormed(RESPONSE_CLIENT_LIST, EncodeClients(OtherClients(db.clients, Requester(data))));
      if Distinct(db.clients) {
        ListIsExact(db.clients, Requester(data));
      }
    }
  }

  /** A key request: exactly when no statement fails and the target is registered with a key of
      160 bytes, that id and that key are returned. */
  lemma KeyServed(data: Bytes, db: Tables, env: nat -> Env)
    requires Acceptable(data) && Code(data) == 702 && |data| == 39
    ensures var (r, db') := Run(data, db, env);
            && SameData(db, db')
            && db'.lastSeen == (if Known(data, db, env) then db.lastSeen[data[..16] := env(1).now] else db.lastSeen)
            && (KeyGranted(data, db, env) <==> Succeeds(r, 2102))
            && (KeyGranted(data, db, env) ==>
                  exists c :: c in db.clients && c.id == data[23..39] && ResponsePayload(r) == c.id + c.key)
            && (!KeyGranted(data, db, env) ==> r == ErrorResponse())
  {
    FieldBytes(data);
    AsksBytes(data, 702);
    Checked(data, db, env);
    ErrorWellFormed();
    assert Run(data, db, env) == RunAlone(data, Begin(data), db, env, 0) && Dispatch(data) == GetPublicKey && Ready(data, GetPublicKey);
    hide RunAlone, Run, Step, Begin, Dispatch, Ready, Code, FromLe, Le, Framed, ResponseCode, ResponsePayload, ErrorResponse, Reply,
      HasId, PublicKey;
    if Known(data, db, env) {
      var seen := Touched(db, Requester(data), env(1).now);
      KeyEnds(data, seen, env);
      var key := PublicKey(db.clients, Target(data));
      if key.Some? {
        ReplyWellFormed(RESPONSE_PUBLIC_KEY, Target(data) + key.value);
      }
    }
  }

  /** A send: exactly when no statement fails, the target is registered and type and size are
      right, the row is stored as sent; it is acknowledged exactly if its id fits too. */
  lemma SendServedExactly(data: Bytes, db: Tables, env: nat -> Env)
    requires Acceptable(data) && Code(data) == 703 && |data| >= 44
    ensures var (r, db') := Run(data, db, env);
            && db'.clients == db.clients
            && db'.lastSeen == (if Known(data, db, env) then db.lastSeen[data[..16] := env(1).now] else db.lastSeen)
            && db'.messages == db.messages
                 + (if SendStored(data, db, env)
                    then [MessageRow(db.nextId, data[23..39], data[..16], data[39], data[44..])] else [])
            && db'.nextId == db.nextId + (if SendStored(data, db, env) then 1 else 0)
            && (SendGranted(data, db, env) <==> Succeeds(r, 2103))
            && (SendGranted(data, db, env) ==>
                  |ResponsePayload(r)| == 20 && ResponsePayload(r)[..16] == data[23..39]
                  && Four(ResponsePayload(r), 16) == db.nextId)
            && (!SendGranted(data, db, env) ==> r == ErrorResponse())
  {
    FieldBytes(data);
    AsksBytes(data, 703);
    Checked(data, db, env);
    ErrorWellFormed();
    assert Run(data, db, env) == RunAlone(data, Begin(data), db, env, 0) && Dispatch(data) == TargetExists && Ready(data, TargetExists);
    hide RunAlone, Run, Step, Begin, Dispatch, Ready, Code, FromLe, Le, Framed, ResponseCode, ResponsePayload, ErrorResponse, Reply,
      HasId, Four;
    if Known(data, db, env) {
      var seen := Touched(db, Requester(data), env(1).now);
      SendEnds(data, seen, env);
      AcknowledgementBytes(Target(data), db.nextId);
    }
  }

  lemma AcknowledgementBytes(target: Id, id: nat)
    ensures var payload := target + Le(id, 4);
            && WellFormedResponse(Reply(RESPONSE_MESSAGE_SENT, payload))
            && ResponseCode(Reply(RESPONSE_MESSAGE_SENT, payload)) == 2103
            && ResponsePayload(Reply(RESPONSE_MESSAGE_SENT, payload)) == payload
            && |payload| == 20 && payload[..16] == target && (id < 0x1_0000_0000 ==> Four(payload, 16) == id)
  {
    var payload := target + Le(id, 4);
    ReplyWellFormed(RESPONSE_MESSAGE_SENT, payload);
    FromFour(payload, 16);
    assert payload[16..20] == Le(id, 4);
    Le4RoundTrip(id);
  }

  /** A pull: exactly when no statement fails and its rows can be encoded, they are deleted; they
      are returned exactly if their encoding can be measured. */
  lemma PullServedExactly(data: Bytes, db: Tables, env: nat -> Env)
    requires Acceptable(data) && Code(data) == 704 && |data| == 23
    ensures var (r, db') := Run(data, db, env);
            var mail := Waiting(db.messages, data[..16]);
            && db'.clients == db.clients && db'.nextId == db.nextId
            && db'.lastSeen == (if Known(data, db, env) then db.lastSeen[data[..16] := env(1).now] else db.lastSeen)
            && db'.messages == (if PullTaken(data, db, env) then Without(db.messages, Ids(mail)) else db.messages)
            && (PullGranted(data, db, env) <==> Succeeds(r, 2104))
            && (PullGranted(data, db, env) ==> DecodeRows(data[..16], ResponsePayload(r)) == Some(mail))
            && (!PullGranted(data, db, env) ==> r == ErrorResponse())
  {
    FieldBytes(data);
    AsksBytes(data, 704);
    Checked(data, db, env);
    ErrorWellFormed();
    assert Run(data, db, env) == RunAlone(data, Begin(data), db, env, 0) && Dispatch(data) == GetWaiting && Ready(data, GetWaiting);
    hide RunAlone, Run, Step, Begin, Dispatch, Ready, Code, FromLe, Le, Framed, ResponseCode, ResponsePayload, ErrorResponse, Reply,
      HasId, Waiting, EncodeRows, DecodeRows, Without;
    if Known(data, db, env) {
      var seen := Touched(db, Requester(data), env(1).now);
      PullEnds(data, seen, env);
      var mail := Waiting(db.messages, Requester(data));
      WaitingMembers(db.messages, Requester(data));
      DecodeEncoded(mail, Requester(data));
      if EncodeRows(mail).Some? {
        ReplyWellFormed(RESPONSE_WAITING_MESSAGES, EncodeRows(mail).value);
      }
    }
  }

  /** A request that no handler looks into: its code or its length is none of the five. */
  lemma NothingServed(data: Bytes, db: Tables, env: nat -> Env)
    requires Begin(data).Finished? || (Acceptable(data) && Code(data) != 700 && Dispatch(data).Finished?)
    ensures var (r, db') := Run(data, db, env);
            r == ErrorResponse() && SameData(db, db')
            && (Acceptable(data) && Code(data) != 700 ==>
                  db'.lastSeen == if Known(data, db, env) then db.lastSeen[data[..16] := env(1).now] else db.lastSeen)
  {
    if Begin(data).Finished? {
      RunEnds(data, ErrorResponse(), db, env, 0);
    } else {
      Checked(data, db, env);
      if Known(data, db, env) {
        RunEnds(data, ErrorResponse(), Touched(db, Requester(data), env(1).now), env, 2);
      }
    }
  }

  predicate AnsweredAs(data: Bytes, db: Tables, env: nat -> Env, r: Bytes) {
    && (Succeeds(r, 2100) <==> RegistrationGranted(data, db, env))
    && (Succeeds(r, 2101) <==> ListGranted(data, db, env))
    && (Succeeds(r, 2102) <==> KeyGranted(data, db, env))
    && (Succeeds(r, 2103) <==> SendGranted(data, db, env))
    && (Succeeds(r, 2104) <==> PullGranted(data, db, env))
    && (Succeeds(r, 9000) <==> r == [2, 0x28, 0x23, 0, 0, 0, 0])
    && (Succeeds(r, 2100) || Succeeds(r, 2101) || Succeeds(r, 2102) || Succeeds(r, 2103) || Succeeds(r, 2104)
        || Succeeds(r, 9000))
  }

  lemma GrantedAsks(data: Bytes, db: Tables, env: nat -> Env)
    ensures RegistrationGranted(data, db, env) ==> Begin(data) == AddClient
    ensures ListGranted(data, db, env) ==> Acceptable(data) && Code(data) == 701 && |data| == 23
    ensures KeyGranted(data, db, env) ==> Acceptable(data) && Code(data) == 702 && |data| == 39
    ensures SendGranted(data, db, env) ==> Acceptable(data) && Code(data) == 703 && |data| >= 44
    ensures PullGranted(data, db, env) ==> Acceptable(data) && Code(data) == 704 && |data| == 23
  {
    AsksBytes(data, 700);
    AsksBytes(data, 701);
    AsksBytes(data, 702);
    AsksBytes(data, 703);
    AsksBytes(data, 704);
    if |data| >= 23 {
      FieldBytes(data);
    }
    hide Asks, Known, FromLe, HasId, HasName, EncodeRows, Waiting, OtherClients, PublicKey;
  }

  /** For every byte string, all tables and all failures: each success code is given exactly under
      its condition, and everything else is answered by the seven bytes of a general error. */
  lemma AnsweredExactly(data: Bytes, db: Tables, env: nat -> Env)
    ensures AnsweredAs(data, db, env, Run(data, db, env).0)
  {
    ErrorWellFormed();
    ErrorBytes();
    GrantedAsks(data, db, env);
    hide Run, Code, ErrorResponse, ResponseCode, ResponsePayload, RegistrationGranted, ListGranted, KeyGranted, SendGranted, PullGranted,
      SendStored, PullTaken, Known, HasId, HasName, RegisteredName, Framed;
    if Begin(data) == AddClient {
      RegistrationServed(data, db, env);
    } else if Begin(data).Finished? || Dispatch(data).Finished? {
      NothingServed(data, db, env);
    } else if Code(data) == 701 {
      ListServed(data, db, env);
    } else if Code(data) == 702 {
      KeyServed(data, db, env);
    } else if Code(data) == 703 {
      SendServedExactly(data, db, env);
    } else {
      PullServedExactly(data, db, env);
    }
  }

  // ---- What the client's own requests come to ----

  /** A client with a valid name without NUL is registered under that name, its key and the id it
      is given, exactly when nothing fails and both id and name are new. */
  lemma ClientRegisters(id: Id, name: Bytes, key: ClientCache.PublicKey, db: Tables, env: nat -> Env)
    requires ValidUsername(name) && 0 !in name
    ensures var (r, db') := Run(RegisterRequest(id, name, key), db, env);
            var granted := !env(0).fails && !HasId(db.clients, env(0).token) && !HasName(db.clients, name);
            && (granted <==> Succeeds(r, 2100))
            && (granted ==> ResponsePayload(r) == env(0).token
                            && db'.clients == db.clients + [ClientRow(env(0).token, name, key)])
            && (!granted ==> db' == db)
  {
    var data := RegisterRequest(id, name, key);
    RegistrationAgrees(id, name, key);
    FieldBytes(data);
    hide Run, RegisterRequest, HasId, HasName, ResponseCode, ResponsePayload, RegisteredName, RegisteredKey, Code, Begin;
    RegistrationServed(data, db, env);
  }

  /** A registered client that asks for the list gets an exact one, exactly when nothing fails and
      fewer than 2^32 bytes are needed for it. */
  lemma ClientGetsList(id: Id, db: Tables, env: nat -> Env)
    requires HasId(db.clients, id) && Distinct(db.clients)
    ensures var (r, db') := Run(Request(id, CLIENT_VERSION, REQUEST_CLIENTS_LIST, []), db, env);
            var granted := !env(0).fails && !env(1).fails && !env(2).fails
                           && 271 * |OtherClients(db.clients, id)| < 0x1_0000_0000;
            && SameData(db, db')
            && (granted <==> Succeeds(r, 2101))
            && (granted ==> var listed := DecodeClients(ResponsePayload(r));
                            listed.Some? && ExactList(db.clients, id, listed.value))
  {
    var data := Request(id, CLIENT_VERSION, REQUEST_CLIENTS_LIST, []);
    RequestFields(id, CLIENT_VERSION, REQUEST_CLIENTS_LIST, []);
    FieldBytes(data);
    AsksBytes(data, 701);
    hide Run, Request, HasId, ResponseCode, ResponsePayload, Code, Distinct, ExactList, DecodeClients, OtherClients, Asks;
    ListServed(data, db, env);
  }

  // ---- The same for a thread among others ----

  /** A thread about to register its client, whatever other threads have done since it started. */
  lemma RegistrationStep(s: System, t: nat, env: Env)
    requires Enabled(s, Execute(t, env)) && s.threads[t].pc == AddClient
    ensures var data, s' := s.threads[t].data, Do(s, Execute(t, env));
            var granted := !env.fails && !HasId(s.db.clients, env.token) && !HasName(s.db.clients, RegisteredName(data));
            && s'.threads[t].pc.Finished?
            && var r := s'.threads[t].pc.response;
               && (granted <==> Succeeds(r, 2100))
               && (granted ==> ResponsePayload(r) == env.token
                               && s'.db.clients == s.db.clients + [ClientRow(env.token, RegisteredName(data), RegisteredKey(data))])
               && (!granted ==> r == ErrorResponse() && s'.db == s.db)
  {
    hide ErrorResponse, ResponseCode, ResponsePayload, Reply, HasId, HasName, RegisteredName, RegisteredKey, FromLe;
    ReplyWellFormed(RESPONSE_REGISTER, env.token);
    ErrorWellFormed();
  }

  /** A thread about to list the clients answers with those registered at that moment. */
  lemma ListStep(s: System, t: nat, env: Env)
    requires Safe(s) && Enabled(s, Execute(t, env)) && s.threads[t].pc == ListClients
    ensures var me, s' := Requester(s.threads[t].data), Do(s, Execute(t, env));
            var granted := !env.fails && 271 * |OtherClients(s.db.clients, me)| < 0x1_0000_0000;
            && s'.threads[t].pc.Finished? && s'.db == s.db
            && var r := s'.threads[t].pc.response;
               && (granted <==> Succeeds(r, 2101))
               && (granted ==> var listed := DecodeClients(ResponsePayload(r));
                               listed.Some? && ExactList(s.db.clients, me, listed.value))
               && (!granted ==> r == ErrorResponse())
  {
    assert Distinct(s.db.clients);
    hide Safe, Distinct, ErrorResponse, ResponseCode, ResponsePayload, Reply, HasId, FromLe, ExactList, EncodeClients, OtherClients;
    var me := Requester(s.threads[t].data);
    ListBytes(OtherClients(s.db.clients, me));
    ReplyWellFormed(RESPONSE_CLIENT_LIST, EncodeClients(OtherClients(s.db.clients, me)));
    ErrorWellFormed();
    ListIsExact(s.db.clients, me);
  }
}
