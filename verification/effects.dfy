/** What one request may change, and the two arithmetic limits at which an error response no
    longer means that nothing happened. */
module Effects {
  import opened ByteStrings
  import opened Protocol
  import opened DatabaseModel
  import opened Records
  import opened Handler
  import opened Mailbox
  import opened Delivery

  /** Every byte string, against any tables and any failures, gets one well-formed response. */
  lemma {:induction false} EveryInputAnswered(data: Bytes, pc: Pc, db: Tables, env: nat -> Env, k: nat)
    requires Ready(data, pc) && (pc.Finished? ==> WellFormedResponse(pc.response))
    ensures WellFormedResponse(RunAlone(data, pc, db, env, k).0)
    decreases Rank(pc)
  {
    if !pc.Finished? {
      var (pc', db') := Step(data, pc, db, env(k));
      StepResponse(data, pc, db, env(k));
      EveryInputAnswered(data, pc', db', env, k + 1);
    }
  }

  lemma EveryRequestAnswered(data: Bytes, db: Tables, env: nat -> Env)
    ensures WellFormedResponse(RunAlone(data, Begin(data), db, env, 0).0)
  {
    ErrorWellFormed();
    EveryInputAnswered(data, Begin(data), db, env, 0);
  }

  /** A statement whose success cannot be reported: the id or the payload needs a fifth byte. */
  predicate Overflows(pc: Pc, db: Tables) {
    || (pc.AddMessage? && db.nextId >= TWO_32)
    || (pc.DeleteMessages? && |pc.payload| >= TWO_32)
  }

  /** Statement by statement, so under any interleaving: the data only changes together with
      the response that reports the change, unless the report overflows; and each success
      changes its own part of the tables and nothing else. */
  lemma StepEffect(data: Bytes, pc: Pc, db: Tables, e: Env)
    requires Ready(data, pc) && !pc.Finished?
    ensures var (pc', db') := Step(data, pc, db, e);
            && (!pc'.Finished? ==> SameData(db, db'))
            && (pc'.Finished? && !Overflows(pc, db) ==>
                  var code := ResponseCode(pc'.response);
                  && |pc'.response| >= RESPONSE_HEADER
                  && (code in {ERROR_GENERAL, RESPONSE_CLIENT_LIST, RESPONSE_PUBLIC_KEY} ==> SameData(db, db'))
                  && (code == RESPONSE_REGISTER ==>
                        |data| == REGISTER_SIZE && db'.messages == db.messages && db'.nextId == db.nextId
                        && db'.clients == db.clients + [ClientRow(e.token, RegisteredName(data), RegisteredKey(data))])
                  && (code == RESPONSE_MESSAGE_SENT ==>
                        |data| >= SEND_HEADER && db'.clients == db.clients && db'.nextId == db.nextId + 1
                        && db'.messages == db.messages
                             + [MessageRow(db.nextId, Target(data), Requester(data), Kind(data), Content(data))])
                  && (code == RESPONSE_WAITING_MESSAGES ==>
                        pc.DeleteMessages? && db'.clients == db.clients && db'.nextId == db.nextId
                        && db'.messages == Without(db.messages, pc.ids)))
  {
    hide ResponseCode, ResponsePayload, Reply, Response, EncodeRows, EncodeClients, OtherClients, Waiting, Without, Le, FromLe,
      BeforeNul, HasId, HasName;
    StepResponse(data, pc, db, e);
    ErrorWellFormed();
    match pc
    case AddClient => ReplyWellFormed(RESPONSE_REGISTER, e.token);
    case AddMessage => ReplyWellFormed(RESPONSE_MESSAGE_SENT, Target(data) + Le(db.nextId, 4));
    case DeleteMessages(ids, payload) => ReplyWellFormed(RESPONSE_WAITING_MESSAGES, payload);
    case _ =>
  }

  // ---- A request served on its own ----

  /** The limits as they can be checked on the tables before the request is served. */
  predicate OverLimit(data: Bytes, db: Tables) {
    && Acceptable(data)
    && ((Code(data) == REQUEST_SEND_MESSAGE && db.nextId >= TWO_32)
        || (Code(data) == REQUEST_WAITING_MESSAGES && EncodeRows(Waiting(db.messages, Requester(data))).Some?
            && |EncodeRows(Waiting(db.messages, Requester(data))).value| >= TWO_32))
  }

  /** The pull's payload was computed from these tables. */
  predicate Current(data: Bytes, pc: Pc, db: Tables) {
    Ready(data, pc) && (pc.DeleteMessages? ==> EncodeRows(Waiting(db.messages, Requester(data))) == Some(pc.payload))
  }

  lemma {:induction false} ErrorKeepsData(data: Bytes, pc: Pc, db: Tables, env: nat -> Env, k: nat)
    requires Current(data, pc, db) && !pc.Finished? && !OverLimit(data, db)
    ensures var (r, db') := RunAlone(data, pc, db, env, k);
            Succeeds(r, ERROR_GENERAL) ==> SameData(db, db')
    decreases Rank(pc)
  {
    var (pc', db') := Step(data, pc, db, env(k));
    StepEffect(data, pc, db, env(k));
    if !pc'.Finished? {
      ErrorKeepsData(data, pc', db', env, k + 1);
    }
  }

  /** Below the limits every error response leaves clients, messages and ids as they were. */
  lemma ErrorChangesNothing(data: Bytes, db: Tables, env: nat -> Env)
    requires !OverLimit(data, db)
    ensures var (r, db') := RunAlone(data, Begin(data), db, env, 0);
            Succeeds(r, ERROR_GENERAL) ==> SameData(db, db')
  {
    if !Begin(data).Finished? {
      ErrorKeepsData(data, Begin(data), db, env, 0);
    }
  }

  /** A send or a pull that passes every check: its sender is registered, and so is the target
      of a send. */
  predicate Serviceable(data: Bytes, db: Tables) {
    && Acceptable(data) && HasId(db.clients, Requester(data))
    && ((Code(data) == REQUEST_SEND_MESSAGE && |data| >= SEND_HEADER && ValidMessage(data)
         && HasId(db.clients, Target(data)) && db.nextId <= MAX_ROWID)
        || (Code(data) == REQUEST_WAITING_MESSAGES && |data| == REQUEST_HEADER
            && EncodeRows(Waiting(db.messages, Requester(data))).Some?))
  }

  lemma SendServed(data: Bytes, db: Tables, env: nat -> Env)
    requires Serviceable(data, db) && Code(data) == REQUEST_SEND_MESSAGE && forall k :: !env(k).fails
    ensures var (r, db') := RunAlone(data, Begin(data), db, env, 0);
            var m := MessageRow(db.nextId, Target(data), Requester(data), Kind(data), Content(data));
            && db'.messages == db.messages + [m] && db'.clients == db.clients
            && r == if m.id < TWO_32 then Response(RESPONSE_MESSAGE_SENT, m.to + Le(m.id, 4)) else ErrorResponse()
  {
  }

  lemma PullServed(data: Bytes, db: Tables, env: nat -> Env)
    requires Serviceable(data, db) && Code(data) == REQUEST_WAITING_MESSAGES && forall k :: !env(k).fails
    ensures var (r, db') := RunAlone(data, Begin(data), db, env, 0);
            var mail := Waiting(db.messages, Requester(data));
            && db'.messages == Without(db.messages, Ids(mail)) && db'.clients == db.clients
            && r == Reply(RESPONSE_WAITING_MESSAGES, EncodeRows(mail).value)
  {
  }

  /** On tables that a server can leave, such a pull takes all of the requester's rows and no
      other: its mailbox ends empty and every other one is as it was. */
  lemma PullTakesOwnMail(data: Bytes, db: Tables, env: nat -> Env, c: Id)
    requires Serviceable(data, db) && Code(data) == REQUEST_WAITING_MESSAGES && forall k :: !env(k).fails
    requires Consistent(db)
    ensures var (r, db') := RunAlone(data, Begin(data), db, env, 0);
            Waiting(db'.messages, c) == if c == Requester(data) then [] else Waiting(db.messages, c)
  {
    PullServed(data, db, env);
    OwnRowsOnly(db.messages, Requester(data), c);
  }

  lemma OwnRowsOnly(messages: seq<MessageRow>, me: Id, c: Id)
    requires Ascending(messages)
    ensures Waiting(Without(messages, Ids(Waiting(messages, me))), c) == if c == me then [] else Waiting(messages, c)
  {
    hide Waiting, Without;
    var mine, rows := Waiting(messages, me), Waiting(messages, c);
    if c == me {
      MailboxAfterDelete(messages, mine, me);
    } else {
      WaitingWithout(messages, Ids(mine), c);
      WaitingMembers(messages, me);
      WaitingMembers(messages, c);
      forall m | m in rows ensures m.id !in Ids(mine) {
        if m.id in Ids(mine) {
          var i :| 0 <= i < |mine| && mine[i].id == m.id;
          assert mine[i] in mine;
          SameIdSameRow(messages, mine[i], m);
        }
      }
      WithoutAbsent(rows, Ids(mine));
    }
  }

  /** Failure atomicity fails exactly at the limits: for a send or a pull that the server can
      serve, an error response hides a change if and only if the limit is exceeded. */
  lemma ErrorHidesChangeIffOverLimit(data: Bytes, db: Tables, env: nat -> Env)
    requires Serviceable(data, db) && forall k :: !env(k).fails
    ensures var (r, db') := RunAlone(data, Begin(data), db, env, 0);
            Succeeds(r, ERROR_GENERAL) && !SameData(db, db') <==> OverLimit(data, db)
  {
    ErrorWellFormed();
    if !OverLimit(data, db) {
      ErrorChangesNothing(data, db, env);
    } else if Code(data) == REQUEST_SEND_MESSAGE {
      SendServed(data, db, env);
    } else {
      PullServed(data, db, env);
      var mail := Waiting(db.messages, Requester(data));
      assert mail != [];
      WaitingMembers(db.messages, Requester(data));
      WithoutMembers(db.messages, Ids(mail));
      assert mail[0] in mail && Ids(mail)[0] == mail[0].id;
    }
  }

  // ---- A message beyond the limit stays for good ----

  lemma {:induction false} DecodedIdsFit(to: Id, p: Bytes)
    requires DecodeRows(to, p).Some?
    ensures forall m :: m in DecodeRows(to, p).value ==> m.id < TWO_32
    decreases |p|
  {
    if p != [] {
      DecodedIdsFit(to, p[ROW_HEADER + FromLe(p[21..25])..]);
      FromLe4(p[16..20]);
    }
  }

  lemma ExecuteKeepsOversizedId(s: System, t: nat, env: Env, m: MessageRow)
    requires Safe(s) && Enabled(s, Execute(t, env)) && m in s.db.messages && m.id >= TWO_32
    ensures m in Do(s, Execute(t, env)).db.messages
  {
    var th := s.threads[t];
    StepMessages(th.data, th.pc, s.db, env);
    if Deletes(th.pc, env) {
      assert ThreadOk(s.db.clients, s.accepted, th);
      WithoutMembers(s.db.messages, th.pc.ids);
      DecodedIdsFit(Requester(th.data), th.pc.payload);
      if m.id in th.pc.ids {
        DeletedWerePulled(s, th, m);
      }
    }
  }

  lemma NextKeepsOversizedId(s: System, s': System, m: MessageRow)
    requires Safe(s) && Next(s, s') && m in s.db.messages && m.id >= TWO_32
    ensures m in s'.db.messages
  {
    var a :| Enabled(s, a) && s' == Do(s, a);
    match a
    case Execute(t, env) => ExecuteKeepsOversizedId(s, t, env, m);
    case _ =>
  }

  /** Once stored, a message whose id needs a fifth byte is never deleted and blocks every
      later pull of its recipient, in any interleaving. */
  lemma {:induction false} OversizedIdIsStuck(run: seq<System>, i: nat, j: nat, m: MessageRow)
    requires IsRun(run) && i <= j < |run| && m in run[i].db.messages && m.id >= TWO_32
    ensures m in run[j].db.messages
    decreases j - i
  {
    hide Safe, Next;
    if i < j {
      OversizedIdIsStuck(run, i, j - 1, m);
      var n := j - 1;
      assert Safe(run[n]) by {
        ReachableSafe(run);
      }
      assert Next(run[n], run[n + 1]);
      NextKeepsOversizedId(run[n], run[n + 1], m);
    }
  }

  lemma OversizedIdBlocksPulls(s: System, t: nat, env: Env, m: MessageRow)
    requires Enabled(s, Execute(t, env)) && s.threads[t].pc == GetWaiting
    requires m in s.db.messages && m.to == Requester(s.threads[t].data) && m.id >= TWO_32
    ensures Do(s, Execute(t, env)).threads[t].pc == Finished(ErrorResponse())
    ensures Do(s, Execute(t, env)).db == s.db
  {
    WaitingMembers(s.db.messages, m.to);
    EncodableRows(Waiting(s.db.messages, m.to));
  }
}
