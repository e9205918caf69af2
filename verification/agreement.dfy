/** Client and server agree: every buffer that a client action builds passes the server's
    checks, and the server decodes what the client encoded. */
module Agreement {
  import opened ByteStrings
  import opened Protocol
  import opened DatabaseModel
  import opened Records
  import opened Handler
  import opened Mailbox
  import opened Effects
  import opened ClientCache
  import opened ClientActions

  /** A registration is accepted for storage under the client's own name and key, exactly when
      the name has no NUL; otherwise the server keeps the part before it. */
  lemma RegistrationAgrees(id: Id, name: Bytes, key: PublicKey)
    requires ValidUsername(name)
    ensures var data := RegisterRequest(id, name, key);
            && Acceptable(data) && Code(data) == REQUEST_REGISTER && |data| == REGISTER_SIZE
            && RegisteredKey(data) == key
            && (RegisteredName(data) == name <==> 0 !in name)
            && (0 !in name ==> Begin(data) == AddClient)
            && (Begin(data) == AddClient <==> name[0] != 0)
  {
    var field := PadTo(name, NAME_SIZE);
    var data := RegisterRequest(id, name, key);
    RequestFields(id, CLIENT_VERSION, REQUEST_REGISTER, field + key);
    assert data[REQUEST_HEADER..] == field + key;
    assert data[REQUEST_HEADER..REQUEST_HEADER + NAME_SIZE] == field;
    assert data[REQUEST_HEADER + NAME_SIZE..] == key;
    BeforeNulOfPadded(name, seq(NAME_SIZE - |name|, _ => 0));
    assert forall c :: c in RegisteredName(data) ==> c in name;
  }

  /** The three requests without a message reach their handlers' statements. */
  lemma PlainRequestsAgree(id: Id, target: Id)
    ensures var data := Request(id, CLIENT_VERSION, REQUEST_CLIENTS_LIST, []);
            Acceptable(data) && Requester(data) == id && Begin(data) == RequesterExists && Dispatch(data) == ListClients
    ensures var data := Request(id, CLIENT_VERSION, REQUEST_WAITING_MESSAGES, []);
            Acceptable(data) && Requester(data) == id && Begin(data) == RequesterExists && Dispatch(data) == GetWaiting
    ensures var data := Request(id, CLIENT_VERSION, REQUEST_PUBLIC_KEY, target);
            Acceptable(data) && Requester(data) == id && Begin(data) == RequesterExists && Dispatch(data) == GetPublicKey
            && Target(data) == target
  {
    RequestFields(id, CLIENT_VERSION, REQUEST_CLIENTS_LIST, []);
    RequestFields(id, CLIENT_VERSION, REQUEST_WAITING_MESSAGES, []);
    RequestFields(id, CLIENT_VERSION, REQUEST_PUBLIC_KEY, target);
  }

  /** A message is accepted, with the same sender, target, type and content, if and only if its
      content is below 2^32 - 21 bytes. */
  lemma SendAgrees(id: Id, target: Id, kind: byte, content: Bytes)
    requires kind in {KEY_REQUEST, KEY_SEND, TEXT_MESSAGE} && (kind == KEY_REQUEST ==> content == [])
    ensures var data := SendRequest(id, target, kind, content);
            && (Acceptable(data) <==> |content| < TWO_32 - 21)
            && (Acceptable(data) ==>
                  && Begin(data) == RequesterExists && Dispatch(data) == TargetExists && ValidMessage(data)
                  && Requester(data) == id && Target(data) == target && Kind(data) == kind && Content(data) == content)
  {
    var payload := target + [kind] + Le(|content|, 4) + content;
    var data := SendRequest(id, target, kind, content);
    RequestFields(id, CLIENT_VERSION, REQUEST_SEND_MESSAGE, payload);
    Le4RoundTrip(|content|);
    assert data[REQUEST_HEADER..] == payload;
    assert data[40..44] == payload[17..21] == Le(|content|, 4);
    assert data[23..39] == target && data[39] == kind && data[44..] == content;
  }

  /** What a client action sends to a registered friend is stored for that friend as it was built:
      as type 1 without content exactly for a key request, as type 2 exactly for a key, wrapped for
      the friend's public key, and as type 3 exactly for a text, under a symmetric key that the
      client's cache held. */
  lemma SentIsStored(id: Id, cache: Cache, target: Id, send: Send, crypto: Crypto, db: Tables, env: nat -> Env)
    requires var content := ContentOf(send, cache, target, crypto);
             content.Ok? && (send.AskForKey? || content.value != []) && |content.value| < TWO_32 - 21
    requires HasId(db.clients, id) && HasId(db.clients, target) && db.nextId < TWO_32
    requires forall k :: !env(k).fails
    ensures var content := ContentOf(send, cache, target, crypto).value;
            var data := SendRequest(id, target, KindOf(send), content);
            var (r, db') := RunAlone(data, Begin(data), db, env, 0);
            && Succeeds(r, RESPONSE_MESSAGE_SENT)
            && |db'.messages| == |db.messages| + 1
            && var m := db'.messages[|db.messages|];
               && db'.messages == db.messages + [m]
               && m.id == db.nextId && m.to == target && m.from == id && m.content == content
               && (send.AskForKey? <==> m.kind == 1) && (send.AskForKey? ==> m.content == [])
               && (send.SendKey? <==> m.kind == 2)
               && (send.SendKey? ==>
                     HasPublicKey(cache, target)
                     && crypto.rsa(cache[target].publicKey.value, send.newKey, send.seed) == Some(m.content))
               && (send.Text? <==> m.kind == 3)
               && (send.Text? ==>
                     HasSymmetricKey(cache, target)
                     && m.content == crypto.aes(cache[target].symmetricKey.value, Clipped(Typed(send.lines))))
  {
    var content := ContentOf(send, cache, target, crypto).value;
    var data := SendRequest(id, target, KindOf(send), content);
    SendAgrees(id, target, KindOf(send), content);
    SendServed(data, db, env);
    ResponseFields(RESPONSE_MESSAGE_SENT, target + Le(db.nextId, 4));
  }

  /** A valid name comes back to every client's list as it was typed, exactly when it has no
      NUL: padded by the client, cut by the server, stored, padded again and read. */
  lemma NameRoundTrip(id: Id, name: Bytes, key: PublicKey)
    requires ValidUsername(name)
    ensures BeforeNul(NameField(RegisteredName(RegisterRequest(id, name, key)))) == name <==> 0 !in name
  {
    RegistrationAgrees(id, name, key);
    NameSurvivesListing(name);
    var stored := RegisteredName(RegisterRequest(id, name, key));
    if 0 in name {
      assert 0 !in BeforeNul(NameField(stored));
    }
  }

  lemma {:induction false} OtherClientsDistinct(clients: seq<ClientRow>, me: Id)
    requires Distinct(clients)
    ensures Distinct(OtherClients(clients, me))
  {
    if clients != [] {
      var rest := clients[1..];
      assert forall i :: 0 <= i < |rest| ==> rest[i] == clients[i + 1];
      OtherClientsDistinct(rest, me);
      forall c | c in OtherClients(rest, me) ensures c.id != clients[0].id && c.name != clients[0].name {
        var i :| 0 <= i < |rest| && rest[i] == c;
        assert clients[i + 1] == c;
      }
    }
  }

  /** Every registered client but `me`, each exactly once, and each under its own name whenever
      that name fits a listing. */
  ghost predicate ExactList(clients: seq<ClientRow>, me: Id, listed: seq<Entry>) {
    && (forall i, j :: 0 <= i < j < |listed| ==> listed[i].id != listed[j].id)
    && (forall e :: e in listed ==> e.id != me && HasId(clients, e.id))
    && (forall c :: c in clients && c.id != me ==>
          exists e :: e in listed && e.id == c.id
                      && (e.name == c.name <==> 0 !in c.name && |c.name| <= NAME_SIZE - 1))
  }

  /** The list that a client decodes is exact. */
  lemma ListIsExact(clients: seq<ClientRow>, me: Id)
    requires Distinct(clients)
    ensures var listed := DecodeClients(EncodeClients(OtherClients(clients, me)));
            listed.Some? && ExactList(clients, me, listed.value)
  {
    hide OtherClients, EncodeClients, DecodeClients, NameField, BeforeNul;
    var others := OtherClients(clients, me);
    DecodeEncodedClients(others);
    OtherClientsDistinct(clients, me);
    var listed := Listed(others);
    forall e | e in listed ensures e.id != me && HasId(clients, e.id) {
      var i :| 0 <= i < |listed| && listed[i] == e;
      assert others[i] in others;
    }
    forall c | c in clients && c.id != me
      ensures exists e :: e in listed && e.id == c.id
                          && (e.name == c.name <==> 0 !in c.name && |c.name| <= NAME_SIZE - 1)
    {
      var i :| 0 <= i < |others| && others[i] == c;
      NameSurvivesListing(c.name);
      assert listed[i] in listed;
    }
  }
}
