/** Registration over whole runs: ids and names are given once and for good, and a key lookup
    returns what was registered. */
module Registration {
  import opened ByteStrings
  import opened Protocol
  import opened DatabaseModel
  import opened Records
  import opened Handler
  import opened Mailbox
  import opened Delivery

  /** Where an answered request is to be found: returned, or finished in its thread. */
  datatype Slot = Logged(i: nat) | Held(t: nat)

  predicate At(s: System, a: Slot) {
    match a
    case Logged(i) => i < |s.log|
    case Held(t) => t in s.threads && s.threads[t].pc.Finished?
  }

  function Answer(s: System, a: Slot): Exchange
    requires At(s, a)
  {
    match a
    case Logged(i) => s.log[i]
    case Held(t) => Exchange(s.threads[t].data, s.threads[t].pc.response)
  }

  predicate Registers(x: Exchange) {
    Succeeds(x.response, RESPONSE_REGISTER) && |x.request| == REGISTER_SIZE
  }

  predicate LooksUp(x: Exchange, id: Bytes) {
    Succeeds(x.response, RESPONSE_PUBLIC_KEY) && |x.request| == REQUEST_HEADER + ID_SIZE && Target(x.request) == id
  }

  function NewId(x: Exchange): Bytes
    requires Registers(x)
  {
    ResponsePayload(x.response)
  }

  lemma AnswerJustified(s: System, a: Slot)
    requires Safe(s) && At(s, a)
    ensures Justified(s.db.clients, s.accepted, Answer(s, a).request, Answer(s, a).response)
  {
    match a
    case Logged(i) => assert s.log[i] in s.log;
    case Held(t) => assert ThreadOk(s.db.clients, s.accepted, s.threads[t]);
  }

  /** Two answers that are not both the registration of one name, or of one id. */
  predicate Differ(x: Exchange, y: Exchange) {
    Registers(x) && Registers(y) ==> RegisteredName(x.request) != RegisteredName(y.request) && NewId(x) != NewId(y)
  }

  ghost predicate NoRepeats(s: System) {
    forall a, b :: At(s, a) && At(s, b) && a != b ==> Differ(Answer(s, a), Answer(s, b))
  }

  /** Where an answer of the next state was before, if the step did not produce it. */
  function Origin(s: System, a: Action, slot: Slot): Slot {
    if a.Return? && slot == Logged(|s.log|) then Held(a.t) else slot
  }

  lemma AnswerOrigin(s: System, a: Action, slot: Slot)
    requires Enabled(s, a) && At(Do(s, a), slot)
    requires slot != Held(a.t)
    ensures At(s, Origin(s, a, slot)) && Answer(s, Origin(s, a, slot)) == Answer(Do(s, a), slot)
  {
  }

  /** A registration that has just succeeded took an id and a name that no earlier one has. */
  lemma FreshRegistration(s: System, t: nat, env: Env, b: Slot)
    requires Safe(s) && Enabled(s, Execute(t, env)) && At(s, b)
    requires At(Do(s, Execute(t, env)), Held(t))
    ensures Differ(Answer(Do(s, Execute(t, env)), Held(t)), Answer(s, b))
  {
    hide WellFormedResponse, ResponseCode, ResponsePayload, Reply, Response, EncodeRows, EncodeClients, OtherClients, Waiting,
      Without, Le, FromLe, BeforeNul, ValidRows, InPull, HasRows, HasListing, HasMessage, HasKey;
    var th := s.threads[t];
    StepResponse(th.data, th.pc, s.db, env);
    AnswerJustified(s, b);
    ErrorWellFormed();
    var y := Answer(s, b);
    if Registers(y) {
      assert ClientRow(NewId(y), RegisteredName(y.request), RegisteredKey(y.request)) in s.db.clients;
    }
  }

  lemma NewAnswerDiffers(s: System, a: Action, b: Slot)
    requires Safe(s) && Enabled(s, a) && At(Do(s, a), Held(a.t)) && At(Do(s, a), b) && b != Held(a.t)
    ensures Differ(Answer(Do(s, a), Held(a.t)), Answer(Do(s, a), b))
  {
    hide WellFormedResponse, ResponseCode, ResponsePayload, Reply, Response, EncodeRows, EncodeClients, OtherClients, Waiting,
      Without, Le, FromLe, BeforeNul, ValidRows, InPull, HasRows, HasListing, HasMessage, HasKey;
    AnswerOrigin(s, a, b);
    match a
    case Arrive(t, data) => ErrorWellFormed();
    case Execute(t, env) => FreshRegistration(s, t, env, b);
  }

  lemma DoKeepsNoRepeats(s: System, a: Action)
    requires Safe(s) && Enabled(s, a) && NoRepeats(s)
    ensures NoRepeats(Do(s, a))
  {
    var s' := Do(s, a);
    forall x, y | At(s', x) && At(s', y) && x != y ensures Differ(Answer(s', x), Answer(s', y)) {
      if x == Held(a.t) {
        NewAnswerDiffers(s, a, y);
      } else if y == Held(a.t) {
        NewAnswerDiffers(s, a, x);
      } else {
        AnswerOrigin(s, a, x);
        AnswerOrigin(s, a, y);
        assert Origin(s, a, x) != Origin(s, a, y);
      }
    }
  }

  lemma NextKeepsNoRepeats(s: System, s': System)
    requires Safe(s) && Next(s, s') && NoRepeats(s)
    ensures NoRepeats(s')
  {
    hide Safe, Do, NoRepeats;
    var a :| Enabled(s, a) && s' == Do(s, a);
    DoKeepsNoRepeats(s, a);
  }

  lemma {:induction false} ReachableNoRepeats(run: seq<System>)
    requires IsRun(run)
    ensures forall i :: 0 <= i < |run| ==> NoRepeats(run[i])
  {
    hide Next;
    if |run| > 1 {
      hide NoRepeats, IsRun, Safe;
      var before, n := run[..|run| - 1], |run| - 2;
      RunPrefix(run);
      ReachableNoRepeats(before);
      assert before[n] == run[n];
      assert Safe(run[n]) by {
        ReachableSafe(run);
      }
      NextKeepsNoRepeats(run[n], run[n + 1]);
      assert forall i :: 0 <= i < |before| ==> before[i] == run[i];
    }
  }

  /** Over every run, racing registrations included: no two successful registrations share a
      name or an id, and every successful lookup of a registered id, by anyone, returns the
      key it was registered with. */
  lemma RegistrationIsInjective(run: seq<System>, i: nat, a: Slot, b: Slot)
    requires IsRun(run) && i < |run|
    requires At(run[i], a) && At(run[i], b) && Registers(Answer(run[i], a))
    ensures a != b && Registers(Answer(run[i], b)) ==>
              && RegisteredName(Answer(run[i], a).request) != RegisteredName(Answer(run[i], b).request)
              && NewId(Answer(run[i], a)) != NewId(Answer(run[i], b))
    ensures LooksUp(Answer(run[i], b), NewId(Answer(run[i], a))) ==>
              ResponsePayload(Answer(run[i], b).response)
              == NewId(Answer(run[i], a)) + RegisteredKey(Answer(run[i], a).request)
  {
    ReachableSafe(run);
    ReachableNoRepeats(run);
    var s := run[i];
    assert Safe(s) && NoRepeats(s);
    AnswerJustified(s, a);
    AnswerJustified(s, b);
    var x, y := Answer(s, a), Answer(s, b);
    if LooksUp(y, NewId(x)) {
      var row := ClientRow(NewId(x), RegisteredName(x.request), RegisteredKey(x.request));
      assert row in s.db.clients && HasKey(s.db.clients, y.request, ResponsePayload(y.response));
      var c :| c in s.db.clients && c.id == Target(y.request) && ResponsePayload(y.response) == c.id + c.key;
      OneRowPerId(s.db.clients, row, c);
    }
  }

  lemma OneRowPerId(clients: seq<ClientRow>, a: ClientRow, b: ClientRow)
    requires Distinct(clients) && a in clients && b in clients && a.id == b.id
    ensures a == b
  {
  }

  lemma NextGrows(s: System, s': System)
    requires Safe(s) && Next(s, s')
    ensures s.db.clients <= s'.db.clients && s.accepted <= s'.accepted
  {
    var a :| Enabled(s, a) && s' == Do(s, a);
    match a
    case Execute(t, env) => ExecuteConsistent(s, t, env);
    case _ =>
  }

  /** Client rows, and the history of inserted messages, are only ever added to. */
  lemma {:induction false} ClientsOnlyGrow(run: seq<System>, i: nat, j: nat)
    requires IsRun(run) && i <= j < |run|
    ensures run[i].db.clients <= run[j].db.clients && run[i].accepted <= run[j].accepted
    decreases j - i
  {
    hide Safe, Next;
    if i < j {
      ClientsOnlyGrow(run, i, j - 1);
      var n := j - 1;
      assert Safe(run[n]) by {
        ReachableSafe(run);
      }
      assert Next(run[n], run[n + 1]);
      NextGrows(run[n], run[n + 1]);
    }
  }

  /** The length check in `public_key_handler` never turns away a registered client: a lookup
      that does not fail in the database succeeds exactly when its target is registered. */
  lemma LookupSucceedsIffRegistered(s: System, t: nat, env: Env)
    requires Safe(s) && Enabled(s, Execute(t, env)) && s.threads[t].pc == GetPublicKey && !env.fails
    ensures var th := Do(s, Execute(t, env)).threads[t];
            && th.pc.Finished?
            && (Succeeds(th.pc.response, RESPONSE_PUBLIC_KEY) <==> HasId(s.db.clients, Target(th.data)))
  {
    var th := s.threads[t];
    ErrorWellFormed();
    if HasId(s.db.clients, Target(th.data)) {
      ReplyWellFormed(RESPONSE_PUBLIC_KEY, Target(th.data) + PublicKey(s.db.clients, Target(th.data)).value);
    }
  }
}
