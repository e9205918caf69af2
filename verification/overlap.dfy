/** Why a client must not pull twice at once: two pulls that overlap deliver a mailbox twice, and
    a server can get there from its start. */
module Overlap {
  import opened ByteStrings
  import opened Protocol
  import opened DatabaseModel
  import opened Records
  import opened Handler
  import opened Mailbox
  import opened Delivery
  import opened Serial

  lemma SelectStep(s: System, t: nat, env: Env)
    requires t in s.threads && s.threads[t].pc == GetWaiting && !env.fails
    requires EncodeRows(Waiting(s.db.messages, Requester(s.threads[t].data))).Some?
    ensures var mail := Waiting(s.db.messages, Requester(s.threads[t].data));
            Do(s, Execute(t, env)) == s.(threads := s.threads[t :=
              Serving(s.threads[t].data, DeleteMessages(Ids(mail), EncodeRows(mail).value))])
  {
  }

  lemma DeleteStep(s: System, t: nat, env: Env)
    requires t in s.threads && s.threads[t].pc.DeleteMessages? && !env.fails
    requires |s.threads[t].pc.payload| < TWO_32
    ensures var s' := Do(s, Execute(t, env));
            && s'.log == s.log
            && s'.threads == s.threads[t := Serving(s.threads[t].data,
                 Finished(Response(RESPONSE_WAITING_MESSAGES, s.threads[t].pc.payload)))]
  {
  }

  lemma ReturnStep(s: System, t: nat, mail: seq<MessageRow>, payload: Bytes)
    requires t in s.threads && |s.threads[t].data| >= REQUEST_HEADER
    requires DecodeRows(Requester(s.threads[t].data), payload) == Some(mail) && |payload| < TWO_32
    requires s.threads[t].pc == Finished(Response(RESPONSE_WAITING_MESSAGES, payload))
    ensures var s', c := Do(s, Return(t)), Requester(s.threads[t].data);
            s'.threads == s.threads - {t} && Delivered(s'.log, c) == Delivered(s.log, c) + mail
  {
    var s' := Do(s, Return(t));
    assert s'.log[..|s'.log| - 1] == s.log;
    ResponseFields(RESPONSE_WAITING_MESSAGES, payload);
  }

  predicate AboutToRead(s: System, t: nat, c: Id) {
    t in s.threads && s.threads[t].pc == GetWaiting && Requester(s.threads[t].data) == c
  }

  predicate HasRead(s: System, t: nat, c: Id, r: Bytes) {
    t in s.threads && s.threads[t].pc == Finished(r)
    && |s.threads[t].data| >= REQUEST_HEADER && Requester(s.threads[t].data) == c
  }

  lemma BothRead(s: System, t: nat, u: nat, c: Id, env: Env, payload: Bytes) returns (path: seq<System>)
    requires t != u && AboutToRead(s, t, c) && AboutToRead(s, u, c) && !env.fails
    requires EncodeRows(Waiting(s.db.messages, c)) == Some(payload) && |payload| < TWO_32
    ensures path != [] && IsPath(path) && path[0] == s
    ensures var end := path[|path| - 1];
            && end.log == s.log
            && HasRead(end, t, c, Response(RESPONSE_WAITING_MESSAGES, payload))
            && HasRead(end, u, c, Response(RESPONSE_WAITING_MESSAGES, payload))
  {
    hide Step, Next, EncodeRows, Response, IsPath;
    SelectStep(s, t, env);
    var s1 := Do(s, Execute(t, env));
    SelectStep(s1, u, env);
    var s2 := Do(s1, Execute(u, env));
    DeleteStep(s2, t, env);
    var s3 := Do(s2, Execute(t, env));
    DeleteStep(s3, u, env);
    assert IsPath([s]) by {
      SinglePath(s);
    }
    PathSnoc([s], Execute(t, env));
    PathSnoc([s] + [s1], Execute(u, env));
    PathSnoc([s] + [s1] + [s2], Execute(t, env));
    PathSnoc([s] + [s1] + [s2] + [s3], Execute(u, env));
    path := [s] + [s1] + [s2] + [s3] + [Do(s3, Execute(u, env))];
  }

  lemma ReturnRead(path: seq<System>, t: nat, c: Id, mail: seq<MessageRow>, payload: Bytes) returns (longer: seq<System>)
    requires path != [] && IsPath(path) && |payload| < TWO_32 && DecodeRows(c, payload) == Some(mail)
    requires HasRead(path[|path| - 1], t, c, Response(RESPONSE_WAITING_MESSAGES, payload))
    ensures longer != [] && IsPath(longer) && longer[0] == path[0]
    ensures var s, end := path[|path| - 1], longer[|longer| - 1];
            Delivered(end.log, c) == Delivered(s.log, c) + mail && end.threads == s.threads - {t}
  {
    hide Step, Next, Response, IsPath, DecodeRows, Delivered;
    var s := path[|path| - 1];
    ReturnStep(s, t, mail, payload);
    PathSnoc(path, Return(t));
    longer := path + [Do(s, Return(t))];
  }

  /** Two overlapping pulls of one client do repeat its whole mailbox: from any state in which
      both are about to read it, some continuation delivers it twice. So the hypothesis of one
      pull at a time is needed. */
  lemma OverlappingPullsRepeat(s: System, t: nat, u: nat, c: Id)
    requires t != u && AboutToRead(s, t, c) && AboutToRead(s, u, c)
    requires EncodeRows(Waiting(s.db.messages, c)).Some? && |EncodeRows(Waiting(s.db.messages, c)).value| < TWO_32
    ensures exists path: seq<System> :: path != [] && IsPath(path) && path[0] == s
              && Delivered(path[|path| - 1].log, c)
                 == Delivered(s.log, c) + Waiting(s.db.messages, c) + Waiting(s.db.messages, c)
  {
    hide EncodeRows, Response, IsPath, DecodeRows, Delivered, Waiting, AboutToRead;
    var mail := Waiting(s.db.messages, c);
    var payload := EncodeRows(mail).value;
    WaitingMembers(s.db.messages, c);
    DecodeEncoded(mail, c);
    var path := BothRead(s, t, u, c, Env(false, 0, c), payload);
    var once := ReturnRead(path, t, c, mail, payload);
    var twice := ReturnRead(once, u, c, mail, payload);
    assert twice[0] == s;
  }

  // ---- From the start of a server ----

  function PullRequest(c: Id): Bytes {
    Request(c, CLIENT_VERSION, REQUEST_WAITING_MESSAGES, [])
  }

  lemma PullRequestAgrees(c: Id)
    ensures var data := PullRequest(c);
            && Acceptable(data) && Requester(data) == c
            && Begin(data) == RequesterExists && Dispatch(data) == GetWaiting
  {
    RequestFields(c, CLIENT_VERSION, REQUEST_WAITING_MESSAGES, []);
  }

  /** Connection `t` serves `data` and has got as far as `pc`. */
  function At(s: System, t: nat, data: Bytes, pc: Pc): System
    requires Ready(data, pc)
  {
    s.(threads := s.threads[t := Serving(data, pc)])
  }

  /** A statement that neither inserts nor deletes messages. */
  lemma ChecksOnly(s: System, t: nat, data: Bytes, pc: Pc, env: Env)
    requires Ready(data, pc) && !pc.Finished? && !pc.AddMessage? && !pc.DeleteMessages?
    ensures var (pc', db) := Step(data, pc, s.db, env);
            Do(At(s, t, data, pc), Execute(t, env)) == At(s.(db := db), t, data, pc')
  {
    hide Ready, Step;
    var s' := At(s, t, data, pc);
    var (pc', db) := Step(data, pc, s.db, env);
    assert Inserted(data, pc, s.db, env) == [] && s.accepted + [] == s.accepted;
    assert s'.threads[t := Serving(data, pc')] == s.threads[t := Serving(data, pc')];
  }

  /** The system after client `c`'s pull has passed the checks on connection `t`. */
  function Reading(s: System, t: nat, c: Id, now: nat): System {
    PullRequestAgrees(c);
    At(s.(db := Touched(s.db, c, now)), t, PullRequest(c), GetWaiting)
  }

  lemma PullSteps(c: Id, db: Tables, env: Env)
    requires HasId(db.clients, c) && !env.fails
    ensures Ready(PullRequest(c), RequesterExists) && Ready(PullRequest(c), UpdateLastSeen)
    ensures Step(PullRequest(c), RequesterExists, db, env) == (UpdateLastSeen, db)
    ensures Step(PullRequest(c), UpdateLastSeen, db, env) == (GetWaiting, Touched(db, c, env.now))
  {
    PullRequestAgrees(c);
    hide Request, FromLe;
  }

  lemma ReachReading(s: System, t: nat, c: Id, env: Env) returns (path: seq<System>)
    requires t !in s.threads && HasId(s.db.clients, c) && !env.fails
    ensures IsPath(path) && path[0] == s && path[|path| - 1] == Reading(s, t, c, env.now)
  {
    hide Request, FromLe, Next, IsPath, Step, Ready, Dispatch, HasId, Touched;
    var data := PullRequest(c);
    PullRequestAgrees(c);
    PullSteps(c, s.db, env);
    var s1, s2 := At(s, t, data, RequesterExists), At(s, t, data, UpdateLastSeen);
    ChecksOnly(s, t, data, RequesterExists, env);
    ChecksOnly(s, t, data, UpdateLastSeen, env);
    SinglePath(s);
    PathSnoc([s], Arrive(t, data));
    PathSnoc([s] + [s1], Execute(t, env));
    PathSnoc([s] + [s1] + [s2], Execute(t, env));
    path := [s] + [s1] + [s2] + [Reading(s, t, c, env.now)];
  }

  lemma ReadingFacts(s: System, t: nat, c: Id, now: nat)
    ensures var s' := Reading(s, t, c, now);
            && s'.log == s.log && SameData(s'.db, s.db) && AboutToRead(s', t, c)
            && s'.threads.Keys == s.threads.Keys + {t}
            && forall u :: u != t && AboutToRead(s, u, c) ==> AboutToRead(s', u, c)
  {
    PullRequestAgrees(c);
    hide Request, FromLe;
  }

  function Start(db: Tables): System {
    System(db, map[], [], db.messages, [])
  }

  /** Two connections can get to read one mailbox at the same time. */
  lemma ReachBoth(db: Tables, c: Id) returns (path: seq<System>)
    requires HasId(db.clients, c)
    ensures path != [] && IsPath(path) && path[0] == Start(db)
    ensures var ready := path[|path| - 1];
            && AboutToRead(ready, 0, c) && AboutToRead(ready, 1, c)
            && Delivered(ready.log, c) == [] && ready.db.messages == db.messages
  {
    var env := Env(false, 0, c);
    path := ReachReading(Start(db), 0, c, env);
    var s := Reading(Start(db), 0, c, 0);
    ReadingFacts(Start(db), 0, c, 0);
    hide IsPath, Reading, AboutToRead, HasId;
    assert HasId(s.db.clients, c);
    var more := ReachReading(s, 1, c, env);
    ReadingFacts(s, 1, c, 0);
    PathJoin(path, more);
    path := path + more[1..];
  }

  /** Whatever a server starts with, it can come to deliver a client's mailbox twice. */
  lemma RepeatReachable(db: Tables, c: Id)
    requires Consistent(db) && HasId(db.clients, c)
    requires EncodeRows(Waiting(db.messages, c)).Some? && |EncodeRows(Waiting(db.messages, c)).value| < TWO_32
    ensures exists run: seq<System> :: IsRun(run) && run[0] == Start(db)
                          && Delivered(run[|run| - 1].log, c) == Waiting(db.messages, c) + Waiting(db.messages, c)
  {
    hide IsPath, EncodeRows, Waiting, Consistent, AboutToRead, IsRun, Delivered, HasId, Start;
    var path := ReachBoth(db, c);
    var mail, ready := Waiting(db.messages, c), path[|path| - 1];
    OverlappingPullsRepeat(ready, 0, 1, c);
    var repeat: seq<System> :| repeat != [] && IsPath(repeat) && repeat[0] == ready
      && Delivered(repeat[|repeat| - 1].log, c) == Delivered(ready.log, c) + mail + mail;
    PathJoin(path, repeat);
    assert [] + mail + mail == mail + mail;
    PathIsRun(path + repeat[1..], db);
  }

  lemma PathIsRun(path: seq<System>, db: Tables)
    requires IsPath(path) && path[0] == Start(db) && Consistent(db)
    ensures IsRun(path)
  {
  }

  /** One stored message, delivered twice by a run from the start. */
  lemma MessageRepeats(c: Id) returns (db: Tables, m: MessageRow)
    ensures Consistent(db) && m in db.messages && m.to == c
    ensures exists run: seq<System> :: IsRun(run) && run[0] == Start(db) && Delivered(run[|run| - 1].log, c) == [m, m]
  {
    m := MessageRow(1, c, c, KEY_REQUEST, []);
    var row := ClientRow(c, [65], seq(KEY_SIZE, _ => 0));
    db := Tables([row], map[], [m], 2);
    assert row in db.clients && HasId(db.clients, c);
    assert [m][1..] == [];
    assert Waiting(db.messages, c) == [m];
    assert EncodeRow(m).Some? && |EncodeRow(m).value| == ROW_HEADER;
    EncodedLength(m);
    hide Waiting, EncodeRows;
    RepeatReachable(db, c);
    assert [m] + [m] == [m, m];
  }

  lemma EncodedLength(m: MessageRow)
    requires EncodeRow(m).Some?
    ensures EncodeRows([m]) == EncodeRow(m)
  {
    assert [m][1..] == [];
    assert EncodeRow(m).value + [] == EncodeRow(m).value;
  }
}
