/** What the interleaved server promises about messages: none is lost, and one pull at a time
    delivers each exactly once and in order. */
module Delivery {
  import opened ByteStrings
  import opened Protocol
  import opened DatabaseModel
  import opened Records
  import opened Handler
  import opened Mailbox

  // ---- No loss, for any interleaving ----

  predicate Carries(data: Bytes, r: Bytes, p: Pull) {
    |data| >= REQUEST_HEADER && Requester(data) == p.owner && r == Response(RESPONSE_WAITING_MESSAGES, p.payload)
  }

  /** The payload that was deleted is on its way to its owner, or has been returned. */
  ghost predicate Answered(s: System, p: Pull) {
    || (exists x :: x in s.log && Carries(x.request, x.response, p))
    || (exists t :: t in s.threads && s.threads[t].pc.Finished?
                    && Carries(s.threads[t].data, s.threads[t].pc.response, p))
  }

  ghost predicate PullsAnswered(s: System) {
    forall p :: p in s.pulls && |p.payload| < TWO_32 ==> Answered(s, p)
  }

  lemma AnswerKept(s: System, a: Action, p: Pull)
    requires Enabled(s, a) && Answered(s, p)
    ensures Answered(Do(s, a), p)
  {
    hide Step, Carries;
    var s' := Do(s, a);
    if x :| x in s.log && Carries(x.request, x.response, p) {
      assert x in s'.log;
    } else {
      var t :| t in s.threads && s.threads[t].pc.Finished?
               && Carries(s.threads[t].data, s.threads[t].pc.response, p);
      if a == Return(t) {
        var x := Exchange(s.threads[t].data, s.threads[t].pc.response);
        assert x in s'.log && Carries(x.request, x.response, p);
      } else {
        assert s'.threads[t] == s.threads[t];
      }
    }
  }

  lemma DoKeepsAnswered(s: System, a: Action)
    requires Enabled(s, a) && PullsAnswered(s)
    ensures PullsAnswered(Do(s, a))
  {
    hide Answered;
    var s' := Do(s, a);
    forall p | p in s'.pulls && |p.payload| < TWO_32 ensures Answered(s', p) {
      if p in s.pulls {
        AnswerKept(s, a, p);
      } else {
        NewPullAnswered(s, a.t, a.env);
      }
    }
  }

  lemma NewPullAnswered(s: System, t: nat, env: Env)
    requires Enabled(s, Execute(t, env)) && Deletes(s.threads[t].pc, env) && |s.threads[t].pc.payload| < TWO_32
    ensures Answered(Do(s, Execute(t, env)), Pull(Requester(s.threads[t].data), s.threads[t].pc.payload))
  {
    hide Step, Response;
    var th := s.threads[t];
    StepDelete(th.data, th.pc, s.db, env);
    assert Do(s, Execute(t, env)).threads[t].pc == Finished(Response(RESPONSE_WAITING_MESSAGES, th.pc.payload));
  }

  lemma NextKeepsAnswered(s: System, s': System)
    requires PullsAnswered(s) && Next(s, s')
    ensures PullsAnswered(s')
  {
    hide PullsAnswered, Do;
    var a :| Enabled(s, a) && s' == Do(s, a);
    DoKeepsAnswered(s, a);
  }

  lemma {:induction false} ReachableAnswered(run: seq<System>)
    requires IsRun(run)
    ensures forall i :: 0 <= i < |run| ==> PullsAnswered(run[i])
  {
    hide Next;
    if |run| > 1 {
      hide PullsAnswered, IsRun;
      var before, n := run[..|run| - 1], |run| - 2;
      RunPrefix(run);
      ReachableAnswered(before);
      assert before[n] == run[n];
      NextKeepsAnswered(run[n], run[n + 1]);
      assert forall i :: 0 <= i < |before| ==> before[i] == run[i];
    }
  }

  /** The message is in a payload for its own recipient that was deleted since; below 2^32 bytes
      that is the payload of a 2104 response to that recipient. */
  ghost predicate HandedOver(s: System, m: MessageRow) {
    exists p :: p in s.pulls && p.owner == m.to && DecodeRows(p.owner, p.payload).Some?
                && m in DecodeRows(p.owner, p.payload).value
                && (|p.payload| < TWO_32 ==> Answered(s, p))
  }

  /** In every reachable state, a message that was ever inserted is still stored, or it was
      encoded for its own recipient in a payload deleted since, and returned if that fits. */
  lemma NoMessageLost(run: seq<System>, i: nat, m: MessageRow)
    requires IsRun(run) && i < |run| && m in run[i].accepted
    ensures m in run[i].db.messages || HandedOver(run[i], m)
  {
    ReachableSafe(run);
    ReachableAnswered(run);
    var s := run[i];
    assert Safe(s) && PullsAnswered(s);
    if m !in s.db.messages {
      assert InPull(m, s.pulls);
      var p :| p in s.pulls && p.owner == m.to && DecodeRows(p.owner, p.payload).Some?
               && m in DecodeRows(p.owner, p.payload).value;
      assert |p.payload| < TWO_32 ==> Answered(s, p);
    }
  }

  /** A send that was acknowledged is kept: in every later state its message, as it was sent and
      under the id that was returned, is stored or was handed over. */
  lemma AcknowledgedIsKept(run: seq<System>, i: nat, x: Exchange)
    requires IsRun(run) && i < |run| && x in run[i].log && Succeeds(x.response, RESPONSE_MESSAGE_SENT)
    ensures exists m :: m in run[i].accepted && Acknowledges(x.request, ResponsePayload(x.response), m)
                        && (m in run[i].db.messages || HandedOver(run[i], m))
  {
    hide Acknowledges, HandedOver, IsRun, Consistent, ValidRows;
    ReachableSafe(run);
    var s := run[i];
    assert Safe(s) && Justified(s.db.clients, s.accepted, x.request, x.response);
    var m :| m in s.accepted && Acknowledges(x.request, ResponsePayload(x.response), m);
    NoMessageLost(run, i, m);
  }

  /** The limit is exact: a committed DELETE returns what it deleted if and only if its payload
      is below 2^32 bytes; otherwise the answer is an error although the rows are gone. */
  lemma DeletingPullAnswer(s: System, t: nat, env: Env)
    requires Safe(s) && Enabled(s, Execute(t, env)) && Deletes(s.threads[t].pc, env)
    ensures var payload, s' := s.threads[t].pc.payload, Do(s, Execute(t, env));
            && s'.threads[t].pc.Finished?
            && (|payload| < TWO_32 <==> Succeeds(s'.threads[t].pc.response, RESPONSE_WAITING_MESSAGES)
                                        && ResponsePayload(s'.threads[t].pc.response) == payload)
            && (|payload| >= TWO_32 ==> s'.threads[t].pc.response == ErrorResponse())
            && forall m :: m in s'.db.messages ==> m !in DecodeRows(Requester(s.threads[t].data), payload).value
  {
    var th := s.threads[t];
    ReplyWellFormed(RESPONSE_WAITING_MESSAGES, th.pc.payload);
    StepDelete(th.data, th.pc, s.db, env);
    assert ThreadOk(s.db.clients, s.accepted, th);
    hide Step, Reply, DecodeRows, Without;
    var rows := DecodeRows(Requester(th.data), th.pc.payload).value;
    WithoutMembers(s.db.messages, th.pc.ids);
    forall m | m in rows ensures m.id in th.pc.ids {
      var i :| 0 <= i < |rows| && rows[i] == m;
      assert Ids(rows)[i] == m.id;
    }
  }

  // ---- Exactly once and in order ----

  predicate IsPull(data: Bytes, c: Id) {
    |data| >= REQUEST_HEADER && Code(data) == REQUEST_WAITING_MESSAGES && Requester(data) == c
  }

  /** No client has two pulls in flight. `Network.OnePullInFlight` derives it from the connections:
      each is in lock step, so with one connection per client it holds. */
  predicate OnePullEach(s: System) {
    forall t, u :: t in s.threads && u in s.threads && t != u && |s.threads[t].data| >= REQUEST_HEADER
      && IsPull(s.threads[t].data, Requester(s.threads[t].data))
      ==> !IsPull(s.threads[u].data, Requester(s.threads[t].data))
  }

  predicate SmallPulls(s: System) {
    forall t :: t in s.threads && s.threads[t].pc.DeleteMessages? ==> |s.threads[t].pc.payload| < TWO_32
  }

  /** The messages that client `c` reads out of a response to its request. */
  function Received(c: Id, data: Bytes, r: Bytes): seq<MessageRow> {
    if |data| >= REQUEST_HEADER && Requester(data) == c && Succeeds(r, RESPONSE_WAITING_MESSAGES)
       && DecodeRows(c, ResponsePayload(r)).Some?
    then DecodeRows(c, ResponsePayload(r)).value
    else []
  }

  function Delivered(log: seq<Exchange>, c: Id): seq<MessageRow> {
    if log == [] then []
    else
      var x := log[|log| - 1];
      Delivered(log[..|log| - 1], c) + Received(c, x.request, x.response)
  }

  predicate Takes(th: Thread, c: Id) {
    th.pc.Finished? && Received(c, th.data, th.pc.response) != []
  }

  /** Deleted for `c`, but not returned yet. */
  ghost function Taken(s: System, c: Id): seq<MessageRow> {
    if exists t :: t in s.threads && Takes(s.threads[t], c)
    then var t :| t in s.threads && Takes(s.threads[t], c);
         Received(c, s.threads[t].data, s.threads[t].pc.response)
    else []
  }

  /** Only a pull can have mail in hand. */
  ghost predicate TakersPull(s: System) {
    forall t, c :: t in s.threads && Takes(s.threads[t], c) ==> IsPull(s.threads[t].data, c)
  }

  lemma SafeTakers(s: System)
    requires Safe(s)
    ensures TakersPull(s)
  {
    forall t, c | t in s.threads && Takes(s.threads[t], c) ensures IsPull(s.threads[t].data, c) {
      assert ThreadOk(s.db.clients, s.accepted, s.threads[t]);
    }
  }

  /** With one pull each, only one thread has a client's mail in hand. */
  lemma OthersTakeNothing(s: System, t: nat, c: Id)
    requires TakersPull(s) && OnePullEach(s) && t in s.threads && IsPull(s.threads[t].data, c)
    ensures forall u :: u in s.threads && u != t ==> !Takes(s.threads[u], c)
  {
    hide Takes;
  }

  lemma TakenBy(s: System, t: nat, c: Id)
    requires TakersPull(s) && OnePullEach(s) && t in s.threads && IsPull(s.threads[t].data, c)
    ensures Taken(s, c) == if Takes(s.threads[t], c) then Received(c, s.threads[t].data, s.threads[t].pc.response) else []
  {
    hide Received, IsPull, Ready;
    OthersTakeNothing(s, t, c);
  }

  lemma NothingTaken(s: System, c: Id)
    requires forall t :: t in s.threads ==> !Takes(s.threads[t], c)
    ensures Taken(s, c) == []
  {
    hide Received, Ready;
  }

  lemma DeliveredSnoc(log: seq<Exchange>, x: Exchange, c: Id)
    ensures Delivered(log + [x], c) == Delivered(log, c) + Received(c, x.request, x.response)
  {
    hide Received;
    assert (log + [x])[..|log|] == log;
  }

  predicate SameButFor(s: System, s': System, t: nat) {
    && (forall u :: u in s.threads && u != t ==> u in s'.threads && s'.threads[u] == s.threads[u])
    && (forall u :: u in s'.threads && u != t ==> u in s.threads)
  }

  /** Changing one thread leaves `Taken` alone unless that thread has mail in hand. */
  lemma TakenFrame(s: System, s': System, t: nat, c: Id)
    requires TakersPull(s) && OnePullEach(s) && TakersPull(s') && OnePullEach(s')
    requires SameButFor(s, s', t)
    requires t in s.threads ==> !Takes(s.threads[t], c)
    requires t in s'.threads ==> !Takes(s'.threads[t], c)
    ensures Taken(s, c) == Taken(s', c)
  {
    if u :| u in s.threads && Takes(s.threads[u], c) {
      assert u in s'.threads && s'.threads[u] == s.threads[u];
      assert IsPull(s.threads[u].data, c);
      TakenBy(s, u, c);
      TakenBy(s', u, c);
    } else {
      assert forall u :: u in s'.threads ==> !Takes(s'.threads[u], c);
    }
  }

  // ---- Mailboxes under INSERT and DELETE ----

  lemma WaitingCons(m: MessageRow, rest: seq<MessageRow>, c: Id)
    ensures Waiting([m] + rest, c) == (if m.to == c then [m] else []) + Waiting(rest, c)
  {
  }

  lemma {:induction false} WaitingAppend(messages: seq<MessageRow>, more: seq<MessageRow>, c: Id)
    ensures Waiting(messages + more, c) == Waiting(messages, c) + Waiting(more, c)
  {
    hide Waiting;
    if messages == [] {
      assert messages + more == more;
      assert Waiting([], c) == [] by {
        WaitingNothing(c);
      }
    } else {
      var m, rest := messages[0], messages[1..];
      WaitingAppend(rest, more, c);
      WaitingCons(m, rest, c);
      WaitingCons(m, rest + more, c);
      assert messages == [m] + rest && messages + more == [m] + (rest + more);
    }
  }

  lemma WaitingNothing(c: Id)
    ensures Waiting([], c) == []
  {
  }

  /** Filtering by recipient and by id can be done in either order. */
  lemma {:induction false} WaitingWithout(messages: seq<MessageRow>, ids: seq<nat>, c: Id)
    ensures Waiting(Without(messages, ids), c) == Without(Waiting(messages, c), ids)
  {
    if messages != [] {
      WaitingWithout(messages[1..], ids, c);
      WaitingAppend([messages[0]], Without(messages[1..], ids), c);
      assert [messages[0]][1..] == [];
      if messages[0].to == c {
        assert ([messages[0]] + Waiting(messages[1..], c))[1..] == Waiting(messages[1..], c);
      }
    }
  }

  lemma {:induction false} WithoutAbsent(rows: seq<MessageRow>, ids: seq<nat>)
    requires forall m :: m in rows ==> m.id !in ids
    ensures Without(rows, ids) == rows
  {
    if rows != [] {
      WithoutAbsent(rows[1..], ids);
    }
  }

  /** Deleting the front of a list leaves the rest. */
  lemma {:induction false} WithoutFront(front: seq<MessageRow>, rest: seq<MessageRow>, ids: seq<nat>)
    requires forall m :: m in front ==> m.id in ids
    requires forall m :: m in rest ==> m.id !in ids
    ensures Without(front + rest, ids) == rest
  {
    if front == [] {
      assert front + rest == rest;
      WithoutAbsent(rest, ids);
    } else {
      WithoutFront(front[1..], rest, ids);
      assert front[0] in front && (front + rest)[1..] == front[1..] + rest;
    }
  }

  lemma MailboxAfterDelete(messages: seq<MessageRow>, rows: seq<MessageRow>, c: Id)
    requires Ascending(messages) && rows <= Waiting(messages, c)
    ensures rows + Waiting(Without(messages, Ids(rows)), c) == Waiting(messages, c)
  {
    hide Waiting, Without;
    var mail := Waiting(messages, c);
    WaitingAscends(messages, c);
    WaitingWithout(messages, Ids(rows), c);
    var rest := mail[|rows|..];
    forall m | m in rows ensures m.id in Ids(rows) {
      var i :| 0 <= i < |rows| && rows[i] == m;
      assert Ids(rows)[i] == m.id;
    }
    forall m | m in rest ensures m.id !in Ids(rows) {
      var j :| 0 <= j < |rest| && rest[j] == m;
      assert mail[|rows| + j] == m;
      assert forall i :: 0 <= i < |rows| ==> mail[i] == rows[i];
    }
    WithoutFront(rows, rest, Ids(rows));
    assert rows + rest == mail;
  }

  /** A pull's DELETE leaves every other client's mailbox alone. */
  lemma OwnMailOnly(s: System, t: nat, c: Id)
    requires Safe(s) && t in s.threads && s.threads[t].pc.DeleteMessages? && c != Requester(s.threads[t].data)
    ensures Waiting(Without(s.db.messages, s.threads[t].pc.ids), c) == Waiting(s.db.messages, c)
  {
    var th := s.threads[t];
    WaitingWithout(s.db.messages, th.pc.ids, c);
    WaitingMembers(s.db.messages, c);
    assert ThreadOk(s.db.clients, s.accepted, th);
    forall m | m in Waiting(s.db.messages, c) ensures m.id !in th.pc.ids {
      if m.id in th.pc.ids {
        DeletedWerePulled(s, th, m);
      }
    }
    WithoutAbsent(Waiting(s.db.messages, c), th.pc.ids);
  }

  // ---- The balance is kept by every step ----

  /** A thread that is about to delete has read the front of its owner's mailbox. */
  predicate HoldsFront(messages: seq<MessageRow>, th: Thread) {
    th.pc.DeleteMessages? ==>
      && DecodeRows(Requester(th.data), th.pc.payload).Some?
      && DecodeRows(Requester(th.data), th.pc.payload).value <= Waiting(messages, Requester(th.data))
  }

  ghost predicate Balanced(s: System, c: Id) {
    Delivered(s.log, c) + Taken(s, c) + Waiting(s.db.messages, c) == Waiting(s.accepted, c)
  }

  ghost predicate InOrder(s: System) {
    && (forall t :: t in s.threads ==> HoldsFront(s.db.messages, s.threads[t]))
    && (forall c :: Balanced(s, c))
  }

  lemma InsertBalanced(s: System, s': System, t: nat, rows: seq<MessageRow>, c: Id)
    requires TakersPull(s) && OnePullEach(s) && TakersPull(s') && OnePullEach(s')
    requires SameButFor(s, s', t)
    requires t in s.threads ==> !Takes(s.threads[t], c)
    requires t in s'.threads ==> !Takes(s'.threads[t], c)
    requires s'.log == s.log && s'.accepted == s.accepted + rows && s'.db.messages == s.db.messages + rows
    requires Balanced(s, c)
    ensures Balanced(s', c)
  {
    hide Waiting, Delivered, Taken, Takes, Received, OnePullEach, TakersPull, SameButFor;
    TakenFrame(s, s', t, c);
    WaitingAppend(s.db.messages, rows, c);
    WaitingAppend(s.accepted, rows, c);
    AppendBoth(Delivered(s.log, c), Taken(s, c), Waiting(s.db.messages, c), Waiting(rows, c));
  }

  lemma DeleteBalanced(s: System, s': System, t: nat, c: Id)
    requires TakersPull(s) && OnePullEach(s) && TakersPull(s') && OnePullEach(s')
    requires t in s.threads && t in s'.threads && IsPull(s.threads[t].data, c) && IsPull(s'.threads[t].data, c)
    requires !Takes(s.threads[t], c) && Ascending(s.db.messages)
    requires s'.threads[t].pc.Finished?
    requires var rows := Received(c, s'.threads[t].data, s'.threads[t].pc.response);
             rows <= Waiting(s.db.messages, c) && s'.db.messages == Without(s.db.messages, Ids(rows))
    requires s'.log == s.log && s'.accepted == s.accepted && Balanced(s, c)
    ensures Balanced(s', c)
  {
    var rows := Received(c, s'.threads[t].data, s'.threads[t].pc.response);
    MailboxAfterDelete(s.db.messages, rows, c);
    assert Taken(s, c) == [] by {
      TakenBy(s, t, c);
    }
    assert Taken(s', c) == rows by {
      TakenBy(s', t, c);
    }
    Regroup(Delivered(s.log, c), rows, Waiting(s'.db.messages, c), Waiting(s.db.messages, c));
  }

  lemma AppendBoth(a: seq<MessageRow>, b: seq<MessageRow>, rest: seq<MessageRow>, more: seq<MessageRow>)
    ensures a + b + (rest + more) == a + b + rest + more
  {
  }

  lemma Regroup(a: seq<MessageRow>, b: seq<MessageRow>, rest: seq<MessageRow>, all: seq<MessageRow>)
    requires b + rest == all
    ensures a + [] + all == a + b + rest
  {
  }

  /** Returning a response turns what was taken into what is delivered. */
  lemma ReturnBalanced(s: System, t: nat, c: Id)
    requires Enabled(s, Return(t)) && Balanced(s, c)
    requires TakersPull(s) && OnePullEach(s)
    requires var s' := Do(s, Return(t)); TakersPull(s') && OnePullEach(s')
    ensures Balanced(Do(s, Return(t)), c)
  {
    hide Delivered, Received, Waiting, Taken, Takes, IsPull, Ready, Step, Begin, OnePullEach;
    var s' := Do(s, Return(t));
    var th := s.threads[t];
    DeliveredSnoc(s.log, Exchange(th.data, th.pc.response), c);
    if Takes(th, c) {
      TakenBy(s, t, c);
      OthersTakeNothing(s, t, c);
      NothingTaken(s', c);
    } else {
      NothingReceived(th, c);
      TakenFrame(s, s', t, c);
    }
    MoveOver(Delivered(s.log, c), Received(c, th.data, th.pc.response), Taken(s', c), Waiting(s.db.messages, c));
  }

  lemma NothingReceived(th: Thread, c: Id)
    requires th.pc.Finished? && !Takes(th, c)
    ensures Received(c, th.data, th.pc.response) == []
  {
  }

  lemma MoveOver(a: seq<MessageRow>, b: seq<MessageRow>, taken: seq<MessageRow>, rest: seq<MessageRow>)
    ensures taken == [] ==> a + b + taken + rest == a + b + rest
    ensures b == [] ==> a + b + taken + rest == a + taken + rest
  {
  }

  /** The response of a committed DELETE hands its owner exactly the rows it deleted. */
  lemma DeleteHandsOver(s: System, t: nat, env: Env)
    requires Safe(s) && SmallPulls(s) && Enabled(s, Execute(t, env)) && Deletes(s.threads[t].pc, env)
    ensures var th, th', c := s.threads[t], Do(s, Execute(t, env)).threads[t], Requester(s.threads[t].data);
            && th'.pc.Finished? && DecodeRows(c, th.pc.payload).Some?
            && Received(c, th'.data, th'.pc.response) == DecodeRows(c, th.pc.payload).value
            && th.pc.ids == Ids(DecodeRows(c, th.pc.payload).value)
            && forall d :: d != c ==> !Takes(th', d)
  {
    var th := s.threads[t];
    assert ThreadOk(s.db.clients, s.accepted, th);
    ReplyWellFormed(RESPONSE_WAITING_MESSAGES, th.pc.payload);
  }

  lemma QuietThread(s: System, t: nat, env: Env, c: Id)
    requires Enabled(s, Execute(t, env)) && !Deletes(s.threads[t].pc, env)
    ensures !Takes(Do(s, Execute(t, env)).threads[t], c)
  {
    var th := s.threads[t];
    StepResponse(th.data, th.pc, s.db, env);
    ErrorWellFormed();
  }

  lemma QuietBalanced(s: System, t: nat, env: Env, c: Id)
    requires Enabled(s, Execute(t, env)) && !Deletes(s.threads[t].pc, env)
    requires Balanced(s, c) && TakersPull(s) && OnePullEach(s)
    requires var s' := Do(s, Execute(t, env)); TakersPull(s') && OnePullEach(s')
    ensures Balanced(Do(s, Execute(t, env)), c)
  {
    hide Step, Balanced, TakersPull, OnePullEach, Takes, Waiting, Delivered, Taken, Received, Inserted, Ready;
    var s', th := Do(s, Execute(t, env)), s.threads[t];
    StepMessages(th.data, th.pc, s.db, env);
    QuietThread(s, t, env, c);
    StillQuiet(th, c);
    InsertBalanced(s, s', t, Inserted(th.data, th.pc, s.db, env), c);
  }

  lemma StillQuiet(th: Thread, c: Id)
    requires !th.pc.Finished?
    ensures !Takes(th, c)
  {
  }

  lemma DeletingBalanced(s: System, t: nat, env: Env, c: Id)
    requires Safe(s) && SmallPulls(s) && Enabled(s, Execute(t, env)) && Deletes(s.threads[t].pc, env)
    requires HoldsFront(s.db.messages, s.threads[t]) && Balanced(s, c) && TakersPull(s) && OnePullEach(s)
    requires var s' := Do(s, Execute(t, env)); TakersPull(s') && OnePullEach(s')
    ensures Balanced(Do(s, Execute(t, env)), c)
  {
    hide Step, TakersPull, OnePullEach, Takes, Waiting, Without, Delivered, Taken, Received, DecodeRows, SmallPulls, ThreadOk,
      Justified, ValidRow, ValidClient, InPull, Reply;
    var s', th := Do(s, Execute(t, env)), s.threads[t];
    StepDelete(th.data, th.pc, s.db, env);
    DeleteHandsOver(s, t, env);
    NoRowsInserted(s, t, env);
    StillQuiet(th, c);
    assert Consistent(s.db);
    if c == Requester(th.data) {
      DeleteBalanced(s, s', t, c);
    } else {
      OwnMailOnly(s, t, c);
      TakenFrame(s, s', t, c);
    }
  }

  lemma NoRowsInserted(s: System, t: nat, env: Env)
    requires Enabled(s, Execute(t, env)) && Deletes(s.threads[t].pc, env)
    ensures Do(s, Execute(t, env)).accepted == s.accepted
  {
    hide Step;
  }

  lemma ExecuteBalanced(s: System, t: nat, env: Env, c: Id)
    requires Safe(s) && SmallPulls(s) && Enabled(s, Execute(t, env))
    requires HoldsFront(s.db.messages, s.threads[t]) && Balanced(s, c) && OnePullEach(s)
    requires var s' := Do(s, Execute(t, env)); OnePullEach(s') && TakersPull(s')
    ensures Balanced(Do(s, Execute(t, env)), c)
  {
    hide Safe, SmallPulls, HoldsFront, Balanced, OnePullEach, TakersPull, Do;
    SafeTakers(s);
    if Deletes(s.threads[t].pc, env) {
      DeletingBalanced(s, t, env, c);
    } else {
      QuietBalanced(s, t, env, c);
    }
  }

  /** The front of a mailbox stays its front: sends append, and only its own pull deletes. */
  lemma FrontKept(s: System, t: nat, env: Env, u: nat)
    requires Safe(s) && Enabled(s, Execute(t, env)) && OnePullEach(s)
    requires u in s.threads && u != t && HoldsFront(s.db.messages, s.threads[u])
    ensures HoldsFront(Do(s, Execute(t, env)).db.messages, s.threads[u])
  {
    var th := s.threads[t];
    if s.threads[u].pc.DeleteMessages? {
      var c := Requester(s.threads[u].data);
      StepMessages(th.data, th.pc, s.db, env);
      if Deletes(th.pc, env) {
        assert IsPull(s.threads[u].data, c) && !IsPull(th.data, c);
        OwnMailOnly(s, t, c);
      } else {
        WaitingAppend(s.db.messages, Inserted(th.data, th.pc, s.db, env), c);
      }
    }
  }

  /** A SELECT holds the front of the mailbox it has just read. */
  lemma SelectHoldsFront(s: System, t: nat, env: Env)
    requires Enabled(s, Execute(t, env))
    ensures var s' := Do(s, Execute(t, env)); HoldsFront(s'.db.messages, s'.threads[t])
  {
    hide Step;
    var th := s.threads[t];
    StepToDelete(th.data, th.pc, s.db, env);
    if th.pc.GetWaiting? {
      WaitingMembers(s.db.messages, Requester(th.data));
      DecodeEncoded(Waiting(s.db.messages, Requester(th.data)), Requester(th.data));
    }
  }

  lemma FrontsKept(s: System, a: Action, u: nat)
    requires Safe(s) && Enabled(s, a) && OnePullEach(s) && u in Do(s, a).threads
    requires u in s.threads ==> HoldsFront(s.db.messages, s.threads[u])
    ensures HoldsFront(Do(s, a).db.messages, Do(s, a).threads[u])
  {
    hide Step, Safe, OnePullEach;
    if a.Execute? {
      if u == a.t {
        SelectHoldsFront(s, a.t, a.env);
      } else {
        FrontKept(s, a.t, a.env, u);
      }
    }
  }

  lemma BalanceKept(s: System, a: Action, c: Id)
    requires Safe(s) && Enabled(s, a) && OnePullEach(s) && OnePullEach(Do(s, a)) && SmallPulls(s) && InOrder(s)
    ensures Balanced(Do(s, a), c)
  {
    hide Safe, Step, Balanced, HoldsFront, OnePullEach, TakersPull, Ready, Waiting, Inserted, Deletes;
    var s' := Do(s, a);
    DoKeepsSafe(s, a);
    SafeTakers(s);
    SafeTakers(s');
    assert Balanced(s, c);
    match a
    case Arrive(t, data) =>
      ErrorWellFormed();
      InsertBalanced(s, s', t, [], c);
    case Execute(t, env) =>
      ExecuteBalanced(s, t, env, c);
    case Return(t) =>
      ReturnBalanced(s, t, c);
  }

  lemma DoKeepsInOrder(s: System, a: Action)
    requires Safe(s) && Enabled(s, a) && OnePullEach(s) && OnePullEach(Do(s, a)) && SmallPulls(s) && InOrder(s)
    ensures InOrder(Do(s, a))
  {
    hide Safe, Step, Balanced, HoldsFront, OnePullEach;
    forall u | u in Do(s, a).threads ensures HoldsFront(Do(s, a).db.messages, Do(s, a).threads[u]) {
      FrontsKept(s, a, u);
    }
    forall c ensures Balanced(Do(s, a), c) {
      BalanceKept(s, a, c);
    }
  }

  ghost predicate Orderly(s: System) {
    OnePullEach(s) && SmallPulls(s)
  }

  ghost predicate OrderlyRun(run: seq<System>) {
    IsRun(run) && forall i :: 0 <= i < |run| ==> Orderly(run[i])
  }

  lemma NextKeepsInOrder(s: System, s': System)
    requires Safe(s) && Next(s, s') && Orderly(s) && Orderly(s') && InOrder(s)
    ensures InOrder(s')
  {
    hide Safe, Do, InOrder;
    var a :| Enabled(s, a) && s' == Do(s, a);
    DoKeepsInOrder(s, a);
  }

  lemma InitInOrder(s: System)
    requires Init(s)
    ensures InOrder(s)
  {
  }

  lemma {:induction false} ReachableInOrder(run: seq<System>)
    requires OrderlyRun(run)
    ensures forall i :: 0 <= i < |run| ==> InOrder(run[i])
  {
    hide InOrder, Next, Orderly, Safe;
    if |run| == 1 {
      InitInOrder(run[0]);
    } else {
      var before, n := run[..|run| - 1], |run| - 2;
      RunPrefix(run);
      ReachableInOrder(before);
      assert before[n] == run[n];
      assert Safe(run[n]) by {
        ReachableSafe(run);
      }
      NextKeepsInOrder(run[n], run[n + 1]);
      assert forall i :: 0 <= i < |before| ==> before[i] == run[i];
    }
  }

  /** At every reachable state and for every client, what it has been handed, what has been
      taken for it but not yet returned, and what waits for it make up exactly the messages
      inserted for it, in id order, with none repeated. */
  lemma ExactlyOnceInOrder(run: seq<System>, i: nat, c: Id)
    requires OrderlyRun(run) && i < |run|
    ensures var s := run[i];
            && Delivered(s.log, c) + Taken(s, c) + Waiting(s.db.messages, c) == Waiting(s.accepted, c)
            && Ascending(Delivered(s.log, c) + Taken(s, c) + Waiting(s.db.messages, c))
  {
    ReachableSafe(run);
    ReachableInOrder(run);
    var s := run[i];
    assert Safe(s) && InOrder(s);
    assert Balanced(s, c);
    WaitingAscends(s.accepted, c);
  }

  /** With one pull at a time, an acknowledged message has been handed to its recipient, is on
      its way to it, or waits for it. */
  lemma AcknowledgedOnce(run: seq<System>, i: nat, x: Exchange)
    requires OrderlyRun(run) && i < |run| && x in run[i].log && Succeeds(x.response, RESPONSE_MESSAGE_SENT)
    ensures |x.request| >= SEND_HEADER
    ensures var s, c := run[i], Target(x.request);
            exists m :: Acknowledges(x.request, ResponsePayload(x.response), m)
                        && m in Delivered(s.log, c) + Taken(s, c) + Waiting(s.db.messages, c)
  {
    hide Orderly, IsRun, HandedOver, Delivered, Taken, Waiting, DecodeRows;
    assert IsRun(run) && i < |run|;
    AcknowledgedIsKept(run, i, x);
    var s := run[i];
    var m :| m in s.accepted && Acknowledges(x.request, ResponsePayload(x.response), m);
    ExactlyOnceInOrder(run, i, m.to);
    WaitingMembers(s.accepted, m.to);
  }
}
