/** The whole system: any number of connections, each a client and a stream at either end as in
    `Session`, against one server as in `Mailbox`. Bytes move, requests are accepted, statements
    run and handlers return in any order. */
module Network {
  import opened ByteStrings
  import opened Protocol
  import opened DatabaseModel
  import opened Records
  import opened Handler
  import opened Mailbox
  import opened Delivery
  import Session

  /** The requests that the client of each connection will send, one after the other. */
  type Plan = map<nat, seq<Bytes>>

  datatype World = World(links: map<nat, Session.Link>, server: System)

  /** A byte-level event of a connection; its thread takes over a whole request; a statement; the
      handler returns and its response is ready to be sent. */
  datatype Move =
    | Wire(t: nat, event: Session.Event)
    | Accept(t: nat)
    | Work(t: nat, env: Env)
    | Answer(t: nat)

  predicate CanMove(plan: Plan, w: World, m: Move) {
    match m
    case Wire(t, e) => t in plan && t in w.links && !e.Handle? && Session.Enabled(plan[t], w.links[t], e)
    case Accept(t) => t in plan && t in w.links && w.links[t].server.Handling? && t !in w.server.threads
    case Work(t, env) => Enabled(w.server, Execute(t, env))
    case Answer(t) =>
      && t in plan && t in w.links && Enabled(w.server, Return(t))
      && Session.Enabled(plan[t], w.links[t], Session.Handle(w.server.threads[t].pc.response))
  }

  function After(plan: Plan, w: World, m: Move): World
    requires CanMove(plan, w, m)
  {
    match m
    case Wire(t, e) => w.(links := w.links[t := Session.Do(plan[t], w.links[t], e)])
    case Accept(t) => w.(server := Do(w.server, Arrive(t, w.links[t].server.data)))
    case Work(t, env) => w.(server := Do(w.server, Execute(t, env)))
    case Answer(t) =>
      var r := w.server.threads[t].pc.response;
      World(w.links[t := Session.Do(plan[t], w.links[t], Session.Handle(r))], Do(w.server, Return(t)))
  }

  predicate AllPlansFramed(plan: Plan) {
    forall t :: t in plan ==> Session.AllFramed(plan[t])
  }

  predicate Begins(plan: Plan, w: World) {
    w.links == (map t | t in plan :: Session.START) && Init(w.server)
  }

  ghost predicate Moves(plan: Plan, w: World, w': World) {
    exists m :: CanMove(plan, w, m) && w' == After(plan, w, m)
  }

  ghost predicate IsWorldRun(plan: Plan, run: seq<World>) {
    && run != [] && AllPlansFramed(plan) && Begins(plan, run[0])
    && forall i :: 0 <= i < |run| - 1 ==> Moves(plan, run[i], run[i + 1])
  }

  // ---- Connections and threads belong together ----

  /** Every connection is in lock step, a thread serves the request that its connection has read
      in whole, and every answer of a connection is one that the server returned. */
  ghost predicate Linked(plan: Plan, w: World) {
    && w.links.Keys == plan.Keys
    && (forall t :: t in plan ==> Session.InStep(plan[t], w.links[t]))
    && (forall t :: t in w.server.threads ==> t in w.links && w.links[t].server == Session.Handling(w.server.threads[t].data))
    && (forall t, x :: t in w.links && x in w.links[t].answers ==> x in w.server.log)
  }

  /** A connection has at most one request outstanding, and that is the next one of its plan. */
  lemma OneOutstanding(requests: seq<Bytes>, link: Session.Link)
    requires Session.InStep(requests, link) && link.server.Handling?
    ensures |link.answers| == |link.returned| < |requests| && link.server.data == requests[|link.returned|]
    ensures !link.client.Idle?
  {
    hide FromLe, Session.Agree;
  }

  lemma WireEffect(requests: seq<Bytes>, link: Session.Link, e: Session.Event)
    requires Session.Enabled(requests, link, e) && !e.Handle?
    ensures var link' := Session.Do(requests, link, e);
            link'.answers == link.answers && (link.server.Handling? ==> link'.server == link.server)
  {
    hide FromLe;
  }

  lemma HandleEffect(requests: seq<Bytes>, link: Session.Link, r: Bytes)
    requires Session.Enabled(requests, link, Session.Handle(r))
    ensures var link' := Session.Do(requests, link, Session.Handle(r));
            !link'.server.Handling? && link'.answers == link.answers + [Exchange(link.server.data, r)]
  {
  }

  lemma WireKeepsLinked(plan: Plan, w: World, t: nat, e: Session.Event)
    requires AllPlansFramed(plan) && Linked(plan, w) && CanMove(plan, w, Wire(t, e))
    ensures Linked(plan, After(plan, w, Wire(t, e)))
  {
    hide Session.InStep, Session.Enabled, Session.Do;
    Session.DoInStep(plan[t], w.links[t], e);
    WireEffect(plan[t], w.links[t], e);
  }

  lemma ServerEffect(s: System, a: Action)
    requires Enabled(s, a)
    ensures var s' := Do(s, a);
            && (forall u :: u != a.t ==> (u in s.threads <==> u in s'.threads)
                                         && (u in s.threads ==> s'.threads[u] == s.threads[u]))
            && (a.Arrive? ==> a.t in s'.threads && s'.threads[a.t].data == a.data && s'.log == s.log)
            && (a.Execute? ==> a.t in s'.threads && s'.threads[a.t].data == s.threads[a.t].data && s'.log == s.log)
            && (a.Return? ==> a.t !in s'.threads
                              && s'.log == s.log + [Exchange(s.threads[a.t].data, s.threads[a.t].pc.response)])
  {
    hide Step, Begin;
  }

  lemma ServingKeepsLinked(plan: Plan, w: World, m: Move)
    requires Linked(plan, w) && CanMove(plan, w, m) && (m.Accept? || m.Work?)
    ensures Linked(plan, After(plan, w, m))
  {
    hide Session.InStep, Do, Step, Begin;
    match m
    case Accept(t) => ServerEffect(w.server, Arrive(t, w.links[t].server.data));
    case Work(t, env) => ServerEffect(w.server, Execute(t, env));
  }

  lemma AnswerKeepsLinked(plan: Plan, w: World, t: nat)
    requires AllPlansFramed(plan) && Linked(plan, w) && CanMove(plan, w, Answer(t))
    ensures Linked(plan, After(plan, w, Answer(t)))
  {
    hide Session.InStep, Session.Enabled, Session.Do, Do, Ready, Session.AllFramed;
    var w', r := After(plan, w, Answer(t)), w.server.threads[t].pc.response;
    ServerEffect(w.server, Return(t));
    HandleEffect(plan[t], w.links[t], r);
    Session.DoInStep(plan[t], w.links[t], Session.Handle(r));
    assert forall u :: u != t && u in w.links ==> w'.links[u] == w.links[u];
  }

  lemma MoveKeepsLinked(plan: Plan, w: World, m: Move)
    requires AllPlansFramed(plan) && Linked(plan, w) && CanMove(plan, w, m)
    ensures Linked(plan, After(plan, w, m))
  {
    hide Linked, After;
    match m
    case Wire(t, e) => WireKeepsLinked(plan, w, t, e);
    case Answer(t) => AnswerKeepsLinked(plan, w, t);
    case _ => ServingKeepsLinked(plan, w, m);
  }

  lemma MoveKeepsSafe(plan: Plan, w: World, m: Move)
    requires Safe(w.server) && CanMove(plan, w, m)
    ensures Safe(After(plan, w, m).server)
  {
    hide Safe, Do, Session.Do, Session.Enabled;
    match m
    case Wire(t, e) =>
    case Accept(t) => DoKeepsSafe(w.server, Arrive(t, w.links[t].server.data));
    case Work(t, env) => DoKeepsSafe(w.server, Execute(t, env));
    case Answer(t) => DoKeepsSafe(w.server, Return(t));
  }

  lemma BeginsLinked(plan: Plan, w: World)
    requires Begins(plan, w)
    ensures Linked(plan, w) && Safe(w.server)
  {
    forall t | t in plan ensures Session.InStep(plan[t], w.links[t]) {
      Session.StartInStep(plan[t]);
    }
  }

  lemma NextKeepsLinked(plan: Plan, w: World, w': World)
    requires AllPlansFramed(plan) && Linked(plan, w) && Safe(w.server) && Moves(plan, w, w')
    ensures Linked(plan, w') && Safe(w'.server)
  {
    hide Linked, Safe, CanMove, After;
    var m :| CanMove(plan, w, m) && w' == After(plan, w, m);
    MoveKeepsLinked(plan, w, m);
    MoveKeepsSafe(plan, w, m);
  }

  lemma WorldPrefix(plan: Plan, run: seq<World>)
    requires IsWorldRun(plan, run) && |run| > 1
    ensures IsWorldRun(plan, run[..|run| - 1]) && Moves(plan, run[|run| - 2], run[|run| - 1])
  {
    hide Moves, Begins;
    var before, n := run[..|run| - 1], |run| - 2;
    assert Moves(plan, run[n], run[n + 1]);
    forall i | 0 <= i < |before| - 1 ensures Moves(plan, before[i], before[i + 1]) {
      assert Moves(plan, run[i], run[i + 1]);
    }
  }

  lemma {:induction false} ReachableLinked(plan: Plan, run: seq<World>)
    requires IsWorldRun(plan, run)
    ensures forall i :: 0 <= i < |run| ==> Linked(plan, run[i]) && Safe(run[i].server)
  {
    hide Moves, Linked, Safe, Begins;
    assert AllPlansFramed(plan);
    if |run| == 1 {
      BeginsLinked(plan, run[0]);
    } else {
      var before, n := run[..|run| - 1], |run| - 2;
      WorldPrefix(plan, run);
      hide IsWorldRun;
      ReachableLinked(plan, before);
      assert before[n] == run[n];
      NextKeepsLinked(plan, run[n], run[n + 1]);
      assert forall i :: 0 <= i < |before| ==> before[i] == run[i];
    }
  }

  /** Lock step with the real handler: whatever the other connections do, the k-th call on a
      connection returns what the server answered to the k-th request of that connection, and
      that answer is truthful. */
  lemma KthCallAnswered(plan: Plan, run: seq<World>, i: nat, t: nat, k: nat)
    requires IsWorldRun(plan, run) && i < |run| && t in plan
    requires t in run[i].links && k < |run[i].links[t].returned|
    ensures var s := run[i].server;
            && k < |plan[t]|
            && Exchange(plan[t][k], run[i].links[t].returned[k]) in s.log
            && Justified(s.db.clients, s.accepted, plan[t][k], run[i].links[t].returned[k])
  {
    hide Justified, Consistent, ValidRows, IsWorldRun, ThreadOk;
    ReachableLinked(plan, run);
    var w := run[i];
    assert Linked(plan, w) && Safe(w.server);
    CallsAreAnswers(plan[t], w.links[t]);
    assert w.links[t].answers[k] in w.links[t].answers;
  }

  lemma CallsAreAnswers(requests: seq<Bytes>, link: Session.Link)
    requires Session.InStep(requests, link)
    ensures |link.returned| <= |link.answers| <= |requests| && |link.answers| <= |link.returned| + 1
    ensures link.client.Idle? ==> |link.returned| == |link.answers| && !link.server.Handling?
    ensures forall k :: 0 <= k < |link.returned| ==> link.answers[k] == Exchange(requests[k], link.returned[k])
  {
    hide FromLe;
  }

  /** Until a connection has completed all its calls, it can make a move: neither a client nor a
      thread of the server is ever stuck. */
  lemma NeverStuck(plan: Plan, w: World, t: nat)
    requires AllPlansFramed(plan) && Linked(plan, w) && Safe(w.server) && t in plan
    requires !Session.Completed(plan[t], w.links[t])
    ensures exists m :: CanMove(plan, w, m) && m.t == t
  {
    hide Session.InStep, Session.Completed, Session.AllFramed, Justified, ThreadOk, Consistent, ValidRows;
    var link := w.links[t];
    if link.server.Handling? {
      if t !in w.server.threads {
        assert CanMove(plan, w, Accept(t));
      } else if !w.server.threads[t].pc.Finished? {
        assert CanMove(plan, w, Work(t, Env(false, 0, Requester(seq(REQUEST_HEADER, _ => 0)))));
      } else {
        AnswersWellFormed(w.server, t);
        assert CanMove(plan, w, Answer(t));
      }
    } else {
      assert Session.InStep(plan[t], link) && Session.AllFramed(plan[t]);
      Session.NeverStuck(plan[t], link);
      var e :| Session.Enabled(plan[t], link, e);
      assert CanMove(plan, w, Wire(t, e));
    }
  }

  lemma AnswersWellFormed(s: System, t: nat)
    requires Safe(s) && Enabled(s, Return(t))
    ensures WellFormedResponse(s.threads[t].pc.response)
  {
    hide Consistent, ValidRows;
    assert ThreadOk(s.db.clients, s.accepted, s.threads[t]);
  }

  // ---- One connection for each client's pulls ----

  predicate Pulls(requests: seq<Bytes>, c: Id) {
    exists q :: q in requests && IsPull(q, c)
  }

  /** No two connections pull for the same client. */
  ghost predicate OneConnectionEach(plan: Plan) {
    forall t, u, c: Id :: t in plan && u in plan && t != u && Pulls(plan[t], c) ==> !Pulls(plan[u], c)
  }

  lemma ThreadRequestPlanned(plan: Plan, w: World, t: nat)
    requires Linked(plan, w) && t in w.server.threads
    ensures t in plan && w.server.threads[t].data in plan[t] && !w.links[t].client.Idle?
  {
    hide Session.InStep;
    OneOutstanding(plan[t], w.links[t]);
  }

  /** Then lock step keeps pulls apart: no client has two in flight at once. */
  lemma OnePullInFlight(plan: Plan, w: World)
    requires Linked(plan, w) && OneConnectionEach(plan)
    ensures OnePullEach(w.server)
  {
    hide Linked, IsPull;
    var threads := w.server.threads;
    forall t, u | t in threads && u in threads && t != u && |threads[t].data| >= REQUEST_HEADER
                  && IsPull(threads[t].data, Requester(threads[t].data))
      ensures !IsPull(threads[u].data, Requester(threads[t].data))
    {
      ThreadRequestPlanned(plan, w, t);
      ThreadRequestPlanned(plan, w, u);
      assert Pulls(plan[t], Requester(threads[t].data));
    }
  }

  lemma MoveKeepsInOrder(plan: Plan, w: World, m: Move)
    requires AllPlansFramed(plan) && Linked(plan, w) && Safe(w.server) && OneConnectionEach(plan)
    requires CanMove(plan, w, m) && SmallPulls(w.server) && InOrder(w.server)
    ensures InOrder(After(plan, w, m).server)
  {
    hide Safe, Do, Session.Do, Session.Enabled, Linked, InOrder, SmallPulls, OnePullEach, OneConnectionEach;
    OnePullInFlight(plan, w);
    MoveKeepsLinked(plan, w, m);
    OnePullInFlight(plan, After(plan, w, m));
    match m
    case Wire(t, e) =>
    case Accept(t) => DoKeepsInOrder(w.server, Arrive(t, w.links[t].server.data));
    case Work(t, env) => DoKeepsInOrder(w.server, Execute(t, env));
    case Answer(t) => DoKeepsInOrder(w.server, Return(t));
  }

  // ---- What a client has read ----

  /** The exchanges that the client of a connection has seen. */
  function Seen(requests: seq<Bytes>, link: Session.Link): seq<Exchange>
    requires |link.returned| <= |requests|
  {
    seq(|link.returned|, k requires 0 <= k < |link.returned| => Exchange(requests[k], link.returned[k]))
  }

  /** The server's deliveries to client `c` are those made over connection `t`. */
  predicate AllOver(w: World, t: nat, c: Id) {
    t in w.links && Delivered(w.server.log, c) == Delivered(w.links[t].answers, c)
  }

  ghost predicate OnlyConnection(plan: Plan, t: nat, c: Id) {
    t in plan && forall u :: u in plan && u != t ==> !Pulls(plan[u], c)
  }

  lemma OnlyPullsDeliver(s: System, u: nat, c: Id)
    requires Safe(s) && Enabled(s, Return(u)) && !IsPull(s.threads[u].data, c)
    ensures Received(c, s.threads[u].data, s.threads[u].pc.response) == []
  {
    hide Consistent, ValidRows, DecodeRows;
    assert ThreadOk(s.db.clients, s.accepted, s.threads[u]);
  }

  lemma AnswerEffect(plan: Plan, w: World, u: nat)
    requires Linked(plan, w) && CanMove(plan, w, Answer(u))
    ensures var w', th := After(plan, w, Answer(u)), w.server.threads[u];
            var x := Exchange(th.data, th.pc.response);
            && w'.server.log == w.server.log + [x] && w'.links.Keys == w.links.Keys
            && w'.links[u].answers == w.links[u].answers + [x]
            && forall v :: v in w.links && v != u ==> w'.links[v] == w.links[v]
  {
    hide Session.InStep, Session.Do, Session.Enabled;
    HandleEffect(plan[u], w.links[u], w.server.threads[u].pc.response);
  }

  lemma PlannedPull(requests: seq<Bytes>, q: Bytes, c: Id)
    requires q in requests
    ensures IsPull(q, c) ==> Pulls(requests, c)
  {
  }

  lemma NotItsPull(plan: Plan, w: World, u: nat, t: nat, c: Id)
    requires Linked(plan, w) && OnlyConnection(plan, t, c) && u in w.server.threads && u != t
    ensures !IsPull(w.server.threads[u].data, c)
  {
    hide Linked, IsPull;
    ThreadRequestPlanned(plan, w, u);
    PlannedPull(plan[u], w.server.threads[u].data, c);
  }

  lemma AnswerKeepsAllOver(plan: Plan, w: World, u: nat, t: nat, c: Id)
    requires Linked(plan, w) && Safe(w.server) && OnlyConnection(plan, t, c) && AllOver(w, t, c)
    requires CanMove(plan, w, Answer(u))
    ensures AllOver(After(plan, w, Answer(u)), t, c)
  {
    hide Linked, Safe, OnlyConnection, Delivered, Received, IsPull, After, Session.Enabled;
    var th := w.server.threads[u];
    var x := Exchange(th.data, th.pc.response);
    AnswerEffect(plan, w, u);
    DeliveredSnoc(w.server.log, x, c);
    DeliveredSnoc(w.links[t].answers, x, c);
    if u != t {
      NotItsPull(plan, w, u, t, c);
      OnlyPullsDeliver(w.server, u, c);
      assert Delivered(w.server.log, c) + [] == Delivered(w.server.log, c);
    }
  }

  lemma MoveKeepsAllOver(plan: Plan, w: World, m: Move, t: nat, c: Id)
    requires Linked(plan, w) && Safe(w.server) && OnlyConnection(plan, t, c) && AllOver(w, t, c)
    requires CanMove(plan, w, m)
    ensures AllOver(After(plan, w, m), t, c)
  {
    hide Linked, Safe, OnlyConnection, Delivered, Session.Do, Session.Enabled, Step, Begin;
    match m
    case Answer(u) => AnswerKeepsAllOver(plan, w, u, t, c);
    case Wire(u, e) => WireEffect(plan[u], w.links[u], e);
    case _ =>
  }

  /** A run in which no pull's payload reaches 2^32 bytes. */
  ghost predicate SmallRun(plan: Plan, run: seq<World>) {
    IsWorldRun(plan, run) && forall i :: 0 <= i < |run| ==> SmallPulls(run[i].server)
  }

  lemma NextKeepsMail(plan: Plan, w: World, w': World, t: nat, c: Id)
    requires AllPlansFramed(plan) && Linked(plan, w) && Safe(w.server) && Moves(plan, w, w')
    requires OneConnectionEach(plan) && OnlyConnection(plan, t, c) && SmallPulls(w.server)
    requires InOrder(w.server) && AllOver(w, t, c)
    ensures InOrder(w'.server) && AllOver(w', t, c)
  {
    hide Linked, Safe, CanMove, After, InOrder, AllOver, OnlyConnection, OneConnectionEach, SmallPulls;
    var m :| CanMove(plan, w, m) && w' == After(plan, w, m);
    MoveKeepsInOrder(plan, w, m);
    MoveKeepsAllOver(plan, w, m, t, c);
  }

  lemma BeginsMail(plan: Plan, w: World, t: nat, c: Id)
    requires Begins(plan, w) && t in plan
    ensures InOrder(w.server) && AllOver(w, t, c)
  {
    InitInOrder(w.server);
  }

  lemma {:induction false} ReachableMail(plan: Plan, run: seq<World>, t: nat, c: Id)
    requires SmallRun(plan, run) && OneConnectionEach(plan) && OnlyConnection(plan, t, c)
    ensures forall i :: 0 <= i < |run| ==> InOrder(run[i].server) && AllOver(run[i], t, c)
  {
    hide Moves, Begins, Linked, Safe, InOrder, AllOver, SmallPulls, OneConnectionEach;
    assert IsWorldRun(plan, run) && AllPlansFramed(plan) && t in plan;
    if |run| == 1 {
      BeginsMail(plan, run[0], t, c);
    } else {
      var before, n := run[..|run| - 1], |run| - 2;
      WorldPrefix(plan, run);
      ReachableLinked(plan, run);
      hide IsWorldRun;
      assert forall i :: 0 <= i < |before| ==> before[i] == run[i];
      ReachableMail(plan, before, t, c);
      assert before[n] == run[n];
      NextKeepsMail(plan, run[n], run[n + 1], t, c);
    }
  }

  /** At every moment the client has read a prefix of its messages; between its calls, the rest
      of them waits at the server. */
  ghost predicate HasItsMail(plan: Plan, w: World, t: nat, c: Id) {
    && t in plan && t in w.links && |w.links[t].returned| <= |plan[t]|
    && var read, all := Delivered(Seen(plan[t], w.links[t]), c), Waiting(w.server.accepted, c);
       && read <= all && Ascending(all)
       && (w.links[t].client.Idle? ==> read + Waiting(w.server.db.messages, c) == all)
  }

  lemma MailAtRest(plan: Plan, w: World, t: nat, c: Id)
    requires Linked(plan, w) && Safe(w.server) && InOrder(w.server) && AllOver(w, t, c) && OnlyConnection(plan, t, c)
    ensures HasItsMail(plan, w, t, c)
  {
    var s, link := w.server, w.links[t];
    assert Session.InStep(plan[t], link) && Ascending(s.accepted);
    InOrderBalanced(s, c);
    hide Linked, Safe, InOrder, OnlyConnection, Session.InStep, Delivered, Waiting, Taken, Ascending;
    WaitingAscends(s.accepted, c);
    CallsAreAnswers(plan[t], link);
    SeenAnswers(plan[t], link, c);
    var read, got := Delivered(Seen(plan[t], link), c), Delivered(s.log, c);
    PrefixOfAll(read, got, Taken(s, c), Waiting(s.db.messages, c));
    if link.client.Idle? {
      NothingOnItsWay(plan, w, t, c);
    }
  }

  lemma PrefixOfAll(read: seq<MessageRow>, got: seq<MessageRow>, taken: seq<MessageRow>, rest: seq<MessageRow>)
    requires read <= got
    ensures read <= got + taken + rest
    ensures taken == [] ==> got + taken + rest == got + rest
  {
  }

  /** End to end: on the one connection that pulls for it, a client has at every moment read a
      prefix of the messages ever inserted for it, in id order and none twice; and between its
      calls, what it has read and what waits at the server are exactly those messages. */
  lemma ClientReadsItsMail(plan: Plan, run: seq<World>, i: nat, t: nat, c: Id)
    requires SmallRun(plan, run) && i < |run| && OneConnectionEach(plan) && OnlyConnection(plan, t, c)
    ensures HasItsMail(plan, run[i], t, c)
  {
    hide IsWorldRun, Linked, Safe, InOrder, AllOver, OneConnectionEach, OnlyConnection, HasItsMail, SmallPulls;
    ReachableLinked(plan, run);
    ReachableMail(plan, run, t, c);
    MailAtRest(plan, run[i], t, c);
  }

  lemma InOrderBalanced(s: System, c: Id)
    requires InOrder(s)
    ensures Balanced(s, c)
  {
  }

  /** The client has seen all of the answers, or all but the last. */
  lemma SeenAnswers(requests: seq<Bytes>, link: Session.Link, c: Id)
    requires |link.returned| <= |link.answers| <= |link.returned| + 1 && |link.answers| <= |requests|
    requires forall k :: 0 <= k < |link.returned| ==> link.answers[k] == Exchange(requests[k], link.returned[k])
    ensures Delivered(Seen(requests, link), c) <= Delivered(link.answers, c)
    ensures |link.answers| == |link.returned| ==> Seen(requests, link) == link.answers
  {
    hide Delivered, Received;
    var n := |link.returned|;
    assert link.answers[..n] == Seen(requests, link);
    if |link.answers| == n + 1 {
      assert link.answers == link.answers[..n] + [link.answers[n]];
      DeliveredSnoc(link.answers[..n], link.answers[n], c);
    } else {
      assert link.answers[..n] == link.answers;
    }
  }

  lemma NothingOnItsWay(plan: Plan, w: World, t: nat, c: Id)
    requires Linked(plan, w) && Safe(w.server) && OnlyConnection(plan, t, c) && w.links[t].client.Idle?
    ensures Taken(w.server, c) == []
  {
    SafeTakers(w.server);
    forall u | u in w.server.threads ensures !Takes(w.server.threads[u], c) {
      hide Linked, Safe, Takes, IsPull, Ready, OnlyConnection;
      ThreadRequestPlanned(plan, w, u);
      NotItsPull(plan, w, u, t, c);
    }
    hide *;
    NothingTaken(w.server, c);
  }
}
