/** A thread that no other thread interrupts: the handler's methods, which run a whole request
    against the database, are one of the interleavings of the running server. */
module Serial {
  import opened ByteStrings
  import opened Protocol
  import opened DatabaseModel
  import opened Handler
  import opened Mailbox
  import opened Delivery

  ghost predicate IsPath(path: seq<System>) {
    path != [] && forall i :: 0 <= i < |path| - 1 ==> Next(path[i], path[i + 1])
  }

  lemma SinglePath(s: System)
    ensures IsPath([s])
  {
  }

  lemma PathSnoc(path: seq<System>, a: Action)
    requires IsPath(path) && Enabled(path[|path| - 1], a)
    ensures IsPath(path + [Do(path[|path| - 1], a)])
  {
    var longer := path + [Do(path[|path| - 1], a)];
    forall i | 0 <= i < |longer| - 1 ensures Next(longer[i], longer[i + 1]) {
      if i < |path| - 1 {
        assert Next(path[i], path[i + 1]);
      }
    }
  }

  function Answering(th: Thread, response: Bytes): Thread {
    Serving(th.data, Finished(response))
  }

  function Alone(s: System, th: Thread, env: nat -> Env, k: nat): (Bytes, Tables) {
    RunAlone(th.data, th.pc, s.db, env, k)
  }

  /** Thread `t` of `s` has gone from where it stood to the response of `RunAlone`. */
  ghost predicate Served(s: System, t: nat, env: nat -> Env, k: nat, end: System) {
    t in s.threads
    && var th := s.threads[t];
       var (response, db) := Alone(s, th, env, k);
       && end.db == db && end.log == s.log
       && end.threads == s.threads[t := Answering(th, response)]
  }

  lemma ServedNext(s: System, t: nat, env: nat -> Env, k: nat, end: System)
    requires Enabled(s, Execute(t, env(k))) && Served(Do(s, Execute(t, env(k))), t, env, k + 1, end)
    ensures Served(s, t, env, k, end)
  {
    hide Step, Ready;
  }

  /** Serving a request without interruption is one of the interleavings: it ends with the
      response and the tables that `RunAlone` computes. */
  lemma {:induction false} ServedAlone(s: System, t: nat, env: nat -> Env, k: nat) returns (path: seq<System>)
    requires t in s.threads
    ensures path != [] && IsPath(path) && path[0] == s
    ensures Served(s, t, env, k, path[|path| - 1])
    decreases Rank(s.threads[t].pc)
  {
    hide Step, Ready, Served, IsPath;
    if s.threads[t].pc.Finished? {
      path := [s];
      SinglePath(s);
      ServedAlready(s, t, env, k);
    } else {
      var s' := Do(s, Execute(t, env(k)));
      StepRanks(s.threads[t].data, s.threads[t].pc, s.db, env(k));
      var rest := ServedAlone(s', t, env, k + 1);
      path := [s] + rest;
      assert Next(s, s') by {
        assert Enabled(s, Execute(t, env(k)));
      }
      PathCons(s, rest);
      ServedNext(s, t, env, k, rest[|rest| - 1]);
    }
  }

  lemma ServedAlready(s: System, t: nat, env: nat -> Env, k: nat)
    requires t in s.threads && s.threads[t].pc.Finished?
    ensures Served(s, t, env, k, s)
  {
  }

  lemma PathCons(s: System, rest: seq<System>)
    requires IsPath(rest) && Next(s, rest[0])
    ensures IsPath([s] + rest)
  {
  }

  /** Two paths that meet make one. */
  lemma PathJoin(path: seq<System>, more: seq<System>)
    requires IsPath(path) && IsPath(more) && path[|path| - 1] == more[0]
    ensures IsPath(path + more[1..])
    ensures (path + more[1..])[|path + more[1..]| - 1] == more[|more| - 1]
  {
    var joined := path + more[1..];
    forall i | 0 <= i < |joined| - 1 ensures Next(joined[i], joined[i + 1]) {
      if i < |path| - 1 {
        assert Next(path[i], path[i + 1]);
      } else {
        var j := i - (|path| - 1);
        assert Next(more[j], more[j + 1]);
      }
    }
  }
}
