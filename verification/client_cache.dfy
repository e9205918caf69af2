/** The client's state and its cache of known clients. Every call runs under the cache's lock,
    so another thread's calls can only come between two calls, never inside one. */
module ClientCache {
  import opened ByteStrings
  import opened Protocol

  const SYMMETRIC_KEY_SIZE := 16

  type PublicKey = b: Bytes | |b| == KEY_SIZE witness seq(KEY_SIZE, _ => 0)
  type SymmetricKey = b: Bytes | |b| == SYMMETRIC_KEY_SIZE witness seq(SYMMETRIC_KEY_SIZE, _ => 0)

  datatype Friend = Friend(friendId: Id, name: Bytes, publicKey: Option<PublicKey>, symmetricKey: Option<SymmetricKey>)

  type Cache = map<Id, Friend>

  datatype CacheCall =
    | SetBase(id: Id, name: Bytes)
    | SetPublic(id: Id, publicKey: PublicKey)
    | SetSymmetric(id: Id, symmetricKey: SymmetricKey)

  function Apply(cache: Cache, call: CacheCall): Cache {
    match call
    case SetBase(id, name) =>
      if id in cache then cache[id := cache[id].(friendId := id, name := name)]
      else cache[id := Friend(id, name, None, None)]
    case SetPublic(id, key) => if id in cache then cache[id := cache[id].(publicKey := Some(key))] else cache
    case SetSymmetric(id, key) => if id in cache then cache[id := cache[id].(symmetricKey := Some(key))] else cache
  }

  function ApplyAll(cache: Cache, calls: seq<CacheCall>): Cache
    decreases |calls|
  {
    if calls == [] then cache else ApplyAll(Apply(cache, calls[0]), calls[1..])
  }

  predicate KeysMatch(cache: Cache) {
    forall k :: k in cache ==> cache[k].friendId == k
  }

  /** What no call ever takes back: an entry, a public key, a symmetric key. */
  predicate Keeps(before: Cache, after: Cache) {
    forall k :: k in before ==>
      && k in after
      && (before[k].publicKey.Some? ==> after[k].publicKey.Some?)
      && (before[k].symmetricKey.Some? ==> after[k].symmetricKey.Some?)
  }

  /** Whatever calls other threads make, entries stay filed under their own id, none is removed
      and no key is lost. */
  lemma {:induction false} CallsKeep(cache: Cache, calls: seq<CacheCall>)
    ensures Keeps(cache, ApplyAll(cache, calls))
    ensures KeysMatch(cache) ==> KeysMatch(ApplyAll(cache, calls))
    decreases |calls|
  {
    if calls != [] {
      CallsKeep(Apply(cache, calls[0]), calls[1..]);
    }
  }

  /** What one call changes, field by field, and that it changes nothing else. */
  lemma CallEffect(cache: Cache, call: CacheCall)
    ensures var after, id := Apply(cache, call), call.id;
            && (forall k :: k != id ==> (k in after <==> k in cache) && (k in cache ==> after[k] == cache[k]))
            && (id in after <==> id in cache || call.SetBase?)
            && (id in after ==>
                  var known := id in cache;
                  && after[id].friendId == (if call.SetBase? then id else cache[id].friendId)
                  && after[id].name == (if call.SetBase? then call.name else cache[id].name)
                  && after[id].publicKey == (if call.SetPublic? then Some(call.publicKey)
                                             else if known then cache[id].publicKey else None)
                  && after[id].symmetricKey == (if call.SetSymmetric? then Some(call.symmetricKey)
                                                else if known then cache[id].symmetricKey else None))
  {
  }

  lemma {:induction false} ApplyInTurn(cache: Cache, calls: seq<CacheCall>, more: seq<CacheCall>)
    ensures ApplyAll(cache, calls + more) == ApplyAll(ApplyAll(cache, calls), more)
    decreases |calls|
  {
    if calls == [] {
      assert calls + more == more;
    } else {
      assert (calls + more)[1..] == calls[1..] + more;
      ApplyInTurn(Apply(cache, calls[0]), calls[1..], more);
    }
  }

  predicate Names(call: CacheCall, id: Id) {
    call.SetBase? && call.id == id
  }

  predicate Publishes(call: CacheCall, id: Id) {
    call.SetPublic? && call.id == id
  }

  predicate Shares(call: CacheCall, id: Id) {
    call.SetSymmetric? && call.id == id
  }

  /** A field that no call sets for an entry stays as it is. */
  lemma {:induction false} FieldsKept(cache: Cache, calls: seq<CacheCall>, id: Id)
    requires id in cache
    ensures var after := ApplyAll(cache, calls);
            && id in after
            && ((forall c :: c in calls ==> !Names(c, id)) ==>
                  after[id].name == cache[id].name && after[id].friendId == cache[id].friendId)
            && ((forall c :: c in calls ==> !Publishes(c, id)) ==> after[id].publicKey == cache[id].publicKey)
            && ((forall c :: c in calls ==> !Shares(c, id)) ==> after[id].symmetricKey == cache[id].symmetricKey)
    decreases |calls|
  {
    if calls != [] {
      assert calls[0] in calls && forall c :: c in calls[1..] ==> c in calls;
      CallEffect(cache, calls[0]);
      hide Apply;
      FieldsKept(Apply(cache, calls[0]), calls[1..], id);
    }
  }

  /** Over any sequence of calls, each field of an entry is what the last call that set it said. */
  lemma LastCallWins(cache: Cache, calls: seq<CacheCall>, i: nat)
    requires i < |calls| && (calls[i].SetBase? || calls[i].id in ApplyAll(cache, calls[..i]))
    ensures var after, last, later := ApplyAll(cache, calls), calls[i], calls[i + 1..];
            && last.id in after
            && (last.SetBase? && (forall c :: c in later ==> !Names(c, last.id)) ==> Named(after, last.name, last.id))
            && (last.SetPublic? && (forall c :: c in later ==> !Publishes(c, last.id)) ==>
                  after[last.id].publicKey == Some(last.publicKey))
            && (last.SetSymmetric? && (forall c :: c in later ==> !Shares(c, last.id)) ==>
                  after[last.id].symmetricKey == Some(last.symmetricKey))
  {
    hide Names, Publishes, Shares;
    var before, later := ApplyAll(cache, calls[..i]), calls[i + 1..];
    assert calls == calls[..i] + ([calls[i]] + later) && ([calls[i]] + later)[1..] == later;
    ApplyInTurn(cache, calls[..i], [calls[i]] + later);
    FieldsKept(Apply(before, calls[i]), later, calls[i].id);
  }

  // ---- The order in which the map is visited ----

  /** `std::array`'s order: the first byte that differs decides. */
  predicate LexLess(a: Bytes, b: Bytes) {
    b != [] && (a == [] || a[0] < b[0] || (a[0] == b[0] && LexLess(a[1..], b[1..])))
  }

  lemma {:induction false} LexTotal(a: Bytes, b: Bytes)
    ensures a == b || LexLess(a, b) || LexLess(b, a)
    ensures !(LexLess(a, b) && LexLess(b, a)) && !LexLess(a, a)
  {
    if a != [] && b != [] {
      LexTotal(a[1..], b[1..]);
      LexTotal(a[1..], a[1..]);
      assert a == [a[0]] + a[1..] && b == [b[0]] + b[1..];
    } else if a != [] {
      LexTotal(a[1..], a[1..]);
    }
  }

  lemma {:induction false} LexTransitive(a: Bytes, b: Bytes, c: Bytes)
    requires LexLess(a, b) && LexLess(b, c)
    ensures LexLess(a, c)
  {
    if a != [] && a[0] == b[0] == c[0] {
      LexTransitive(a[1..], b[1..], c[1..]);
    }
  }

  /** For ids, that is: the same up to some byte, and less there. */
  lemma {:induction false} LexFirstDifference(a: Bytes, b: Bytes)
    requires |a| == |b|
    ensures LexLess(a, b) <==> exists n :: 0 <= n < |a| && a[..n] == b[..n] && a[n] < b[n]
  {
    if a != [] {
      var c, d := a[1..], b[1..];
      LexFirstDifference(c, d);
      if a[0] == b[0] && LexLess(c, d) {
        var n :| 0 <= n < |c| && c[..n] == d[..n] && c[n] < d[n];
        assert a[..n + 1] == [a[0]] + c[..n] && b[..n + 1] == [b[0]] + d[..n];
        assert a[n + 1] < b[n + 1];
      }
      if a[0] < b[0] {
        assert a[..0] == b[..0];
      }
      if n :| 0 <= n < |a| && a[..n] == b[..n] && a[n] < b[n] {
        if n > 0 {
          assert a[..n][0] == a[0] && b[..n][0] == b[0];
          assert c[..n - 1] == a[..n][1..] && d[..n - 1] == b[..n][1..] && c[n - 1] < d[n - 1];
        }
      }
    }
  }

  predicate Least(k: Id, ids: set<Id>) {
    k in ids && forall j :: j in ids && j != k ==> LexLess(k, j)
  }

  lemma {:induction false} LeastExists(ids: set<Id>)
    requires ids != {}
    ensures exists k :: k in ids && Least(k, ids)
  {
    var x :| x in ids;
    var rest := ids - {x};
    assert forall j :: j in ids ==> j == x || j in rest;
    if rest == {} {
      assert Least(x, ids);
    } else {
      LeastExists(rest);
      var k :| k in rest && Least(k, rest);
      LexTotal(x, k);
      if LexLess(x, k) {
        forall j | j in ids && j != x ensures LexLess(x, j) {
          if j != k {
            LexTransitive(x, k, j);
          }
        }
        assert Least(x, ids);
      } else {
        assert Least(k, ids);
      }
    }
  }

  /** The friend that a search by name finds: of those with that name, the one of least id. */
  ghost predicate FirstNamed(cache: Cache, name: Bytes, id: Id) {
    Named(cache, name, id) && forall k: Id :: Named(cache, name, k) && k != id ==> LexLess(id, k)
  }

  predicate Named(cache: Cache, name: Bytes, id: Id) {
    id in cache && cache[id].name == name
  }

  /** There is at most one such friend. */
  lemma FirstNamedUnique(cache: Cache, name: Bytes, a: Id, b: Id)
    requires FirstNamed(cache, name, a) && FirstNamed(cache, name, b)
    ensures a == b
  {
    LexTotal(a, b);
  }

  predicate HasSymmetricKey(cache: Cache, id: Id) {
    id in cache && cache[id].symmetricKey.Some?
  }

  predicate HasPublicKey(cache: Cache, id: Id) {
    id in cache && cache[id].publicKey.Some?
  }

  lemma GateIsFinal(cache: Cache, id: Id)
    ensures HasSymmetricKey(cache, id) <==> forall calls :: HasSymmetricKey(ApplyAll(cache, calls), id)
    ensures HasPublicKey(cache, id) <==> forall calls :: HasPublicKey(ApplyAll(cache, calls), id)
  {
    assert ApplyAll(cache, []) == cache;
    forall calls
      ensures HasSymmetricKey(cache, id) ==> HasSymmetricKey(ApplyAll(cache, calls), id)
      ensures HasPublicKey(cache, id) ==> HasPublicKey(ApplyAll(cache, calls), id)
    {
      CallsKeep(cache, calls);
    }
    if !HasSymmetricKey(cache, id) {
      assert !HasSymmetricKey(ApplyAll(cache, []), id);
    }
    if !HasPublicKey(cache, id) {
      assert !HasPublicKey(ApplyAll(cache, []), id);
    }
  }

  class ClientContext {
    var clientId: Id
    var userName: Bytes
    var privateKey: Bytes
    var friends: Cache

    constructor ()
      ensures clientId == seq(ID_SIZE, _ => 0) && userName == [] && privateKey == [] && friends == map[]
    {
      clientId, userName, privateKey, friends := seq(ID_SIZE, _ => 0), [], [], map[];
    }

    method HasClientId() returns (has: bool)
      ensures has <==> exists b :: b in clientId && b != 0
    {
      for i := 0 to |clientId|
        invariant forall j :: 0 <= j < i ==> clientId[j] == 0
      {
        if clientId[i] != 0 {
          assert clientId[i] in clientId;
          return true;
        }
      }
      return false;
    }

    method SetFriendBase(id: Id, name: Bytes)
      modifies this`friends
      ensures friends == Apply(old(friends), SetBase(id, name))
    {
      if id !in friends {
        friends := friends[id := Friend(seq(ID_SIZE, _ => 0), [], None, None)];
      }
      friends := friends[id := friends[id].(friendId := id)];
      friends := friends[id := friends[id].(name := name)];
    }

    method SetFriendPublicKey(id: Id, key: PublicKey)
      modifies this`friends
      ensures friends == Apply(old(friends), SetPublic(id, key))
    {
      if id !in friends {
        return;
      }
      friends := friends[id := friends[id].(publicKey := Some(key))];
    }

    method SetFriendSymmetricKey(id: Id, key: SymmetricKey)
      modifies this`friends
      ensures friends == Apply(old(friends), SetSymmetric(id, key))
    {
      if id !in friends {
        return;
      }
      friends := friends[id := friends[id].(symmetricKey := Some(key))];
    }

    method TryGetFriendCopy(id: Id) returns (r: Option<Friend>)
      ensures r == if id in friends then Some(friends[id]) else None
    {
      r := if id in friends then Some(friends[id]) else None;
    }

    /** The loop over the map, in the order of its keys. */
    method TryGetFriendIdByName(name: Bytes) returns (r: Option<Id>)
      ensures r.Some? ==> exists k: Id :: FirstNamed(friends, name, k) && friends[k].friendId == r.value
      ensures r.None? ==> forall k: Id :: !Named(friends, name, k)
    {
      var todo := friends.Keys;
      while todo != {}
        invariant todo <= friends.Keys
        invariant forall k: Id :: Named(friends, name, k) ==> k in todo
        decreases todo
      {
        LeastExists(todo);
        var k :| k in todo && Least(k, todo);
        if friends[k].name == name {
          assert FirstNamed(friends, name, k);
          return Some(friends[k].friendId);
        }
        todo := todo - {k};
      }
      return None;
    }

    /** The answer holds for good: yes exactly when the key is there whatever calls come next. */
    method CanSendText(id: Id) returns (can: bool)
      ensures can <==> forall calls :: HasSymmetricKey(ApplyAll(friends, calls), id)
    {
      can := id in friends && friends[id].symmetricKey.Some?;
      GateIsFinal(friends, id);
    }

    method CanSendSymmetricKey(id: Id) returns (can: bool)
      ensures can <==> forall calls :: HasPublicKey(ApplyAll(friends, calls), id)
    {
      can := id in friends && friends[id].publicKey.Some?;
      GateIsFinal(friends, id);
    }

    /** Another thread's calls, between two of this thread's own. */
    method Interfere(calls: seq<CacheCall>)
      modifies this`friends
      ensures friends == ApplyAll(old(friends), calls)
    {
      var i := 0;
      while i < |calls|
        invariant 0 <= i <= |calls|
        invariant ApplyAll(friends, calls[i..]) == ApplyAll(old(friends), calls)
        decreases |calls| - i
      {
        assert calls[i..][1..] == calls[i + 1..];
        match calls[i] {
          case SetBase(id, name) => SetFriendBase(id, name);
          case SetPublic(id, key) => SetFriendPublicKey(id, key);
          case SetSymmetric(id, key) => SetFriendSymmetricKey(id, key);
        }
        i := i + 1;
      }
    }
  }
}
