/** The client's menu actions: the payloads they build, and the key exchange while another
    thread changes the cache. */
module ClientActions {
  import opened ByteStrings
  import opened Protocol
  import opened ClientMessage
  import opened ClientCache

  /** The wrappers around the cryptographic library. OAEP padding draws on a random pool, so
      encryption with a public key takes a seed; it throws when the 160 bytes, which the server
      never looks into, do not load as a key. */
  datatype Crypto = Crypto(aes: (SymmetricKey, Bytes) -> Bytes,
                           aesDecrypt: (SymmetricKey, Bytes) -> Option<Bytes>,
                           rsa: (PublicKey, Bytes, Bytes) -> Option<Bytes>,
                           rsaDecrypt: (Bytes, Bytes) -> Option<Bytes>)

  datatype KeyPair = KeyPair(privateKey: Bytes, publicKey: PublicKey)

  predicate ValidUsername(name: Bytes) {
    name != [] && |name| < NAME_SIZE && Ascii(name)
  }

  method IsValidUsername(name: Bytes) returns (valid: bool)
    ensures valid <==> ValidUsername(name)
    ensures valid <==> 1 <= |name| <= 254 && forall i :: 0 <= i < |name| ==> name[i] <= 127
  {
    if name == [] || |name| >= NAME_SIZE {
      return false;
    }
    for i := 0 to |name|
      invariant forall j :: 0 <= j < i ==> name[j] <= 127
    {
      if name[i] > 127 {
        assert name[i] in name;
        return false;
      }
    }
    return true;
  }

  const CANCEL: Bytes := [48] // "0"

  predicate Acceptance(line: Bytes) {
    line == CANCEL || ValidUsername(line)
  }

  /** The prompt loop: the first line that is "0" or a valid name; `None` when the input ends
      first, where the source would prompt forever. */
  method GetValidUsername(lines: seq<Bytes>) returns (name: Option<Bytes>)
    ensures name.None? ==> forall l :: l in lines ==> !Acceptance(l)
    ensures name.Some? ==> exists i :: 0 <= i < |lines| && lines[i] == name.value && Acceptance(lines[i])
                                       && forall j :: 0 <= j < i ==> !Acceptance(lines[j])
  {
    for i := 0 to |lines|
      invariant forall j :: 0 <= j < i ==> !Acceptance(lines[j])
    {
      if lines[i] == CANCEL {
        return Some(CANCEL);
      }
      var valid := IsValidUsername(lines[i]);
      if valid {
        return Some(lines[i]);
      }
    }
    return None;
  }

  // ---- Requests ----

  function PadTo(name: Bytes, size: nat): (field: Bytes)
    requires |name| <= size
    ensures |field| == size
  {
    name + seq(size - |name|, _ => 0)
  }

  function RegisterRequest(id: Id, name: Bytes, key: PublicKey): Bytes
    requires |name| < NAME_SIZE
  {
    Request(id, CLIENT_VERSION, REQUEST_REGISTER, PadTo(name, NAME_SIZE) + key)
  }

  function SendRequest(id: Id, target: Id, kind: byte, content: Bytes): Bytes {
    Request(id, CLIENT_VERSION, REQUEST_SEND_MESSAGE, target + [kind] + Le(|content|, 4) + content)
  }

  /** The name is copied into a zeroed 255-byte array and terminated; an invalid name would
      overrun it, but the prompt lets none through. */
  method HandleRegister(ctx: ClientContext, name: Bytes, keys: KeyPair) returns (buffer: Bytes)
    requires Acceptance(name)
    modifies ctx`userName, ctx`privateKey
    ensures var registered := exists b :: b in ctx.clientId && b != 0;
            && buffer == (if registered then [] else RegisterRequest(ctx.clientId, name, keys.publicKey))
            && ctx.userName == (if registered then old(ctx.userName) else name)
            && ctx.privateKey == (if registered then old(ctx.privateKey) else keys.privateKey)
  {
    var registered := ctx.HasClientId();
    if registered {
      return [];
    }
    ctx.userName := name;
    var nameField := new byte[NAME_SIZE](_ => 0);
    var copied := if |name| < NAME_SIZE - 1 then |name| else NAME_SIZE - 1;
    forall i | 0 <= i < copied {
      nameField[i] := name[i];
    }
    nameField[|name|] := 0;
    assert nameField[..] == PadTo(name, NAME_SIZE);
    ctx.privateKey := keys.privateKey;
    var msg := new Message(ctx.clientId, 700, nameField[..] + keys.publicKey);
    buffer := msg.CreateBuffer();
  }

  method HandleClientList(ctx: ClientContext) returns (buffer: Bytes)
    ensures buffer == Request(ctx.clientId, CLIENT_VERSION, REQUEST_CLIENTS_LIST, [])
  {
    var msg := new Message(ctx.clientId, 701, []);
    buffer := msg.CreateBuffer();
  }

  method HandleWaitingMessages(ctx: ClientContext) returns (buffer: Bytes)
    ensures buffer == Request(ctx.clientId, CLIENT_VERSION, REQUEST_WAITING_MESSAGES, [])
  {
    var msg := new Message(ctx.clientId, 704, []);
    buffer := msg.CreateBuffer();
  }

  method HandlePublicKey(ctx: ClientContext, name: Bytes) returns (buffer: Bytes)
    requires KeysMatch(ctx.friends)
    ensures buffer == [] <==> name == CANCEL || forall k: Id :: !Named(ctx.friends, name, k)
    ensures buffer != [] ==> exists k: Id :: FirstNamed(ctx.friends, name, k)
                               && buffer == Request(ctx.clientId, CLIENT_VERSION, REQUEST_PUBLIC_KEY, k)
  {
    if name == CANCEL {
      return [];
    }
    var id := ctx.TryGetFriendIdByName(name);
    if id.None? {
      return [];
    }
    assert FirstNamed(ctx.friends, name, id.value) && Named(ctx.friends, name, id.value);
    var msg := new Message(ctx.clientId, 702, id.value);
    buffer := msg.CreateBuffer();
  }

  // ---- Contents ----

  /** The lines typed before the first empty one, each ended by a newline. */
  function Typed(lines: seq<Bytes>): Bytes {
    if lines == [] || lines[0] == [] then [] else lines[0] + [10] + Typed(lines[1..])
  }

  /** `static_cast<unsigned int>(msg.size())`: so much of the text is encrypted. */
  function Clipped(text: Bytes): Bytes {
    text[..|text| % TWO_32]
  }

  function TextContent(cache: Cache, target: Id, text: Bytes, crypto: Crypto): Bytes {
    if text == [] || !HasSymmetricKey(cache, target) then []
    else crypto.aes(cache[target].symmetricKey.value, Clipped(text))
  }

  /** `others` are the calls that other threads make while the user types. */
  method HandleSendText(ctx: ClientContext, target: Id, lines: seq<Bytes>, crypto: Crypto, others: seq<CacheCall>)
    returns (content: Bytes)
    modifies ctx`friends
    ensures ctx.friends == ApplyAll(old(ctx.friends), others)
    ensures content == TextContent(ctx.friends, target, Typed(lines), crypto)
  {
    ctx.Interfere(others);
    var msg: Bytes := [];
    var i := 0;
    while i < |lines| && lines[i] != []
      invariant 0 <= i <= |lines|
      invariant msg + Typed(lines[i..]) == Typed(lines)
      decreases |lines| - i
    {
      assert lines[i..][1..] == lines[i + 1..];
      assert msg + (lines[i] + [10] + Typed(lines[i + 1..])) == msg + lines[i] + [10] + Typed(lines[i + 1..]);
      msg := msg + lines[i];
      msg := msg + [10];
      i := i + 1;
    }
    assert Typed(lines[i..]) == [] && msg + [] == msg;
    if msg == [] {
      return [];
    }
    var friend := ctx.TryGetFriendCopy(target);
    if friend.None? {
      return [];
    }
    if friend.value.symmetricKey.None? {
      return [];
    }
    return crypto.aes(friend.value.symmetricKey.value, Clipped(msg));
  }

  /** What other threads do before the copy, between the copy and the store, and after it. */
  datatype Others = Others(before: seq<CacheCall>, between: seq<CacheCall>, after: seq<CacheCall>)

  /** `Failed` is the exception of a public key that does not load. */
  function KeyContent(cache: Cache, target: Id, newKey: SymmetricKey, seed: Bytes, crypto: Crypto): Result<Bytes> {
    if !HasPublicKey(cache, target) then Ok([])
    else match crypto.rsa(cache[target].publicKey.value, newKey, seed)
         case None => Failed
         case Some(wrapped) => Ok(wrapped)
  }

  /** Key material leaves only wrapped: without a public key there is no content, and with one any
      content is the new key wrapped for it. */
  lemma KeyLeavesWrapped(cache: Cache, target: Id, newKey: SymmetricKey, seed: Bytes, crypto: Crypto)
    ensures var content := KeyContent(cache, target, newKey, seed, crypto);
            && (content.Ok? && content.value != [] ==>
                  target in cache && cache[target].publicKey.Some?
                  && crypto.rsa(cache[target].publicKey.value, newKey, seed) == Some(content.value))
            && (target !in cache || cache[target].publicKey.None? ==> content == Ok([]))
  {
  }

  /** The key is stored before it is wrapped. */
  method HandleSendSymmetricKey(ctx: ClientContext, target: Id, newKey: SymmetricKey, seed: Bytes, crypto: Crypto, others: Others)
    returns (content: Result<Bytes>, stored: bool)
    modifies ctx`friends
    ensures var seen := ApplyAll(old(ctx.friends), others.before);
            && stored == HasPublicKey(seen, target)
            && content == KeyContent(seen, target, newKey, seed, crypto)
            && (!stored ==> content == Ok([]))
            && ctx.friends ==
               (if stored then ApplyAll(Apply(ApplyAll(seen, others.between), SetSymmetric(target, newKey)), others.after)
                else seen)
  {
    ctx.Interfere(others.before);
    var friend := ctx.TryGetFriendCopy(target);
    if friend.None? || friend.value.publicKey.None? {
      return Ok([]), false;
    }
    ctx.Interfere(others.between);
    ctx.SetFriendSymmetricKey(target, newKey);
    ctx.Interfere(others.after);
    var cipher := crypto.rsa(friend.value.publicKey.value, newKey, seed);
    if cipher.None? {
      return Failed, true;
    }
    return Ok(cipher.value), true;
  }

  /** For a target found by name, the generated key is never silently dropped: the store always
      finds the entry, changes nothing else, and the content wraps that very key for that
      entry's public key, whatever other threads did in between. */
  lemma StoredKeyIsWrappedKey(cache: Cache, target: Id, newKey: SymmetricKey, seed: Bytes, crypto: Crypto, others: Others)
    requires KeysMatch(cache) && target in cache
    ensures var seen := ApplyAll(cache, others.before);
            var ready := ApplyAll(seen, others.between);
            var stored := Apply(ready, SetSymmetric(target, newKey));
            && target in seen && target in ready
            && (seen[target].publicKey.Some? ==>
                  && (KeyContent(seen, target, newKey, seed, crypto).Ok? ==>
                        crypto.rsa(seen[target].publicKey.value, newKey, seed)
                        == Some(KeyContent(seen, target, newKey, seed, crypto).value))
                  && stored == ready[target := ready[target].(symmetricKey := Some(newKey))]
                  && stored[target].symmetricKey == Some(newKey) && stored[target].friendId == target)
            && HasSymmetricKey(ApplyAll(stored, others.after), target)
  {
    var seen := ApplyAll(cache, others.before);
    var ready := ApplyAll(seen, others.between);
    CallsKeep(cache, others.before);
    CallsKeep(seen, others.between);
    CallsKeep(Apply(ready, SetSymmetric(target, newKey)), others.after);
  }

  /** The gates are worth asking: after a yes, whatever other threads do, a text goes out under
      the key then present and a key is wrapped for the public key then present, unless that one
      does not load. */
  lemma OpenGateSends(cache: Cache, target: Id, calls: seq<CacheCall>, lines: seq<Bytes>, newKey: SymmetricKey, seed: Bytes, crypto: Crypto)
    requires Typed(lines) != []
    ensures var seen := ApplyAll(cache, calls);
            && (HasSymmetricKey(cache, target) ==>
                  target in seen && seen[target].symmetricKey.Some?
                  && TextContent(seen, target, Typed(lines), crypto)
                     == crypto.aes(seen[target].symmetricKey.value, Clipped(Typed(lines))))
            && (HasPublicKey(cache, target) ==>
                  target in seen && seen[target].publicKey.Some?
                  && (KeyContent(seen, target, newKey, seed, crypto).Failed?
                      <==> crypto.rsa(seen[target].publicKey.value, newKey, seed).None?))
  {
    CallsKeep(cache, calls);
  }

  datatype Send =
    | Text(lines: seq<Bytes>)
    | AskForKey
    | SendKey(newKey: SymmetricKey, seed: Bytes)

  function KindOf(send: Send): byte {
    match send
    case Text(_) => TEXT_MESSAGE
    case AskForKey => KEY_REQUEST
    case SendKey(_, _) => KEY_SEND
  }

  /** The content of each kind of message, from the cache as the action's copy finds it. */
  function ContentOf(send: Send, cache: Cache, target: Id, crypto: Crypto): Result<Bytes> {
    match send
    case Text(lines) => Ok(TextContent(cache, target, Typed(lines), crypto))
    case AskForKey => Ok([])
    case SendKey(newKey, seed) => KeyContent(cache, target, newKey, seed, crypto)
  }

  /** The cache after the action and what other threads did meanwhile. */
  function CacheAfter(send: Send, cache: Cache, target: Id, others: Others): Cache {
    if send.AskForKey? then cache
    else
      var seen := ApplyAll(cache, others.before);
      if send.SendKey? && HasPublicKey(seen, target)
      then ApplyAll(Apply(ApplyAll(seen, others.between), SetSymmetric(target, send.newKey)), others.after)
      else seen
  }

  /** The branch of `handleAllMessages` on the message code. */
  method BuildContent(ctx: ClientContext, target: Id, send: Send, crypto: Crypto, others: Others) returns (content: Result<Bytes>)
    modifies ctx`friends
    ensures var seen := if send.AskForKey? then old(ctx.friends) else ApplyAll(old(ctx.friends), others.before);
            content == ContentOf(send, seen, target, crypto)
    ensures ctx.friends == CacheAfter(send, old(ctx.friends), target, others)
  {
    match send {
      case Text(lines) =>
        var cipher := HandleSendText(ctx, target, lines, crypto, others.before);
        content := Ok(cipher);
      case AskForKey => content := Ok([]);
      case SendKey(newKey, seed) =>
        var stored: bool;
        content, stored := HandleSendSymmetricKey(ctx, target, newKey, seed, crypto, others);
    }
  }

  method BuildSend(ctx: ClientContext, target: Id, kind: byte, content: Bytes) returns (buffer: Bytes)
    ensures buffer == SendRequest(ctx.clientId, target, kind, content)
  {
    var buf := new ByteBuffer();
    buf.Append(target);
    buf.PushBack(kind);
    var size := CastSize(|content|);
    AppendUint32LE(buf, size);
    Pow256Values();
    LeOfRemainder(|content|, 4);
    buf.Append(content);
    var msg := new Message(ctx.clientId, 703, buf.data);
    buffer := msg.CreateBuffer();
  }

  /** A request with that content, or none if the content is empty. */
  predicate Sends(buffer: Result<Bytes>, from: Id, to: Id, kind: byte, content: Bytes) {
    buffer == Ok(if content == [] then [] else SendRequest(from, to, kind, content))
  }

  /** `target` is the friend that the name was resolved to; `Failed` is an exception that leaves
      the action after the key was stored. */
  method HandleAllMessages(ctx: ClientContext, name: Bytes, send: Send, crypto: Crypto, others: Others)
    returns (buffer: Result<Bytes>, target: Option<Id>)
    requires KeysMatch(ctx.friends)
    modifies ctx`friends
    ensures target.None? <==> name == CANCEL || forall k: Id :: !Named(old(ctx.friends), name, k)
    ensures target.Some? ==> FirstNamed(old(ctx.friends), name, target.value)
    ensures target.None? ==> buffer == Ok([]) && ctx.friends == old(ctx.friends)
    ensures target.Some? ==> ctx.friends == CacheAfter(send, old(ctx.friends), target.value, others)
    ensures target.Some? ==>
              var id, seen := target.value, ApplyAll(old(ctx.friends), others.before);
              match send
              case AskForKey => buffer == Ok(SendRequest(ctx.clientId, id, 1, [])) && ctx.friends == old(ctx.friends)
              case SendKey(newKey, seed) =>
                if !HasPublicKey(seen, id) then buffer == Ok([]) && ctx.friends == seen
                else (match crypto.rsa(seen[id].publicKey.value, newKey, seed)
                      case None => buffer == Failed
                      case Some(wrapped) => Sends(buffer, ctx.clientId, id, 2, wrapped))
              case Text(lines) =>
                if Typed(lines) == [] || !HasSymmetricKey(seen, id) then buffer == Ok([])
                else Sends(buffer, ctx.clientId, id, 3, crypto.aes(seen[id].symmetricKey.value, Clipped(Typed(lines))))
  {
    if name == CANCEL {
      return Ok([]), None;
    }
    target := ctx.TryGetFriendIdByName(name);
    if target.None? {
      return Ok([]), None;
    }
    assert FirstNamed(ctx.friends, name, target.value) && Named(ctx.friends, name, target.value);
    var content := BuildContent(ctx, target.value, send, crypto, others);
    if content.Failed? {
      return Failed, target;
    }
    if content.value == [] && !send.AskForKey? {
      return Ok([]), target;
    }
    var request := BuildSend(ctx, target.value, KindOf(send), content.value);
    buffer := Ok(request);
  }

  predicate NoKeyFor(calls: seq<CacheCall>, id: Id) {
    forall c :: c in calls ==> !Shares(c, id)
  }

  /** A key that cannot be wrapped is in use all the same: exactly when the public key does not
      load, the action throws after storing the new key, and texts then go out under a key that
      no message has carried. */
  lemma ThrowLeavesKey(cache: Cache, target: Id, newKey: SymmetricKey, seed: Bytes, lines: seq<Bytes>, crypto: Crypto, others: Others)
    requires KeysMatch(cache) && HasPublicKey(ApplyAll(cache, others.before), target) && target in cache
    requires NoKeyFor(others.after, target) && Typed(lines) != []
    ensures var seen := ApplyAll(cache, others.before);
            var after := CacheAfter(SendKey(newKey, seed), cache, target, others);
            && (ContentOf(SendKey(newKey, seed), seen, target, crypto).Failed?
                <==> crypto.rsa(seen[target].publicKey.value, newKey, seed).None?)
            && target in after && after[target].symmetricKey == Some(newKey)
            && TextContent(after, target, Typed(lines), crypto) == crypto.aes(newKey, Clipped(Typed(lines)))
  {
    StoredKeyIsWrappedKey(cache, target, newKey, seed, crypto, others);
    var ready := ApplyAll(ApplyAll(cache, others.before), others.between);
    OtherKeysKept(Apply(ready, SetSymmetric(target, newKey)), others.after, target);
  }

  // ---- What the recipient makes of it ----

  /** The private key opens what the public key wrapped. */
  predicate Opens(crypto: Crypto, keys: KeyPair, key: SymmetricKey, seed: Bytes) {
    var wrapped := crypto.rsa(keys.publicKey, key, seed);
    wrapped.Some? && crypto.rsaDecrypt(keys.privateKey, wrapped.value) == Some(key)
  }

  predicate Decrypts(crypto: Crypto, key: SymmetricKey, text: Bytes) {
    crypto.aesDecrypt(key, crypto.aes(key, text)) == Some(text)
  }

  /** Taking in a key message: decrypt, check the size, make an entry if there is none, store. */
  function TakeKey(cache: Cache, privateKey: Bytes, from: Id, content: Bytes, crypto: Crypto): Cache {
    match crypto.rsaDecrypt(privateKey, content)
    case None => cache
    case Some(key) =>
      if |key| != SYMMETRIC_KEY_SIZE then cache
      else Apply(if from in cache then cache else Apply(cache, SetBase(from, [])), SetSymmetric(from, key))
  }

  function ReadText(cache: Cache, from: Id, content: Bytes, crypto: Crypto): Option<Bytes> {
    if from !in cache || cache[from].symmetricKey.None? then None
    else crypto.aesDecrypt(cache[from].symmetricKey.value, content)
  }

  /** The documented flow, end to end: when B knows A's public key and has received A's mail in
      order, the key that B sends is the key that A stores for B, and what A reads of a text that
      B then sends is its first `|text| % 2^32` bytes, as long as neither side replaces that key
      meanwhile. */
  lemma KeyExchangeOpensTexts(a: Id, b: Id, keys: KeyPair, cacheA: Cache, cacheB: Cache, newKey: SymmetricKey, seed: Bytes,
                              lines: seq<Bytes>, crypto: Crypto, others: Others, callsA: seq<CacheCall>)
    requires KeysMatch(cacheB) && a in cacheB && Typed(lines) != []
    requires Opens(crypto, keys, newKey, seed) && Decrypts(crypto, newKey, Clipped(Typed(lines)))
    requires var seen := ApplyAll(cacheB, others.before);
             a in seen && seen[a].publicKey == Some(keys.publicKey)
    requires NoKeyFor(others.after, a) && NoKeyFor(callsA, b)
    ensures var seen := ApplyAll(cacheB, others.before);
            var storedB := CacheAfter(SendKey(newKey, seed), cacheB, a, others);
            var sent := KeyContent(seen, a, newKey, seed, crypto);
            && sent.Ok?
            && var storedA := ApplyAll(TakeKey(cacheA, keys.privateKey, b, sent.value, crypto), callsA);
               && b in storedA && a in storedB && storedA[b].symmetricKey == storedB[a].symmetricKey == Some(newKey)
               && ReadText(storedA, b, TextContent(storedB, a, Typed(lines), crypto), crypto) == Some(Clipped(Typed(lines)))
               && (Clipped(Typed(lines)) == Typed(lines) <==> |Typed(lines)| < TWO_32)
  {
    StoredKeyIsWrappedKey(cacheB, a, newKey, seed, crypto, others);
    var seen := ApplyAll(cacheB, others.before);
    var taken := TakeKey(cacheA, keys.privateKey, b, KeyContent(seen, a, newKey, seed, crypto).value, crypto);
    OtherKeysKept(taken, callsA, b);
    OtherKeysKept(Apply(ApplyAll(seen, others.between), SetSymmetric(a, newKey)), others.after, a);
  }

  /** One side of an exchange in which both sides send a key: it stores its own and takes in the
      peer's, in either order. */
  function AfterBoth(cache: Cache, peer: Id, own: SymmetricKey, privateKey: Bytes, received: Bytes, sendsFirst: bool,
                     gap: seq<CacheCall>, after: seq<CacheCall>, crypto: Crypto): Cache
  {
    if sendsFirst
    then ApplyAll(TakeKey(ApplyAll(Apply(cache, SetSymmetric(peer, own)), gap), privateKey, peer, received, crypto), after)
    else ApplyAll(Apply(ApplyAll(TakeKey(cache, privateKey, peer, received, crypto), gap), SetSymmetric(peer, own)), after)
  }

  lemma LaterKeyStays(cache: Cache, peer: Id, own: SymmetricKey, keys: KeyPair, other: SymmetricKey, seed: Bytes,
                      sendsFirst: bool, gap: seq<CacheCall>, after: seq<CacheCall>, crypto: Crypto)
    requires peer in cache && Opens(crypto, keys, other, seed) && NoKeyFor(after, peer)
    ensures var end := AfterBoth(cache, peer, own, keys.privateKey, crypto.rsa(keys.publicKey, other, seed).value,
                                 sendsFirst, gap, after, crypto);
            peer in end && end[peer].symmetricKey == Some(if sendsFirst then other else own)
  {
    var received := crypto.rsa(keys.publicKey, other, seed).value;
    if sendsFirst {
      var sent := ApplyAll(Apply(cache, SetSymmetric(peer, own)), gap);
      CallsKeep(Apply(cache, SetSymmetric(peer, own)), gap);
      OtherKeysKept(TakeKey(sent, keys.privateKey, peer, received, crypto), after, peer);
    } else {
      var taken := TakeKey(cache, keys.privateKey, peer, received, crypto);
      CallsKeep(taken, gap);
      OtherKeysKept(Apply(ApplyAll(taken, gap), SetSymmetric(peer, own)), after, peer);
    }
  }

  /** When both sides send a key, they end up with the same one exactly if the keys are equal or
      one side had taken in the other's before it sent its own; when the messages cross, each
      ends with the key that the other has given up. */
  lemma CrossingExchanges(a: Id, b: Id, keysA: KeyPair, keysB: KeyPair, cacheA: Cache, cacheB: Cache,
                          keyA: SymmetricKey, keyB: SymmetricKey, seedA: Bytes, seedB: Bytes, firstA: bool, firstB: bool,
                          gapA: seq<CacheCall>, afterA: seq<CacheCall>, gapB: seq<CacheCall>, afterB: seq<CacheCall>, crypto: Crypto)
    requires b in cacheA && a in cacheB
    requires Opens(crypto, keysB, keyA, seedA) && Opens(crypto, keysA, keyB, seedB)
    requires NoKeyFor(afterA, b) && NoKeyFor(afterB, a)
    ensures var endA := AfterBoth(cacheA, b, keyA, keysA.privateKey, crypto.rsa(keysA.publicKey, keyB, seedB).value,
                                  firstA, gapA, afterA, crypto);
            var endB := AfterBoth(cacheB, a, keyB, keysB.privateKey, crypto.rsa(keysB.publicKey, keyA, seedA).value,
                                  firstB, gapB, afterB, crypto);
            && b in endA && a in endB
            && (endA[b].symmetricKey == endB[a].symmetricKey <==> keyA == keyB || firstA != firstB)
  {
    LaterKeyStays(cacheA, b, keyA, keysA, keyB, seedB, firstA, gapA, afterA, crypto);
    LaterKeyStays(cacheB, a, keyB, keysB, keyA, seedA, firstB, gapB, afterB, crypto);
  }

  /** Only a call that stores a symmetric key for an entry changes that entry's key. */
  lemma OtherKeysKept(cache: Cache, calls: seq<CacheCall>, id: Id)
    requires id in cache && NoKeyFor(calls, id)
    ensures var after := ApplyAll(cache, calls); id in after && after[id].symmetricKey == cache[id].symmetricKey
  {
    FieldsKept(cache, calls, id);
  }

  /** A text is read only under a key held for its sender. */
  lemma ReadUnderKey(cache: Cache, from: Id, content: Bytes, crypto: Crypto)
    ensures ReadText(cache, from, content, crypto).Some? ==>
              HasSymmetricKey(cache, from)
              && ReadText(cache, from, content, crypto) == crypto.aesDecrypt(cache[from].symmetricKey.value, content)
  {
  }

  /** Taking in a message either changes nothing, when it does not open or holds no 16-byte key, or
      stores the key that it holds for its sender, who gets a nameless entry if it had none. */
  lemma TakenKeyStored(cache: Cache, privateKey: Bytes, from: Id, content: Bytes, crypto: Crypto)
    ensures var after, key := TakeKey(cache, privateKey, from, content, crypto), crypto.rsaDecrypt(privateKey, content);
            && (key.None? || |key.value| != 16 ==> after == cache)
            && (key.Some? && |key.value| == 16 ==>
                  && from in after && after[from].symmetricKey == Some(key.value)
                  && after[from].name == (if from in cache then cache[from].name else [])
                  && after[from].publicKey == (if from in cache then cache[from].publicKey else None)
                  && forall k :: k != from ==> (k in after <==> k in cache) && (k in cache ==> after[k] == cache[k]))
  {
  }
}
