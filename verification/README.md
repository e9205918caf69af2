# MessageU verification

MessageU is a store-and-forward messenger: a C++ client speaks a binary protocol over TCP to a Python server that keeps clients and messages in SQLite and serves every connection from its own thread. This project models both programs in Dafny and proves what they promise together. Paths below are those of the repository.

`dafny verify dfyconfig.toml` checks the whole project.

## How the model is built

* **One database statement with its commit is one atomic step** (`Handler.Step`). A request is a run of such steps; between two of them the statements of any other thread may run, and any statement may fail, leaving the tables as they were. `Handler.RequestHandlerMain` and the handlers below it are the imperative form, proved to do what the steps of one thread do; `Serial.ServedAlone` shows that such a run is one of the interleavings of the running server.
* **The running server** (`Mailbox.System`) is the tables, a map of threads with their program counters, and three histories: the exchanges completed, every message row ever inserted, and every pull payload whose rows were deleted. A run is any sequence of arrivals, statements and returns. `Mailbox.Safe` is the invariant of all of them.
* **A connection** appears twice: as methods over a socket whose `recv` returns any non-empty chunk and whose `sendall` may raise after any part of its bytes (`Framing`), and as a two-sided state machine over two byte streams (`Session`), in which the answers of the handler are left open.
* **The whole system** (`Network.World`) puts any number of such connections in front of one running server: bytes move, threads accept whole requests, statements run and handlers return in any order.
* **The client** is a class whose calls are atomic under the cache's lock; calls of other threads are explicit arguments (`Others`) that come between an action's own calls.
* **Local files** are byte strings; parsers are methods proved against a grammar or against the printer.

## What is proved

* **No loss.** In every interleaving, a message ever inserted is still stored, or was encoded for its own recipient before it was deleted; below 2^32 bytes of payload it is in a 2104 response to that recipient (`Delivery.NoMessageLost`). The limit is exact (`Delivery.DeletingPullAnswer`).
* **An acknowledged send is kept.** The message behind every 2103 response, as it was sent and under the id returned, is stored or was handed over (`Delivery.AcknowledgedIsKept`).
* **Exactly once, in order.** With one pull per client in flight, what a client was handed, what is taken for it and what still waits are together the messages inserted for it, in id order and without repetition (`Delivery.ExactlyOnceInOrder`). Without that hypothesis any server can come to deliver a whole mailbox twice (`Overlap.RepeatReachable`).
* **End to end.** With one connection pulling for each client, lock step gives that hypothesis; then a client has at every moment read a prefix of the messages inserted for it, and between its calls what it has read and what waits are exactly those messages (`Network.ClientReadsItsMail`).
* **Lock step.** Under any chunking of both streams every call returns the answer to its own request, no byte is left between calls, and every execution completes (`Session.LockStep`, `Session.EveryCallReturns`); that answer is the one the interleaved server returned for it (`Network.KthCallAnswered`).
* **Exact answers.** For every byte string, all tables and all failures, each of the five success codes is given exactly under a condition written in plain numbers over the bytes and the tables, and everything else is answered by the seven bytes of a general error (`Service.AnsweredExactly`); what each grant then does is stated beside it.
* **Agreement.** What the client builds is what the server decodes, with exact limits (`Agreement.SendAgrees`, `Agreement.RegistrationAgrees`), and encoders and decoders of mailboxes, client lists, hexadecimal ids, Base64 keys and integers are inverse to each other.
* **Permanence.** Names and ids are given once, client rows only grow, and a key lookup returns what was registered (`Registration`).
* **Failure atomicity, and where it ends.** An error response means that nothing but LastSeen changed, except in two cases that are characterised exactly (`Effects.ErrorHidesChangeIffOverLimit`).
* **Key exchange.** Whatever the polling thread does to the cache meanwhile, the key that is stored is the key that was wrapped, and a text leaves only under a key that the cache held and a key only wrapped (`ClientActions`, `Agreement.SentIsStored`). Two results mark its limits: when both sides send a key, they agree exactly if one had taken in the other's first (`ClientActions.CrossingExchanges`), and a public key that does not load leaves a new key in use that no message has carried (`ClientActions.ThrowLeavesKey`).

### Where the code and its documentation disagree

The model follows the code.

* `waiting_messages_handler` is documented to delete messages after successful retrieval (`src/Server/request_handler.py:196-203`), and `README.md` says that messages stay stored until requested. The DELETE runs before the response's length is packed, so a payload of 2^32 bytes or more is deleted and answered with an error.
* `send_message_handler` inserts before it encodes the id in four bytes (`src/Server/request_handler.py:269-270`). From id 2^32 on, an error response is returned for a message that was stored; that message can never be pulled or deleted and blocks its recipient's mailbox (`Effects.OversizedIdIsStuck`, `Effects.OversizedIdBlocksPulls`).
* `handleRegister` is documented to return an empty buffer when cancelled (`src/Client/ClientActions.cpp:19-20`), but does not treat "0" as cancel: it registers the name "0" although the prompt has just said that a name cannot be 0. `ClientActions.HandleRegister` does the same.
* `getValidUsername` is documented to return a valid ASCII name (`src/Client/ClientActions.cpp:88-91`). A NUL is ASCII, so the client accepts a name that holds one, and the server keeps only the part before it (`Agreement.RegistrationAgrees`).

## Model

| member | source | states |
|---|---|---|
| Delivery.NoMessageLost | src/Server/request_handler.py:204-228 | In every reachable state of every interleaving with any failures, each message ever inserted is still stored or was encoded, for its own recipient, in a payload deleted since; below 2^32 bytes that payload is in a 2104 response to that recipient, finished or returned. |
| Delivery.AcknowledgedIsKept | src/Server/request_handler.py:239-272 | For every 2103 response ever returned there is a message with the request's target, sender, type and content, under the id returned, that is still stored or was handed over to its recipient. |
| Delivery.AcknowledgedOnce | src/Server/request_handler.py:204-272 | With one pull per client, that message is among what its recipient was handed, what is taken for it and what waits for it, which together hold no message twice. |
| Delivery.ExactlyOnceInOrder | src/Server/request_handler.py:204-272 | With one pull per client in flight and payloads below 2^32 bytes, delivered ++ taken ++ waiting equals the messages inserted for that client, strictly ascending by id, at every reachable state. |
| Delivery.DeletingPullAnswer | src/Server/request_handler.py:226-228 | A committed DELETE is answered with the very payload it deleted if and only if that payload is below 2^32 bytes; from there on the answer is a general error although none of its rows is left. |
| Overlap.OverlappingPullsRepeat | src/Client/ClientConnection.cpp:40-49 | From any state in which two pulls of one client are about to read a mailbox that can be encoded in less than 2^32 bytes, some interleaving delivers the whole mailbox twice: the connection mutex is needed. |
| Overlap.RepeatReachable | src/Server/main.py:33-51 | Such a state is reachable: from a server's start on any consistent tables, some run delivers a registered client's mailbox twice, if it can be encoded in less than 2^32 bytes. |
| Overlap.MessageRepeats | src/Server/request_handler.py:204-228 | A start with one stored message, and a run that delivers it twice. |
| Delivery.OwnMailOnly | src/Server/database.py:131-140 | A pull's DELETE leaves the mailbox of every other client exactly as it was, under any interleaving. |
| Delivery.MailboxAfterDelete | src/Server/database.py:121-140 | Deleting by id the rows read from the front of a mailbox leaves the remainder, in order, also after later rows were appended. |
| Delivery.WaitingWithout | src/Server/database.py:121-138 | Selecting one recipient's rows and deleting by id commute. |
| Delivery.DoKeepsInOrder | src/Server/request_handler.py:204-272 | Every action of every thread keeps the balance of all clients and keeps what each pull has read at the front of its mailbox. |
| Delivery.ReachableAnswered | src/Server/request_handler.py:226-228 | Every payload below 2^32 bytes whose rows were deleted is in a finished or returned 2104 response to its owner, in every reachable state. |
| Mailbox.ReachableSafe | src/Server/main.py:33-51 | The invariant holds in every state of every run: stored rows have registered senders and recipients, a valid type, empty content for type 1 and ids below the next id; ids ascend; clients are distinct and well-formed; every success response given, of each of the five codes, is truthful. |
| Mailbox.DoKeepsSafe | src/Server/request_handler.py:69-99 | Each arrival, statement and return keeps that invariant, whatever the other threads have done since this thread's last statement. |
| Mailbox.DeletedWerePulled | src/Server/request_handler.py:214-226 | A row whose id is about to be deleted belongs to the requester and is decoded from the payload that the thread holds. |
| Mailbox.NewRowValid | src/Server/request_handler.py:249-269 | The checks made statements earlier still hold at the INSERT: sender and recipient are registered, the type is 1, 2 or 3, type 1 is empty, the content fits. |
| Mailbox.ExecuteAnswer | src/Server/request_handler.py:111-272 | A success response implies its effect: a 2100 names a stored client, a 2101 lists the clients registered at some moment, a 2102 carries a stored key, a 2103 the id of an inserted message with the request's fields, a 2104 rows that were inserted. |
| Serial.ServedAlone | src/Server/main.py:38-43 | From any state, some run of the server lets one thread go from where it stands to its response uninterrupted, ending with the response and tables of the sequential handler and every other thread untouched. |
| Network.ClientReadsItsMail | src/Client/ClientConnection.cpp:40-49 | In every run of any number of connections, with one connection pulling for each client and payloads below 2^32 bytes, what a client has read is a prefix of the messages inserted for it in id order, and between its calls what it has read and what waits at the server are exactly those messages. |
| Network.KthCallAnswered | src/Server/main.py:38-43 | Whatever the other connections do, the k-th call on a connection returns what the server answered to the k-th request of that connection, and that answer is truthful. |
| Network.OnePullInFlight | src/Client/ClientConnection.cpp:40-49 | Connections in lock step have one request outstanding each, so with one connection per pulling client no client has two pulls in flight. |
| Network.OneOutstanding | src/Client/ClientConnection.cpp:40-49 | A thread serves the first request of its connection that has not been answered yet, and its client is waiting. |
| Network.NeverStuck | src/Server/main.py:33-51 | Until a connection has completed its calls, its client or its thread can take a step, whatever the others do. |
| Network.MoveKeepsLinked | src/Server/main.py:38-43 | Every move keeps all connections in lock step, each thread on the request that its connection has read, and every answer among those the server returned. |
| Registration.RegistrationIsInjective | src/Server/request_handler.py:111-139 | Over every run, races included, two successful registrations differ in name and in id, and every successful key lookup of a registered id returns that id with the key registered for it. |
| Registration.ClientsOnlyGrow | src/Server/database.py:56-68 | Along a run the client rows of an earlier state are a prefix of those of a later one, and so are the inserted messages. |
| Registration.LookupSucceedsIffRegistered | src/Server/request_handler.py:180-193 | A key lookup whose statement does not fail succeeds if and only if its target is registered, so the 160-byte check never rejects a registered client. |
| Registration.FreshRegistration | src/Server/database.py:29-35 | A registration that just succeeded has a name and an id different from every earlier success, by the UNIQUE and PRIMARY KEY constraints. |
| Effects.EveryRequestAnswered | src/Server/request_handler.py:55-99 | Any byte string against any tables and any failures gets one response with version 2, a known code and a length field equal to the bytes that follow. |
| Effects.StepEffect | src/Server/request_handler.py:55-99 | Under any interleaving, data changes only with the statement that reports it; 2100 adds one client, 2103 appends one message, 2104 removes the rows read, and a 9000, 2101 or 2102 changes nothing, unless an id or payload overflows four bytes. |
| Effects.ErrorChangesNothing | src/Server/request_handler.py:55-99 | Below the two limits every error response leaves clients, messages and the id counter as they were, with any failures. |
| Effects.ErrorHidesChangeIffOverLimit | src/Server/request_handler.py:226-270 | For a servable send or pull, an error response hides a change if and only if the next id is at least 2^32 or the encoded mailbox has at least 2^32 bytes. |
| Effects.SendServed | src/Server/request_handler.py:239-272 | A servable send appends exactly one row with the sender, target, type and content of the request, and reports its id exactly when it fits four bytes. |
| Effects.PullServed | src/Server/request_handler.py:204-228 | A servable pull removes the rows with the ids of the requester's mailbox and answers with that mailbox's encoding, or with an error when its length does not fit. |
| Effects.PullTakesOwnMail | src/Server/database.py:121-140 | On consistent tables a servable pull empties the requester's mailbox and leaves every other one as it was. |
| Effects.OversizedIdIsStuck | src/Server/request_handler.py:217-226 | A stored message whose id needs a fifth byte stays stored in every later state of every run. |
| Effects.OversizedIdBlocksPulls | src/Server/request_handler.py:217-219 | While it is stored, every pull of its recipient ends in an error after the SELECT and changes nothing. |
| Service.AnsweredExactly | src/Server/request_handler.py:55-99 | For any bytes, tables and failures, 2100, 2101, 2102, 2103 and 2104 are each given if and only if their condition holds (version 1, exact length, code, registered requester, registered target, type 1 to 3, fresh name and id, fitting sizes, no failing statement); anything else gets the seven bytes 2, 9000, 0. |
| Service.RegistrationServed | src/Server/request_handler.py:111-139 | A registration that passes the checks succeeds if and only if the INSERT does not fail and both the id drawn and the name are new; then exactly that client is added, with name, key and time, and its id returned; otherwise nothing changes. |
| Service.RegistrationStep | src/Server/request_handler.py:130-139 | The same for a thread among any others at the moment of its INSERT. |
| Service.ListServed | src/Server/request_handler.py:150-169 | A list request succeeds if and only if its requester is registered, no statement fails and the list is below 2^32 bytes; it decodes to every other client exactly once, and nothing but LastSeen changes. |
| Service.ListStep | src/Server/request_handler.py:158-169 | The same for a thread among any others: the list is that of the clients registered at the moment of its SELECT. |
| Service.KeyServed | src/Server/request_handler.py:180-193 | A key request succeeds if and only if its requester is registered, no statement fails and the target is registered with a 160-byte key; it returns that id and key, and nothing but LastSeen changes. |
| Service.SendServedExactly | src/Server/request_handler.py:239-272 | A send is stored if and only if requester and target are registered, no statement fails, the type is 1, 2 or 3, the content size is exact and type 1 is empty; the row holds the bytes at their offsets, and it is acknowledged, with target and id, if and only if the id is below 2^32 too. |
| Service.PullServedExactly | src/Server/request_handler.py:204-228 | A pull deletes its requester's rows if and only if the requester is registered, no statement fails and the rows can be encoded; it returns them, in order, if and only if the encoding is below 2^32 bytes too. |
| Service.Checked | src/Server/request_handler.py:73-77 | A request other than a registration goes on to its handler exactly if its requester is registered and neither statement fails, with LastSeen moved and nothing else. |
| Service.NothingServed | src/Server/request_handler.py:56-66 | A request of bad length, version or code gets an error, and at most LastSeen moves. |
| Service.ClientRegisters | src/Client/ClientActions.cpp:126-144 | What the client builds for a valid name without NUL registers it under that name, its key and the id returned, if and only if nothing fails and both are new. |
| Service.ClientGetsList | src/Client/ClientActions.cpp:147-150 | A registered client's list request is answered with an exact list, if and only if nothing fails and the list is below 2^32 bytes. |
| Handler.RequestHandlerMain | src/Server/request_handler.py:55-99 | The dispatcher's response and the final tables are those of the statement-by-statement run of the request, for any byte string and any failures. |
| Handler.RegisterHandler | src/Server/request_handler.py:111-139 | The registration handler's response and tables are those of its statements, with every error path. |
| Handler.ClientsListHandler | src/Server/request_handler.py:150-169 | The list handler answers as its statement does and changes nothing. |
| Handler.PublicKeyHandler | src/Server/request_handler.py:180-193 | The key handler answers as its statement does and changes nothing. |
| Handler.WaitingMessagesHandler | src/Server/request_handler.py:204-228 | The pull handler's response and tables are those of SELECT, encode and DELETE, including the exceptions of `to_bytes` and of the DELETE. |
| Handler.SendMessageHandler | src/Server/request_handler.py:239-272 | The send handler's response and tables are those of the target check and the INSERT, including the insert that is followed by an error. |
| Handler.StepResponse | src/Server/request_handler.py:55-99 | A statement that ends a request answers well-formed, and each success code identifies the statement and the payload it carries. |
| Handler.StepToDelete | src/Server/request_handler.py:212-226 | Only the SELECT of a pull leads to a DELETE, of exactly the ids it read and with the payload that encodes them. |
| Handler.StepMessages | src/Server/database.py:109-140 | A statement changes the messages table by one appended row, by one DELETE, or not at all. |
| DatabaseModel.Database.constructor | src/Server/database.py:20-44 | Opening keeps the tables that the file holds, and creates empty ones, with first message id 1, only if there are none. |
| DatabaseModel.Database.AddClient | src/Server/database.py:56-59 | Succeeds exactly when id and name are both new and the statement does not fail; then one row is appended, otherwise nothing changes. |
| DatabaseModel.Database.UpdateClientLastSeen | src/Server/database.py:66-68 | Moves only the LastSeen of a registered client. |
| DatabaseModel.Database.AddMessage | src/Server/database.py:109-113 | Appends one row under the next id, which is never used again; fails without effect beyond the largest row id. |
| DatabaseModel.Database.DeleteMessages | src/Server/database.py:131-140 | Removes exactly the rows with the given ids; an empty list runs no statement and cannot fail. |
| DatabaseModel.WaitingMembers | src/Server/database.py:121-124 | The rows selected are all rows to that recipient and no others. |
| DatabaseModel.WithoutMembers | src/Server/database.py:131-138 | The rows left by a DELETE are all rows with other ids and no others. |
| DatabaseModel.OtherClients | src/Server/database.py:86-88 | The clients listed are all registered rows with an id other than the requester's. |
| DatabaseModel.PublicKey | src/Server/database.py:96-101 | A key is found exactly for registered ids, and is the key in that client's row. |
| Records.DecodeEncoded | src/Server/request_handler.py:214-224 | Decoding an encoded mailbox gives back its rows in order, for any number of messages and any contents. |
| Records.EncodeDecoded | src/Server/request_handler.py:217-222 | A payload that decodes is the encoding of what it decodes to: the format is canonical and uniquely decodable. |
| Records.EncodableRows | src/Server/request_handler.py:217-222 | The encoder raises if and only if some id or content length does not fit four bytes. |
| Records.BuildMailbox | src/Server/request_handler.py:214-224 | The loop yields the encoding of all rows and their ids in order, or raises exactly when no encoding exists. |
| Records.BuildClientList | src/Server/request_handler.py:159-167 | The loop yields the 271-byte entries of all clients in order. |
| Records.DecodeEncodedClients | src/Server/request_handler.py:159-167 | Decoding a client list gives each client's id and the name that its field holds, in order. |
| Records.NameSurvivesListing | src/Server/request_handler.py:164-165 | A stored name reads back from its field if and only if it has no NUL and at most 254 bytes. |
| Protocol.RequestFields | src/Client/Message.cpp:11-23 | Every header field of a request reads back as written; the size field keeps the length modulo 2^32, and the request is whole if and only if the payload is below 2^32 bytes. |
| Protocol.ReplyWellFormed | src/Server/request_handler.py:292-294 | A response carries version 2, its code and its exact length and payload; one whose length does not fit becomes a general error. |
| Layout.RequestBytes | src/Client/Message.cpp:11-23 | A request is its id, the byte 1, two bytes of code, four bytes of size, all least significant first, and the payload. |
| Layout.ResponseBytes | src/Server/request_handler.py:292-294 | A response is the byte 2, two bytes of code, four bytes of size, all least significant first, and the payload. |
| Layout.SuccessBytes | src/Client/MessageCodes.h:39-43 | The first three bytes of each kind of success response, in numbers. |
| Layout.ErrorBytes | src/Server/request_handler.py:281-293 | A general error is the seven bytes 2, 0x28, 0x23, 0, 0, 0, 0. |
| Layout.FieldBytes | src/Server/request_handler.py:59-268 | The offset and the number of every field that the server reads. |
| Layout.RowBytes | src/Server/request_handler.py:217-222 | A record is the sender, four bytes of id, the type, four bytes of size and the content, and it exists if and only if both numbers fit. |
| Layout.NameBytes | src/Server/request_handler.py:164-165 | A name field is at most 254 bytes of the name and then zeros up to 255. |
| Layout.EntryBytes | src/Server/request_handler.py:161-167 | The i-th entry of a list lies at 271 * i: the id, then the name field. |
| Framing.Socket.Recv | src/Server/connection.py:19-20 | `recv` takes some prefix of the stream, at most what was asked, and nothing only when the peer has closed. |
| Framing.ReceiveExact | src/Server/connection.py:16-23 | Takes exactly the first `size` bytes off the stream for every chunking, and fails exactly when the peer sends fewer. |
| Framing.FillExact | src/Client/ClientConnection.cpp:56-65 | The client's in-place read has the same contract, and needs no read for size zero. |
| Framing.ResponsePayloadSize | src/Client/ClientConnection.cpp:67-73 | Throws exactly on a short header, otherwise reads the length field. |
| Framing.SendAndReceive | src/Client/ClientConnection.cpp:40-53 | The whole request is sent and exactly one framed response taken off the stream; it throws only when the write does, leaving what it has sent a prefix of the request, or when no prefix of the stream is a framed response. |
| Framing.ReadRequest | src/Server/main.py:40-41 | Takes exactly the first frame off the stream, or ends when no whole frame is left. |
| Framing.HandleClient | src/Server/main.py:33-53 | For any bytes in any chunks and any failing write: the requests served are the first frames of the stream, in order, from the tables in the file; the bytes sent are their responses in order, the last one cut short only if its write failed, and without a failure all frames are served. |
| Framing.ServeSnoc | src/Server/main.py:38-43 | Serving one more request appends its response and continues from the tables that the earlier ones left. |
| Framing.FramesOfBuffers | src/Server/connection.py:16-31 | Any sequence of client buffers followed by anything is cut back into exactly those buffers, and each decodes to the id, version, code and payload it was built from. |
| Framing.FramesCut | src/Server/main.py:40-41 | Any stream is the requests it is cut into, each whole, followed by a rest that does not begin with a whole request. |
| Framing.FramedIffSizeFits | src/Client/Message.cpp:18 | A client buffer is read back as one request if and only if its payload is below 2^32 bytes. |
| Session.LockStep | src/Client/ClientConnection.cpp:40-49 | At any moment of any execution, for any chunks and whatever well-formed bytes the handler answers, the k-th call has returned the answer to the k-th request, and between calls both streams are empty. |
| Session.EveryCallReturns | src/Client/ClientConnection.cpp:40-65 | Every execution that goes on as long as it can ends with one response per request and no byte left. |
| Session.NeverStuck | src/Server/main.py:38-43 | Until all calls have returned, one of the two sides can take a step. |
| Session.StepDescends | src/Server/connection.py:18-22 | Every step, of whatever size, brings the connection closer to completing its calls. |
| Session.DoInStep | src/Server/main.py:38-43 | Every read, write, call and answer keeps the request or the response in progress spread over client, stream and server without gap or surplus. |
| ClientMessage.AppendUint16LE | src/Client/Utilities.cpp:64-67 | Appends the two little-endian digits of the value, by masks and shifts. |
| ClientMessage.AppendUint32LE | src/Client/Utilities.cpp:69-74 | Appends the four little-endian digits of the value, by masks and shifts. |
| ClientMessage.ReadUint32LE | src/Client/Utilities.cpp:76-89 | Reads what `int.from_bytes(..., "little")` reads at that offset, and throws exactly when fewer than four bytes are left. |
| ClientMessage.AppendedReadsBack | src/Client/Utilities.cpp:69-89 | A value appended after any prefix and followed by any suffix reads back bit for bit, and as the same number at the server. |
| ClientMessage.ComposeSums | src/Client/Utilities.cpp:81-88 | Or-ing four shifted bytes is summing base-256 digits. |
| ClientMessage.DigitsAreLe | src/Client/Utilities.cpp:69-74 | The four masked and shifted bytes are the value's base-256 digits, least significant first. |
| ClientMessage.Message.CreateBuffer | src/Client/Message.cpp:11-23 | The buffer is id, version 1, code, length modulo 2^32 and payload in the server's layout. |
| ClientCache.CallsKeep | src/Client/ClientContext.cpp:21-65 | Under any sequence of cache calls no entry is removed, no key is lost, and every entry stays filed under its own id. |
| ClientCache.CallEffect | src/Client/ClientContext.cpp:21-65 | What each of the three calls does to each field of its entry, by value, that it touches no other entry, and that only a base call makes a new one, without keys. |
| ClientCache.LastCallWins | src/Client/ClientContext.cpp:21-65 | Over any sequence of calls, an entry's name, public key and symmetric key are each what the last call that set it said. |
| ClientCache.FieldsKept | src/Client/ClientContext.cpp:21-65 | A field that no call sets for an entry keeps its value. |
| ClientCache.ClientContext.constructor | src/Client/ClientContext.cpp:3-19 | A new context has a zero id, no name, no key and no friends. |
| ClientCache.ClientContext.HasClientId | src/Client/ClientContext.cpp:6-13 | Tells whether some byte of the id is not zero. |
| ClientCache.ClientContext.SetFriendBase | src/Client/ClientContext.cpp:21-27 | Creates or renames one entry, keeping its keys and all other entries. |
| ClientCache.ClientContext.SetFriendPublicKey | src/Client/ClientContext.cpp:50-57 | Sets the public key of a known friend and changes nothing for an unknown one (the effect of the call is `ClientCache.CallEffect`). |
| ClientCache.ClientContext.SetFriendSymmetricKey | src/Client/ClientContext.cpp:59-65 | Sets the symmetric key of a known friend and changes nothing for an unknown one. |
| ClientCache.ClientContext.TryGetFriendIdByName | src/Client/ClientContext.cpp:39-48 | Returns the id of the friend of that name whose key comes first in the map's order, and nothing exactly when no friend has the name. |
| ClientCache.FirstNamedUnique | src/Client/ClientContext.cpp:39-48 | There is only one such friend: the order of the map's keys is total. |
| ClientCache.LexFirstDifference | src/Client/ClientContext.cpp:42 | One id comes before another if and only if they agree up to some byte that is less in it. |
| ClientCache.ClientContext.CanSendText | src/Client/ClientContext.cpp:67-73 | Answers yes exactly if the friend will have a symmetric key after any further calls of any threads. |
| ClientCache.ClientContext.CanSendSymmetricKey | src/Client/ClientContext.cpp:75-81 | Answers yes exactly if the friend will have a public key after any further calls of any threads. |
| ClientActions.OpenGateSends | src/Client/ClientContext.cpp:67-81 | After a yes, whatever other threads do, a non-empty text is encrypted under a key then present, and a key is wrapped for the public key then present unless that does not load. |
| ClientActions.IsValidUsername | src/Client/Utilities.cpp:92-104 | Accepts exactly the names of 1 to 254 bytes, all below 128. |
| ClientActions.GetValidUsername | src/Client/ClientActions.cpp:275-294 | Returns the first line that is "0" or a valid name. |
| ClientActions.HandleRegister | src/Client/ClientActions.cpp:116-145 | Unless already registered, stores the name and the private key and builds the padded registration request; otherwise changes nothing. |
| ClientActions.HandleClientList | src/Client/ClientActions.cpp:147-150 | Builds the list request under the client's own id. |
| ClientActions.HandleWaitingMessages | src/Client/ClientActions.cpp:170-173 | Builds the pull request under the client's own id. |
| ClientActions.HandlePublicKey | src/Client/ClientActions.cpp:152-168 | Builds a key request for the first friend of that name; the buffer is empty exactly on cancel or when no friend has the name. |
| ClientActions.HandleSendText | src/Client/ClientActions.cpp:215-252 | The content is the first `length % 2^32` bytes of the typed lines under the symmetric key present when typing has ended, and empty without text, entry or key. |
| ClientActions.HandleSendSymmetricKey | src/Client/ClientActions.cpp:254-273 | With a public key present, stores the new key and then wraps it, throwing if the public key does not load; otherwise the content is empty and nothing is stored. |
| ClientActions.KeyLeavesWrapped | src/Client/ClientActions.cpp:254-272 | Any content of a key message is the new key wrapped for the public key that the cache holds for the target; without that key there is none. |
| ClientActions.ThrowLeavesKey | src/Client/ClientActions.cpp:262-271 | The action throws exactly when the public key does not load; the new key is stored all the same, and texts then go out under it. |
| ClientActions.HandleAllMessages | src/Client/ClientActions.cpp:175-212 | For the first friend of the given name: a key request of type 1 without content; a key of type 2, wrapped for the friend's public key, or nothing without that; a text of type 3 under the friend's symmetric key, or nothing without that or without text; nothing when the action throws. On cancel or an unknown name nothing changes. |
| ClientActions.StoredKeyIsWrappedKey | src/Client/ClientActions.cpp:254-273 | Whatever other threads do to the cache in between, the store finds the entry, changes nothing else, and stores the very key that the content wraps. |
| ClientActions.KeyExchangeOpensTexts | README.md:86-92 | If both wrappers decrypt what they encrypted and neither side replaces the key meanwhile, A stores for B the key that B stored for A and reads the text that B then sends, whole if and only if it is below 2^32 bytes. |
| ClientActions.CrossingExchanges | src/Client/ClientActions.cpp:254-273 | When both sides send a key, they end up with the same one if and only if the keys are equal or one side had taken in the other's before sending its own. |
| ClientActions.TakenKeyStored | README.md:91 | Taking in a key message stores a 16-byte key that opens for its sender and changes nothing otherwise. |
| Texts.TypedReadsBack | src/Client/ClientActions.cpp:218-227 | A typed message, read line by line, is exactly the lines before the first empty one, and ends with a newline. |
| ClientActions.OtherKeysKept | src/Client/ClientContext.cpp:21-65 | Only a call that stores a symmetric key for an entry changes that entry's symmetric key. |
| Agreement.RegistrationAgrees | src/Client/ClientActions.cpp:126-144 | A registration passes all header and size checks with its key; its name arrives unchanged if and only if it has no NUL, and it reaches the INSERT if and only if it does not start with one. |
| Agreement.PlainRequestsAgree | src/Client/ClientActions.cpp:147-173 | List, pull and key requests reach their handlers' statements with the right requester and target. |
| Agreement.SendAgrees | src/Server/request_handler.py:239-267 | A send passes all checks, with the same sender, target, type and content, if and only if its content is below 2^32 - 21 bytes. |
| Agreement.SentIsStored | src/Client/ClientActions.cpp:175-273 | What an action builds for a registered friend is stored for that friend as built: type 1 and empty exactly for a key request, type 2 exactly for a key, wrapped for the friend's public key, type 3 exactly for a text, under a symmetric key that the cache held. |
| Agreement.NameRoundTrip | src/Server/request_handler.py:117-122 | A valid name survives padding, cutting, storing, padding again and reading if and only if it has no NUL. |
| Agreement.OtherClientsDistinct | src/Server/database.py:86-88 | Leaving out the requester keeps ids and names pairwise distinct. |
| Agreement.ListIsExact | src/Server/request_handler.py:156-169 | The decoded list has every registered client but the requester exactly once, with its own name whenever that has no NUL and at most 254 bytes. |
| Hex.ToLowerAscii | src/Client/Utilities.cpp:16-20 | Lowers every character in place. |
| Hex.IsValidHexUuid | src/Client/Utilities.cpp:22-32 | Accepts exactly 32 hexadecimal digits of either case. |
| Hex.UuidHex32ToBytes16 | src/Client/Utilities.cpp:34-49 | Throws exactly on an invalid string, otherwise gives the 16 bytes it denotes. |
| Hex.BytesToHex | src/Client/Utilities.cpp:51-62 | Gives two lower-case digits a byte, high nibble first. |
| Hex.ParsePrinted | src/Client/Utilities.cpp:34-62 | Parsing the digits of any byte string gives it back. |
| Hex.PrintParsed | src/Client/Utilities.cpp:16-62 | Printing the bytes of a valid string gives it back in lower case. |
| Hex.SixteensFirst | src/Client/Utilities.cpp:56-60 | Each byte is printed as two digits, the one that counts sixteens first. |
| Hex.HexCharacters | src/Client/Utilities.cpp:16-32 | Which characters are hexadecimal digits, in either case, and what each stands for. |
| MyInfo.SaveMyInfo | src/Client/FileManager.cpp:66-93 | Writes name, id and key on three lines exactly when all three are present and the file opens, for any line breaks that the encoder put in. |
| MyInfo.EraseRemove | src/Client/FileManager.cpp:80-84 | The in-place erase keeps exactly the other characters, in order. |
| MyInfo.ValidateAndLoadMyInfo | src/Client/FileManager.cpp:115-161 | Loads exactly the files of three lines with a valid name, 32 hexadecimal digits and a key that decodes to something; any other leaves the context alone. |
| MyInfo.SavedLoads | src/Client/FileManager.cpp:66-161 | A file saved and read in text mode restores the same name, id and key if and only if the name is valid and holds neither a newline nor byte 26; in the other cases it is rejected, unless the name holds both. |
| MyInfo.ParsedIffHeld | src/Client/FileManager.cpp:115-161 | The loader takes a name, an id and a key from a text if and only if the text is their three lines, in that order, with or without a last newline. |
| MyInfo.EndsWithKey | src/Client/FileManager.cpp:86-88 | No newline follows the key. |
| TextFiles.LoadedStored | src/Client/FileManager.cpp:72-121 | Text mode gives back what was written, up to the first byte 26. |
| TextFiles.StoredNewlines | src/Client/FileManager.cpp:86-87 | On the disk each newline has a return before it. |
| MyInfo.DecodeEncoded64 | src/Client/FileManager.cpp:78-145 | Base64 decoding inverts encoding for keys of any length. |
| MyInfo.GroupValue | src/Client/FileManager.cpp:78 | Three bytes read as one number are their four characters read as one number, as section 4 of RFC 4648 has it. |
| MyInfo.ShortGroups | src/Client/FileManager.cpp:78 | A short last group is read as if zeros followed, and padded. |
| MyInfo.Alphabet | src/Client/FileManager.cpp:78 | The characters are those of the table in section 4 of RFC 4648. |
| MyInfo.BreaksRemoved | src/Client/FileManager.cpp:78-84 | Erasing newlines and returns undoes any breaking into lines. |
| ServerInfo.ValidateAndLoadServerInfo | src/Client/FileManager.cpp:163-224 | Accepts exactly the texts of the grammar and returns the address and port they denote. |
| ServerInfo.CheckAddress | src/Client/FileManager.cpp:188-219 | The splitting loop accepts exactly four dot-separated parts of 1 to 3 digits of value at most 255, and terminates because `start` advances. |
| ServerInfo.AddressIffFourOctets | src/Client/FileManager.cpp:191-219 | A dotted quad is exactly a text whose splitting at dots gives four octets. |
| ServerInfo.PartsDetermined | src/Client/FileManager.cpp:169-174 | The first colon settles address and port: the grammar is unambiguous. |
| ServerInfo.Stoi | src/Client/FileManager.cpp:182-184 | Gives the decimal value, and throws exactly when it does not fit an `int`. |
| ServerInfo.SmallValues | src/Client/FileManager.cpp:204-209 | Up to three digits stand for units, tens and hundreds. |
| ServerInfo.ValuePrinted | src/Client/ClientConnection.cpp:22 | The port that the client prints for the resolver has the value it read, for every number. |
| ServerInfo.Ranges | src/Client/FileManager.cpp:186-222 | A part is what fits a byte, and a port what the cast to `uint16_t` keeps, zero excluded. |
| TextFiles.TextStream.GetLine | src/Client/FileManager.cpp:120-121 | Reads up to the next newline and drops it; fails exactly at the end of the text. |

## Left out

- ResponseClient.cpp is not part of this model. The decoders of response payloads (`Records.DecodeRows`, `Records.DecodeClients`) and the recipient's side of the key exchange (`ClientActions.TakeKey`, `ClientActions.ReadText`) are specification functions fixed by the server's encoders, by the field sizes in `src/Client/Constants.h:14-24` and by the documented flow; its updates of the cache appear as arbitrary calls.
- SQLite itself: locking, WAL, timeouts and a commit that fails after a successful execute. A statement with its commit succeeds or fails without effect. Row order in `clients` is insertion order.
- Crashes of the server in the middle of a request, and restarts: runs start from any consistent tables with no thread active.
- Delivery past `sendall`: a connection that dies afterwards can lose a response. Claims about messages stop at the response returned by the handler, or, in `Network`, assume that both streams deliver.
- Fairness: `Network.NeverStuck` says that a connection can always go on, not that a scheduler lets it.
- ClientActions.GetValidUsername: returns `None` when the input ends, where the source prompts forever.
- ClientActions.KeyExchangeOpensTexts: that the wrappers decrypt what they encrypted is a hypothesis. AES, RSA and key generation are abstract functions, and the random padding of RSA is a seed.
- ClientActions.CrossingExchanges: that each private key opens what its public key wrapped is a hypothesis.
- MyInfo.DecodeEncoded64: Base64 is defined from section 4 of RFC 4648 with arbitrary line breaks on output and a decoder that skips foreign characters; the library's own code is not modelled.
- MyInfo.SaveMyInfo: a write that fails halfway, which leaves a partial file and a message on the console, is not modelled.
- ServerInfo.ValidateAndLoadServerInfo: the grammar is that of the text as the stream delivers it, after text mode's translation (`TextFiles.Loaded`).
- Names of 255 bytes without a NUL from a non-standard client are stored whole and listed cut to 254 bytes; name round trips state the 254-byte bound.
- Dispatch order, prompts, printing, timing of the poller, executable-path lookup, `get_port.py`, timestamps, `print_db` and `drop_tables`: user interface, I/O or easy members.
