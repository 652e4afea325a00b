# Real-time collaboration backend: relay and document store

This project models the two decision-making parts of a small collaborative
editing server and proves properties of them in Dafny.

- **The real-time relay** (`server.js`, the socket.io `connection` handler).
  Clients join the room of a document with `join-document`. They push edits with
  `send-changes`, which the server re-emits as `receive-changes` to the room's
  other members. On `disconnect` the socket leaves its rooms. The model keeps
  the room table explicit: a set of live connection ids, plus a map from
  document id to the set of connections in its room. `Relay.Step` processes one
  event atomically and `Relay.Run` processes a sequence of events.
- **The owner-gated document store** (`routes/documents.js` over the
  `Document` schema of `models/Document.js`). List, get, create, update and
  delete are pure functions. Each takes the store, the requester's id and the
  request's arguments. Each returns a status code, a response body and the new
  store.

The room semantics come from socket.io, not from the repository. The model
states them as assumptions:
- a room is a set;
- `socket.to(room)` excludes the emitting socket;
- a disconnecting socket leaves every room, and a room left empty is discarded;
- handlers run only for connected sockets.

Modules: `Relay` and `RelayLemmas` (server.js),
`DocumentModel` (models/Document.js), `DocumentRoutes` and
`DocumentRouteLemmas` (routes/documents.js).

Behaviour the model takes from the code:
- `send-changes` (server.js:36-38) does not check that the sender joined the
  room. A non-member's changes still reach every member. `Relay.SendChanges`
  does the same, with no "must have joined" guard, and
  `RelayLemmas.NonMemberReachesAll` states it. Treating such an event as a
  no-op would be a different design.
- The `disconnect` handler only logs. Leaving the rooms is socket.io's doing,
  and `Relay.Disconnect` models it.
- server.js:20 mounts only the auth routes, never the document router. The
  router is modelled on its own.

## Model

| member | source | states |
|---|---|---|
| Relay.Connect | server.js:28-29 | a new connection is live, is in no room, and every room is unchanged |
| Relay.Join | server.js:31-34 | the joiner becomes a member of exactly that document's room; no other membership changes; its joined-set grows by that document; the room invariant is kept |
| Relay.SendChanges | server.js:36-38 | a member receives `receive-changes` with the unchanged payload if and only if it is in the room and is not the sender |
| Relay.Disconnect | server.js:40-42 | the connection is no longer live and is in no room; every other connection's memberships are unchanged; rooms it was not in are untouched; no empty room is kept |
| Relay.Step | server.js:28-43 | one event keeps the room invariant; events of dead connections do nothing; `send-changes` leaves the state unchanged; deliveries only reach live connections other than the sender |
| Relay.Run | server.js:28-43 | any sequence of events keeps the room invariant; its deliveries are counted once per emit, so a payload sent twice reaches each recipient twice, and every delivery is a `receive-changes` event |
| RelayLemmas.JoinIdempotent | server.js:32 | joining a room twice is the same as joining it once |
| RelayLemmas.JoinCommutes | server.js:32 | two joins give the same room table in either order |
| RelayLemmas.JoinSeveralRooms | server.js:32 | a connection can be in several rooms at once; a second join keeps the first |
| RelayLemmas.SenderNeverReceives | server.js:37 | the sender gets no delivery of its own changes, whatever the room size |
| RelayLemmas.SendChangesRecipients | server.js:37 | the recipients are exactly the room's members minus the sender, and each gets exactly one delivery carrying the payload |
| RelayLemmas.FanOutSize | server.js:37 | distinct members give distinct deliveries |
| RelayLemmas.SendChangesCount | server.js:37 | there is exactly one delivery per member other than the sender |
| RelayLemmas.NonMemberReachesAll | server.js:36-38 | a sender that never joined still reaches every current member |
| RelayLemmas.NoDeliveriesWhenAlone | server.js:37 | nothing is delivered if and only if the room is absent, empty, or holds only the sender |
| RelayLemmas.SendChangesKeepsRooms | server.js:36-38 | a `send-changes` step leaves the room table unchanged (a corollary of `Relay.Step`) |
| RelayLemmas.DisconnectIdempotent | server.js:40-42 | disconnecting twice is the same as disconnecting once |
| RelayLemmas.DisconnectAbsorbsJoin | server.js:31-42 | join followed by disconnect leaves the rooms as if the join never happened |
| RelayLemmas.GoneConnectionHearsNothing | server.js:28-43 | a connection that is not live and is in no room receives nothing from any later run of events in which it does not reconnect |
| RelayLemmas.DisconnectSilences | server.js:40-42 | in a run that starts with the connection's disconnect, the connection ends in no room and receives nothing, as long as it does not reconnect |
| RelayLemmas.RunDeliversOnlySentChanges | server.js:36-38 | every delivery of a run carries the payload of some `send-changes` event of that run, sent by another connection |
| RelayLemmas.ReachableValid | server.js:28-43 | every reachable room table has no empty rooms and only live members (a corollary of `Relay.Run`) |
| RelayLemmas.RunSplits | server.js:28-43 | running two event sequences one after the other adds up their deliveries and ends where the second run ends; no delivery is merged or lost |
| RelayLemmas.ScenarioPeerReceives | server.js:31-38 | A and B join doc1 and A sends X: only B receives X |
| RelayLemmas.ScenarioLeaverGetsNothing | server.js:31-42 | A joins doc1 and leaves; B joins doc1 and sends Y: nothing is delivered |
| RelayLemmas.ScenarioRepeatedSend | server.js:36-38 | A and B join doc1 and A sends X twice: B receives X twice and nothing else is delivered |
| DocumentModel.Build | models/Document.js:3-8 | a cast succeeds if and only if the title is a present, non-empty string and the owner is present; content defaults to "" and collaborators to the empty list; the result satisfies the schema |
| DocumentModel.BuildFieldsOf | models/Document.js:3-8 | re-casting a stored document's own fields gives back the same document exactly when it is valid |
| DocumentRoutes.Lookup | routes/documents.js:20-25 | a missing id is reported before ownership; access is granted only to the owner, with the stored document |
| DocumentRoutes.ListDocuments | routes/documents.js:8-15 | the list holds exactly the stored documents whose owner is the requester; the store is unchanged |
| DocumentRoutes.GetDocument | routes/documents.js:18-32 | 404 if and only if the id is missing; 403 if and only if the id is stored and the owner is not the requester; otherwise 200 with the stored document; the store is unchanged |
| DocumentRoutes.CreateDocument | routes/documents.js:35-47 | 201 if and only if the title is valid and the new id is free; then exactly one document is added, owned by the requester, with the supplied content (or "" when none is given) and no collaborators, and every other entry is unchanged; otherwise 500 and the store is unchanged |
| DocumentRoutes.UpdateDocument | routes/documents.js:50-68 | 404 for a missing id, then 403 for a non-owner, with the store unchanged; for the owner, an invalid title gives 500 with the store unchanged; otherwise title and content are replaced, owner and collaborators are kept, and other documents are untouched |
| DocumentRoutes.DeleteDocument | routes/documents.js:71-85 | 404, then 403, with the store unchanged; for the owner, exactly that id is removed and every other document is untouched |
| DocumentRouteLemmas.MissingIsNotFound | routes/documents.js:21 | a missing id gives 404 on get, update and delete whoever asks, and changes nothing |
| DocumentRouteLemmas.NonOwnerIsForbidden | routes/documents.js:23-25 | a non-owner gets 403 on get, update and delete, and the store is unchanged |
| DocumentRouteLemmas.CollaboratorsGrantNothing | routes/documents.js:56-58 | changing a document's collaborators list changes no status of get, update or delete |
| DocumentRouteLemmas.HandlersPreserveWellFormed | routes/documents.js:38-81 | create, update and delete keep every stored document valid under the schema |
| DocumentRouteLemmas.OwnershipIsPermanent | routes/documents.js:41 | no handler changes the owner of a document that survives it |
| DocumentRouteLemmas.OnlyOwnerMutates | routes/documents.js:76-80 | an update or delete changes the store only when the requester owns that document |
| DocumentRouteLemmas.CreateThenGet | routes/documents.js:38-43 | the creator can read back a newly created document exactly as created |
| DocumentRouteLemmas.CreateThenDelete | routes/documents.js:80 | deleting a document the same user just created restores the store |
| DocumentRouteLemmas.CreateThenList | routes/documents.js:10-11 | a new document appears in its creator's list and in nobody else's |
| DocumentRouteLemmas.UpdateThenGet | routes/documents.js:60-64 | after a successful update, get returns the new title and content with the old owner and collaborators |
| DocumentRouteLemmas.UpdateIdempotent | routes/documents.js:60-62 | repeating an update with the same values changes nothing more |
| DocumentRouteLemmas.DeleteThenGet | routes/documents.js:74-81 | after the owner deletes a document, get gives 404 to everyone; after a refused delete, get still answers 200 to the owner and 403 to others |

## Left out

- Process bootstrap (server.js:1-25, 45-46): dotenv, Express setup, CORS, the MongoDB connection and `server.listen`. This is I/O plumbing.
- Logging (server.js:29, 33, 41; routes/documents.js:29).
- socket.io's transport: the room named by each socket's own id, delivery ordering, per-recipient send failures, and payload serialisation. The payload is an opaque type parameter that is passed through unchanged.
- A malformed `send-changes` message, such as `data` being undefined, makes the handler throw. This is not modelled; every event carries a document id.
- Concurrency between connections. Every event is one atomic step.
- Token verification (`verifyToken`) and the auth routes: middleware/auth and routes/auth are not part of this model. The requester's id is an input.
- Mongo ObjectId format. Ids are opaque strings compared for equality, and a malformed id (a cast error, which gives 500) is not modelled.
- Unspecified database errors, which would give 500 with the store unchanged. Mongoose's casting of non-string JSON values is also left out: body fields are either an absent value or a string.
- `timestamps` (models/Document.js:8), because they depend on the clock.
- The order of the list that GET `/` returns. The list is modelled as a map from id to document.
- DocumentRoutes.UpdateDocument: when `content` is omitted, Mongoose unsets the field. The model records this as the schema default "", which is what a later read returns. The immediate PUT response, which omits the field, is not distinguished.
- DocumentRoutes.CreateDocument: the database assigns the new document's id, so the model takes it as an input. An id that is already taken is modelled as the duplicate-key error (500).
