/**
 * The real-time relay of the collaboration server: the `connection` handler
 * of server.js with its `join-document`, `send-changes` and `disconnect`
 * callbacks, over an explicit table of rooms.
 *
 * The room semantics belong to socket.io, not to the repository, and are
 * stated here as assumptions of the model:
 *  - a room is a set of connection ids, so joining twice changes nothing;
 *  - `socket.to(room).emit(...)` reaches every member of the room except the
 *    emitting socket, and passes the payload through unchanged;
 *  - a disconnecting socket leaves every room it was in, and a room whose
 *    last member leaves is discarded;
 *  - handlers only run for connected sockets: an event of a connection that
 *    is not live is never processed.
 * Each event is one atomic step; the per-socket room named by the socket's
 * own id, delivery ordering and per-recipient send failures are not modelled.
 */
module Relay {

  /** `socket.id`, assigned by the transport; compared as an opaque value. */
  type ConnId = string

  /** The `documentId` a client names; the name of a room. */
  type DocId = string

  /** The event name under which relayed changes reach the other members. */
  const ReceiveChanges: string := "receive-changes"

  /** Live connections and, per document, the set of connections in its room. */
  datatype RelayState = RelayState(live: set<ConnId>, rooms: map<DocId, set<ConnId>>)

  /** One message the server emits: event `event` with `payload` to connection `to`. */
  datatype Delivery<P> = Delivery(to: ConnId, event: string, payload: P)

  /** The server before any client connects. */
  const Initial := RelayState({}, map[])

  /** The members of the room of `docId`; an absent room has none. */
  function Members(s: RelayState, docId: DocId): set<ConnId> {
    if docId in s.rooms then s.rooms[docId] else {}
  }

  /** The documents whose rooms `c` is in: the connection's joined-set. */
  function RoomsOf(s: RelayState, c: ConnId): set<DocId> {
    set d | d in s.rooms && c in s.rooms[d]
  }

  /**
   * The invariant of the room table: no room is kept empty, and every
   * member of a room is a live connection.
   */
  ghost predicate Valid(s: RelayState) {
    forall d :: d in s.rooms ==> s.rooms[d] != {} && s.rooms[d] <= s.live
  }

  /** The deliveries among `out` addressed to `c`. */
  function DeliveredTo<P(==)>(out: set<Delivery<P>>, c: ConnId): set<Delivery<P>> {
    set dl | dl in out && dl.to == c
  }

  /** `io.on("connection", ...)`: the transport registers a socket, in no room yet. */
  function Connect(s: RelayState, c: ConnId): (r: RelayState)
    ensures c in r.live
    ensures forall x :: x != c ==> (x in r.live <==> x in s.live)
    ensures forall d :: Members(r, d) == Members(s, d)
    ensures Valid(s) ==> Valid(r)
    ensures Valid(s) && c !in s.live ==> RoomsOf(r, c) == {}
  {
    s.(live := s.live + {c})
  }

  /**
   * `join-document`: `socket.join(documentId)`. The connection becomes a
   * member of that document's room (created on first join) and nothing else
   * changes; rooms are sets, so membership in other rooms is kept.
   */
  function Join(s: RelayState, c: ConnId, docId: DocId): (r: RelayState)
    ensures r.live == s.live
    ensures c in Members(r, docId)
    ensures forall d, x :: x in Members(r, d) <==> x in Members(s, d) || (d == docId && x == c)
    ensures RoomsOf(r, c) == RoomsOf(s, c) + {docId}
    ensures Valid(s) && c in s.live ==> Valid(r)
  {
    s.(rooms := s.rooms[docId := Members(s, docId) + {c}])
  }

  /**
   * `send-changes`: `socket.to(documentId).emit("receive-changes", changes)`.
   * Every member of the room other than the sender gets `changes` unchanged;
   * the sender need not be a member. The room table is not touched (the
   * result is only the set of deliveries).
   */
  function SendChanges<P(==)>(s: RelayState, c: ConnId, docId: DocId, changes: P): (out: set<Delivery<P>>)
    ensures forall m :: m in Members(s, docId) && m != c <==> Delivery(m, ReceiveChanges, changes) in out
    ensures forall dl :: dl in out ==>
      && dl.to in Members(s, docId)
      && dl.to != c
      && dl.event == ReceiveChanges
      && dl.payload == changes
  {
    set m | m in Members(s, docId) && m != c :: Delivery(m, ReceiveChanges, changes)
  }

  /**
   * `disconnect`: the handler only logs; socket.io removes the socket from
   * every room it was in and discards the rooms this empties.
   */
  function Disconnect(s: RelayState, c: ConnId): (r: RelayState)
    ensures r.live == s.live - {c}
    ensures RoomsOf(r, c) == {}
    ensures forall d, x :: x != c ==> (x in Members(r, d) <==> x in Members(s, d))
    ensures forall d :: d !in RoomsOf(s, c) ==> Members(r, d) == Members(s, d)
    ensures forall d :: d in r.rooms ==> r.rooms[d] != {}
    ensures Valid(s) ==> Valid(r)
  {
    RelayState(s.live - {c}, map d | d in s.rooms && s.rooms[d] - {c} != {} :: s.rooms[d] - {c})
  }

  /** The inbound events of the connection handler. */
  datatype Event<P> =
    | Connection(c: ConnId)
    | JoinDocument(c: ConnId, docId: DocId)
    | SendChangesEvent(c: ConnId, docId: DocId, changes: P)
    | Disconnection(c: ConnId)

  /**
   * One atomic step of the server: the deliveries an event causes and the
   * next room table. Events of a connection that is not live are dropped.
   */
  function Step<P(==)>(s: RelayState, e: Event<P>): (r: (set<Delivery<P>>, RelayState))
    ensures Valid(s) ==> Valid(r.1)
    ensures !e.Connection? && e.c !in s.live ==> r == ({}, s)
    ensures e.SendChangesEvent? ==> r.1 == s
    ensures Valid(s) ==> forall dl :: dl in r.0 ==> dl.to in s.live && dl.to != e.c
  {
    match e
    case Connection(c) => ({}, Connect(s, c))
    case JoinDocument(c, docId) =>
      if c in s.live then ({}, Join(s, c, docId)) else ({}, s)
    case SendChangesEvent(c, docId, changes) =>
      if c in s.live then (SendChanges(s, c, docId, changes), s) else ({}, s)
    case Disconnection(c) =>
      if c in s.live then ({}, Disconnect(s, c)) else ({}, s)
  }

  /**
   * Processes `evs` in order: every delivery made along the way, counted
   * once per `emit` (two sends of the same payload reach a member twice),
   * and the final state.
   */
  function Run<P(==)>(s: RelayState, evs: seq<Event<P>>): (r: (multiset<Delivery<P>>, RelayState))
    ensures Valid(s) ==> Valid(r.1)
    ensures forall dl :: dl in r.0 ==> dl.event == ReceiveChanges
    decreases |evs|
  {
    if evs == [] then (multiset{}, s)
    else
      var (out, s1) := Step(s, evs[0]);
      var (rest, s2) := Run(s1, evs[1..]);
      (multiset(out) + rest, s2)
  }
}
