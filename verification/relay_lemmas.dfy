/**
 * Properties of the relay: room membership under join and disconnect,
 * fan-out of `send-changes`, and what a disconnected connection can still
 * receive over any later sequence of events.
 */
module RelayLemmas {
  import opened Relay

  /** The connections a set of deliveries reaches. */
  function Recipients<P(==)>(out: set<Delivery<P>>): set<ConnId> {
    set dl | dl in out :: dl.to
  }

  /** No connection is a member of any room. */
  ghost predicate InNoRoom(s: RelayState, c: ConnId) {
    forall d :: c !in Members(s, d)
  }

  /** Rooms are sets: joining a room one is already in changes nothing. */
  lemma JoinIdempotent(s: RelayState, c: ConnId, docId: DocId)
    ensures Join(Join(s, c, docId), c, docId) == Join(s, c, docId)
  {
  }

  /** Any two joins can be applied in either order. */
  lemma JoinCommutes(s: RelayState, c1: ConnId, d1: DocId, c2: ConnId, d2: DocId)
    ensures Join(Join(s, c1, d1), c2, d2) == Join(Join(s, c2, d2), c1, d1)
  {
    var a := Join(Join(s, c1, d1), c2, d2);
    var b := Join(Join(s, c2, d2), c1, d1);
    assert a.rooms.Keys == b.rooms.Keys;
    forall d | d in a.rooms
      ensures a.rooms[d] == b.rooms[d]
    {
      assert a.rooms[d] == Members(a, d);
      assert b.rooms[d] == Members(b, d);
    }
  }

  /** A connection can be in several rooms at once: a second join keeps the first. */
  lemma JoinSeveralRooms(s: RelayState, c: ConnId, d1: DocId, d2: DocId)
    ensures RoomsOf(Join(Join(s, c, d1), c, d2), c) == RoomsOf(s, c) + {d1, d2}
  {
  }

  /** The sender never receives its own `receive-changes`, whatever the room size. */
  lemma SenderNeverReceives<P>(s: RelayState, c: ConnId, docId: DocId, changes: P)
    ensures DeliveredTo(SendChanges(s, c, docId, changes), c) == {}
    ensures c !in Recipients(SendChanges(s, c, docId, changes))
  {
  }

  /** `send-changes` reaches exactly the other members of the room, each with `changes` itself. */
  lemma SendChangesRecipients<P>(s: RelayState, c: ConnId, docId: DocId, changes: P)
    ensures Recipients(SendChanges(s, c, docId, changes)) == Members(s, docId) - {c}
    ensures forall m :: m in Members(s, docId) - {c} ==>
      DeliveredTo(SendChanges(s, c, docId, changes), m) == {Delivery(m, ReceiveChanges, changes)}
  {
  }

  /** Mapping distinct connections to their deliveries loses nothing. */
  lemma {:induction false} FanOutSize<P>(members: set<ConnId>, changes: P)
    ensures |set m | m in members :: Delivery(m, ReceiveChanges, changes)| == |members|
    decreases members
  {
    if members != {} {
      var x :| x in members;
      var rest := members - {x};
      FanOutSize(rest, changes);
      var img := set m | m in members :: Delivery(m, ReceiveChanges, changes);
      var imgRest := set m | m in rest :: Delivery(m, ReceiveChanges, changes);
      assert img == imgRest + {Delivery(x, ReceiveChanges, changes)};
      assert Delivery(x, ReceiveChanges, changes) !in imgRest;
    }
  }

  /** One delivery per other member of the room: no duplicates and no omissions. */
  lemma SendChangesCount<P>(s: RelayState, c: ConnId, docId: DocId, changes: P)
    ensures |SendChanges(s, c, docId, changes)| == |Members(s, docId) - {c}|
  {
    var others := Members(s, docId) - {c};
    FanOutSize(others, changes);
    assert SendChanges(s, c, docId, changes) == set m | m in others :: Delivery(m, ReceiveChanges, changes);
  }

  /**
   * The relay does not require the sender to have joined: a non-member's
   * changes reach every current member.
   */
  lemma NonMemberReachesAll<P>(s: RelayState, c: ConnId, docId: DocId, changes: P)
    requires c !in Members(s, docId)
    ensures Recipients(SendChanges(s, c, docId, changes)) == Members(s, docId)
    ensures |SendChanges(s, c, docId, changes)| == |Members(s, docId)|
  {
    SendChangesRecipients(s, c, docId, changes);
    SendChangesCount(s, c, docId, changes);
    assert Members(s, docId) - {c} == Members(s, docId);
  }

  /**
   * `send-changes` delivers nothing exactly when the room is absent, empty,
   * or holds only the sender.
   */
  lemma NoDeliveriesWhenAlone<P>(s: RelayState, c: ConnId, docId: DocId, changes: P)
    ensures SendChanges(s, c, docId, changes) == {} <==> Members(s, docId) <= {c}
  {
  }

  /** A `send-changes` step leaves the room table as it was (a corollary of `Step`'s contract). */
  lemma SendChangesKeepsRooms<P>(s: RelayState, c: ConnId, docId: DocId, changes: P)
    ensures Step(s, SendChangesEvent(c, docId, changes)).1 == s
  {
  }

  /** Leaving every room twice is leaving every room once. */
  lemma DisconnectIdempotent(s: RelayState, c: ConnId)
    ensures Disconnect(Disconnect(s, c), c) == Disconnect(s, c)
  {
    var once := Disconnect(s, c);
    var twice := Disconnect(once, c);
    assert twice.rooms.Keys == once.rooms.Keys;
    forall d | d in once.rooms
      ensures twice.rooms[d] == once.rooms[d]
    {
      assert c !in once.rooms[d];
    }
  }

  /**
   * Disconnect undoes a join: a connection that joined a room and then
   * disconnected leaves the room table as if it had never joined.
   */
  lemma DisconnectAbsorbsJoin(s: RelayState, c: ConnId, docId: DocId)
    ensures Disconnect(Join(s, c, docId), c) == Disconnect(s, c)
  {
    var a := Disconnect(Join(s, c, docId), c);
    var b := Disconnect(s, c);
    assert (Members(s, docId) + {c}) - {c} == Members(s, docId) - {c};
    assert a.rooms.Keys == b.rooms.Keys;
  }

  /**
   * A connection that is gone and in no room hears nothing from any later
   * run of events in which it does not connect again.
   */
  lemma {:induction false} GoneConnectionHearsNothing<P>(s: RelayState, c: ConnId, evs: seq<Event<P>>)
    requires c !in s.live && InNoRoom(s, c)
    requires forall i :: 0 <= i < |evs| ==> evs[i] != Connection(c)
    ensures forall dl :: dl in Run(s, evs).0 ==> dl.to != c
    ensures c !in Run(s, evs).1.live && InNoRoom(Run(s, evs).1, c)
    decreases |evs|
  {
    if evs != [] {
      var (out, s1) := Step(s, evs[0]);
      assert evs[0] != Connection(c);
      match evs[0] {
        case Connection(x) =>
        case JoinDocument(x, d) =>
        case SendChangesEvent(x, d, changes) =>
          assert DeliveredTo(out, c) == {};
        case Disconnection(x) =>
      }
      assert c !in s1.live && InNoRoom(s1, c);
      GoneConnectionHearsNothing(s1, c, evs[1..]);
      assert DeliveredTo(out, c) == {};
    }
  }

  /**
   * After `disconnect`, the connection is in no room, and receives nothing
   * from any later run of events (a reconnecting client gets a fresh id).
   */
  lemma DisconnectSilences<P>(s: RelayState, c: ConnId, evs: seq<Event<P>>)
    requires Valid(s)
    requires forall i :: 0 <= i < |evs| ==> evs[i] != Connection(c)
    ensures RoomsOf(Run(s, [Disconnection(c)] + evs).1, c) == {}
    ensures forall dl :: dl in Run(s, [Disconnection(c)] + evs).0 ==> dl.to != c
  {
    var s1 := Step<P>(s, Disconnection(c)).1;
    if c in s.live {
      assert s1 == Disconnect(s, c);
    } else {
      forall d
        ensures c !in Members(s, d)
      {
        if d in s.rooms {
          assert s.rooms[d] <= s.live;
        }
      }
    }
    assert InNoRoom(s1, c);
    GoneConnectionHearsNothing(s1, c, evs);
    assert ([Disconnection(c)] + evs)[1..] == evs;
    var r := Run(s1, evs);
    assert RoomsOf(r.1, c) == {} by {
      forall d | d in r.1.rooms
        ensures c !in r.1.rooms[d]
      {
        assert c !in Members(r.1, d);
      }
    }
  }

  /**
   * The relay invents nothing: every delivery of a run carries the payload
   * of some `send-changes` event of that run, made by another connection.
   */
  lemma {:induction false} RunDeliversOnlySentChanges<P>(s: RelayState, evs: seq<Event<P>>)
    ensures forall dl :: dl in Run(s, evs).0 ==>
      exists i :: 0 <= i < |evs| && evs[i].SendChangesEvent? && evs[i].c != dl.to && evs[i].changes == dl.payload
    decreases |evs|
  {
    if evs != [] {
      var (out, s1) := Step(s, evs[0]);
      var (rest, s2) := Run(s1, evs[1..]);
      RunDeliversOnlySentChanges(s1, evs[1..]);
      forall dl | dl in Run(s, evs).0
        ensures exists i :: 0 <= i < |evs| && evs[i].SendChangesEvent? && evs[i].c != dl.to && evs[i].changes == dl.payload
      {
        if dl in out {
          assert evs[0].SendChangesEvent?;
        } else {
          assert dl in rest;
          var j :| 0 <= j < |evs[1..]| && evs[1..][j].SendChangesEvent? && evs[1..][j].c != dl.to && evs[1..][j].changes == dl.payload;
          assert evs[j + 1] == evs[1..][j];
        }
      }
    }
  }

  /**
   * Every state reached from the initial one keeps the room-table invariant
   * (a corollary of `Run`'s contract, from the empty initial table).
   */
  lemma ReachableValid<P>(evs: seq<Event<P>>)
    ensures Valid(Run(Initial, evs).1)
  {
  }

  /**
   * A joins "doc1", B joins "doc1", A sends "X": B receives "X" and A
   * receives nothing.
   */
  lemma ScenarioPeerReceives()
    ensures Run(Initial, [Connection("A"), Connection("B"), JoinDocument("A", "doc1"),
                          JoinDocument("B", "doc1"), SendChangesEvent("A", "doc1", "X")]).0
         == multiset{Delivery("B", ReceiveChanges, "X")}
  {
  }

  /**
   * A joins "doc1" and disconnects; B then joins "doc1" and sends "Y": no
   * delivery occurs.
   */
  lemma ScenarioLeaverGetsNothing()
    ensures Run(Initial, [Connection("A"), JoinDocument("A", "doc1"), Disconnection("A"),
                          Connection("B"), JoinDocument("B", "doc1"), SendChangesEvent("B", "doc1", "Y")]).0
         == multiset{}
  {
  }

  /**
   * A run of two sequences of events is the first run followed by the
   * second from where it ended: deliveries add up, none is merged or lost.
   */
  lemma {:induction false} RunSplits<P>(s: RelayState, evs1: seq<Event<P>>, evs2: seq<Event<P>>)
    ensures var first := Run(s, evs1);
      Run(s, evs1 + evs2) == (first.0 + Run(first.1, evs2).0, Run(first.1, evs2).1)
    decreases |evs1|
  {
    if evs1 == [] {
      assert evs1 + evs2 == evs2;
      assert Run(s, evs1) == (multiset{}, s);
      assert multiset{} + Run(s, evs2).0 == Run(s, evs2).0;
    } else {
      var (out, s1) := Step(s, evs1[0]);
      assert (evs1 + evs2)[0] == evs1[0];
      assert (evs1 + evs2)[1..] == evs1[1..] + evs2;
      RunSplits(s1, evs1[1..], evs2);
      var first := Run(s1, evs1[1..]);
      var second := Run(first.1, evs2);
      assert Run(s, evs1 + evs2).0 == multiset(out) + (first.0 + second.0);
      assert multiset(out) + (first.0 + second.0) == (multiset(out) + first.0) + second.0;
    }
  }

  /**
   * A and B join "doc1" and A sends "X" twice: B receives "X" twice (one
   * `receive-changes` per `send-changes`), A nothing.
   */
  lemma ScenarioRepeatedSend()
    ensures var out := Run(Initial, [Connection("A"), Connection("B"), JoinDocument("A", "doc1"),
                                     JoinDocument("B", "doc1"), SendChangesEvent("A", "doc1", "X"),
                                     SendChangesEvent("A", "doc1", "X")]).0;
      && out[Delivery("B", ReceiveChanges, "X")] == 2
      && |out| == 2
  {
    var s := Join(Join(Connect(Connect(Initial, "A"), "B"), "A", "doc1"), "B", "doc1");
    assert Members(s, "doc1") == {"A", "B"};
    var once := SendChanges(s, "A", "doc1", "X");
    assert Delivery("B", ReceiveChanges, "X") in once;
    assert once == {Delivery("B", ReceiveChanges, "X")};
    var send: Event<string> := SendChangesEvent("A", "doc1", "X");
    assert Step(s, send) == (once, s);
    assert Run(s, [send]).0 == multiset(once);
    assert Run(s, [send, send]).0 == multiset(once) + multiset(once);
  }
}
