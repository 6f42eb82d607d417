/** Properties of sequences of events on the room registry: the two-player session
    from creation to close, what a closed or abandoned room answers afterwards,
    and the seat a disconnect leaves occupied. */
module Scenarios {
  import opened RoomRegistry

  /** A created room that another connection joins relays each player's moves to
      the other player only. */
  lemma MovesReachOnlyTheOpponent(r: Registry, id: RoomId, a: ConnId, b: ConnId)
    requires Inv(r) && id !in r.rooms && a != b
    ensures JoinReplyOf(Create(r, id, a), id, b).Joined?
    ensures Others(Join(Create(r, id, a), id, b), a, id) == {b}
    ensures Others(Join(Create(r, id, a), id, b), b, id) == {a}
  {
  }

  /** Once a second player has joined, every further join is refused as full,
      whoever asks. */
  lemma SecondJoinFillsTheRoom(r: Registry, id: RoomId, b: ConnId, d: ConnId)
    requires Inv(r) && JoinReplyOf(r, id, b).Joined?
    ensures JoinReplyOf(Join(r, id, b), id, d) == Refused(RoomIsFull)
    ensures Join(Join(r, id, b), id, d) == Join(r, id, b)
  {
  }

  /** When the creator leaves a room nobody joined, the room is gone: a later join
      on its id is told the room does not exist. */
  lemma LoneCreatorLeavingDeletesRoom(r: Registry, id: RoomId, a: ConnId, d: ConnId)
    requires Inv(r) && id !in r.rooms
    ensures id !in Disconnect(Create(r, id, a), a).rooms
    ensures JoinReplyOf(Disconnect(Create(r, id, a), a), id, d) == Refused(NoSuchRoom)
  {
  }

  /** A player leaving a full room does not free its seat: the room stays, still
      listing the departed player, and refuses every newcomer as full. */
  lemma DisconnectNeverFreesASeat(r: Registry, id: RoomId, a: ConnId, d: ConnId)
    requires Inv(r) && id in r.rooms && |r.rooms[id].players| == Capacity
    ensures id in Disconnect(r, a).rooms && Disconnect(r, a).rooms[id] == r.rooms[id]
    ensures JoinReplyOf(Disconnect(r, a), id, d) == Refused(RoomIsFull)
  {
  }

  /** Closing twice is closing once, and after a close the id answers as unknown:
      joins are refused without effect and moves reach nobody. */
  lemma CloseIsFinal(r: Registry, id: RoomId, d: ConnId)
    ensures Close(Close(r, id), id) == Close(r, id)
    ensures JoinReplyOf(Close(r, id), id, d) == Refused(NoSuchRoom)
    ensures Join(Close(r, id), id, d) == Close(r, id)
    ensures Others(Close(r, id), d, id) == {}
  {
  }

  /** The whole life of one game room: two named players, a creator `a` and a joiner
      `b`; a third connection `c` and an unknown id `other`; then `a` disconnects
      and `b` closes the room. */
  lemma GameRoomLifecycle(a: ConnId, b: ConnId, c: ConnId, na: string, nb: string,
                          id: RoomId, other: RoomId,
                          s0: Registry, s1: Registry, s2: Registry, s3: Registry, s4: Registry)
    requires a != b && a != c && b != c && id != other
    requires s0 == SetUsername(SetUsername(Initial, a, Some(na)), b, Some(nb))
    requires s1 == Create(s0, id, a)
    requires s2 == Join(s1, id, b)
    requires s3 == Disconnect(s2, a)
    requires s4 == Close(s3, id)
    // b joins and is answered with both entries; a is told its opponent arrived
    ensures JoinReplyOf(s1, id, b) == Joined(Room(id, [Player(a, Some(na)), Player(b, Some(nb))]))
    ensures JoinNotice(s1, id, b) == Some(Emit({a}, OpponentJoined(Room(id, [Player(a, Some(na)), Player(b, Some(nb))]))))
    // a third player is turned away, and so is anyone naming an unknown room
    ensures JoinReplyOf(s2, id, c) == Refused(RoomIsFull)
    ensures JoinReplyOf(s2, other, c) == Refused(NoSuchRoom)
    // moves go to the opponent only
    ensures Others(s2, a, id) == {b} && Others(s2, b, id) == {a}
    // a leaves: b alone is told, with a's entry, and the room lingers, still full
    ensures DisconnectNotices(s2, a) == map[id := Emit({b}, PlayerDisconnected(Player(a, Some(na))))]
    ensures id in s3.rooms && JoinReplyOf(s3, id, c) == Refused(RoomIsFull)
    // b closes: nobody else is told, and the id is unknown from then on
    ensures Others(s3, b, id) == {}
    ensures id !in s4.rooms && JoinReplyOf(s4, id, c) == Refused(NoSuchRoom)
  {
    var full := Room(id, [Player(a, Some(na)), Player(b, Some(nb))]);
    assert NameOf(s0, a) == Some(na) && NameOf(s1, b) == Some(nb);
    assert s1.rooms == map[id := Room(id, [Player(a, Some(na))])];
    assert [Player(a, Some(na))] + [Player(b, Some(nb))] == full.players;
    assert s2.rooms == map[id := full];
    assert FindPlayer(full.players, a) == Some(Player(a, Some(na)));
    assert s3.rooms == s2.rooms;
  }

  // ---------------------------------------------------------------------------
  // Any sequence of events the server can receive.

  /** An inbound socket event with its sender. */
  datatype Request =
    | UsernameSent(c: ConnId, name: Option<string>)
    | CreateRequested(c: ConnId, id: RoomId)
    | JoinRequested(c: ConnId, id: RoomId)
    | MoveSent(c: ConnId, id: RoomId)
    | Disconnected(c: ConnId)
    | CloseRequested(c: ConnId, id: RoomId)

  /** The one thing the model assumes of an event: a new room's uuid is fresh. */
  predicate Possible(r: Registry, q: Request) {
    q.CreateRequested? ==> q.id !in r.rooms
  }

  /** The state after handling one event; a move changes nothing. */
  function Apply(r: Registry, q: Request): Registry
    requires Possible(r, q)
  {
    match q
    case UsernameSent(c, name) => SetUsername(r, c, name)
    case CreateRequested(c, id) => Create(r, id, c)
    case JoinRequested(c, id) => Join(r, id, c)
    case MoveSent(_, _) => r
    case Disconnected(c) => RoomRegistry.Disconnect(r, c)
    case CloseRequested(_, id) => Close(r, id)
  }

  /** Every event of `qs` is possible in the state it arrives in. */
  predicate Trace(r: Registry, qs: seq<Request>)
    decreases |qs|
  {
    qs == [] || (Possible(r, qs[0]) && Trace(Apply(r, qs[0]), qs[1..]))
  }

  /** The state after handling the events `qs` in order. */
  function Run(r: Registry, qs: seq<Request>): Registry
    requires Trace(r, qs)
    decreases |qs|
  {
    if qs == [] then r else Run(Apply(r, qs[0]), qs[1..])
  }

  /** Every handler keeps the invariant, whatever event arrives. */
  lemma ApplyKeepsInv(r: Registry, q: Request)
    requires Inv(r) && Possible(r, q)
    ensures Inv(Apply(r, q))
  {
  }

  /** ... and so does any sequence of events. */
  lemma {:induction false} RunKeepsInv(r: Registry, qs: seq<Request>)
    requires Inv(r) && Trace(r, qs)
    ensures Inv(Run(r, qs))
    decreases |qs|
  {
    if qs != [] {
      ApplyKeepsInv(r, qs[0]);
      RunKeepsInv(Apply(r, qs[0]), qs[1..]);
    }
  }

  /** Whatever the server has received since it started, no room holds more than
      two players or none, and every room is filed under its own id. Among the game
      rooms' delivery groups, a move sent to a stored room reaches only players
      listed in it, and one naming an id that is not stored reaches no member of any
      of them (a socket's personal room is outside this model). */
  lemma NoRoomEverExceedsTwoPlayers(qs: seq<Request>, sender: ConnId)
    requires Trace(Initial, qs)
    ensures forall id :: id in Run(Initial, qs).rooms ==>
      && Run(Initial, qs).rooms[id].roomId == id
      && 1 <= |Run(Initial, qs).rooms[id].players| <= Capacity
      && Others(Run(Initial, qs), sender, id) <= Ids(Run(Initial, qs).rooms[id].players)
    ensures forall id :: id !in Run(Initial, qs).rooms ==> Others(Run(Initial, qs), sender, id) == {}
  {
    InitialInv();
    RunKeepsInv(Initial, qs);
  }

  // ---------------------------------------------------------------------------
  // Over whole runs: an id answers only if it was created, and a full room stays full.

  /** `qs` holds a `createRoom` that was given the id `id`. */
  predicate CreatesId(qs: seq<Request>, id: RoomId) {
    exists i :: 0 <= i < |qs| && qs[i].CreateRequested? && qs[i].id == id
  }

  /** The only event that adds a room is a `createRoom` under that id. */
  lemma ApplyAddsOnlyCreated(r: Registry, q: Request, id: RoomId)
    requires Possible(r, q)
    ensures id in Apply(r, q).rooms ==> id in r.rooms || (q.CreateRequested? && q.id == id)
  {
  }

  /** A room present after a run was there at the start or was created during it. */
  lemma {:induction false} RunAddsOnlyCreated(r: Registry, qs: seq<Request>, id: RoomId)
    requires Trace(r, qs)
    ensures id in Run(r, qs).rooms ==> id in r.rooms || CreatesId(qs, id)
    decreases |qs|
  {
    if qs != [] {
      ApplyAddsOnlyCreated(r, qs[0], id);
      RunAddsOnlyCreated(Apply(r, qs[0]), qs[1..], id);
      if CreatesId(qs[1..], id) {
        var i :| 0 <= i < |qs[1..]| && qs[1..][i].CreateRequested? && qs[1..][i].id == id;
        assert qs[i + 1] == qs[1..][i];
      }
      if qs[0].CreateRequested? && qs[0].id == id {
        assert CreatesId(qs, id);
      }
    }
  }

  /** A join naming an id that no `createRoom` ever produced is answered `Room does
      not exist` and changes nothing, however long the server has been running. */
  lemma JoinOnNeverCreatedId(qs: seq<Request>, id: RoomId, c: ConnId)
    requires Trace(Initial, qs) && !CreatesId(qs, id)
    ensures JoinReplyOf(Run(Initial, qs), id, c) == Refused(NoSuchRoom)
    ensures Join(Run(Initial, qs), id, c) == Run(Initial, qs)
  {
    RunAddsOnlyCreated(Initial, qs, id);
  }

  /** A closed id stays unknown for good unless a later `createRoom` is handed the
      same id: every join on it is refused as nonexistent and moves to it reach no
      member of any game room's delivery group. */
  lemma ClosedIdStaysUnknown(r: Registry, id: RoomId, qs: seq<Request>, d: ConnId)
    requires Inv(r) && Trace(Close(r, id), qs) && !CreatesId(qs, id)
    ensures id !in Run(Close(r, id), qs).rooms
    ensures JoinReplyOf(Run(Close(r, id), qs), id, d) == Refused(NoSuchRoom)
    ensures Others(Run(Close(r, id), qs), d, id) == {}
  {
    RunAddsOnlyCreated(Close(r, id), qs, id);
    CloseKeepsInv(r, id);
    RunKeepsInv(Close(r, id), qs);
  }

  /** `qs` holds a `closeRoom` naming `id`. */
  predicate ClosesId(qs: seq<Request>, id: RoomId) {
    exists i :: 0 <= i < |qs| && qs[i].CloseRequested? && qs[i].id == id
  }

  /** Every event other than a close of its id leaves a full room exactly as it is. */
  lemma ApplyKeepsFullRoom(r: Registry, q: Request, id: RoomId)
    requires Possible(r, q) && id in r.rooms && |r.rooms[id].players| >= Capacity
    requires !(q.CloseRequested? && q.id == id)
    ensures id in Apply(r, q).rooms && Apply(r, q).rooms[id] == r.rooms[id]
  {
  }

  /** Until its id is closed, a full room stays exactly as it is, whatever events
      arrive, and refuses every join as full. */
  lemma {:induction false} FullRoomStaysFull(r: Registry, qs: seq<Request>, id: RoomId, d: ConnId)
    requires Trace(r, qs) && id in r.rooms && |r.rooms[id].players| >= Capacity
    requires !ClosesId(qs, id)
    ensures id in Run(r, qs).rooms && Run(r, qs).rooms[id] == r.rooms[id]
    ensures JoinReplyOf(Run(r, qs), id, d) == Refused(RoomIsFull)
    decreases |qs|
  {
    if qs != [] {
      ApplyKeepsFullRoom(r, qs[0], id);
      forall i | 0 <= i < |qs[1..]|
        ensures !(qs[1..][i].CloseRequested? && qs[1..][i].id == id)
      {
        assert qs[1..][i] == qs[i + 1];
      }
      FullRoomStaysFull(Apply(r, qs[0]), qs[1..], id, d);
    }
  }

  /** Once a second player has joined, every later join on that room is refused as
      full, whatever happens in between, until the room is closed. */
  lemma JoinedRoomRefusesLaterJoins(r: Registry, id: RoomId, b: ConnId, qs: seq<Request>, d: ConnId)
    requires Inv(r) && JoinReplyOf(r, id, b).Joined?
    requires Trace(Join(r, id, b), qs) && !ClosesId(qs, id)
    ensures JoinReplyOf(Run(Join(r, id, b), qs), id, d) == Refused(RoomIsFull)
  {
    FullRoomStaysFull(Join(r, id, b), qs, id, d);
  }
}
