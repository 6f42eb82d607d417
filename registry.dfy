/** The in-memory room registry of the chess relay server and the rules its
    Socket.IO handlers apply to it. Each handler is a function from the state
    before the event to the state after it; the class in server.dfy is proved
    to perform exactly these transitions. */
module RoomRegistry {

  /** A connection id (`socket.id`), chosen by the transport. */
  type ConnId = string
  /** A room id: the uuid v4 string chosen when the room is created. */
  type RoomId = string

  datatype Option<T> = None | Some(value: T)

  /** A roster entry `{id, username}`; the name is whatever the connection last
      announced with the `username` event, or undefined. */
  datatype Player = Player(id: ConnId, username: Option<string>)

  /** A registry entry `{roomId, players}`. */
  datatype Room = Room(roomId: RoomId, players: seq<Player>)

  /** What the server pushes to the members of a room. */
  datatype Event =
    | OpponentJoined(room: Room)
    | PlayerDisconnected(player: Player)
    | RoomClosed(roomId: RoomId)

  /** One `socket.to(room).emit(...)`: the connections reached and what they get. */
  datatype Emit<E> = Emit(recipients: set<ConnId>, event: E)

  /** The acknowledgement of `joinRoom`: the updated room, or `{error: true, message}`. */
  datatype JoinReply = Joined(room: Room) | Refused(message: string)

  const Capacity := 2
  const NoSuchRoom := "Room does not exist"
  const RoomIsFull := "Room is full"

  /** Everything the handlers read or write:
      rooms  -- the `rooms` Map, keyed by room id;
      groups -- the transport's delivery group of each room id (a missing key is an empty group);
      names  -- `socket.data.username` of each connection (a missing key is undefined). */
  datatype Registry = Registry(
    rooms: map<RoomId, Room>,
    groups: map<RoomId, set<ConnId>>,
    names: map<ConnId, Option<string>>)

  /** The state when the server starts. */
  const Initial := Registry(map[], map[], map[])

  function Ids(players: seq<Player>): set<ConnId> {
    set p | p in players :: p.id
  }

  function GroupOf(r: Registry, id: RoomId): set<ConnId> {
    if id in r.groups then r.groups[id] else {}
  }

  function NameOf(r: Registry, c: ConnId): Option<string> {
    if c in r.names then r.names[c] else None
  }

  /** The roster entry built for a connection by `createRoom` and `joinRoom`. */
  function RecordOf(r: Registry, c: ConnId): Player {
    Player(c, NameOf(r, c))
  }

  /** `players.find(p => p.id === c)`: the first entry of connection `c`. */
  function FindPlayer(players: seq<Player>, c: ConnId): (found: Option<Player>)
    ensures found.Some? <==> c in Ids(players)
    ensures found.Some? ==> found.value.id == c && found.value in players
    ensures found.Some? ==> exists i :: 0 <= i < |players| && players[i] == found.value && NoneBefore(players, c, i)
  {
    if players == [] then None
    else if players[0].id == c then (assert NoneBefore(players, c, 0); Some(players[0]))
    else
      var rest := FindPlayer(players[1..], c);
      assert players == [players[0]] + players[1..];
      assert Ids(players) == {players[0].id} + Ids(players[1..]);
      if rest.Some? then
        var i :| 0 <= i < |players[1..]| && players[1..][i] == rest.value && NoneBefore(players[1..], c, i);
        assert players[i + 1] == rest.value && NoneBefore(players, c, i + 1);
        rest
      else rest
  }

  /** No entry before index `i` belongs to connection `c`. */
  predicate NoneBefore(players: seq<Player>, c: ConnId, i: int)
    requires 0 <= i <= |players|
  {
    forall j :: 0 <= j < i ==> players[j].id != c
  }

  /** `socket.to(id)`: the members of the room's delivery group other than the sender. */
  function Others(r: Registry, sender: ConnId, id: RoomId): (to: set<ConnId>)
    ensures sender !in to
    ensures forall x :: x in GroupOf(r, id) && x != sender ==> x in to
    ensures to <= GroupOf(r, id)
  {
    GroupOf(r, id) - {sender}
  }

  /** What every handler keeps true: each stored room is filed under its own id and
      has one or two players, delivery groups exist exactly for stored rooms, and
      only listed players are in a room's group. */
  ghost predicate Inv(r: Registry) {
    && r.groups.Keys == r.rooms.Keys
    && (forall id :: id in r.rooms ==> r.rooms[id].roomId == id && 1 <= |r.rooms[id].players| <= Capacity)
    && (forall id :: id in r.rooms && id in r.groups ==> r.groups[id] <= Ids(r.rooms[id].players))
  }

  /** The `username` event: remember the connection's name. */
  function SetUsername(r: Registry, c: ConnId, name: Option<string>): (r': Registry)
    ensures NameOf(r', c) == name
    ensures forall d :: d != c ==> NameOf(r', d) == NameOf(r, d)
    ensures r'.rooms == r.rooms && r'.groups == r.groups
  {
    r.(names := r.names[c := name])
  }

  /** The `createRoom` event under the fresh id `id`: the creator joins the room's
      delivery group and a room listing only the creator is stored. */
  function Create(r: Registry, id: RoomId, c: ConnId): (r': Registry)
    requires id !in r.rooms
    ensures r'.rooms.Keys == r.rooms.Keys + {id}
    ensures r'.rooms[id].roomId == id && r'.rooms[id].players == [RecordOf(r, c)]
    ensures forall k :: k in r.rooms ==> r'.rooms[k] == r.rooms[k]
    ensures GroupOf(r', id) == {c}
    ensures forall k :: k != id ==> GroupOf(r', k) == GroupOf(r, k)
    ensures r'.names == r.names
  {
    Registry(r.rooms[id := Room(id, [RecordOf(r, c)])], r.groups[id := {c}], r.names)
  }

  /** The acknowledgement `joinRoom` gives connection `c` for room `id`. */
  function JoinReplyOf(r: Registry, id: RoomId, c: ConnId): (reply: JoinReply)
    ensures reply == Refused(NoSuchRoom) <==> id !in r.rooms
    ensures reply == Refused(RoomIsFull) <==> id in r.rooms && |r.rooms[id].players| >= Capacity
    ensures reply.Joined? <==> id in r.rooms && |r.rooms[id].players| < Capacity
    ensures reply.Joined? ==> reply.room.roomId == r.rooms[id].roomId
    ensures reply.Joined? ==> reply.room.players == r.rooms[id].players + [RecordOf(r, c)]
  {
    if id !in r.rooms then Refused(NoSuchRoom)
    else if |r.rooms[id].players| >= Capacity then Refused(RoomIsFull)
    else Joined(r.rooms[id].(players := r.rooms[id].players + [RecordOf(r, c)]))
  }

  /** The `joinRoom` event: on a refusal nothing changes; otherwise the joiner enters
      the room's delivery group and the extended room replaces the old one. */
  function Join(r: Registry, id: RoomId, c: ConnId): (r': Registry)
    ensures JoinReplyOf(r, id, c).Refused? ==> r' == r
    ensures JoinReplyOf(r, id, c).Joined? ==>
      && r'.rooms == r.rooms[id := JoinReplyOf(r, id, c).room]
      && GroupOf(r', id) == GroupOf(r, id) + {c}
    ensures forall k :: k != id ==> GroupOf(r', k) == GroupOf(r, k)
    ensures r'.names == r.names
  {
    match JoinReplyOf(r, id, c)
    case Refused(_) => r
    case Joined(room) => r.(rooms := r.rooms[id := room], groups := r.groups[id := GroupOf(r, id) + {c}])
  }

  /** `opponentJoined`, pushed after a successful join to the room's other members. */
  function JoinNotice(r: Registry, id: RoomId, c: ConnId): (n: Option<Emit<Event>>)
    ensures n.Some? <==> JoinReplyOf(r, id, c).Joined?
    ensures n.Some? ==> n.value.event == OpponentJoined(JoinReplyOf(r, id, c).room)
    ensures n.Some? ==> n.value.recipients == GroupOf(r, id) - {c}
  {
    match JoinReplyOf(r, id, c)
    case Refused(_) => None
    case Joined(room) => Some(Emit(Others(Join(r, id, c), c, id), OpponentJoined(room)))
  }

  /** The disconnect handler deletes a room that lists the departing connection
      and has fewer than two players ... */
  predicate Drops(room: Room, c: ConnId) {
    FindPlayer(room.players, c).Some? && |room.players| < Capacity
  }

  /** ... and only notifies the others of a room that lists it and is full. */
  predicate Notifies(room: Room, c: ConnId) {
    FindPlayer(room.players, c).Some? && |room.players| >= Capacity
  }

  /** The `disconnect` event of connection `c`: the transport has already taken `c`
      out of every delivery group; then every room `c` was alone in is deleted. */
  function Disconnect(r: Registry, c: ConnId): (r': Registry)
    ensures forall k :: k in r'.rooms <==> k in r.rooms && !Drops(r.rooms[k], c)
    ensures forall k :: k in r'.rooms ==> r'.rooms[k] == r.rooms[k]
    ensures forall k :: k in r'.groups <==> k in r.groups && !(k in r.rooms && Drops(r.rooms[k], c))
    ensures forall k :: k in r'.groups ==> r'.groups[k] == r.groups[k] - {c}
    ensures r'.names == r.names - {c}
  {
    Registry(
      map k | k in r.rooms && !Drops(r.rooms[k], c) :: r.rooms[k],
      map k | k in r.groups && !(k in r.rooms && Drops(r.rooms[k], c)) :: r.groups[k] - {c},
      r.names - {c})
  }

  /** The `playerDisconnected` notices of that event, by room: one for each full room
      that lists `c`, carrying `c`'s first entry, sent to the room's other members. */
  function DisconnectNotices(r: Registry, c: ConnId): (n: map<RoomId, Emit<Event>>)
    ensures forall k :: k in n <==> k in r.rooms && Notifies(r.rooms[k], c)
    ensures forall k :: k in n ==>
      && n[k].recipients == GroupOf(r, k) - {c}
      && n[k].event.PlayerDisconnected?
      && n[k].event.player.id == c
      && exists i :: 0 <= i < |r.rooms[k].players| && r.rooms[k].players[i] == n[k].event.player && NoneBefore(r.rooms[k].players, c, i)
  {
    map k | k in r.rooms && Notifies(r.rooms[k], c) ::
      Emit(Others(r, c, k), PlayerDisconnected(FindPlayer(r.rooms[k].players, c).value))
  }

  /** The `closeRoom` event: the room's delivery group is emptied and the entry deleted,
      whether or not it exists. */
  function Close(r: Registry, id: RoomId): (r': Registry)
    ensures id !in r'.rooms && GroupOf(r', id) == {}
    ensures forall k :: k != id ==> (k in r'.rooms <==> k in r.rooms) && GroupOf(r', k) == GroupOf(r, k)
    ensures forall k :: k in r'.rooms ==> r'.rooms[k] == r.rooms[k]
    ensures id !in r.rooms && id !in r.groups ==> r' == r
    ensures r'.names == r.names
  {
    Registry(r.rooms - {id}, r.groups - {id}, r.names)
  }

  // ---------------------------------------------------------------------------
  // Every handler keeps the invariant.

  lemma InitialInv()
    ensures Inv(Initial)
  {
  }

  lemma SetUsernameKeepsInv(r: Registry, c: ConnId, name: Option<string>)
    requires Inv(r)
    ensures Inv(SetUsername(r, c, name))
  {
  }

  lemma CreateKeepsInv(r: Registry, id: RoomId, c: ConnId)
    requires Inv(r) && id !in r.rooms
    ensures Inv(Create(r, id, c))
  {
  }

  lemma JoinKeepsInv(r: Registry, id: RoomId, c: ConnId)
    requires Inv(r)
    ensures Inv(Join(r, id, c))
  {
  }

  /** A room the disconnect deletes lists only the departing connection, so its
      delivery group is already empty once the transport has removed `c`. */
  lemma DroppedRoomHasNoOneLeft(r: Registry, k: RoomId, c: ConnId)
    requires Inv(r) && k in r.rooms && Drops(r.rooms[k], c)
    ensures Ids(r.rooms[k].players) == {c}
    ensures GroupOf(r, k) - {c} == {}
  {
  }

  lemma DisconnectKeepsInv(r: Registry, c: ConnId)
    requires Inv(r)
    ensures Inv(Disconnect(r, c))
  {
  }

  // ---------------------------------------------------------------------------
  // What a disconnect does to the rooms, their groups and the notices.

  /** The rooms deleted are exactly those in which the departing connection was the
      only player; every other room stays exactly as it was. */
  lemma DisconnectDeletesLoneRooms(r: Registry, c: ConnId)
    requires Inv(r)
    ensures forall k :: k in r.rooms ==>
      (k !in Disconnect(r, c).rooms <==> |r.rooms[k].players| == 1 && r.rooms[k].players[0].id == c)
    ensures forall k :: k in Disconnect(r, c).rooms ==> k in r.rooms && Disconnect(r, c).rooms[k] == r.rooms[k]
  {
  }

  /** A full room the departing connection is in survives with its roster intact,
      still listing that connection, while the connection leaves every group. */
  lemma DisconnectKeepsFullRooms(r: Registry, c: ConnId)
    requires Inv(r)
    ensures forall k :: k in r.rooms && c in Ids(r.rooms[k].players) && |r.rooms[k].players| == Capacity ==>
      k in Disconnect(r, c).rooms && c in Ids(Disconnect(r, c).rooms[k].players)
    ensures forall k :: k in Disconnect(r, c).rooms ==> GroupOf(Disconnect(r, c), k) == GroupOf(r, k) - {c}
    ensures forall k :: c !in GroupOf(Disconnect(r, c), k)
  {
  }

  /** Each room that survives and lists the departing connection gets exactly one
      `playerDisconnected` notice, carrying that connection's entry, sent to the
      room's other members; no other room gets one. */
  lemma DisconnectNotifiesSurvivors(r: Registry, c: ConnId)
    requires Inv(r)
    ensures forall k :: k in DisconnectNotices(r, c) <==>
      k in Disconnect(r, c).rooms && c in Ids(r.rooms[k].players)
    ensures forall k :: k in DisconnectNotices(r, c) ==>
      && DisconnectNotices(r, c)[k].recipients == GroupOf(r, k) - {c}
      && DisconnectNotices(r, c)[k].event.PlayerDisconnected?
      && DisconnectNotices(r, c)[k].event.player.id == c
      && DisconnectNotices(r, c)[k].event.player in r.rooms[k].players
    ensures forall k :: k in DisconnectNotices(r, c) ==>
      DisconnectNotices(r, c)[k].event.player == FindPlayer(r.rooms[k].players, c).value
  {
  }

  lemma CloseKeepsInv(r: Registry, id: RoomId)
    requires Inv(r)
    ensures Inv(Close(r, id))
  {
  }

  // ---------------------------------------------------------------------------
  // No handler ever takes a player off a roster.

  /** Every room present in both states kept its id and its old roster as a prefix. */
  ghost predicate RostersOnlyGrow(r: Registry, r': Registry) {
    forall k :: k in r.rooms && k in r'.rooms ==>
      r'.rooms[k].roomId == r.rooms[k].roomId && r.rooms[k].players <= r'.rooms[k].players
  }

  lemma NoHandlerRemovesPlayers(r: Registry, id: RoomId, c: ConnId, name: Option<string>)
    ensures RostersOnlyGrow(r, SetUsername(r, c, name))
    ensures id !in r.rooms ==> RostersOnlyGrow(r, Create(r, id, c))
    ensures RostersOnlyGrow(r, Join(r, id, c))
    ensures RostersOnlyGrow(r, Disconnect(r, c))
    ensures RostersOnlyGrow(r, Close(r, id))
  {
  }
}
