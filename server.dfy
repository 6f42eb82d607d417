/** The Socket.IO connection handlers of the chess relay server as a class over
    the shared `rooms` Map. `Username`, `CreateRoom`, `JoinRoom`, `Disconnect` and
    `CloseRoom` are proved to perform the transition that RoomRegistry gives for
    their event and to keep the invariant; `Move` changes nothing and states its
    delivery directly, and `Leave` is one `socket.leave` step of the close loop. */
module SocketServer {
  import opened RoomRegistry

  class GameServer {
    /** The `rooms` Map. */
    var rooms: map<RoomId, Room>
    /** The transport's delivery group of each room (a missing key is an empty group). */
    var groups: map<RoomId, set<ConnId>>
    /** `socket.data.username` of each connection that sent one. */
    var names: map<ConnId, Option<string>>

    ghost function State(): Registry
      reads this
    {
      Registry(rooms, groups, names)
    }

    ghost predicate Valid()
      reads this
    {
      Inv(State())
    }

    constructor ()
      ensures Valid() && State() == Initial
    {
      rooms, groups, names := map[], map[], map[];
    }

    /** `socket.on('username')`. */
    method Username(c: ConnId, name: Option<string>)
      requires Valid()
      modifies this
      ensures Valid() && State() == SetUsername(old(State()), c, name)
    {
      names := names[c := name];
    }

    /** `socket.on('createRoom')`; `id` is the fresh uuid, and the id handed to the
        acknowledgement is returned. */
    method CreateRoom(c: ConnId, id: RoomId) returns (ack: RoomId)
      requires Valid() && id !in rooms
      modifies this
      ensures Valid() && State() == Create(old(State()), id, c)
      ensures ack == id && ack in rooms
    {
      CreateKeepsInv(State(), id, c);
      groups := groups[id := {c}];
      rooms := rooms[id := Room(id, [Player(c, if c in names then names[c] else None)])];
      ack := id;
    }

    /** `socket.on('joinRoom')`. `withAck` says whether the client passed an
        acknowledgement callback: on a refusal without one nothing is answered; on
        success without one the room is still updated, but calling the missing
        callback throws, so neither a reply nor `opponentJoined` goes out. What the
        runtime does with that exception beyond this handler is not modelled. */
    method JoinRoom(c: ConnId, id: RoomId, withAck: bool)
      returns (reply: Option<JoinReply>, notice: Option<Emit<Event>>)
      requires Valid()
      modifies this
      ensures Valid() && State() == Join(old(State()), id, c)
      ensures reply == (if withAck then Some(JoinReplyOf(old(State()), id, c)) else None)
      ensures notice == (if withAck then JoinNotice(old(State()), id, c) else None)
    {
      JoinKeepsInv(State(), id, c);
      if id !in rooms {
        reply := if withAck then Some(Refused(NoSuchRoom)) else None;
        notice := None;
        return;
      } else if |rooms[id].players| >= Capacity {
        reply := if withAck then Some(Refused(RoomIsFull)) else None;
        notice := None;
        return;
      }
      groups := groups[id := groups[id] + {c}];
      var room := rooms[id];
      var roomUpdate := room.(players := room.players + [Player(c, if c in names then names[c] else None)]);
      rooms := rooms[id := roomUpdate];
      if withAck {
        reply := Some(Joined(roomUpdate));
        notice := Some(Emit(groups[id] - {c}, OpponentJoined(roomUpdate)));
      } else {
        reply, notice := None, None;
      }
    }

    /** `socket.on('move')`: the payload goes, unchanged, to the other members of the
        delivery group named in the message. The registry is not consulted. */
    method Move<P(==)>(c: ConnId, room: RoomId, payload: P) returns (delivery: Emit<P>)
      ensures delivery.event == payload
      ensures c !in delivery.recipients
      ensures forall x :: x in delivery.recipients <==> x in GroupOf(State(), room) && x != c
      ensures Valid() && room in rooms ==> delivery.recipients <= Ids(rooms[room].players)
    {
      var group := if room in groups then groups[room] else {};
      delivery := Emit(group - {c}, payload);
    }

    /** `socket.on('disconnect')`: walks a snapshot of the stored rooms, deleting each
        one `c` was alone in and notifying the others of each full one it is in.
        The notices are returned by room id. */
    method Disconnect(c: ConnId) returns (notices: map<RoomId, Emit<Event>>)
      requires Valid()
      modifies this
      ensures Valid() && State() == RoomRegistry.Disconnect(old(State()), c)
      ensures notices == DisconnectNotices(old(State()), c)
    {
      ghost var before := State();
      // The transport takes the connection out of every delivery group first.
      groups := map k | k in groups :: groups[k] - {c};
      names := names - {c};
      var gameRooms := rooms;
      var todo := gameRooms.Keys;
      ghost var done: set<RoomId> := {};
      notices := map[];
      while todo != {}
        invariant gameRooms == before.rooms
        invariant done + todo == gameRooms.Keys && done !! todo
        invariant rooms == RoomsAfter(before, c, done)
        invariant groups == GroupsAfter(before, c, done)
        invariant notices == NoticesAfter(before, c, done)
        invariant names == before.names - {c}
        decreases todo
      {
        var k :| k in todo;
        var room := gameRooms[k];
        DisconnectPending(before, c, done, k);
        var userInRoom := FindPlayer(room.players, c);
        if userInRoom.Some? {
          if |room.players| < Capacity {
            DisconnectStepDrop(before, c, done, k);
            rooms := rooms - {room.roomId};
            groups := groups - {room.roomId};
          } else {
            DisconnectStepNotify(before, c, done, k);
            ghost var notice := Emit(groups[room.roomId] - {c}, PlayerDisconnected(userInRoom.value));
            assert notice == Emit(GroupOf(before, k) - {c}, PlayerDisconnected(FindPlayer(before.rooms[k].players, c).value));
            notices := notices[room.roomId := Emit(groups[room.roomId] - {c}, PlayerDisconnected(userInRoom.value))];
          }
        } else {
          DisconnectStepSkip(before, c, done, k);
        }
        todo := todo - {k};
        done := done + {k};
      }
      assert done == before.rooms.Keys;
      DisconnectDone(before, c);
      assert State() == RoomRegistry.Disconnect(before, c);
      DisconnectKeepsInv(before, c);
    }

    /** Removes one connection from a room's delivery group (`socket.leave`). */
    method Leave(s: ConnId, id: RoomId)
      modifies this
      ensures rooms == old(rooms) && names == old(names)
      ensures groups == if id in old(groups) then old(groups)[id := old(groups)[id] - {s}] else old(groups)
    {
      if id in groups {
        groups := groups[id := groups[id] - {s}];
      }
    }

    /** `socket.on('closeRoom')` from connection `c`: tells the room's other members,
        makes every member leave the delivery group, and deletes the entry. */
    method CloseRoom(c: ConnId, id: RoomId) returns (notice: Emit<Event>)
      requires Valid()
      modifies this
      ensures Valid() && State() == Close(old(State()), id)
      ensures notice == Emit(Others(old(State()), c, id), RoomClosed(id))
    {
      notice := Emit((if id in groups then groups[id] else {}) - {c}, RoomClosed(id));
      var clientSockets := if id in groups then groups[id] else {};
      var rest := clientSockets;
      while rest != {}
        invariant rest <= clientSockets
        invariant rooms == old(rooms) && names == old(names)
        invariant id in old(groups) ==> groups == old(groups)[id := rest]
        invariant id !in old(groups) ==> groups == old(groups)
        decreases rest
      {
        var s :| s in rest;
        Leave(s, id);
        rest := rest - {s};
      }
      // The emptied group is discarded by the transport.
      assert groups - {id} == old(groups) - {id};
      groups := groups - {id};
      rooms := rooms - {id};
      CloseKeepsInv(old(State()), id);
    }
  }

  // The disconnect loop's progress: the state once the rooms with ids in `done`
  // have been handled.

  ghost function RoomsAfter(r: Registry, c: ConnId, done: set<RoomId>): map<RoomId, Room> {
    map k | k in r.rooms && !(k in done && Drops(r.rooms[k], c)) :: r.rooms[k]
  }

  ghost function GroupsAfter(r: Registry, c: ConnId, done: set<RoomId>): map<RoomId, set<ConnId>> {
    map k | k in r.groups && !(k in done && k in r.rooms && Drops(r.rooms[k], c)) :: r.groups[k] - {c}
  }

  ghost function NoticesAfter(r: Registry, c: ConnId, done: set<RoomId>): map<RoomId, Emit<Event>> {
    map k | k in r.rooms && k in done && Notifies(r.rooms[k], c) ::
      Emit(GroupOf(r, k) - {c}, PlayerDisconnected(FindPlayer(r.rooms[k].players, c).value))
  }

  /** Room `k` of the snapshot is still stored, under its own id, and its group no
      longer holds `c`. */
  lemma DisconnectPending(r: Registry, c: ConnId, done: set<RoomId>, k: RoomId)
    requires Inv(r) && k in r.rooms && k !in done
    ensures r.rooms[k].roomId == k
    ensures k in RoomsAfter(r, c, done) && k in GroupsAfter(r, c, done)
    ensures GroupsAfter(r, c, done)[k] - {c} == GroupOf(r, k) - {c}
  {
  }

  /** Handling a room `c` was alone in deletes its entry and its group. */
  lemma DisconnectStepDrop(r: Registry, c: ConnId, done: set<RoomId>, k: RoomId)
    requires k in r.rooms && k !in done && Drops(r.rooms[k], c)
    ensures RoomsAfter(r, c, done + {k}) == RoomsAfter(r, c, done) - {k}
    ensures GroupsAfter(r, c, done + {k}) == GroupsAfter(r, c, done) - {k}
    ensures NoticesAfter(r, c, done + {k}) == NoticesAfter(r, c, done)
  {
  }

  /** Handling a full room that lists `c` adds its notice. */
  lemma DisconnectStepNotify(r: Registry, c: ConnId, done: set<RoomId>, k: RoomId)
    requires k in r.rooms && k !in done && Notifies(r.rooms[k], c)
    ensures RoomsAfter(r, c, done + {k}) == RoomsAfter(r, c, done)
    ensures GroupsAfter(r, c, done + {k}) == GroupsAfter(r, c, done)
    ensures NoticesAfter(r, c, done + {k}) == NoticesAfter(r, c, done)[k :=
      Emit(GroupOf(r, k) - {c}, PlayerDisconnected(FindPlayer(r.rooms[k].players, c).value))]
  {
  }

  /** Handling a room that does not list `c` changes nothing. */
  lemma DisconnectStepSkip(r: Registry, c: ConnId, done: set<RoomId>, k: RoomId)
    requires k in r.rooms && k !in done && FindPlayer(r.rooms[k].players, c).None?
    ensures RoomsAfter(r, c, done + {k}) == RoomsAfter(r, c, done)
    ensures GroupsAfter(r, c, done + {k}) == GroupsAfter(r, c, done)
    ensures NoticesAfter(r, c, done + {k}) == NoticesAfter(r, c, done)
  {
  }

  /** With every room handled, the loop has produced the specified outcome. */
  lemma DisconnectDone(r: Registry, c: ConnId)
    requires Inv(r)
    ensures RoomsAfter(r, c, r.rooms.Keys) == RoomRegistry.Disconnect(r, c).rooms
    ensures GroupsAfter(r, c, r.rooms.Keys) == RoomRegistry.Disconnect(r, c).groups
    ensures NoticesAfter(r, c, r.rooms.Keys) == DisconnectNotices(r, c)
  {
    var d := RoomRegistry.Disconnect(r, c);
    assert RoomsAfter(r, c, r.rooms.Keys).Keys == d.rooms.Keys;
    assert GroupsAfter(r, c, r.rooms.Keys).Keys == d.groups.Keys;
    assert NoticesAfter(r, c, r.rooms.Keys).Keys == DisconnectNotices(r, c).Keys;
  }
}
