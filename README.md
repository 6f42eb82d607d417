# Room registry and relay rules of the chess-app game server

The game server pairs two players in a room and relays chess moves between them
over Socket.IO. Its only state is an in-memory `Map` from room id to
`{roomId, players}`. Six connection handlers act on it:

- `username` remembers a connection's display name;
- `createRoom` stores a new room listing only its creator;
- `joinRoom` admits a second player or answers `{error: true, message}`;
- `move` forwards a move to the other members of the room's delivery group;
- `disconnect` deletes the rooms the leaving connection was alone in and tells the
  other player of each full room it was in;
- `closeRoom` tells the other members, evicts everyone from the room's delivery
  group and deletes the entry.

This project models that registry and those rules in Dafny and proves their
properties:

- `registry.dfy`, module `RoomRegistry`: the entities (`Player`, `Room`,
  `Event`, `JoinReply`) and the whole handler state as a value, `Registry`. It
  holds the rooms map, the transport's delivery group of each room, and each
  connection's name. There is one transition function per handler, the
  invariant `Inv` that every handler keeps, and the lemmas about single events.
- `server.dfy`, module `SocketServer`: class `GameServer` holds the same three
  maps as fields and has one method per handler. `Username`, `CreateRoom`,
  `JoinRoom`, `Disconnect` and `CloseRoom` are each proved to perform exactly
  the transition of their `RoomRegistry` function and to keep the invariant.
  `Move` changes nothing; its contract states the delivery directly. `Leave` is
  the single `socket.leave` step of the close loop, specified by the one group it
  changes. `Disconnect` walks a snapshot of the rooms in a loop, as the
  handler's `forEach` does. `CloseRoom` makes each fetched socket leave the
  group in a loop.
- `scenarios.dfy`, module `Scenarios`: lemmas about sequences of events. They
  cover a room's life from creation to close, what a closed or abandoned id
  answers, and the seat that a disconnect leaves occupied. They also show, for
  any sequence of events since start-up (`Run`), that the invariant holds, that
  only created ids are ever answered, and that a full room stays full until it
  is closed.

The model follows `server/server.js` wherever a tidier design would differ:

- No refusal exists for a room with no players.
- `move` does not look the room up. It forwards to whatever delivery group the
  message names, and it never reports an error.
- `closeRoom` neither checks that the room exists nor that the caller is in it.
- A disconnect from a full room leaves the departed player listed, so the room
  keeps refusing newcomers as full.
- The refusal messages are exactly `Room does not exist` and `Room is full`.

Delivery groups are modelled as sets of connection ids. `socket.to(room)`
becomes `Others`: the group minus the sender. A room id without a group entry
has an empty group, matching Socket.IO discarding empty rooms. Before its
`disconnect` handler runs, Socket.IO has already removed the socket from every
room. The model does this first.

## Model

| member | source | states |
|---|---|---|
| RoomRegistry.FindPlayer | server/server.js:199 | `players.find` on the player's id: finds an entry exactly when the connection is listed, and the entry found is that connection's first |
| RoomRegistry.Others | server/server.js:192 | `socket.to(room)` reaches every member of the room's delivery group except the sender, and never the sender |
| RoomRegistry.SetUsername | server/server.js:139-142 | the connection's stored name becomes the one sent; every other connection's name, the rooms and the groups are unchanged |
| RoomRegistry.Create | server/server.js:144-153 | exactly one new entry, under the fresh id; its `roomId` equals the key and its players are exactly the creator's entry with the creator's stored name; the creator alone is in its group; all other entries and groups are unchanged |
| RoomRegistry.JoinReplyOf | server/server.js:157-172 | the answer is `Room does not exist` exactly when the id is absent, `Room is full` exactly when the room has two or more players, and otherwise the room with the same `roomId` and the joiner's entry appended |
| RoomRegistry.Join | server/server.js:175-185 | a refused join changes nothing (the joiner is not added to the group); a successful one replaces only that entry, by the extended room, and adds the joiner to that room's group alone |
| RoomRegistry.JoinNotice | server/server.js:188 | after a successful join, and only then, `opponentJoined` carrying the updated room goes to the room's earlier members other than the joiner |
| RoomRegistry.Close | server/server.js:212-221 | the id is absent afterwards and its group empty; every other entry and group is unchanged; closing an absent id changes nothing |
| RoomRegistry.InitialInv | server/server.js:134 | the empty registry satisfies the invariant |
| RoomRegistry.SetUsernameKeepsInv | server/server.js:139-142 | setting a name keeps the invariant |
| RoomRegistry.CreateKeepsInv | server/server.js:148-151 | a created room is filed under its own id with one player, who is its group's only member |
| RoomRegistry.JoinKeepsInv | server/server.js:163-185 | a join appends only when fewer than two players are listed, so every room keeps one or two players and only listed players in its group |
| RoomRegistry.DroppedRoomHasNoOneLeft | server/server.js:201-204 | a room the disconnect deletes lists only the departing connection, and its group is empty once that connection has left |
| RoomRegistry.DisconnectKeepsInv | server/server.js:195-210 | a disconnect keeps the invariant |
| RoomRegistry.Disconnect | server/server.js:195-210 | the rooms kept are exactly those the departing connection was not alone in, each unchanged; each kept group loses only that connection and the groups of deleted rooms go; the connection's name is forgotten |
| RoomRegistry.DisconnectNotices | server/server.js:197-208 | exactly the rooms that list the departing connection and are full get a notice; it goes to the room's group minus that connection and carries that connection's first entry in the roster |
| RoomRegistry.CloseKeepsInv | server/server.js:212-221 | a close keeps the invariant |
| RoomRegistry.NoHandlerRemovesPlayers | server/server.js:139-222 | in every room present before and after any handler, the room id is unchanged and the old player list is a prefix of the new one |
| RoomRegistry.DisconnectDeletesLoneRooms | server/server.js:198-205 | a disconnect deletes exactly those rooms whose only player is the departing connection; every other room is kept exactly as it was |
| RoomRegistry.DisconnectKeepsFullRooms | server/server.js:198-209 | a full room that lists the departing connection survives and still lists it; the connection leaves every delivery group, and no one else does |
| RoomRegistry.DisconnectNotifiesSurvivors | server/server.js:199-207 | exactly the surviving rooms that list the departing connection get one `playerDisconnected` notice; it carries the entry `players.find` returns, that connection's first, and goes to the room's other members |
| SocketServer.GameServer.constructor | server/server.js:134 | the server starts with no rooms, no groups and no names, and satisfies the invariant |
| SocketServer.GameServer.Username | server/server.js:139-142 | the new state is `SetUsername` of the old one |
| SocketServer.GameServer.CreateRoom | server/server.js:144-154 | given a fresh id, the new state is `Create` of the old one, the invariant holds, and the id given to the acknowledgement is the stored key |
| SocketServer.GameServer.JoinRoom | server/server.js:156-189 | the new state is `Join` of the old one; with a callback the reply is `JoinReplyOf` and the notice is `JoinNotice`; without one, nothing is answered or pushed |
| SocketServer.GameServer.Move | server/server.js:191-193 | the move is delivered unchanged to exactly the group members other than the sender; in a stored room, only to listed players |
| SocketServer.GameServer.Disconnect | server/server.js:195-210 | the loop over the snapshot of rooms ends in the state `Disconnect` gives and with exactly the notices `DisconnectNotices` gives |
| SocketServer.GameServer.Leave | server/server.js:218 | one socket leaves one room's delivery group; nothing else changes |
| SocketServer.GameServer.CloseRoom | server/server.js:212-222 | the other members are told `closeRoom`; the leave loop empties the group; the new state is `Close` of the old one |
| Scenarios.MovesReachOnlyTheOpponent | server/server.js:144-193 | after a create by one player and a join by another, each player's moves reach the other only |
| Scenarios.SecondJoinFillsTheRoom | server/server.js:163-185 | after a successful join, every further join is refused as full, whoever asks, and changes nothing |
| Scenarios.LoneCreatorLeavingDeletesRoom | server/server.js:195-205 | when the creator of an unjoined room disconnects, the room is gone and a join on its id is told it does not exist |
| Scenarios.DisconnectNeverFreesASeat | server/server.js:195-209 | a disconnect leaves a full room unchanged, and the room refuses every newcomer as full |
| Scenarios.CloseIsFinal | server/server.js:212-221 | closing is idempotent; after a close, joins on the id are refused as nonexistent without effect, and moves to it reach no one |
| Scenarios.GameRoomLifecycle | server/server.js:139-222 | a room's whole life: create, join with `opponentJoined`, a third player refused as full, an unknown id refused, moves reaching only the opponent, a disconnect notice to the survivor while the room lingers, and a close after which the id is unknown |
| Scenarios.ApplyKeepsInv | server/server.js:139-222 | whichever event arrives, its handler keeps the invariant, provided a new room's id is fresh |
| Scenarios.RunKeepsInv | server/server.js:134-222 | any sequence of events keeps the invariant |
| Scenarios.NoRoomEverExceedsTwoPlayers | server/server.js:134-222 | after any sequence of events since start-up, every room is filed under its own id and holds one or two players; among the game rooms' delivery groups, a move sent to a stored room reaches only players listed in it, and one naming an id that is not stored reaches no member of any of them |
| Scenarios.ApplyAddsOnlyCreated | server/server.js:144-221 | the only event that adds a room is a `createRoom` under that id |
| Scenarios.RunAddsOnlyCreated | server/server.js:134-222 | a room present after any sequence of events was present at its start or was created during it |
| Scenarios.JoinOnNeverCreatedId | server/server.js:157-172 | after any sequence of events since start-up, a join naming an id no `createRoom` produced is answered `Room does not exist` and changes nothing |
| Scenarios.ClosedIdStaysUnknown | server/server.js:212-221 | after a close, and whatever events follow that do not create the same id again, the id stays absent, every join on it is refused as `Room does not exist`, and moves to it reach no game room member |
| Scenarios.ApplyKeepsFullRoom | server/server.js:139-221 | every event other than a close of its id leaves a full room exactly as it is |
| Scenarios.FullRoomStaysFull | server/server.js:134-222 | until its id is closed, a full room stays exactly as it is whatever events arrive, and every join on it is refused as full |
| Scenarios.JoinedRoomRefusesLaterJoins | server/server.js:156-222 | after a successful join, every later join on that room is refused as full, whatever happens in between, until the room is closed |

## Left out

- The Express routes `/register`, `/login`, `/logout` and `/profile`, the MySQL connection and bcrypt hashing (server/server.js:1-123) are left out. They are database and network I/O and foreign crypto calls.
- server/logger.js is left out. It only configures logging.
- The client code is left out. server/server.js has no handlers for the signalling events the client emits, so the model has none either.
- Socket.IO transport mechanics are not modelled: acknowledgement callbacks, message delivery, and `fetchSockets`. They become returned values and delivery-group sets.
- Every event is modelled as one atomic step. The interleaving that `await socket.join(...)` permits between the capacity check and the store in `joinRoom` is a concurrency effect and is not captured.
- uuid generation is not modelled. `CreateRoom` takes the new id as a parameter and requires it to be fresh, meaning absent from the rooms map. That condition would let a `createRoom` reuse a closed or deleted id, which a uuid v4 (server/server.js:145) makes practically impossible. So `ClosedIdStaysUnknown` assumes that no later `createRoom` is handed the closed id.
- Liveness of connections is not tracked. Any connection id may send any event, so the model does not rule out events from a connection that has already disconnected.
- Malformed payloads are not modelled. A `joinRoom` without an argument object (server/server.js:157), a `move` without one (server/server.js:192) and a `closeRoom` without one (server/server.js:213) throw in the source. The model's handlers take typed parameters, so these cases cannot arise.
- The `disconnect` handler never touches `socket.data`. The model's `Disconnect` forgets the connection's name because the socket object, `data` included, is discarded with the connection. A later event under the same id would otherwise pick up the old name, but Socket.IO does not reuse socket ids.
- A personal room is not modelled. Socket.IO joins every socket to a room named after its id, and clients learn their opponent's id from `players`. A `move` or `closeRoom` naming a socket id therefore reaches that socket in the source. In the model it reaches nobody.
- A `createRoom` sent without a callback throws after the room is stored. The model gives the same state and does not model the exception.
- The effect of these exceptions beyond their handler is not modelled. The throws are a missing callback at server/server.js:153 and :187 and a missing argument at :157. They happen inside `async` handlers, and server/server.js installs no `unhandledRejection` handler. Recent Node versions end the process in that case, which loses every room. The model's `Run` instead goes on handling later events.
- The `closeRoom` broadcast forwards the client's whole `data` object. The model carries only its `roomId`, which is all the client sends.
- SocketServer.GameServer.Disconnect: returns its `playerDisconnected` notices as a map keyed by room id. It does not record the order of the emits, which follows the Map's insertion order, because the model's rooms map has no order.
