# chitchat-next room relay, modelled in Dafny

chitchat-next is a room-based chat relay built on socket.io. The server lets a
client create or join a named room, relays messages to every member of the
room, and announces the room's member count whenever someone joins or leaves.
The chat page never sends `create-room`, only `join-room`, so in the
application as written no client ever enters a chat room (see "## Findings"). All of the
server side lives in the connection callback of `pages/api/socket.ts`: four handlers
(`create-room`, `join-room`, `send-message`, `disconnecting`) over the adapter's
registry, which maps each room name to the set of connections joined to it.

The model has five modules:

- `Rooms` (rooms.dfy): the registry as `map<RoomId, set<ConnId>>`. It holds the
  adapter behaviour the handlers rely on. `Join` is `socket.join`. `Leave` is
  the adapter's removal of a closed connection; a room it leaves empty is
  deleted. `SocketRooms` is `socket.rooms`. `WellFormed` is the adapter's
  bookkeeping: no empty rooms, members are live connections, and each live
  connection sits in the private room named after its id.
- `Events` (events.dfy): one `Emit` per emit call. It records the target
  (`io.to(room)` or the calling socket), the set of recipients at that moment,
  and the event with its payload (`user-count`, `error`, `receive-message`).
  `Inbox` gives what one connection receives, in order.
- `Handlers` (handlers.dfy): each handler as a function from the registry to
  the new registry and the emits. The properties of the handlers are proved
  here. `Notice` is the single emit at `pages/api/socket.ts:52`, the room's
  `size - 1` sent to the whole room. `Notices` is the `disconnecting` loop
  (`:48-54`) run in a given iteration order. `DisconnectingEmits` says what the
  loop emits: the `Notices` of some order that lists each room of
  `socket.rooms` once.
- `ConnectionHandler` (server.dfy): class `Server` with fields `rooms`,
  `connected` and `outbox`. There is one method per socket event. Each runs as
  one step and updates the fields in place. `Disconnecting` is a `while` loop
  over `socket.rooms`. The postconditions of `CreateRoom`, `JoinRoom`,
  `SendMessage` and `Disconnecting` tie the new state to the matching `Handlers`
  definition. `Connect` and `Disconnect` tie it to the adapter's `Rooms.Join`
  and `Rooms.Leave`. The methods that change the registry or the live set
  state that they keep `Valid()`. `SendMessage` and `Disconnecting` change only
  the outbox, which `Valid()` does not read.
- `Scenario` (scenario.dfy): two sessions, each proved through the class's
  contracts alone. In `AlphaScenario`, A creates "alpha", B joins, A sends
  "hi", and B closes. In `ClientAsWritten`, A and B do what the chat page does:
  they send only `join-room`, and then A sends "hi".

Clocks, the network and randomness never enter the model. Socket ids and
message payloads are parameters.

Where the code does something other than what one might expect:

- `disconnecting` publishes `size - 1` while the leaving socket is still a
  member. A remove-then-read implementation would read the size after the
  socket has been removed. The model follows the code. `DisconnectCountIsRemaining` proves that the number sent is
  the room's size after the adapter removes the socket.
- The notice goes to the whole room, so the socket that is leaving is one of
  its recipients. A remove-then-read implementation would reach only the
  remaining members. The model follows the code. Without the leaving socket, the recipients are
  exactly the remaining members.
- `join-room` checks whether the room is in the registry, not whether it has
  members. Because the adapter deletes empty rooms, the two checks agree. A
  connection's private room is in the registry, so `join-room` with another
  connection's id as the room name succeeds.
- `send-message` does not check that the sender belongs to `data.roomId`, and
  it does not validate the payload.

## Model

| member | source | states |
|---|---|---|
| `Rooms.Count` | pages/api/socket.ts:28-29 | `room ? room.size : 0` is the number of members; while the adapter keeps no empty room, it is 0 exactly when `rooms.get` finds no room |
| `Rooms.Join` | pages/api/socket.ts:26 | `socket.join` adds the caller to the room, creating the room if it is missing; no other room changes; no room is left empty |
| `Rooms.Leave` | pages/api/socket.ts:47-56 | the adapter's removal of a closed connection: it leaves every room, exactly the rooms it was the last member of disappear, other rooms are untouched, no room is left empty |
| `Rooms.PrivateRoomListed` | pages/api/socket.ts:48-49 | for a live connection, `socket.rooms` always contains its private room, and that room is the only one the loop skips |
| `Rooms.LeaveIdempotent` | pages/api/socket.ts:47-56 | removing a connection twice is the same as removing it once, and after removal it is in no room |
| `Rooms.LeaveCount` | pages/api/socket.ts:50-52 | a member that leaves takes exactly one off the room's count; the room survives exactly when it had more than one member |
| `Rooms.JoinAll` | pages/api/socket.ts:26 | repeated joins of one room leave its members as the old members plus everyone who joined |
| `Rooms.JoinAllCount` | pages/api/socket.ts:25-37 | after N distinct new members join a room, its count has grown by exactly N |
| `Events.Inbox` | pages/api/socket.ts:29-52 | a connection receives at most one event per emit, in emission order, and every event it receives is that of an emit it was a recipient of |
| `Handlers.CountBroadcast` | pages/api/socket.ts:28-29 | the `user-count` broadcast reaches the room's members, is never negative, equals the number of connections it reaches, and, while no room in the registry is empty, is 0 exactly when the room is absent |
| `Handlers.CreateRoomStep` | pages/api/socket.ts:25-30 | the caller is always a member afterwards; only the named room changes and nobody is removed; every member, caller included, receives that room's new size, which is at least 1; nobody else receives anything |
| `Handlers.JoinRoomStep` | pages/api/socket.ts:32-41 | absent room: the registry is unchanged and only the caller receives the single "Room not found" error; present room: the caller is added, other rooms are unchanged, every member including the joiner receives the new size |
| `Handlers.SendMessageStep` | pages/api/socket.ts:43-45 | the registry is unchanged; exactly the current members of `data.roomId` receive the payload unchanged, the sender included when it is a member; nobody receives anything when the room has no members |
| `Handlers.NoticesShape` | pages/api/socket.ts:48-54 | for any iteration order, the loop sends each visited room other than the caller's own, when it is in the registry, one `size - 1` notice; it sends nothing else; when the order lists no room twice, no room is sent two notices |
| `Handlers.NoticesLength` | pages/api/socket.ts:48-54 | the loop emits exactly as many notices as there are rooms it announces to |
| `Handlers.DisconnectingExact` | pages/api/socket.ts:47-56 | `disconnecting` sends exactly one notice to each room of the socket other than its private room, and never one to the private room |
| `Handlers.DisconnectingOneRoom` | pages/api/socket.ts:47-56 | a socket in one room besides its own causes exactly one notice, to that room |
| `Handlers.DisconnectingNowhere` | pages/api/socket.ts:47-56 | a connection in no room makes `disconnecting` emit nothing |
| `Handlers.SecondCloseSilent` | pages/api/socket.ts:47-56 | `disconnecting` run again after the adapter has removed the connection emits nothing |
| `Handlers.DisconnectCountIsRemaining` | pages/api/socket.ts:50-53 | each disconnect notice is a non-negative `user-count` equal to the room's size after the socket is removed, and it reaches the remaining members plus the leaving socket |
| `ConnectionHandler.Server.constructor` | pages/api/socket.ts:17-22 | a new server has no rooms, no connections and no emits |
| `ConnectionHandler.Server.Connect` | pages/api/socket.ts:22 | a new connection is put in its private room, and nothing is emitted |
| `ConnectionHandler.Server.CreateRoom` | pages/api/socket.ts:25-30 | the registry becomes the one `CreateRoomStep` gives, its emit is appended to the outbox, and the adapter's bookkeeping is kept |
| `ConnectionHandler.Server.JoinRoom` | pages/api/socket.ts:32-41 | the registry and outbox change as `JoinRoomStep` says, on both branches, and the adapter's bookkeeping is kept |
| `ConnectionHandler.Server.SendMessage` | pages/api/socket.ts:43-45 | only the outbox changes, by the emit `SendMessageStep` gives |
| `ConnectionHandler.Server.Disconnecting` | pages/api/socket.ts:47-56 | the loop leaves the registry unchanged and appends the notices for some iteration order of `socket.rooms` |
| `ConnectionHandler.Server.Disconnect` | pages/api/socket.ts:47-56 | closing runs `disconnecting` on the old registry, then removes the connection from every room and from the live set, and the adapter's bookkeeping is kept; closing a connection that is no longer live changes nothing |
| `Scenario.AlphaScenario` | pages/api/socket.ts:25-56 | A creates "alpha", B joins, A sends "hi", B closes: A receives 1, 2, the message, 1; B receives 2, the message, 1; one member is left in "alpha" |
| `Scenario.ClientAsWritten` | pages/api/socket.ts:32-45 | A and B connect, each sends only `join-room` for "alpha" as the chat page does, then A sends "hi": each receives only "Room not found", "alpha" never exists, and the message reaches nobody |

## Findings

| source | as written | input that shows it | evidently intended | confidence | as-written member | corrected member |
|---|---|---|---|---|---|---|
| pages/api/socket.ts:32-41 | `join-room` joins only a room already in the registry. The chat page (`app/chat/[id]/page.tsx:45-47`) sends only `join-room` on connect, and nothing in the client sends `create-room` (the lobby at `components/chat-lobby.tsx:22-27` only navigates). So the first visitor of a new room is refused, and nobody after them can get in either. The page has no `error` listener, so the refusal goes unnoticed | A and B open `/chat/alpha`, then A sends "hi" | the first visitor of a room creates it (a `create-room` before joining, or a `join-room` that creates a missing room), so later visitors join it and messages are relayed | not executed | `Scenario.ClientAsWritten` | `Scenario.AlphaScenario` |

## Left out

- Server bootstrap and transport (`pages/api/socket.ts:6-20`, `63-65`): the one-time socket.io setup, the HTTP server cast and `res.end()` are plumbing.
- Logging and the `disconnect` handler (`pages/api/socket.ts:23`, `27`, `35`, `58-60`): they only log.
- Concurrency: each handler is one atomic step over the registry. Two handlers never interleave.
- Delivery: the outbox records who an emit was addressed to when it was made. Sending over the network, failed sends, and drops to a closing socket are not modelled.
- ConnectionHandler.Server.Disconnecting: the emits are stated for some iteration order of `socket.rooms`, not for the JS `Set`'s insertion order, because the model does not record the order in which rooms were joined.
- Payload shape: `send-message` data is a `ChatMessage` with all four fields present, and its `roomId` is a string. A payload without `roomId`, or with other fields, is not modelled. A payload whose `roomId` is an empty array is not modelled either: `io.to([])` at `pages/api/socket.ts:44` selects no room, the in-memory adapter reads an empty room selection as the whole namespace, and the message would reach every connection.
- Room names that are not strings: `RoomId` is a string, so a `create-room` or `join-room` payload that is an array is not modelled. For `create-room` with a non-empty array, `socket.join` (`pages/api/socket.ts:26`) would join every element, `rooms.get` (`:28`) would find nothing, and `:29` would broadcast 0 to all of those rooms. That is the only way to reach the `: 0` branch after a join. With an empty array, nothing is joined and `io.to([])` selects no room, which the in-memory adapter reads as the whole namespace, so every connected client would be sent 0. For `join-room`, `rooms.has` (`:33`) never matches an array key, so every array payload is answered with "Room not found".
- socket.io adapter internals: the adapter's reverse map from socket to rooms is derived from the registry, not kept separately. The adapter's own room events are not modelled.
- ConnectionHandler.Server.Connect: requires a connection id that is not already live, because the transport issues unique ids.
- `components/chat-lobby.tsx` and the chat page: UI, navigation and the `fetch` bootstrap.
- `lib/utils.ts`: `generateRoomId` uses `Math.random`, and `cn` wraps external class-name libraries.
