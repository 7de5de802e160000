/**
 Two sessions over the handlers.  In the first, a client sends `create-room`
 before anyone joins: A creates "alpha", B joins it, A sends a message, B
 closes its connection.  In the second, the clients do what the chat page
 does: each sends only `join-room` on connect, then A sends a message; since
 nobody ever creates "alpha", both are refused.  Each stage is its own method
 so that each is checked against the previous stage's contract only.
 */
module Scenario {
  import opened Rooms
  import opened Events
  import opened Handlers
  import opened ConnectionHandler

  const Hi: ChatMessage := ChatMessage("alpha", "Alice", "hi", "10:00")

  /** The registry once A and B are connected and "alpha" holds `alpha`. */
  ghost predicate Layout(reg: Registry, alpha: set<ConnId>)
  {
    && reg.Keys == {"A", "B", "alpha"}
    && Members(reg, "A") == {"A"}
    && Members(reg, "B") == {"B"}
    && Members(reg, "alpha") == alpha
  }

  /** A and B connect: each is alone in its private room. */
  method ConnectBoth() returns (server: Server)
    ensures fresh(server) && server.Valid()
    ensures server.connected == {"A", "B"}
    ensures server.rooms.Keys == {"A", "B"}
    ensures Members(server.rooms, "A") == {"A"} && Members(server.rooms, "B") == {"B"}
    ensures server.outbox == []
  {
    server := new Server();
    server.Connect("A");
    server.Connect("B");
  }

  /** A creates "alpha" and is told it is alone there; B is told nothing. */
  method CreateAlpha(server: Server)
    requires server.Valid() && server.connected == {"A", "B"}
    requires server.rooms.Keys == {"A", "B"}
    requires Members(server.rooms, "A") == {"A"} && Members(server.rooms, "B") == {"B"}
    requires server.outbox == []
    modifies server
    ensures server.Valid() && server.connected == {"A", "B"}
    ensures Layout(server.rooms, {"A"})
    ensures Inbox(server.outbox, "A") == [UserCount(1)]
    ensures Inbox(server.outbox, "B") == []
  {
    var reg := server.rooms;
    assert Members(reg, "alpha") == {};
    server.CreateRoom("A", "alpha");
    var added := CreateRoomStep(reg, "A", "alpha").emitted;
    assert server.outbox == added;
    assert Members(server.rooms, "alpha") == {"A"};
    assert Inbox(added, "A") == [UserCount(1)] && Inbox(added, "B") == [];
  }

  /** The `join-room` step for B on the layout after "alpha" is created. */
  lemma JoinAlphaStep(reg: Registry)
    requires Layout(reg, {"A"})
    ensures Layout(JoinRoomStep(reg, "B", "alpha").reg, {"A", "B"})
    ensures Inbox(JoinRoomStep(reg, "B", "alpha").emitted, "A") == [UserCount(2)]
    ensures Inbox(JoinRoomStep(reg, "B", "alpha").emitted, "B") == [UserCount(2)]
  {
    var s := JoinRoomStep(reg, "B", "alpha");
    assert Members(s.reg, "alpha") == {"A", "B"};
    assert |{"A", "B"}| == 2;
  }

  /** B joins "alpha": both members are told there are two. */
  method JoinAlpha(server: Server)
    requires server.Valid() && server.connected == {"A", "B"}
    requires Layout(server.rooms, {"A"})
    modifies server
    ensures server.Valid() && server.connected == old(server.connected)
    ensures Layout(server.rooms, {"A", "B"})
    ensures Inbox(server.outbox, "A") == Inbox(old(server.outbox), "A") + [UserCount(2)]
    ensures Inbox(server.outbox, "B") == Inbox(old(server.outbox), "B") + [UserCount(2)]
  {
    var before, reg := server.outbox, server.rooms;
    JoinAlphaStep(reg);
    server.JoinRoom("B", "alpha");
    var added := JoinRoomStep(reg, "B", "alpha").emitted;
    assert server.outbox == before + added;
    InboxAppend(before, added, "A");
    InboxAppend(before, added, "B");
  }

  /** A sends "hi" to "alpha": both members receive it. */
  method SayHi(server: Server)
    requires server.Valid() && "A" in server.connected
    requires Layout(server.rooms, {"A", "B"})
    modifies server
    ensures server.Valid() && server.connected == old(server.connected) && server.rooms == old(server.rooms)
    ensures Inbox(server.outbox, "A") == Inbox(old(server.outbox), "A") + [ReceiveMessage(Hi)]
    ensures Inbox(server.outbox, "B") == Inbox(old(server.outbox), "B") + [ReceiveMessage(Hi)]
  {
    var before := server.outbox;
    server.SendMessage("A", Hi);
    var added := SendMessageStep(server.rooms, Hi).emitted;
    assert server.outbox == before + added;
    assert Members(server.rooms, Hi.roomId) == {"A", "B"};
    assert Inbox(added, "A") == [ReceiveMessage(Hi)] && Inbox(added, "B") == [ReceiveMessage(Hi)];
    InboxAppend(before, added, "A");
    InboxAppend(before, added, "B");
  }

  /** B closes: both are told the one member left, and "alpha" keeps A only. */
  method CloseB(server: Server)
    requires server.Valid() && server.connected == {"A", "B"}
    requires Layout(server.rooms, {"A", "B"})
    modifies server
    ensures Members(server.rooms, "alpha") == {"A"}
    ensures Inbox(server.outbox, "A") == Inbox(old(server.outbox), "A") + [UserCount(1)]
    ensures Inbox(server.outbox, "B") == Inbox(old(server.outbox), "B") + [UserCount(1)]
  {
    var before, reg := server.outbox, server.rooms;
    assert SocketRooms(reg, "B") == {"B", "alpha"};
    assert PublicRooms(reg, "B") == {"alpha"};
    server.Disconnect("B");
    var notices := server.outbox[|before|..];
    DisconnectingOneRoom(reg, "B", "alpha", notices);
    assert |{"A", "B"}| == 2;
    assert Notice(reg, "alpha") == Emit(ToRoom("alpha"), {"A", "B"}, UserCount(1));
    InboxOne(Notice(reg, "alpha"), "A");
    InboxOne(Notice(reg, "alpha"), "B");
    InboxAppend(before, notices, "A");
    InboxAppend(before, notices, "B");
  }

  /**
   What A and B receive, and the count left in "alpha": A is sent 1, then 2,
   then the message, then 1; B is sent 2, the message, and the 1 announced
   while it is still a member.
   */
  method AlphaScenario() returns (inboxA: seq<Event>, inboxB: seq<Event>, remaining: nat)
    ensures inboxA == [UserCount(1), UserCount(2), ReceiveMessage(Hi), UserCount(1)]
    ensures inboxB == [UserCount(2), ReceiveMessage(Hi), UserCount(1)]
    ensures remaining == 1
  {
    var server := ConnectBoth();
    CreateAlpha(server);
    JoinAlpha(server);
    SayHi(server);
    CloseB(server);
    inboxA := Inbox(server.outbox, "A");
    inboxB := Inbox(server.outbox, "B");
    remaining := Count(server.rooms, "alpha");
  }

  /** `join-room` for "alpha" before anyone has created it: only the caller hears, and hears an error. */
  method JoinUncreated(server: Server, id: ConnId, other: ConnId)
    requires server.Valid() && id in server.connected && "alpha" !in server.rooms
    modifies server
    ensures server.Valid() && server.connected == old(server.connected) && server.rooms == old(server.rooms)
    ensures Inbox(server.outbox, id) == Inbox(old(server.outbox), id) + [Error(RoomNotFound)]
    ensures id != other ==> Inbox(server.outbox, other) == Inbox(old(server.outbox), other)
  {
    var before, reg := server.outbox, server.rooms;
    server.JoinRoom(id, "alpha");
    var added := JoinRoomStep(reg, id, "alpha").emitted;
    assert server.outbox == before + added;
    InboxAppend(before, added, id);
    InboxAppend(before, added, other);
  }

  /** A sends "hi" to "alpha", which does not exist: nobody receives it, A included. */
  method SayHiToNobody(server: Server)
    requires server.Valid() && "A" in server.connected && "alpha" !in server.rooms
    modifies server
    ensures server.Valid() && server.connected == old(server.connected) && server.rooms == old(server.rooms)
    ensures Inbox(server.outbox, "A") == Inbox(old(server.outbox), "A")
    ensures Inbox(server.outbox, "B") == Inbox(old(server.outbox), "B")
  {
    var before := server.outbox;
    server.SendMessage("A", Hi);
    var added := SendMessageStep(server.rooms, Hi).emitted;
    assert server.outbox == before + added;
    InboxAppend(before, added, "A");
    InboxAppend(before, added, "B");
  }

  /**
   The chat page as written: A and B connect and each sends `join-room` for
   "alpha", which no client ever created, then A sends "hi".  Each is told
   only "Room not found", "alpha" never exists, and the message reaches nobody.
   */
  method ClientAsWritten() returns (inboxA: seq<Event>, inboxB: seq<Event>, rooms: Registry)
    ensures inboxA == [Error(RoomNotFound)]
    ensures inboxB == [Error(RoomNotFound)]
    ensures rooms.Keys == {"A", "B"} && Count(rooms, "alpha") == 0
  {
    var server := ConnectBoth();
    JoinUncreated(server, "A", "B");
    JoinUncreated(server, "B", "A");
    SayHiToNobody(server);
    inboxA := Inbox(server.outbox, "A");
    inboxB := Inbox(server.outbox, "B");
    rooms := server.rooms;
  }
}
