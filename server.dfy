/**
 The `io.on("connection", ...)` callback: the shared registry, the set of live
 connections and the emits made so far, updated in place by one method per
 socket event.  Each handler runs as one sequential step.
 */
module ConnectionHandler {
  import opened Rooms
  import opened Events
  import opened Handlers

  class Server {
    var rooms: Registry
    var connected: set<ConnId>
    var outbox: seq<Emit>

    ghost predicate Valid()
      reads this`rooms, this`connected
    {
      WellFormed(rooms, connected)
    }

    constructor ()
      ensures Valid()
      ensures rooms == map[] && connected == {} && outbox == []
    {
      rooms, connected, outbox := map[], {}, [];
    }

    /** A new connection: the adapter puts it in its private room, named by its id. */
    method Connect(id: ConnId)
      requires Valid() && id !in connected
      modifies this
      ensures Valid()
      ensures rooms == Join(old(rooms), id, id)
      ensures connected == old(connected) + {id}
      ensures outbox == old(outbox)
    {
      rooms := Join(rooms, id, id);
      connected := connected + {id};
    }

    /** `create-room`. */
    method CreateRoom(id: ConnId, roomId: RoomId)
      requires Valid() && id in connected
      modifies this`rooms, this`outbox
      ensures Valid()
      ensures rooms == CreateRoomStep(old(rooms), id, roomId).reg
      ensures outbox == old(outbox) + CreateRoomStep(old(rooms), id, roomId).emitted
    {
      rooms := Join(rooms, roomId, id);
      var size := if roomId in rooms then |rooms[roomId]| else 0;
      outbox := outbox + [Emit(ToRoom(roomId), Members(rooms, roomId), UserCount(size))];
    }

    /** `join-room`. */
    method JoinRoom(id: ConnId, roomId: RoomId)
      requires Valid() && id in connected
      modifies this`rooms, this`outbox
      ensures Valid()
      ensures rooms == JoinRoomStep(old(rooms), id, roomId).reg
      ensures outbox == old(outbox) + JoinRoomStep(old(rooms), id, roomId).emitted
    {
      if roomId in rooms {
        rooms := Join(rooms, roomId, id);
        var size := if roomId in rooms then |rooms[roomId]| else 0;
        outbox := outbox + [Emit(ToRoom(roomId), Members(rooms, roomId), UserCount(size))];
      } else {
        outbox := outbox + [Emit(ToSocket(id), {id}, Error(RoomNotFound))];
      }
    }

    /** `send-message`; the sender need not be a member of `data.roomId`. */
    method SendMessage(id: ConnId, data: ChatMessage)
      requires Valid() && id in connected
      modifies this`outbox
      ensures outbox == old(outbox) + SendMessageStep(rooms, data).emitted
    {
      outbox := outbox + [Emit(ToRoom(data.roomId), Members(rooms, data.roomId), ReceiveMessage(data))];
    }

    /** `disconnecting`: runs while `id` is still a member of all its rooms. */
    method Disconnecting(id: ConnId)
      modifies this`outbox
      ensures |old(outbox)| <= |outbox| && outbox == old(outbox) + outbox[|old(outbox)|..]
      ensures DisconnectingEmits(rooms, id, outbox[|old(outbox)|..])
    {
      var pending := SocketRooms(rooms, id);
      ghost var done: set<RoomId> := {};
      ghost var order: seq<RoomId> := [];
      while pending != {}
        invariant done + pending == SocketRooms(rooms, id) && done !! pending
        invariant Enumerates(order, done)
        invariant outbox == old(outbox) + Notices(rooms, id, order)
        decreases pending
      {
        var room :| room in pending;
        if room != id {
          if room in rooms {
            outbox := outbox + [Emit(ToRoom(room), rooms[room], UserCount(|rooms[room]| - 1))];
          }
        }
        assert outbox == old(outbox) + Notices(rooms, id, order + [room]) by {
          NoticesSnoc(rooms, id, order, room);
        }
        assert Enumerates(order + [room], done + {room}) by {
          EnumeratesSnoc(order, done, room);
        }
        order, done, pending := order + [room], done + {room}, pending - {room};
      }
      assert outbox[|old(outbox)|..] == Notices(rooms, id, order);
      assert Enumerates(order, SocketRooms(rooms, id));
    }

    /**
     Transport close: the `disconnecting` handler, then the adapter removes the
     connection from every room (deleting rooms it leaves empty) and drops it.
     Closing a connection that is no longer live changes nothing.
     */
    method Disconnect(id: ConnId)
      requires Valid()
      modifies this
      ensures Valid()
      ensures old(id !in connected) ==> rooms == old(rooms) && connected == old(connected) && outbox == old(outbox)
      ensures rooms == Leave(old(rooms), id)
      ensures connected == old(connected) - {id}
      ensures |old(outbox)| <= |outbox| && outbox == old(outbox) + outbox[|old(outbox)|..]
      ensures DisconnectingEmits(old(rooms), id, outbox[|old(outbox)|..])
    {
      ghost var live := id in connected;
      Disconnecting(id);
      if !live {
        assert SocketRooms(rooms, id) == {};
        DisconnectingNowhere(rooms, id, outbox[|old(outbox)|..]);
        assert Leave(rooms, id) == rooms;
      }
      rooms := Leave(rooms, id);
      connected := connected - {id};
    }
  }
}
