/**
 The effect of each `socket.on(...)` handler of the connection callback, as a
 function of the registry it runs on: the registry it leaves and the emits it
 makes.  `Server` in ConnectionHandler performs these steps in place; the
 properties of the handlers are stated here.
 */
module Handlers {
  import opened Rooms
  import opened Events

  datatype Step = Step(reg: Registry, emitted: seq<Emit>)

  /** `io.to(r).emit("user-count", room ? room.size : 0)` on registry `reg`. */
  function CountBroadcast(reg: Registry, r: RoomId): (e: Emit)
    ensures e.target == ToRoom(r) && e.recipients == Members(reg, r)
    ensures e.event.UserCount? && e.event.count >= 0
    ensures e.event.count == |e.recipients|
    ensures NoEmptyRooms(reg) ==> (e.event.count == 0 <==> r !in reg)
  {
    Emit(ToRoom(r), Members(reg, r), UserCount(Count(reg, r)))
  }

  /**
   `create-room`: the caller joins `r` whatever its state, then every member,
   the caller included, is sent the size of the room after the join.
   */
  function CreateRoomStep(reg: Registry, c: ConnId, r: RoomId): (s: Step)
    ensures c in Members(s.reg, r)
    ensures Members(s.reg, r) == Members(reg, r) + {c}
    ensures forall q :: q != r ==> Members(s.reg, q) == Members(reg, q)
    ensures |s.emitted| == 1 && s.emitted[0].target == ToRoom(r)
    ensures forall m :: Inbox(s.emitted, m) == if m in Members(s.reg, r) then [UserCount(|Members(s.reg, r)|)] else []
    ensures |Members(s.reg, r)| >= 1
  {
    var reg' := Join(reg, r, c);
    var e := CountBroadcast(reg', r);
    forall m ensures Inbox([e], m) == if m in e.recipients then [e.event] else [] {
      InboxOne(e, m);
    }
    Step(reg', [e])
  }

  /**
   `join-room`: only a room present in the registry can be joined.  An absent
   room leaves the registry as it is and sends one "Room not found" error to
   the caller alone; a present one is joined and its new size broadcast.
   */
  function JoinRoomStep(reg: Registry, c: ConnId, r: RoomId): (s: Step)
    ensures r !in reg ==> s.reg == reg
    ensures r !in reg ==> s.emitted == [Emit(ToSocket(c), {c}, Error(RoomNotFound))]
    ensures r !in reg ==> forall m :: Inbox(s.emitted, m) == if m == c then [Error(RoomNotFound)] else []
    ensures r in reg ==> Members(s.reg, r) == Members(reg, r) + {c}
    ensures r in reg ==> forall q :: q != r ==> Members(s.reg, q) == Members(reg, q)
    ensures r in reg ==> |s.emitted| == 1 && s.emitted[0].target == ToRoom(r)
    ensures r in reg ==> forall m ::
      Inbox(s.emitted, m) == if m in Members(s.reg, r) then [UserCount(|Members(s.reg, r)|)] else []
  {
    if r in reg then
      var reg' := Join(reg, r, c);
      var e := CountBroadcast(reg', r);
      forall m ensures Inbox([e], m) == if m in e.recipients then [e.event] else [] {
        InboxOne(e, m);
      }
      Step(reg', [e])
    else
      var e := Emit(ToSocket(c), {c}, Error(RoomNotFound));
      forall m ensures Inbox([e], m) == if m in e.recipients then [e.event] else [] {
        InboxOne(e, m);
      }
      Step(reg, [e])
  }

  /**
   `send-message`: the payload goes, unchanged, to every current member of
   `data.roomId`, the sender included if it is one; to nobody when the room
   has no members.  Membership is not touched.
   */
  function SendMessageStep(reg: Registry, data: ChatMessage): (s: Step)
    ensures s.reg == reg
    ensures |s.emitted| == 1 && s.emitted[0].target == ToRoom(data.roomId)
    ensures forall m :: Inbox(s.emitted, m) == if m in Members(reg, data.roomId) then [ReceiveMessage(data)] else []
    ensures Members(reg, data.roomId) == {} ==> forall m :: Inbox(s.emitted, m) == []
  {
    var e := Emit(ToRoom(data.roomId), Members(reg, data.roomId), ReceiveMessage(data));
    forall m ensures Inbox([e], m) == if m in e.recipients then [e.event] else [] {
      InboxOne(e, m);
    }
    Step(reg, [e])
  }

  /** `io.to(r).emit("user-count", currentRoom.size - 1)` while the leaving socket is still in `r`. */
  function Notice(reg: Registry, r: RoomId): Emit
  {
    Emit(ToRoom(r), Members(reg, r), UserCount(Count(reg, r) - 1))
  }

  /**
   The body of the `disconnecting` loop run over the rooms of `c` in the
   iteration order `order`: the private room `c` and rooms missing from the
   registry are skipped, every other room gets one notice.
   */
  function Notices(reg: Registry, c: ConnId, order: seq<RoomId>): seq<Emit>
    decreases |order|
  {
    if order == [] then []
    else
      var r := order[|order| - 1];
      Notices(reg, c, order[..|order| - 1]) + (if r != c && r in reg then [Notice(reg, r)] else [])
  }

  /**
   What the loop emits: at most one notice per room visited, each a notice for
   a visited room other than `c` that is in the registry; every such room gets
   one; and no room gets two when no room is visited twice.
   */
  lemma {:induction false} NoticesShape(reg: Registry, c: ConnId, order: seq<RoomId>)
    ensures var es := Notices(reg, c, order);
      && |es| <= |order|
      && (forall i :: 0 <= i < |es| ==>
           && es[i].target.ToRoom?
           && es[i].target.room in order
           && es[i].target.room != c
           && es[i].target.room in reg
           && es[i] == Notice(reg, es[i].target.room))
      && (forall r :: r in order && r != c && r in reg ==> Notice(reg, r) in es)
      && (Distinct(order) ==> forall i, j :: 0 <= i < j < |es| ==> es[i].target != es[j].target)
    decreases |order|
  {
    if order != [] {
      var r, init := order[|order| - 1], order[..|order| - 1];
      NoticesShape(reg, c, init);
      assert forall q :: q in init ==> q in order;
      assert order == init + [r];
      if Distinct(order) {
        DistinctSplit(order);
      }
    }
  }

  /** `order` lists the set `rs`, each element once: the iteration order of a JS `Set`. */
  ghost predicate Enumerates(order: seq<RoomId>, rs: set<RoomId>)
  {
    Distinct(order) && forall r :: r in order <==> r in rs
  }

  /** One more iteration of the loop. */
  lemma NoticesSnoc(reg: Registry, c: ConnId, order: seq<RoomId>, r: RoomId)
    ensures Notices(reg, c, order + [r]) == Notices(reg, c, order) + (if r != c && r in reg then [Notice(reg, r)] else [])
  {
  }

  /** Listing one more, new element keeps the listing exact. */
  lemma EnumeratesSnoc(order: seq<RoomId>, rs: set<RoomId>, r: RoomId)
    requires Enumerates(order, rs) && r !in rs
    ensures Enumerates(order + [r], rs + {r})
  {
  }

  /** What `disconnecting` may emit: the notices for some iteration order of `socket.rooms`. */
  ghost predicate DisconnectingEmits(reg: Registry, c: ConnId, es: seq<Emit>)
  {
    exists order :: Enumerates(order, SocketRooms(reg, c)) && es == Notices(reg, c, order)
  }

  /** The rooms of `order` that the loop announces to. */
  function Announced(reg: Registry, c: ConnId, order: seq<RoomId>): set<RoomId>
  {
    set r | r in order && r != c && r in reg
  }

  /** One notice per announced room when no room is listed twice. */
  lemma {:induction false} NoticesLength(reg: Registry, c: ConnId, order: seq<RoomId>)
    requires Distinct(order)
    ensures |Notices(reg, c, order)| == |Announced(reg, c, order)|
    decreases |order|
  {
    if order != [] {
      var r, init := order[|order| - 1], order[..|order| - 1];
      DistinctSplit(order);
      NoticesLength(reg, c, init);
      assert order == init + [r];
      if r != c && r in reg {
        assert Announced(reg, c, order) == Announced(reg, c, init) + {r};
      } else {
        assert Announced(reg, c, order) == Announced(reg, c, init);
      }
    }
  }

  /**
   Over any iteration order of `socket.rooms`, `disconnecting` sends exactly
   one notice to each room of `c` other than its private room, and nothing else.
   */
  lemma DisconnectingExact(reg: Registry, c: ConnId, order: seq<RoomId>)
    requires Enumerates(order, SocketRooms(reg, c))
    ensures |Notices(reg, c, order)| == |PublicRooms(reg, c)|
    ensures forall r :: r in PublicRooms(reg, c) ==> Notice(reg, r) in Notices(reg, c, order)
    ensures forall e :: e in Notices(reg, c, order) ==> e.target.ToRoom? && e.target.room in PublicRooms(reg, c)
    ensures forall e :: e in Notices(reg, c, order) ==> e.target != ToRoom(c)
  {
    NoticesShape(reg, c, order);
    NoticesLength(reg, c, order);
    assert Announced(reg, c, order) == PublicRooms(reg, c);
  }

  /** A connection in one room besides its own causes exactly one notice, to that room. */
  lemma DisconnectingOneRoom(reg: Registry, c: ConnId, r: RoomId, es: seq<Emit>)
    requires DisconnectingEmits(reg, c, es)
    requires PublicRooms(reg, c) == {r}
    ensures es == [Notice(reg, r)]
  {
    var order :| Enumerates(order, SocketRooms(reg, c)) && es == Notices(reg, c, order);
    DisconnectingExact(reg, c, order);
    assert |es| == 1;
    assert Notice(reg, r) in es;
  }

  /**
   The post-removal count: each notice of `disconnecting` carries the size the
   room has once the adapter has removed `c`, never negative, and reaches the
   remaining members (plus `c` itself, still a member when it is emitted).
   */
  lemma DisconnectCountIsRemaining(reg: Registry, c: ConnId, es: seq<Emit>)
    requires DisconnectingEmits(reg, c, es)
    ensures forall e :: e in es ==>
      && e.target.ToRoom?
      && e.target.room != c
      && e.event.UserCount?
      && e.event.count >= 0
      && e.event.count == Count(Leave(reg, c), e.target.room)
      && e.recipients - {c} == Members(Leave(reg, c), e.target.room)
      && c in e.recipients
  {
    var order :| Enumerates(order, SocketRooms(reg, c)) && es == Notices(reg, c, order);
    NoticesShape(reg, c, order);
    forall e | e in es
      ensures e.target.ToRoom? && e.event.UserCount? && e.event.count == Count(Leave(reg, c), e.target.room)
    {
      var i :| 0 <= i < |es| && es[i] == e;
      LeaveCount(reg, c, e.target.room);
    }
  }

  /** A connection that is in no room has nothing to publish when it disconnects. */
  lemma DisconnectingNowhere(reg: Registry, c: ConnId, es: seq<Emit>)
    requires SocketRooms(reg, c) == {}
    requires DisconnectingEmits(reg, c, es)
    ensures es == []
  {
    var order :| Enumerates(order, SocketRooms(reg, c)) && es == Notices(reg, c, order);
    NoticesShape(reg, c, order);
  }

  /** A second teardown, after the adapter has removed `c`, publishes nothing. */
  lemma SecondCloseSilent(reg: Registry, c: ConnId, es: seq<Emit>)
    requires DisconnectingEmits(Leave(reg, c), c, es)
    ensures es == []
  {
    LeaveIdempotent(reg, c);
    DisconnectingNowhere(Leave(reg, c), c, es);
  }
}
