/**
 The room registry of the socket.io in-memory adapter (`io.sockets.adapter.rooms`):
 a map from room name to the set of connection ids joined to it.  The behaviours
 that come from the adapter rather than from the handlers are stated here:
 members are held in a set, a room is created by the first join and disappears
 when its last member leaves, and every connection sits in a private room named
 after its own id.
 */
module Rooms {

  type ConnId = string
  type RoomId = string
  type Registry = map<RoomId, set<ConnId>>

  /** The members of `r`; an absent room has none. */
  function Members(reg: Registry, r: RoomId): set<ConnId>
  {
    if r in reg then reg[r] else {}
  }

  /** `room ? room.size : 0` for `room = rooms.get(r)`. */
  function Count(reg: Registry, r: RoomId): (n: nat)
    ensures n == |Members(reg, r)|
    ensures n == 0 <==> Members(reg, r) == {}
    ensures NoEmptyRooms(reg) ==> (n == 0 <==> r !in reg)
  {
    if r in reg then |reg[r]| else 0
  }

  /** The adapter never keeps a room without members. */
  ghost predicate NoEmptyRooms(reg: Registry)
  {
    forall r :: r in reg ==> reg[r] != {}
  }

  /**
   The adapter's bookkeeping between handler calls: no empty room, every member
   of a room is a live connection, and every live connection is in the room
   named after its id.
   */
  ghost predicate WellFormed(reg: Registry, connected: set<ConnId>)
  {
    && NoEmptyRooms(reg)
    && (forall r, m :: r in reg && m in reg[r] ==> m in connected)
    && (forall c :: c in connected ==> c in Members(reg, c))
  }

  /** `socket.join(r)`: add `c` to `r`, creating the room when it is absent. */
  function Join(reg: Registry, r: RoomId, c: ConnId): (reg': Registry)
    ensures Members(reg', r) == Members(reg, r) + {c}
    ensures reg'.Keys == reg.Keys + {r}
    ensures forall q :: q != r ==> Members(reg', q) == Members(reg, q)
    ensures forall q :: q != r && q in reg ==> reg'[q] == reg[q]
    ensures NoEmptyRooms(reg) ==> NoEmptyRooms(reg')
  {
    reg[r := Members(reg, r) + {c}]
  }

  /**
   The adapter's `delAll(c)` once a connection has closed: `c` leaves every
   room it is in, and a room of which it was the last member is deleted.
   Rooms `c` is not in are left as they are.
   */
  function Leave(reg: Registry, c: ConnId): (reg': Registry)
    ensures forall r :: Members(reg', r) == Members(reg, r) - {c}
    ensures forall r :: r in reg' <==> r in reg && reg[r] != {c}
    ensures forall r :: r in reg && c !in reg[r] ==> r in reg' && reg'[r] == reg[r]
    ensures NoEmptyRooms(reg) ==> NoEmptyRooms(reg')
  {
    map r | r in reg && reg[r] != {c} :: reg[r] - {c}
  }

  /** `socket.rooms`: the rooms `c` belongs to, its private room included. */
  function SocketRooms(reg: Registry, c: ConnId): (rs: set<RoomId>)
    ensures forall r :: r in rs <==> c in Members(reg, r)
    ensures rs <= reg.Keys
  {
    set r | r in reg && c in reg[r]
  }

  /** The rooms of `c` other than its private room. */
  function PublicRooms(reg: Registry, c: ConnId): (rs: set<RoomId>)
    ensures forall r :: r in rs <==> r != c && c in Members(reg, r)
  {
    SocketRooms(reg, c) - {c}
  }

  /**
   A live connection always lists its private room in `socket.rooms`, and that
   room is the only one the `disconnecting` loop skips.
   */
  lemma PrivateRoomListed(reg: Registry, live: set<ConnId>, c: ConnId)
    requires WellFormed(reg, live) && c in live
    ensures c in SocketRooms(reg, c)
    ensures PublicRooms(reg, c) + {c} == SocketRooms(reg, c)
    ensures |PublicRooms(reg, c)| == |SocketRooms(reg, c)| - 1
  {
  }

  /** Leaving twice is leaving once, and a second close finds no room to publish to. */
  lemma LeaveIdempotent(reg: Registry, c: ConnId)
    ensures Leave(Leave(reg, c), c) == Leave(reg, c)
    ensures SocketRooms(Leave(reg, c), c) == {}
  {
  }

  /** A connection in room `r` leaving it takes exactly one off its count. */
  lemma LeaveCount(reg: Registry, c: ConnId, r: RoomId)
    requires c in Members(reg, r)
    ensures Count(Leave(reg, c), r) == Count(reg, r) - 1
    ensures r in Leave(reg, c) <==> Count(reg, r) > 1
  {
  }

  /**
   Repeated `socket.join(r)` by distinct connections that are not yet members:
   the count grows by exactly one per connection.
   */
  function JoinAll(reg: Registry, r: RoomId, cs: seq<ConnId>): (reg': Registry)
    ensures Members(reg', r) == Members(reg, r) + (set c | c in cs)
    decreases |cs|
  {
    if cs == [] then reg
    else Join(JoinAll(reg, r, cs[..|cs| - 1]), r, cs[|cs| - 1])
  }

  ghost predicate Distinct<T>(s: seq<T>)
  {
    forall i, j :: 0 <= i < j < |s| ==> s[i] != s[j]
  }

  /** The last element of a sequence without repetitions is not among the others. */
  lemma DistinctSplit<T>(s: seq<T>)
    requires Distinct(s) && s != []
    ensures Distinct(s[..|s| - 1])
    ensures s[|s| - 1] !in s[..|s| - 1]
  {
  }

  lemma {:induction false} JoinAllCount(reg: Registry, r: RoomId, cs: seq<ConnId>)
    requires Distinct(cs)
    requires forall c :: c in cs ==> c !in Members(reg, r)
    ensures Count(JoinAll(reg, r, cs), r) == Count(reg, r) + |cs|
    decreases |cs|
  {
    if cs != [] {
      var init, last := cs[..|cs| - 1], cs[|cs| - 1];
      DistinctSplit(cs);
      assert forall c :: c in init ==> c in cs;
      JoinAllCount(reg, r, init);
      var before := JoinAll(reg, r, init);
      assert last !in Members(before, r);
      assert Members(JoinAll(reg, r, cs), r) == Members(before, r) + {last};
    }
  }
}
