/**
 What the handlers emit.  One `Emit` records one emit call: where it was
 addressed (`io.to(room)` or the calling `socket`), the connections that were
 its recipients at that moment, and the event with its payload.
 */
module Events {
  import opened Rooms

  /** The `send-message` payload as the chat page builds it; relayed untouched. */
  datatype ChatMessage = ChatMessage(roomId: RoomId, userName: string, message: string, timestamp: string)

  /** Event name and payload: `user-count`, `error` and `receive-message`. */
  datatype Event =
    | UserCount(count: int)
    | Error(reason: string)
    | ReceiveMessage(data: ChatMessage)

  datatype Target = ToRoom(room: RoomId) | ToSocket(id: ConnId)

  datatype Emit = Emit(target: Target, recipients: set<ConnId>, event: Event)

  const RoomNotFound: string := "Room not found"

  /**
   The events delivered to connection `c`, in emission order: at most one per
   emit, and each one the event of an emit `c` was a recipient of.
   */
  function Inbox(out: seq<Emit>, c: ConnId): (inbox: seq<Event>)
    ensures |inbox| <= |out|
    ensures forall ev :: ev in inbox ==> exists e :: e in out && c in e.recipients && e.event == ev
    decreases |out|
  {
    if out == [] then []
    else
      var last := out[|out| - 1];
      Inbox(out[..|out| - 1], c) + (if c in last.recipients then [last.event] else [])
  }

  /** What a connection receives from two runs of emits is what it receives from each, in order. */
  lemma {:induction false} InboxAppend(a: seq<Emit>, b: seq<Emit>, c: ConnId)
    ensures Inbox(a + b, c) == Inbox(a, c) + Inbox(b, c)
    decreases |b|
  {
    if b != [] {
      var init := b[..|b| - 1];
      assert (a + b)[..|a + b| - 1] == a + init;
      assert (a + b)[|a + b| - 1] == b[|b| - 1];
      InboxAppend(a, init, c);
    } else {
      assert a + b == a;
    }
  }

  /** A single emit reaches exactly its recipients. */
  lemma InboxOne(e: Emit, c: ConnId)
    ensures Inbox([e], c) == if c in e.recipients then [e.event] else []
  {
  }
}
