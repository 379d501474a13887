/** A WebSocket stream used as a byte connection. */
module WsConn {
  import opened Bytes

  /** What the WebSocket library hands over: one message, its end, or its failure. */
  datatype Message = Binary(data: seq<byte>) | Close | Other | Ended | Broken

  datatype ReadOut = ReadPending | ReadFailed | Got(data: seq<byte>)

  /** Whether the library can take another message, and whether it does. */
  datatype Ready = Accepts | Busy | Refuses

  datatype WriteOut = WritePending | WriteFailed | Wrote(n: nat)

  datatype Inbound = Inbound(buf: Option<seq<byte>>, messages: seq<Message>)

  /** What stands before a read: a message not read to its end, or else the next one, or none. */
  function Ahead(s: Inbound): Option<Message> {
    if s.buf.Some? then Some(Binary(s.buf.value)) else if s.messages == [] then None else Some(s.messages[0])
  }

  /** Hands out the start of a buffered message, keeping the rest of it. */
  function Hand(data: seq<byte>, room: nat): (Option<seq<byte>>, seq<byte>) {
    if |data| <= room then (None, data) else (Some(data[room..]), data[..room])
  }

  /** One read with room for `room` bytes; no message yet means it is pending. */
  function Poll(s: Inbound, room: nat): (Inbound, ReadOut) {
    if s.buf.Some? then
      var (left, out) := Hand(s.buf.value, room);
      (s.(buf := left), Got(out))
    else if s.messages == [] then (s, ReadPending)
    else
      var t := s.(messages := s.messages[1..]);
      match s.messages[0]
      case Binary(data) =>
        var (left, out) := Hand(data, room);
        (t.(buf := left), Got(out))
      case Close => (t, Got([]))
      case _ => (t, ReadFailed)
  }

  /**
   * In every state: a read is pending if and only if nothing has arrived, fails if and only if what
   * comes next is neither bytes nor a close, and returns nothing if that is a close. Of bytes it
   * returns as many as there is room for, and the rest stays next.
   */
  lemma ReadYieldsExactly(s: Inbound, room: nat)
    ensures var (t, out) := Poll(s, room);
            && (out.ReadPending? <==> Ahead(s) == None)
            && (out.ReadFailed? <==> Ahead(s) in {Some(Other), Some(Ended), Some(Broken)})
            && (Ahead(s) == Some(Close) ==> out == Got([]))
            && (Ahead(s).Some? && Ahead(s).value.Binary? ==>
                  var data := Ahead(s).value.data;
                  && out == Got(data[..Min(|data|, room)])
                  && t.buf == if |data| <= room then None else Some(data[room..]))
            && (Ahead(s).Some? && !Ahead(s).value.Binary? ==> t.buf == None)
            && t.messages == if s.buf.None? && s.messages != [] then s.messages[1..] else s.messages
  {
    if Ahead(s).Some? && Ahead(s).value.Binary? {
      var data := Ahead(s).value.data;
      assert data[..|data|] == data;
    }
  }

  class WsStream {
    var messages: seq<Message>
    var sent: seq<seq<byte>>
    var rBuf: Option<seq<byte>>
    var wBuf: Option<seq<byte>>

    constructor ()
      ensures State() == Inbound(None, []) && sent == [] && wBuf == None
    {
      messages, sent, rBuf, wBuf := [], [], None, None;
    }

    function State(): Inbound
      reads this
    {
      Inbound(rBuf, messages)
    }

    method PollRead(room: nat) returns (r: ReadOut)
      modifies this
      ensures (State(), r) == Poll(old(State()), room)
      ensures sent == old(sent) && wBuf == old(wBuf)
    {
      while true
        invariant Poll(State(), room) == Poll(old(State()), room) && sent == old(sent) && wBuf == old(wBuf)
        decreases |messages|
      {
        if rBuf.Some? {
          var readBuf := rBuf.value;
          if |readBuf| <= room {
            rBuf := None;
            return Got(readBuf);
          }
          rBuf := Some(readBuf[room..]);
          return Got(readBuf[..room]);
        }
        if messages == [] {
          return ReadPending;
        }
        var message := messages[0];
        messages := messages[1..];
        match message {
          case Binary(data) =>
            if |data| < room {
              return Got(data);
            }
            rBuf := Some(data);
          case Close => return Got([]);
          case _ => return ReadFailed;
        }
      }
    }

    /** A message is taken whole or not at all. */
    method PollWrite(buf: seq<byte>, ready: Ready) returns (r: WriteOut)
      modifies this
      ensures State() == old(State())
      ensures r == match ready { case Accepts => Wrote(|buf|) case Busy => WritePending case Refuses => WriteFailed }
      ensures ready.Accepts? ==>
        sent == old(sent) + [(if old(wBuf).Some? then old(wBuf).value else []) + buf] && wBuf == None
      ensures !ready.Accepts? ==> sent == old(sent) && wBuf == old(wBuf)
    {
      match ready {
        case Busy => return WritePending;
        case Refuses => return WriteFailed;
        case Accepts =>
      }
      var message := buf;
      if wBuf.Some? {
        message := wBuf.value + buf;
        wBuf := None;
      }
      assert [] + buf == buf;
      sent := sent + [message];
      r := Wrote(|buf|);
    }
  }

  /** The messages a writer's frames arrive as. */
  function Arriving(frames: seq<seq<byte>>): seq<Message> {
    if frames == [] then [] else [Binary(frames[0])] + Arriving(frames[1..])
  }

  /** What has arrived, in order, and was not read yet. */
  function Unread(buf: Option<seq<byte>>, frames: seq<seq<byte>>): seq<byte> {
    (if buf.Some? then buf.value else []) + Flat(frames)
  }

  /** All the bytes that reads with these rooms return, and the state they leave. */
  function ReadMany(s: Inbound, rooms: seq<nat>): (Inbound, seq<byte>)
    decreases |rooms|
  {
    if rooms == [] then (s, [])
    else
      var (t, out) := Poll(s, rooms[0]);
      var (u, more) := ReadMany(t, rooms[1..]);
      (u, (if out.Got? then out.data else []) + more)
  }

  ghost predicate Holds(s: Inbound, frames: seq<seq<byte>>) {
    s.messages == Arriving(frames) && [] !in frames && s.buf != Some([])
  }

  /** A read hands over the next bytes; with room and bytes unread it hands over at least one. */
  lemma PollHandsOver(s: Inbound, frames: seq<seq<byte>>, room: nat) returns (rest: seq<seq<byte>>)
    requires Holds(s, frames)
    ensures var (t, out) := Poll(s, room);
            && Holds(t, rest)
            && (out.ReadPending? ==> t == s && rest == frames && Unread(s.buf, frames) == [])
            && (!out.ReadPending? ==> out.Got? && out.data + Unread(t.buf, rest) == Unread(s.buf, frames))
            && (room > 0 && out.Got? ==> out.data != [])
  {
    rest := frames;
    if s.buf.Some? {
      HandSplits(s.buf.value, room, Flat(frames));
    } else if frames != [] {
      rest := frames[1..];
      assert frames[0] in frames;
      HandSplits(frames[0], room, Flat(rest));
    }
  }

  lemma HandSplits(data: seq<byte>, room: nat, more: seq<byte>)
    ensures var (left, out) := Hand(data, room);
            && out + ((if left.Some? then left.value else []) + more) == data + more
            && left != Some([]) && (room > 0 && data != [] ==> out != [])
  {
  }

  /**
   * Reading returns the frames' bytes in order and loses none; as many reads with room as there
   * are bytes unread return them all.
   */
  lemma {:induction false} ReadsInOrder(s: Inbound, frames: seq<seq<byte>>, rooms: seq<nat>)
    returns (rest: seq<seq<byte>>)
    requires Holds(s, frames)
    ensures var (t, got) := ReadMany(s, rooms);
            && Holds(t, rest) && got + Unread(t.buf, rest) == Unread(s.buf, frames)
            && (0 !in rooms && |rooms| >= |Unread(s.buf, frames)| ==> got == Unread(s.buf, frames))
    decreases |rooms|
  {
    if rooms == [] {
      rest := frames;
    } else {
      var mid := PollHandsOver(s, frames, rooms[0]);
      var (t, out) := Poll(s, rooms[0]);
      rest := ReadsInOrder(t, mid, rooms[1..]);
      assert rooms[0] in rooms;
      var (u, got) := ReadMany(t, rooms[1..]);
      JoinReads(if out.Got? then out.data else [], got, Unread(u.buf, rest), Unread(t.buf, mid), Unread(s.buf, frames));
    }
  }

  /** One read and those after it hand over what lies ahead, and all of it if the others do. */
  lemma JoinReads(first: seq<byte>, got: seq<byte>, left: seq<byte>, mid: seq<byte>, all: seq<byte>)
    requires first + mid == all && got + left == mid
    ensures first + got + left == all && (got == mid ==> first + got == all)
  {
    assert first + got + left == first + (got + left);
  }
}
