/** The zero-round-trip gRPC stream: it may write, and be read, before the response has come. */
module GrpcZeroRtt {
  import opened Bytes
  import opened GrpcFrame
  import opened GrpcStream
  import opened GrpcRun

  /** What polling the response yields. */
  datatype Response = NotYet | Arrived | Refused

  datatype Answer = Awaited | Received | Broken

  /** Until the response has come there is no stream of chunks to poll. */
  datatype ZeroReader = ZeroReader(answer: Answer, reader: Reader)

  datatype ZeroPoll = Plain(poll: ReadPoll) | ResponseFailed

  /** One `poll_read`; `resp` is what the response yields if it is polled. */
  function PollZero(s: ZeroReader, room: nat, resp: Response): (ZeroReader, ZeroPoll)
    decreases |s.reader.chunks|, s.answer.Awaited?
  {
    if s.reader.buf != [] && |s.reader.buf| >= s.reader.next then
      var (r, out) := Deliver(s.reader, room);
      (s.(reader := r), Plain(out))
    else
      match s.answer
      case Broken => (s, ResponseFailed)
      case Awaited =>
        (match resp
         case NotYet => (s, Plain(ReadPending))
         case Refused => (s.(answer := Broken), ResponseFailed)
         case Arrived => PollZero(s.(answer := Received), room, resp))
      case Received =>
        if s.reader.chunks == [] then (s, Plain(if s.reader.closed then Got([]) else ReadPending))
        else
          var r := s.reader;
          PollZero(s.(reader := r.(buf := r.buf + r.chunks[0], chunks := r.chunks[1..])), room, resp)
  }

  class ZeroStream {
    var answer: Answer
    var rBuffer: seq<byte>
    var nextDataLen: nat
    var recv: seq<seq<byte>>
    var recvClosed: bool

    constructor ()
      ensures State() == ZeroReader(Awaited, Reader([], 0, [], false))
    {
      answer, rBuffer, nextDataLen, recv, recvClosed := Awaited, [], 0, [], false;
    }

    function State(): ZeroReader
      reads this
    {
      ZeroReader(answer, Reader(rBuffer, nextDataLen, recv, recvClosed))
    }

    method PollRead(room: nat, resp: Response) returns (r: ZeroPoll)
      modifies this
      ensures (State(), r) == PollZero(old(State()), room, resp)
    {
      while true
        invariant PollZero(State(), room, resp) == PollZero(old(State()), room, resp)
        decreases |recv|
      {
        if rBuffer != [] && |rBuffer| >= nextDataLen {
          r := HandOut(room);
          return;
        }
        if answer.Broken? {
          return ResponseFailed;
        }
        if answer.Awaited? {
          if resp.NotYet? {
            return Plain(ReadPending);
          }
          if resp.Refused? {
            answer := Broken;
            return ResponseFailed;
          }
          answer := Received;
        }
        if recv == [] {
          return Plain(if recvClosed then Got([]) else ReadPending);
        }
        rBuffer := rBuffer + recv[0];
        recv := recv[1..];
      }
    }

    method HandOut(room: nat) returns (r: ZeroPoll)
      requires rBuffer != [] && |rBuffer| >= nextDataLen
      modifies this`rBuffer, this`nextDataLen
      ensures (State().reader, r) == (Deliver(old(State()).reader, room).0, Plain(Deliver(old(State()).reader, room).1))
    {
      if nextDataLen == 0 && |rBuffer| < READ_HEAD_LEN {
        return Plain(Panicked);
      }
      var e;
      e, rBuffer, nextDataLen := NextLen(rBuffer, nextDataLen);
      if e.Some? {
        return Plain(BadVarint(e.value));
      }
      var n := Min(room, Min(|rBuffer|, nextDataLen));
      r := Plain(Got(rBuffer[..n]));
      rBuffer := rBuffer[n..];
      nextDataLen := nextDataLen - n;
    }
  }

  /** Nothing has been read before the response came. */
  predicate Waiting(s: ZeroReader) {
    s.answer.Awaited? ==> s.reader.buf == [] && s.reader.next == 0
  }

  /** Once the response has come, a poll is a poll of the plain stream. */
  lemma {:induction false} AnsweredIsPlain(s: ZeroReader, room: nat, resp: Response)
    requires s.answer.Received?
    ensures var (r, out) := Poll(s.reader, room); PollZero(s, room, resp) == (ZeroReader(Received, r), Plain(out))
    decreases |s.reader.chunks|
  {
    var r := s.reader;
    if !(r.buf != [] && |r.buf| >= r.next) && r.chunks != [] {
      AnsweredIsPlain(s.(reader := r.(buf := r.buf + r.chunks[0], chunks := r.chunks[1..])), room, resp);
    }
  }

  /** A poll by a reader who may still wait for the response. */
  lemma OnePoll(s: ZeroReader, room: nat, resp: Response)
    requires Waiting(s) && !s.answer.Broken? && (s.answer.Awaited? ==> !resp.Refused?)
    ensures var (t, out) := PollZero(s, room, resp);
            && Waiting(t) && !t.answer.Broken?
            && (if s.answer.Awaited? && resp.NotYet? then t == s && out == Plain(ReadPending)
                else t.answer.Received? && (t.reader, out) == (Poll(s.reader, room).0, Plain(Poll(s.reader, room).1)))
  {
    if s.answer.Received? {
      AnsweredIsPlain(s, room, resp);
    } else if resp.Arrived? {
      AnsweredIsPlain(s.(answer := Received), room, resp);
    }
  }

  datatype Ask = Ask(room: nat, resp: Response)

  /** The polls that the plain stream would have had: those from the response on. */
  function FromResponse(asks: seq<Ask>, answered: bool): seq<nat> {
    if asks == [] then []
    else if answered || asks[0].resp.Arrived? then [asks[0].room] + FromResponse(asks[1..], true)
    else FromResponse(asks[1..], false)
  }

  function ReadAll(s: ZeroReader, asks: seq<Ask>): (ZeroReader, seq<byte>)
    decreases |asks|
  {
    if asks == [] then (s, [])
    else
      var (t, out) := PollZero(s, asks[0].room, asks[0].resp);
      var (u, more) := ReadAll(t, asks[1..]);
      (u, (if out.Plain? then DataOf(out.poll) else []) + more)
  }

  /**
   * Reading a stream whose response comes late returns the same bytes, and leaves the same reader,
   * as reading the plain stream from the moment the response has come.
   */
  lemma {:induction false} RefinesPlain(s: ZeroReader, asks: seq<Ask>)
    requires Waiting(s) && !s.answer.Broken? && forall a :: a in asks ==> !a.resp.Refused?
    ensures var (t, data) := ReadAll(s, asks);
            (t.reader, data) == ReadMany(s.reader, FromResponse(asks, s.answer.Received?))
    decreases |asks|
  {
    if asks != [] {
      var a := asks[0];
      assert a in asks;
      OnePoll(s, a.room, a.resp);
      var t := PollZero(s, a.room, a.resp).0;
      RefinesPlain(t, asks[1..]);
      if s.answer.Received? || a.resp.Arrived? {
        ReadManyCons(s.reader, a.room, FromResponse(asks[1..], true));
      } else {
        var more := ReadAll(t, asks[1..]).1;
        assert [] + more == more;
      }
    }
  }

  /** Once the response is refused, that read and every later one fail, and none returns a byte. */
  lemma {:induction false} RefusedForGood(s: ZeroReader, room: nat, asks: seq<Ask>)
    requires Waiting(s) && s.answer.Awaited?
    ensures var (t, out) := PollZero(s, room, Refused);
            && out == ResponseFailed && t.reader == s.reader && ReadAll(t, asks) == (t, [])
            && forall r: nat, resp :: PollZero(t, r, resp) == (t, ResponseFailed)
    decreases |asks|
  {
    var t := PollZero(s, room, Refused).0;
    if asks != [] {
      RefusedForGood(s, room, asks[1..]);
      assert PollZero(t, asks[0].room, asks[0].resp) == (t, ResponseFailed);
      var none: seq<byte> := [];
      assert none + none == none;
    }
  }

  lemma ReadManyCons(r: Reader, room: nat, rooms: seq<nat>)
    ensures var (t, out) := Poll(r, room);
            ReadMany(r, [room] + rooms) == (ReadMany(t, rooms).0, DataOf(out) + ReadMany(t, rooms).1)
  {
    assert ([room] + rooms)[1..] == rooms;
  }
}
