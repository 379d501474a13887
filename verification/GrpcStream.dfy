/** The gRPC message stream over one h2 stream: capacity-limited writer and reassembling reader. */
module GrpcStream {
  import opened Bytes
  import opened Varint
  import opened GrpcFrame

  /** What `poll_capacity` hands the writer. */
  datatype Capacity = CapacityPending | SendClosed | Granted(n: nat)

  datatype WritePoll = WritePending | BrokenPipe | Underflow | Wrote(n: nat)

  datatype ReadPoll =
    | ReadPending
    | Got(data: seq<byte>)
    | BadVarint(e: UvarintError)
    | Panicked

  /** The reader: its buffer, the payload bytes still due, and the DATA chunks that have arrived. */
  datatype Reader = Reader(buf: seq<byte>, next: nat, chunks: seq<seq<byte>>, closed: bool)

  /** How many bytes of `len` are accepted under a grant that covers at least the full-size head. */
  function AcceptedLen(len: nat, grant: nat): (k: nat)
    requires grant >= |Head(len)|
    ensures k <= len && |Head(len)| + k == Min(grant, |Head(len)| + len)
  {
    if grant >= |Head(len)| + len then len else grant - |Head(len)|
  }

  /** A frame cut to a short grant stays within it, since the smaller length needs no longer varint. */
  lemma AcceptedFits(buf: seq<byte>, grant: nat)
    requires grant >= |Head(|buf|)|
    ensures |Frame(buf[..AcceptedLen(|buf|, grant)])| <= grant
  {
    HeadMonotone(AcceptedLen(|buf|, grant), |buf|);
  }

  /** Hands out bytes of the current payload, reading the next head first when none is due. */
  function Deliver(s: Reader, room: nat): (Reader, ReadPoll)
    requires s.buf != [] && |s.buf| >= s.next
  {
    if s.next == 0 then
      if |s.buf| < READ_HEAD_LEN then (s, Panicked)
      else
        var p := Parse(s.buf[READ_HEAD_LEN..]);
        match p.err
        case Some(e) => (s.(buf := p.rest), BadVarint(e))
        case None => Take(s.(buf := p.rest, next := p.value), room)
    else
      Take(s, room)
  }

  function Take(s: Reader, room: nat): (Reader, ReadPoll) {
    var n := Min(room, Min(|s.buf|, s.next));
    (s.(buf := s.buf[n..], next := s.next - n), Got(s.buf[..n]))
  }

  /** One `poll_read` into a caller buffer with `room` bytes left. */
  function Poll(s: Reader, room: nat): (Reader, ReadPoll)
    decreases |s.chunks|
  {
    if s.buf != [] && |s.buf| >= s.next then Deliver(s, room)
    else if s.chunks == [] then (s, if s.closed then Got([]) else ReadPending)
    else Poll(s.(buf := s.buf + s.chunks[0], chunks := s.chunks[1..]), room)
  }

  /** Between payloads, takes a head off the buffer; `due` payload bytes follow. */
  method NextLen(buf: seq<byte>, next: nat) returns (err: Option<UvarintError>, rest: seq<byte>, due: nat)
    requires next == 0 ==> |buf| >= READ_HEAD_LEN
    ensures next != 0 ==> err == None && rest == buf && due == next
    ensures next == 0 ==>
      var p := Parse(buf[READ_HEAD_LEN..]);
      err == p.err && rest == p.rest && due == if p.err == None then p.value else 0
  {
    err, rest, due := None, buf, next;
    if next == 0 {
      var len;
      len, err, rest := ReadUvarint(buf[READ_HEAD_LEN..]);
      if err == None {
        due := len;
      }
    }
  }

  class Stream {
    var rBuffer: seq<byte>
    var nextDataLen: nat
    var recv: seq<seq<byte>>  // DATA chunks that have arrived and are not yet polled
    var recvClosed: bool
    var sent: seq<byte>       // bytes handed to `send_data`

    constructor ()
      ensures State() == Reader([], 0, [], false) && sent == []
    {
      rBuffer, nextDataLen, recv, recvClosed, sent := [], 0, [], false, [];
    }

    function State(): Reader
      reads this
    {
      Reader(rBuffer, nextDataLen, recv, recvClosed)
    }

    method TryReadNextLen() returns (err: Option<UvarintError>)
      requires nextDataLen == 0 ==> |rBuffer| >= READ_HEAD_LEN
      modifies this`rBuffer, this`nextDataLen
      ensures old(nextDataLen) != 0 ==> err == None && rBuffer == old(rBuffer) && nextDataLen == old(nextDataLen)
      ensures old(nextDataLen) == 0 ==>
        var p := Parse(old(rBuffer)[READ_HEAD_LEN..]);
        err == p.err && rBuffer == p.rest && nextDataLen == if p.err == None then p.value else 0
    {
      err, rBuffer, nextDataLen := NextLen(rBuffer, nextDataLen);
    }

    method PollRead(room: nat) returns (r: ReadPoll)
      modifies this
      ensures (State(), r) == Poll(old(State()), room)
      ensures sent == old(sent)
    {
      while true
        invariant Poll(State(), room) == Poll(old(State()), room) && sent == old(sent)
        decreases |recv|
      {
        if rBuffer != [] && |rBuffer| >= nextDataLen {
          if nextDataLen == 0 && |rBuffer| < READ_HEAD_LEN {
            return Panicked;
          }
          var e := TryReadNextLen();
          if e.Some? {
            return BadVarint(e.value);
          }
          var n := Min(room, Min(|rBuffer|, nextDataLen));
          r := Got(rBuffer[..n]);
          rBuffer := rBuffer[n..];
          nextDataLen := nextDataLen - n;
          return;
        }
        if recv == [] {
          return if recvClosed then Got([]) else ReadPending;
        }
        rBuffer := rBuffer + recv[0];
        recv := recv[1..];
      }
    }

    /** A grant smaller than the full-size head makes the subtraction underflow. */
    method PollWrite(buf: seq<byte>, cap: Capacity, sendOk: bool) returns (r: WritePoll)
      requires |buf| < TWO64
      modifies this`sent
      ensures r.Underflow? <==> cap.Granted? && cap.n < |Head(|buf|)|
      ensures r.Wrote? <==> cap.Granted? && cap.n >= |Head(|buf|)| && sendOk
      ensures r.WritePending? <==> cap.CapacityPending?
      ensures r.Wrote? ==>
        && r.n == AcceptedLen(|buf|, cap.n)
        && |Head(|buf|)| + r.n == Min(cap.n, |Head(|buf|)| + |buf|)
        && sent == old(sent) + Frame(buf[..r.n])
        && |Frame(buf[..r.n])| <= cap.n
      ensures !r.Wrote? ==> sent == old(sent)
    {
      var oldLen := |buf|;
      var realLen := GetRealLen(oldLen);
      if cap.CapacityPending? {
        return WritePending;
      }
      if cap.SendClosed? {
        return BrokenPipe;
      }
      var writeLen := cap.n;
      if writeLen >= |Head(oldLen)| {
        AcceptedFits(buf, writeLen);
      }
      if writeLen >= realLen {
        assert buf[..oldLen] == buf;
        var b := Encode(buf, false);
        if !sendOk {
          return BrokenPipe;
        }
        sent := sent + b;
        return Wrote(Min(oldLen, writeLen));
      }
      var diff := realLen - writeLen;
      if diff > oldLen {
        return Underflow;
      }
      var written := oldLen - diff;
      var b := Encode(buf[..written], false);
      if !sendOk {
        return BrokenPipe;
      }
      sent := sent + b;
      return Wrote(written);
    }
  }
}
