/** A WebSocket client connection that sends the start of its first write in the request header. */
module WsEarlyData {
  import opened Bytes
  import opened WsConn

  const MAX_EARLY_DATA_LEN: nat := 2048
  const MAX_EARLY_DATA_LEN_BASE64: nat := 2732

  datatype Phase = Idle | Dialing | DialBroken | Open

  /** What polling the dial yields. */
  datatype DialPoll = DialPending | DialFails | DialDone

  datatype Out = Pending | Failed | Panicked | Accepted(n: nat)

  datatype Early = Early(
    phase: Phase,
    header: Option<seq<byte>>,  // the early data that the request carries
    firstLen: nat,
    left: Option<seq<byte>>,
    sent: seq<seq<byte>>)       // messages on the WebSocket stream

  /** The first write starts the dial: what fits goes into the header, the rest waits. */
  function Start(s: Early, buf: seq<byte>): Early {
    if |buf| > MAX_EARLY_DATA_LEN then
      s.(phase := Dialing, header := Some(buf[..MAX_EARLY_DATA_LEN]), firstLen := MAX_EARLY_DATA_LEN,
         left := Some(buf[MAX_EARLY_DATA_LEN..]))
    else s.(phase := Dialing, header := Some(buf), firstLen := |buf|)
  }

  function PollDial(s: Early, dial: DialPoll, ws: Ready): (Early, Out) {
    match dial
    case DialPending => (s, Pending)
    case DialFails => (s.(phase := DialBroken), Failed)
    case DialDone =>
      var t := s.(phase := Open);
      if s.left.None? then (t, Accepted(s.firstLen))
      else
        match ws
        case Busy => (t, Pending)
        case Refuses => (t.(left := None), Failed)
        case Accepts => (t.(left := None, sent := s.sent + [s.left.value]), Accepted(s.firstLen + |s.left.value|))
  }

  /** Once open, what is left over is sent in one message with the caller's bytes behind it. */
  function WriteOpen(s: Early, buf: seq<byte>, ws: Ready): (Early, Out) {
    var data := (if s.left.Some? then s.left.value else []) + buf;
    match ws
    case Busy => (if s.left.Some? then s.(left := Some(data)) else s, Pending)
    case Refuses => (s.(left := None), Failed)
    case Accepts => (s.(left := None, sent := s.sent + [data]), Accepted(|data|))
  }

  /** One `poll_write`, `dial` and `ws` being what the dial and the stream answer if asked. */
  function PollEarly(s: Early, buf: seq<byte>, dial: DialPoll, ws: Ready): (Early, Out) {
    match s.phase
    case Idle => PollDial(Start(s, buf), dial, ws)
    case Dialing => PollDial(s, dial, ws)
    case DialBroken => (s, Panicked)
    case Open => WriteOpen(s, buf, ws)
  }

  const NEW: Early := Early(Idle, None, 0, None, [])

  class EarlyConn {
    var dialF: bool                  // a dial is under way, or has ended in failure
    var dialFailed: bool
    var realC: WsStream?
    var firstDataLen: nat
    var leftFirstWData: Option<seq<byte>>
    var header: Option<seq<byte>>    // what the dial was given

    constructor ()
      ensures Valid() && State() == NEW
    {
      dialF, dialFailed, realC, firstDataLen, leftFirstWData, header := false, false, null, 0, None, None;
    }

    ghost predicate Valid()
      reads this, realC
    {
      && (dialFailed ==> dialF) && (dialF ==> realC == null)
      && (realC != null ==> realC.wBuf == None)
    }

    ghost function State(): Early
      reads this, realC
    {
      Early(if realC != null then Open else if dialFailed then DialBroken else if dialF then Dialing else Idle,
            header, firstDataLen, leftFirstWData, if realC != null then realC.sent else [])
    }

    /** `c` is the stream that the dial yields when it ends. */
    method PollWrite(buf: seq<byte>, dial: DialPoll, c: WsStream, ws: Ready) returns (r: Out)
      requires Valid() && c != realC && c.sent == [] && c.wBuf == None
      modifies this, realC, c
      ensures Valid() && realC in {old(realC), c}
      ensures (State(), r) == PollEarly(old(State()), buf, dial, ws)
    {
      while true
        invariant Valid() && realC == old(realC) && c.sent == [] && c.wBuf == None
        invariant realC != null ==> realC.sent == old(realC.sent)
        invariant if dialF then PollEarly(State(), buf, dial, ws) == PollEarly(old(State()), buf, dial, ws)
                  else State() == old(State())
        decreases if dialF then 0 else 1
      {
        if dialF {
          r := EndDial(dial, c, ws);
          return;
        }
        if realC != null {
          r := WriteReal(buf, ws);
          return;
        }
        var bl := |buf|;
        if bl > MAX_EARLY_DATA_LEN {
          bl := MAX_EARLY_DATA_LEN;
          leftFirstWData := Some(buf[MAX_EARLY_DATA_LEN..]);
        }
        firstDataLen := bl;
        assert |buf| <= MAX_EARLY_DATA_LEN ==> buf[..bl] == buf;
        header := Some(buf[..bl]);
        dialF := true;
      }
    }

    method EndDial(dial: DialPoll, c: WsStream, ws: Ready) returns (r: Out)
      requires Valid() && dialF && c.sent == [] && c.wBuf == None
      modifies this, c
      ensures Valid() && realC in {null, c}
      ensures (State(), r) == if old(dialFailed) then (old(State()), Panicked) else PollDial(old(State()), dial, ws)
    {
      if dialFailed {
        return Panicked;
      }
      if dial.DialPending? {
        return Pending;
      }
      if dial.DialFails? {
        dialFailed := true;
        return Failed;
      }
      dialF := false;
      if leftFirstWData.None? {
        realC := c;
        return Accepted(firstDataLen);
      }
      var left := leftFirstWData.value;
      leftFirstWData := None;
      var r2 := c.PollWrite(left, ws);
      realC := c;
      match r2 {
        case Wrote(u) =>
          // the stream takes a message whole, so nothing of `left` is left over
          assert u == |left| && [] + left == left;
          r := Accepted(firstDataLen + u);
        case WriteFailed => r := Failed;
        case WritePending =>
          leftFirstWData := Some(left);
          r := Pending;
      }
    }

    method WriteReal(buf: seq<byte>, ws: Ready) returns (r: Out)
      requires Valid() && realC != null
      modifies this, realC
      ensures Valid() && realC == old(realC)
      ensures (State(), r) == WriteOpen(old(State()), buf, ws)
    {
      assert [] + buf == buf;
      var r2;
      if leftFirstWData.Some? {
        var left := leftFirstWData.value + buf;
        assert [] + left == left;
        leftFirstWData := None;
        r2 := realC.PollWrite(left, ws);
        match r2 {
          case Wrote(u) => assert u == |left|;
          case WriteFailed =>
          case WritePending => leftFirstWData := Some(left);
        }
      } else {
        r2 := realC.PollWrite(buf, ws);
      }
      r := match r2 { case Wrote(u) => Accepted(u) case WriteFailed => Failed case WritePending => Pending };
    }
  }
}
