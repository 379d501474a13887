/** Whole runs of a WebSocket early-data connection, and what the server recovers. */
module WsRun {
  import opened Bytes
  import opened WsConn
  import opened WsEarlyData
  import Base64

  /**
   * A caller writes buffers one after the other. While a write is pending it retries with the
   * same buffer, and a reported count says how much of the buffer was accepted.
   */
  datatype System = System(
    c: Early,
    pending: Option<seq<byte>>,
    accepted: seq<byte>,
    overrun: bool,   // a write reported more bytes than the caller's buffer holds
    stalled: bool,   // the stream was busy when the dial ended with bytes left over
    failed: bool)

  const START: System := System(NEW, None, [], false, false, false)

  datatype Event = Write(buf: seq<byte>, dial: DialPoll, ws: Ready)

  predicate Enabled(s: System, e: Event) {
    !s.failed && (s.pending.Some? ==> e.buf == s.pending.value)
  }

  function Next(s: System, e: Event): System {
    var (c, out) := PollEarly(s.c, e.buf, e.dial, e.ws);
    var t := s.(c := c, stalled := s.stalled || (!s.c.phase.Open? && c.phase.Open? && c.left.Some? && out.Pending?));
    match out
    case Pending => t.(pending := Some(e.buf))
    case Accepted(n) =>
      t.(pending := None, accepted := s.accepted + e.buf[..Min(n, |e.buf|)], overrun := s.overrun || n > |e.buf|)
    case _ => t.(failed := true)
  }

  predicate Run(s: System, events: seq<Event>, t: System)
    decreases |events|
  {
    if events == [] then s == t else Enabled(s, events[0]) && Run(Next(s, events[0]), events[1..], t)
  }

  /** Everything that has left the client: the header's bytes and then the messages. */
  function Transmitted(c: Early): seq<byte> {
    (if c.header.Some? then c.header.value else []) + Flat(c.sent)
  }

  predicate Smooth(s: System) {
    && !s.overrun
    && match s.c.phase
       case Idle => s == START
       case Dialing => s.pending.Some? && s.accepted == [] && s.c == Start(NEW, s.pending.value)
       case DialBroken => false
       case Open => s.c.left == None && s.c.header.Some? && Transmitted(s.c) == s.accepted
  }

  predicate Spoilt(s: System) {
    && s.c.phase.Open? && s.c.header.Some?
    && if s.c.left.Some? then s.pending.Some? && s.accepted == [] && s.c.sent == [] && s.c.header.value != []
         && s.c.left.value != []
       else s.overrun && |Transmitted(s.c)| > |s.accepted|
  }

  /** Exactly one of the two ways to be holds, for good. */
  predicate Inv(s: System) {
    s.failed || if s.stalled then Spoilt(s) else Smooth(s)
  }

  lemma SentGrows(c: Early, data: seq<byte>)
    ensures Transmitted(c.(sent := c.sent + [data])) == Transmitted(c) + data
    ensures Transmitted(c.(left := None, sent := c.sent + [data])) == Transmitted(c) + data
  {
    FlatSnoc(c.sent, data);
    var h: seq<byte> := if c.header.Some? then c.header.value else [];
    assert h + (Flat(c.sent) + data) == h + Flat(c.sent) + data;
  }

  lemma StartSplits(buf: seq<byte>)
    ensures var c := Start(NEW, buf);
            && c.header.Some? && c.firstLen == |c.header.value| <= MAX_EARLY_DATA_LEN
            && c.header.value + (if c.left.Some? then c.left.value else []) == buf
            && (c.left.Some? ==> c.left.value != [] && c.header.value != [])
  {
  }

  lemma DialKeeps(s: System, buf: seq<byte>, e: Event)
    requires !s.failed && !s.stalled && !s.overrun && s.accepted == [] && e.buf == buf
    requires PollEarly(s.c, buf, e.dial, e.ws) == PollDial(Start(NEW, buf), e.dial, e.ws) && !s.c.phase.Open?
    ensures Inv(Next(s, e))
  {
    var c := Start(NEW, buf);
    StartSplits(buf);
    if e.dial.DialDone? && (c.left.None? || e.ws.Accepts?) {
      var n := c.firstLen + (if c.left.Some? then |c.left.value| else 0);
      assert n == |buf| && buf[..n] == buf;
      SentGrows(c, if c.left.Some? then c.left.value else []);
      assert Transmitted(c) == c.header.value;
    }
  }

  lemma OpenKeeps(s: System, e: Event)
    requires Inv(s) && Enabled(s, e) && s.c.phase.Open?
    ensures Inv(Next(s, e))
  {
    var data := (if s.c.left.Some? then s.c.left.value else []) + e.buf;
    SentGrows(s.c, data);
    assert e.buf[..|e.buf|] == e.buf;
    assert s.c.left.None? ==> data == e.buf;
  }

  lemma StepKeeps(s: System, e: Event)
    requires Inv(s) && Enabled(s, e)
    ensures Inv(Next(s, e))
  {
    match s.c.phase {
      case Idle => DialKeeps(s, e.buf, e);
      case Dialing => DialKeeps(s, e.buf, e);
      case DialBroken =>
      case Open => OpenKeeps(s, e);
    }
  }

  lemma {:induction false} RunKeeps(s: System, events: seq<Event>, t: System)
    requires Inv(s) && Run(s, events, t)
    ensures Inv(t)
    decreases |events|
  {
    if events != [] {
      StepKeeps(s, events[0]);
      RunKeeps(Next(s, events[0]), events[1..], t);
    }
  }

  /**
   * Across any number of retries: once a write has completed, the header and the messages carry
   * exactly what the caller was told was accepted, if and only if the stream was not busy when
   * the dial ended with bytes left over. If it was, a write reports more than it was given.
   */
  lemma TransmitsWhatWasAccepted(events: seq<Event>, t: System)
    requires Run(START, events, t) && !t.failed && t.pending.None? && t != START
    ensures Transmitted(t.c) == t.accepted <==> !t.stalled
    ensures t.overrun <==> t.stalled
  {
    RunKeeps(START, events, t);
  }

  /** While the stream was never busy then, what was transmitted never exceeds the bytes accepted. */
  lemma NothingTwice(events: seq<Event>, t: System)
    requires Run(START, events, t) && !t.failed && !t.stalled && t.c.phase.Open?
    ensures Transmitted(t.c) == t.accepted && t.c.left.None?
  {
    RunKeeps(START, events, t);
  }

  /** How a write ends. */
  datatype Verdict = Waits | Breaks | Completes

  /**
   * What becomes of a write, from outside: before the dial is done everything rests on the dial,
   * and on the stream too if the first write, of `first` bytes, does not fit the header; after
   * that it rests on the stream alone.
   */
  function Judged(e: Event, isOpen: bool, first: nat): Verdict {
    if isOpen then (if e.ws.Busy? then Waits else if e.ws.Refuses? then Breaks else Completes)
    else if e.dial.DialPending? then Waits
    else if e.dial.DialFails? then Breaks
    else if first <= 2048 then Completes
    else if e.ws.Busy? then Waits
    else if e.ws.Refuses? then Breaks
    else Completes
  }

  /** Some dial of the run is done. */
  predicate Opened(events: seq<Event>) {
    exists k :: 0 <= k < |events| && events[k].dial.DialDone?
  }

  /** The dial is under way with the first buffer, or done as soon as one event says so. */
  predicate Tracked(s: System, events: seq<Event>) {
    && !s.c.phase.DialBroken? && (s.c.phase.Open? <==> Opened(events))
    && (s.c.phase.Idle? <==> events == []) && (s.c.phase.Idle? ==> s == START)
    && (s.c.phase.Dialing? ==> s.pending == Some(events[0].buf) && s.c == Start(NEW, events[0].buf))
  }

  lemma OpenedSnoc(events: seq<Event>, e: Event)
    ensures Opened(events + [e]) <==> Opened(events) || e.dial.DialDone?
  {
    var more := events + [e];
    assert more[|events|] == e;
    if Opened(events) {
      var k :| 0 <= k < |events| && events[k].dial.DialDone?;
      assert more[k].dial.DialDone?;
    }
    if Opened(more) {
      var k :| 0 <= k < |more| && more[k].dial.DialDone?;
      assert k < |events| ==> events[k].dial.DialDone?;
    }
  }

  lemma TrackStep(s: System, events: seq<Event>, e: Event)
    requires Tracked(s, events) && Enabled(s, e)
    ensures var out := PollEarly(s.c, e.buf, e.dial, e.ws).1;
            match Judged(e, Opened(events), |(events + [e])[0].buf|)
            case Waits => out.Pending?
            case Breaks => out.Failed?
            case Completes => out.Accepted?
    ensures !Next(s, e).failed ==> Tracked(Next(s, e), events + [e])
  {
    OpenedSnoc(events, e);
    if events != [] {
      assert (events + [e])[0] == events[0];
    }
  }

  lemma {:induction false} RunIsTracked(before: seq<Event>, s: System, events: seq<Event>, t: System)
    requires Tracked(s, before) && Run(s, events, t) && !t.failed
    ensures Tracked(t, before + events)
    decreases |events|
  {
    if events == [] {
      assert before + events == before;
    } else {
      TrackStep(s, before, events[0]);
      assert before + [events[0]] + events[1..] == before + events;
      if !Next(s, events[0]).failed {
        RunIsTracked(before + [events[0]], Next(s, events[0]), events[1..], t);
      }
    }
  }

  /**
   * In every run, what a write yields is what the dial and the stream answer it: it waits, fails
   * or completes exactly as judged from outside, and it never panics. Unless the stream was busy
   * at the wrong moment, a write that completes reports its whole length.
   */
  lemma WriteYieldsExactly(events: seq<Event>, s: System, e: Event)
    requires Run(START, events, s) && Enabled(s, e)
    ensures var out := PollEarly(s.c, e.buf, e.dial, e.ws).1;
            && match Judged(e, Opened(events), |(events + [e])[0].buf|) {
                 case Waits => out.Pending?
                 case Breaks => out.Failed?
                 case Completes => out.Accepted?
               }
            && (out.Accepted? && !s.stalled ==> out.n == |e.buf|)
            && (out.Pending? ==> Next(s, e).pending == Some(e.buf))
            && (out.Accepted? ==> Next(s, e).pending == None)
  {
    assert [] + events == events;
    RunIsTracked([], START, events, s);
    TrackStep(s, events, e);
    RunKeeps(START, events, s);
    if !s.stalled {
      WholeLength(s, e);
    }
  }

  lemma WholeLength(s: System, e: Event)
    requires Inv(s) && Enabled(s, e) && !s.stalled
    ensures var out := PollEarly(s.c, e.buf, e.dial, e.ws).1; out.Accepted? ==> out.n == |e.buf|
  {
    if s.c.phase.Idle? || s.c.phase.Dialing? {
      StartSplits(e.buf);
      var c := Start(NEW, e.buf);
      assert |c.header.value + (if c.left.Some? then c.left.value else [])| == |e.buf|;
    }
  }

  /** What one more write puts on the stream: the rest of the first write, or a later write whole. */
  function MessageOf(events: seq<Event>, e: Event): seq<seq<byte>> {
    var first := (events + [e])[0].buf;
    if !Judged(e, Opened(events), |first|).Completes? then []
    else if Opened(events) then [e.buf]
    else if |first| > 2048 then [first[2048..]]
    else []
  }

  /** The messages of a whole run. */
  function Messages(events: seq<Event>): seq<seq<byte>> {
    if events == [] then []
    else
      var n := |events| - 1;
      Messages(events[..n]) + MessageOf(events[..n], events[n])
  }

  /** The header holds the front of the first write, the stream the messages. */
  predicate Delivered(s: System, events: seq<Event>) {
    && s.c.sent == Messages(events)
    && s.c.header == if events == [] then None else Some(events[0].buf[..Min(2048, |events[0].buf|)])
  }

  lemma MessagesSnoc(events: seq<Event>, e: Event)
    ensures Messages(events + [e]) == Messages(events) + MessageOf(events, e)
  {
    assert (events + [e])[..|events|] == events;
  }

  lemma OpenDelivers(s: System, events: seq<Event>, e: Event)
    requires s.c.phase.Open? && Opened(events) && s.c.left.None? && !Next(s, e).failed
    ensures var t := Next(s, e);
            t.c.header == s.c.header && t.c.sent == s.c.sent + MessageOf(events, e)
  {
    assert [] + e.buf == e.buf;
    assert s.c.sent + [] == s.c.sent;
  }

  lemma DialDelivers(s: System, events: seq<Event>, e: Event)
    requires !Opened(events) && !Next(s, e).failed && !Next(s, e).stalled && s.c.sent == [] && !s.c.phase.Open?
    requires var c := Start(NEW, (events + [e])[0].buf);
             PollEarly(s.c, e.buf, e.dial, e.ws) == PollDial(c, e.dial, e.ws)
    ensures var t, first := Next(s, e), (events + [e])[0].buf;
            t.c.header == Some(first[..Min(2048, |first|)]) && t.c.sent == MessageOf(events, e)
  {
    var first := (events + [e])[0].buf;
    assert first[..|first|] == first;
    assert [] + [first] == [first];
  }

  lemma DeliverStep(s: System, events: seq<Event>, e: Event)
    requires Inv(s) && Tracked(s, events) && Delivered(s, events) && Enabled(s, e)
    requires !Next(s, e).failed && !Next(s, e).stalled
    ensures Delivered(Next(s, e), events + [e])
  {
    MessagesSnoc(events, e);
    if events != [] {
      assert (events + [e])[0] == events[0];
    }
    if s.c.phase.Open? {
      OpenDelivers(s, events, e);
    } else {
      NothingSent(events);
      DialDelivers(s, events, e);
    }
  }

  lemma {:induction false} NothingSent(events: seq<Event>)
    requires !Opened(events)
    ensures Messages(events) == []
  {
    if events != [] {
      var n := |events| - 1;
      assert events == events[..n] + [events[n]];
      OpenedSnoc(events[..n], events[n]);
      NothingSent(events[..n]);
    }
  }

  lemma {:induction false} RunDelivers(before: seq<Event>, s: System, events: seq<Event>, t: System)
    requires Inv(s) && Tracked(s, before) && Delivered(s, before) && Run(s, events, t) && !t.failed && !t.stalled
    ensures Delivered(t, before + events)
    decreases |events|
  {
    if events == [] {
      assert before + events == before;
    } else {
      var u := Next(s, events[0]);
      StaysBad(u, events[1..], t);
      TrackStep(s, before, events[0]);
      DeliverStep(s, before, events[0]);
      StepKeeps(s, events[0]);
      assert before + [events[0]] + events[1..] == before + events;
      RunDelivers(before + [events[0]], u, events[1..], t);
    }
  }

  lemma {:induction false} StaysBad(s: System, events: seq<Event>, t: System)
    requires Run(s, events, t)
    ensures s.failed ==> t.failed
    ensures s.stalled ==> t.stalled
    decreases |events|
  {
    if events != [] {
      StaysBad(Next(s, events[0]), events[1..], t);
    }
  }

  /**
   * In every run that has not failed and in which the stream was not busy when the dial ended with
   * bytes left over: the request header carries the first 2048 bytes of the first write, and the
   * stream carries the rest of it, if any, and then each later write that completed, one message
   * each.
   */
  lemma HeaderAndMessages(events: seq<Event>, t: System)
    requires Run(START, events, t) && !t.failed && !t.stalled
    ensures Delivered(t, events)
  {
    assert [] + events == events;
    RunDelivers([], START, events, t);
  }

  predicate NoFault(events: seq<Event>) {
    forall k :: 0 <= k < |events| ==> !events[k].dial.DialFails? && !events[k].ws.Refuses?
  }

  lemma {:induction false} NoFaultFrom(before: seq<Event>, s: System, events: seq<Event>, t: System)
    requires Tracked(s, before) && !s.failed && Run(s, events, t) && NoFault(events)
    ensures !t.failed
    decreases |events|
  {
    if events != [] {
      assert !events[0].dial.DialFails? && !events[0].ws.Refuses?;
      TrackStep(s, before, events[0]);
      NoFaultFrom(before + [events[0]], Next(s, events[0]), events[1..], t);
    }
  }

  /** A run in which no dial fails and the stream refuses nothing has not failed. */
  lemma NoFaultNoFailure(events: seq<Event>, t: System)
    requires Run(START, events, t) && NoFault(events)
    ensures !t.failed
  {
    NoFaultFrom([], START, events, t);
  }

  /** The client's header value, and what the server takes early data to be from a header value. */
  function HeaderValue(c: Early): Option<seq<byte>> {
    match c.header
    case None => None
    case Some(data) => Some(Base64.Encode(data))
  }

  function ServerEarlyData(h: Option<seq<byte>>): Option<seq<byte>> {
    match h
    case None => None
    case Some(value) =>
      if |value| > MAX_EARLY_DATA_LEN_BASE64 || value == [] then None else Base64.Decode(value)
  }

  /** A header of the most bytes the client puts there is short enough for the server, and is read back. */
  lemma HeaderFits(data: seq<byte>)
    requires |data| <= MAX_EARLY_DATA_LEN
    ensures |Base64.Encode(data)| <= MAX_EARLY_DATA_LEN_BASE64
    ensures ServerEarlyData(Some(Base64.Encode(data))) == if data == [] then None else Some(data)
  {
    Base64.Length(data);
    Base64.RoundTrip(data);
  }

  /** The server takes the early data of any client up to 2049 bytes, one more than this one sends. */
  lemma ServerTakesExactly(data: seq<byte>)
    requires data != []
    ensures ServerEarlyData(Some(Base64.Encode(data))) == if |data| <= 2049 then Some(data) else None
    ensures ServerEarlyData(None) == None && ServerEarlyData(Some([])) == None
  {
    Base64.Length(data);
    Base64.RoundTrip(data);
  }

  predicate ShortHeader(c: Early) {
    c.header.Some? ==> |c.header.value| <= MAX_EARLY_DATA_LEN
  }

  lemma {:induction false} HeaderStaysShort(s: System, events: seq<Event>, t: System)
    requires ShortHeader(s.c) && Run(s, events, t)
    ensures ShortHeader(t.c)
    decreases |events|
  {
    if events != [] {
      assert ShortHeader(Next(s, events[0]).c);
      HeaderStaysShort(Next(s, events[0]), events[1..], t);
    }
  }

  /**
   * The server's early data followed by what it reads is what the client was told was accepted,
   * for any sizes of its read buffers, if the reads are enough and no message is empty.
   */
  lemma ServerRecovers(events: seq<Event>, t: System, rooms: seq<nat>)
    requires Run(START, events, t) && !t.failed && !t.stalled && t.c.phase.Open?
    requires [] !in t.c.sent && 0 !in rooms && |rooms| >= |Flat(t.c.sent)|
    ensures var early := ServerEarlyData(HeaderValue(t.c));
            var got := ReadMany(Inbound(None, Arriving(t.c.sent)), rooms).1;
            (if early.Some? then early.value else []) + got == t.accepted
  {
    RunKeeps(START, events, t);
    HeaderStaysShort(START, events, t);
    HeaderFits(t.c.header.value);
    var s := Inbound(None, Arriving(t.c.sent));
    assert Unread(s.buf, t.c.sent) == Flat(t.c.sent);
    var rest := ReadsInOrder(s, t.c.sent, rooms);
  }

  function Times(buf: seq<byte>, n: nat): seq<byte> {
    if n == 0 then [] else Times(buf, n - 1) + buf
  }

  /** The dial ends with the stream busy, and `n` retries find it busy too. */
  function Retried(buf: seq<byte>, n: nat): System {
    if n == 0 then Next(START, Write(buf, DialDone, Busy)) else Next(Retried(buf, n - 1), Write(buf, DialDone, Busy))
  }

  lemma {:induction false} RetriedState(buf: seq<byte>, n: nat)
    requires |buf| > MAX_EARLY_DATA_LEN
    ensures var s, h := Retried(buf, n), buf[..MAX_EARLY_DATA_LEN];
            && s.c.phase.Open? && s.c.sent == [] && s.c.header == Some(h)
            && s.c.left.Some? && h + s.c.left.value == Times(buf, n + 1)
            && s.pending == Some(buf) && s.stalled && !s.failed && s.accepted == []
  {
    if n > 0 {
      RetriedState(buf, n - 1);
      var h, left := buf[..MAX_EARLY_DATA_LEN], Retried(buf, n - 1).c.left.value;
      assert h + (left + buf) == h + left + buf;
    } else {
      assert Times(buf, 1) == [] + buf;
    }
  }

  /**
   * A stream busy at that moment, and at any number of retries, and then ready: the whole first
   * write goes out once for the dial and once more for every retry, and is reported once.
   */
  lemma BusyStreamRepeats(buf: seq<byte>, n: nat)
    requires |buf| > MAX_EARLY_DATA_LEN
    ensures var s := Next(Retried(buf, n), Write(buf, DialDone, Accepts));
            !s.failed && s.stalled && Transmitted(s.c) == Times(buf, n + 2) && s.accepted == buf
  {
    RetriedState(buf, n);
    LastRetry(Retried(buf, n), buf);
  }

  lemma LastRetry(s: System, buf: seq<byte>)
    requires s.c.phase.Open? && s.c.left.Some? && s.c.sent == [] && s.c.header.Some? && s.accepted == [] && !s.failed
    ensures var t := Next(s, Write(buf, DialDone, Accepts));
            && t.stalled == s.stalled && !t.failed && t.accepted == buf
            && Transmitted(t.c) == s.c.header.value + s.c.left.value + buf
  {
    var data := s.c.left.value + buf;
    SentGrows(s.c, data);
    assert s.c.header.value + data == s.c.header.value + s.c.left.value + buf;
    assert [] + buf[..|buf|] == buf;
  }

  /**
   * After a failed dial every later write panics. After a write that the stream refused nothing is
   * left over, and a later write that it accepts is sent alone.
   */
  lemma AfterFailure(events: seq<Event>, s: System, e: Event, buf: seq<byte>, dial: DialPoll, ws: Ready)
    requires Run(START, events, s) && !s.failed && Enabled(s, e)
    requires Judged(e, Opened(events), |(events + [e])[0].buf|) == Breaks
    ensures var c := Next(s, e).c;
            if Opened(events) || e.dial.DialDone? then
              c.sent == s.c.sent && PollEarly(c, buf, dial, Accepts) == (c.(sent := c.sent + [buf]), Accepted(|buf|))
            else PollEarly(c, buf, dial, ws) == (c, Panicked)
  {
    assert [] + events == events;
    RunIsTracked([], START, events, s);
    TrackStep(s, events, e);
    assert [] + buf == buf;
  }
}
