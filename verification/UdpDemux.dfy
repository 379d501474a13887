/** One UDP port shared by many sources: a connection for each source, found through a map. */
module UdpDemux {
  import opened Bytes

  type Source = nat
  type Datagram = seq<byte>

  const QUEUE_CAP: nat := 100

  /** The reader of a connection; `queue` is its channel, `senderAlive` until the map entry is dropped. */
  datatype Reader = Reader(lastBuf: Option<Datagram>, inBuf: bool, queue: seq<Datagram>, senderAlive: bool)

  /** A read reports `n` bytes; `data` is what it put into the caller buffer. */
  datatype ReadPoll = ReadPending | ConnectionAborted | Got(n: nat, data: Datagram)

  /** One `poll_read_addr` with a caller buffer of length `room`. */
  function Poll(r: Reader, room: nat): (Reader, ReadPoll) {
    if r.inBuf && r.lastBuf.Some? then FromBuf(r, r.lastBuf.value, room)
    else
      var q := r.(inBuf := false);
      if r.queue == [] then (q, if r.senderAlive then ReadPending else ConnectionAborted)
      else FromBuf(q.(queue := r.queue[1..], inBuf := true), r.queue[0], room)
  }

  /** Copies what fits of `b` and keeps the rest, but reports the length of all of `b`. */
  function FromBuf(r: Reader, b: Datagram, room: nat): (Reader, ReadPoll) {
    var m := Min(|b|, room);
    var rest := b[m..];
    (if rest == [] then r.(lastBuf := None, inBuf := false) else r.(lastBuf := Some(rest)), Got(|b|, b[..m]))
  }

  /** What the reader has yet to return: its buffered datagram, then its queue. */
  function Waiting(r: Reader): seq<Datagram> {
    (if r.lastBuf.Some? then [r.lastBuf.value] else []) + r.queue
  }

  class UdpReader {
    var lastBuf: Option<Datagram>
    var inBuf: bool
    var rx: seq<Datagram>
    var senderAlive: bool

    constructor (firstBuf: Datagram)
      ensures State() == Opened(firstBuf)
    {
      lastBuf, inBuf, rx, senderAlive := Some(firstBuf), true, [], true;
    }

    function State(): Reader
      reads this
    {
      Reader(lastBuf, inBuf, rx, senderAlive)
    }

    method PollReadAddr(room: nat) returns (p: ReadPoll)
      requires lastBuf.Some? ==> inBuf
      modifies this
      ensures (State(), p) == Poll(old(State()), room)
      ensures lastBuf.Some? ==> inBuf
    {
      while true
        invariant Poll(State(), room) == Poll(old(State()), room)
        invariant lastBuf.Some? ==> inBuf
        decreases |rx|, inBuf
      {
        if inBuf {
          if lastBuf.Some? {
            var b := lastBuf.value;
            lastBuf := None;
            var rLen := |b|;
            var m := Min(rLen, room);
            p := Got(rLen, b[..m]);
            b := b[m..];
            if b == [] {
              inBuf := false;
            } else {
              lastBuf := Some(b);
            }
            return;
          } else {
            inBuf := false;
          }
        } else {
          if rx == [] {
            return if senderAlive then ReadPending else ConnectionAborted;
          }
          lastBuf, rx := Some(rx[0]), rx[1..];
          inBuf := true;
        }
      }
    }
  }

  /** The reader of a connection opened by its first datagram. */
  function Opened(first: Datagram): Reader {
    Reader(Some(first), true, [], true)
  }

  /** A connection, with what its reader has returned so far. */
  datatype Conn = Conn(src: Source, reader: Reader, returned: seq<Datagram>)

  /**
   * `entries` maps a source to its connection; `log` lists every datagram handed on, with the
   * connection it went to. While `waiting` holds a datagram the receive loop waits, with the map
   * locked, for room in the full queue of its source.
   */
  datatype System = System(
    entries: map<Source, nat>,
    conns: seq<Conn>,
    log: seq<(Source, Datagram, nat)>,
    waiting: Option<(Source, Datagram)>)

  const START: System := System(map[], [], [], None)

  datatype Event =
    | Recv(src: Source, data: Datagram)
    | Resume             // the queue has room again for the datagram in hand
    | Read(conn: nat, room: nat)
    | Close(conn: nat)   // the connection's writer removes the entry of its source

  /** The queue of this source's connection is full. */
  predicate Full(s: System, src: Source) {
    src in s.entries && s.entries[src] < |s.conns| && |s.conns[s.entries[src]].reader.queue| >= QUEUE_CAP
  }

  /** Receiving and closing need the map; a caller buffer is no shorter than what waits for it. */
  predicate Enabled(s: System, e: Event) {
    match e
    case Recv(_, _) => s.waiting == None
    case Resume => s.waiting.Some? && !Full(s, s.waiting.value.0)
    case Read(c, room) => c < |s.conns| && RoomEnough(s.conns[c].reader, room)
    case Close(c) => c < |s.conns| && s.waiting == None
  }

  predicate RoomEnough(r: Reader, room: nat) {
    Waiting(r) != [] ==> room >= |Waiting(r)[0]|
  }

  function WithReader(s: System, c: nat, r: Reader): System
    requires c < |s.conns|
  {
    s.(conns := s.conns[c := s.conns[c].(reader := r)])
  }

  function AfterRead(n: Conn, room: nat): Conn {
    var (r, p) := Poll(n.reader, room);
    n.(reader := r, returned := if p.Got? then n.returned + [p.data] else n.returned)
  }

  /** Hands a datagram to the connection of its source, which may be a new one. */
  function HandOn(s: System, src: Source, data: Datagram): System {
    if src in s.entries && s.entries[src] < |s.conns| then
      var c := s.entries[src];
      var r := s.conns[c].reader;
      WithReader(s, c, r.(queue := r.queue + [data])).(log := s.log + [(src, data, c)])
    else
      var c := |s.conns|;
      s.(entries := s.entries[src := c], conns := s.conns + [Conn(src, Opened(data), [])],
         log := s.log + [(src, data, c)])
  }

  function Next(s: System, e: Event): System
    requires Enabled(s, e)
  {
    match e
    case Recv(src, data) => if Full(s, src) then s.(waiting := Some((src, data))) else HandOn(s, src, data)
    case Resume => HandOn(s, s.waiting.value.0, s.waiting.value.1).(waiting := None)
    case Read(c, room) =>
      s.(conns := s.conns[c := AfterRead(s.conns[c], room)])
    case Close(c) =>
      var src := s.conns[c].src;
      if src in s.entries && s.entries[src] < |s.conns| then
        var d := s.entries[src];
        WithReader(s, d, s.conns[d].reader.(senderAlive := false)).(entries := s.entries - {src})
      else s
  }

  predicate Run(s: System, events: seq<Event>, t: System)
    decreases |events|
  {
    if events == [] then s == t
    else Enabled(s, events[0]) && Run(Next(s, events[0]), events[1..], t)
  }

  /** The logged datagrams that went to connection `c`, in order. */
  function SentTo(log: seq<(Source, Datagram, nat)>, c: nat): seq<Datagram> {
    if log == [] then []
    else
      var l := log[|log| - 1];
      SentTo(log[..|log| - 1], c) + if l.2 == c then [l.1] else []
  }

  /** The logged datagrams of source `src`, in order. */
  function ReceivedFrom(log: seq<(Source, Datagram, nat)>, src: Source): seq<Datagram> {
    if log == [] then []
    else
      var l := log[|log| - 1];
      ReceivedFrom(log[..|log| - 1], src) + if l.0 == src then [l.1] else []
  }

  predicate ConnOk(s: System, c: nat)
    requires c < |s.conns|
  {
    var n := s.conns[c];
    && (n.reader.lastBuf.Some? ==> n.reader.inBuf)
    && n.returned + Waiting(n.reader) == SentTo(s.log, c)
    && (n.reader.senderAlive <==> n.src in s.entries && s.entries[n.src] == c)
  }

  /** A source's entry leads to its newest connection. */
  predicate EntriesOk(s: System) {
    forall src | src in s.entries ::
      && s.entries[src] < |s.conns| && s.conns[s.entries[src]].src == src
      && forall d :: s.entries[src] < d < |s.conns| ==> s.conns[d].src != src
  }

  predicate LogOk(s: System) {
    forall k :: 0 <= k < |s.log| ==> s.log[k].2 < |s.conns| && s.conns[s.log[k].2].src == s.log[k].0
  }

  predicate Inv(s: System) {
    EntriesOk(s) && LogOk(s) && forall c :: 0 <= c < |s.conns| ==> ConnOk(s, c)
  }

  lemma LogStep(log: seq<(Source, Datagram, nat)>, l: (Source, Datagram, nat), c: nat, src: Source)
    ensures SentTo(log + [l], c) == SentTo(log, c) + if l.2 == c then [l.1] else []
    ensures ReceivedFrom(log + [l], src) == ReceivedFrom(log, src) + if l.0 == src then [l.1] else []
  {
    assert (log + [l])[..|log|] == log;
  }

  lemma {:induction false} NothingSentTo(log: seq<(Source, Datagram, nat)>, c: nat)
    requires forall k :: 0 <= k < |log| ==> log[k].2 != c
    ensures SentTo(log, c) == []
  {
    if log != [] {
      NothingSentTo(log[..|log| - 1], c);
    }
  }

  lemma HandOldKeeps(s: System, src: Source, data: Datagram, c: nat)
    requires Inv(s) && src in s.entries && c < |s.conns|
    ensures ConnOk(HandOn(s, src, data), c)
  {
    assert ConnOk(s, c);
    LogStep(s.log, (src, data, s.entries[src]), c, src);
    if s.entries[src] == c {
      var r := s.conns[c].reader;
      assert Waiting(r.(queue := r.queue + [data])) == Waiting(r) + [data];
    }
  }

  lemma HandNewKeeps(s: System, src: Source, data: Datagram, c: nat)
    requires Inv(s) && src !in s.entries && c <= |s.conns|
    ensures ConnOk(HandOn(s, src, data), c)
  {
    LogStep(s.log, (src, data, |s.conns|), c, src);
    if c < |s.conns| {
      assert ConnOk(s, c);
    } else {
      NothingSentTo(s.log, c);
    }
  }

  lemma HandKeeps(s: System, src: Source, data: Datagram)
    requires Inv(s)
    ensures Inv(HandOn(s, src, data))
  {
    var t := HandOn(s, src, data);
    forall c | 0 <= c < |t.conns| ensures ConnOk(t, c) {
      if src in s.entries {
        HandOldKeeps(s, src, data, c);
      } else {
        HandNewKeeps(s, src, data, c);
      }
    }
  }

  /** Whether the receive loop has a datagram in hand does not matter to the connections. */
  lemma WaitingIsApart(s: System, w: Option<(Source, Datagram)>, of: Source)
    ensures Inv(s) <==> Inv(s.(waiting := w))
    ensures AllHeld(s, of) <==> AllHeld(s.(waiting := w), of)
  {
    var t := s.(waiting := w);
    assert forall c :: 0 <= c < |s.conns| ==> (ConnOk(s, c) <==> ConnOk(t, c));
    HeldUnchanged(s, t, of, |s.conns|);
  }

  /** A read returns the datagram that waits first, whole. */
  lemma PollTakesFirst(r: Reader, room: nat)
    requires (r.lastBuf.Some? ==> r.inBuf) && RoomEnough(r, room)
    ensures var (q, p) := Poll(r, room);
            && (q.lastBuf.Some? ==> q.inBuf) && q.senderAlive == r.senderAlive
            && (Waiting(r) == [] ==> !p.Got? && Waiting(q) == [])
            && (Waiting(r) != [] ==> p == Got(|Waiting(r)[0]|, Waiting(r)[0]) && Waiting(q) == Waiting(r)[1..])
  {
    var w := Waiting(r);
    if w != [] {
      assert w[0][..|w[0]|] == w[0];
    }
  }

  lemma FirstMovesOver(returned: seq<Datagram>, w: seq<Datagram>)
    requires w != []
    ensures returned + [w[0]] + w[1..] == returned + w
  {
    assert [w[0]] + w[1..] == w;
  }

  /** What has been returned and what waits are one stream, which a read does not change. */
  lemma ReadConserves(n: Conn, room: nat)
    requires (n.reader.lastBuf.Some? ==> n.reader.inBuf) && RoomEnough(n.reader, room)
    ensures var m := AfterRead(n, room);
            && m.returned + Waiting(m.reader) == n.returned + Waiting(n.reader)
            && (m.reader.lastBuf.Some? ==> m.reader.inBuf)
            && m.reader.senderAlive == n.reader.senderAlive && m.src == n.src
  {
    PollTakesFirst(n.reader, room);
    var w := Waiting(n.reader);
    if w != [] {
      FirstMovesOver(n.returned, w);
    }
  }

  lemma ReadKeeps(s: System, c: nat, room: nat)
    requires Inv(s) && Enabled(s, Read(c, room))
    ensures Inv(Next(s, Read(c, room)))
  {
    var t := Next(s, Read(c, room));
    forall d | 0 <= d < |t.conns| ensures ConnOk(t, d) {
      assert ConnOk(s, d);
      if d == c {
        ReadConserves(s.conns[c], room);
      }
    }
  }

  lemma CloseKeeps(s: System, c: nat)
    requires Inv(s) && Enabled(s, Close(c))
    ensures Inv(Next(s, Close(c)))
  {
    var t := Next(s, Close(c));
    forall d | 0 <= d < |t.conns| ensures ConnOk(t, d) {
      assert ConnOk(s, d);
    }
  }

  /** What connections below `k` of source `src` have returned or still hold, oldest connection first. */
  function HeldBy(s: System, src: Source, k: nat): seq<Datagram>
    requires k <= |s.conns|
  {
    if k == 0 then []
    else
      var n := s.conns[k - 1];
      HeldBy(s, src, k - 1) + if n.src == src then n.returned + Waiting(n.reader) else []
  }

  predicate AllHeld(s: System, src: Source) {
    HeldBy(s, src, |s.conns|) == ReceivedFrom(s.log, src)
  }

  lemma {:induction false} HeldUnchanged(s: System, t: System, src: Source, k: nat)
    requires k <= |s.conns| && k <= |t.conns|
    requires forall d :: 0 <= d < k ==> t.conns[d].src == s.conns[d].src
    requires forall d :: 0 <= d < k && s.conns[d].src == src ==>
      t.conns[d].returned + Waiting(t.conns[d].reader) == s.conns[d].returned + Waiting(s.conns[d].reader)
    ensures HeldBy(t, src, k) == HeldBy(s, src, k)
  {
    if k > 0 {
      HeldUnchanged(s, t, src, k - 1);
    }
  }

  lemma {:induction false} HeldByNone(s: System, src: Source, c: nat, k: nat)
    requires c <= k <= |s.conns|
    requires forall d :: c <= d < k ==> s.conns[d].src != src
    ensures HeldBy(s, src, k) == HeldBy(s, src, c)
    decreases k
  {
    if c < k {
      HeldByNone(s, src, c, k - 1);
    }
  }

  lemma JoinsLast(before: seq<Datagram>, returned: seq<Datagram>, w: seq<Datagram>, x: seq<Datagram>)
    ensures before + (returned + (w + x)) == before + (returned + w) + x
  {
  }

  /** The newest connection of a source, `c`, holds last. */
  lemma HeldByNewest(s: System, src: Source, c: nat)
    requires c < |s.conns| && s.conns[c].src == src
    requires forall d :: c < d < |s.conns| ==> s.conns[d].src != src
    ensures (HeldBy(s, src, |s.conns|)
          == HeldBy(s, src, c) + (s.conns[c].returned + Waiting(s.conns[c].reader)))
  {
    HeldByNone(s, src, c + 1, |s.conns|);
  }

  /** The datagram joins the queue of its source's newest connection, so it is held last. */
  lemma HandOldAdds(s: System, src: Source, data: Datagram)
    requires Inv(s) && src in s.entries
    ensures var t := HandOn(s, src, data);
            |t.conns| == |s.conns| && HeldBy(t, src, |t.conns|) == HeldBy(s, src, |s.conns|) + [data]
  {
    var t, c := HandOn(s, src, data), s.entries[src];
    HeldByNewest(s, src, c);
    HeldByNewest(t, src, c);
    HeldUnchanged(s, t, src, c);
    assert Waiting(t.conns[c].reader) == Waiting(s.conns[c].reader) + [data];
    JoinsLast(HeldBy(s, src, c), s.conns[c].returned, Waiting(s.conns[c].reader), [data]);
  }

  lemma HandNewAdds(s: System, src: Source, data: Datagram, of: Source)
    requires Inv(s) && src !in s.entries
    ensures var t := HandOn(s, src, data);
            && |t.conns| == |s.conns| + 1
            && HeldBy(t, of, |t.conns|) == HeldBy(s, of, |s.conns|) + if src == of then [data] else []
  {
    HeldUnchanged(s, HandOn(s, src, data), of, |s.conns|);
  }

  lemma HandHolds(s: System, src: Source, data: Datagram, of: Source)
    requires Inv(s) && AllHeld(s, of)
    ensures AllHeld(HandOn(s, src, data), of)
  {
    var t := HandOn(s, src, data);
    LogStep(s.log, t.log[|s.log|], 0, of);
    if src !in s.entries {
      HandNewAdds(s, src, data, of);
    } else if src == of {
      HandOldAdds(s, src, data);
    } else {
      HeldUnchanged(s, t, of, |s.conns|);
    }
  }

  lemma StepKeeps(s: System, e: Event, of: Source)
    requires Inv(s) && AllHeld(s, of) && Enabled(s, e)
    ensures Inv(Next(s, e)) && AllHeld(Next(s, e), of)
  {
    StepKeepsInv(s, e);
    match e {
      case Recv(src, data) =>
        HandHolds(s, src, data, of);
        WaitingIsApart(s, Some((src, data)), of);
      case Resume =>
        var (src, data) := s.waiting.value;
        HandHolds(s, src, data, of);
        WaitingIsApart(HandOn(s, src, data), None, of);
      case Read(c, room) =>
        assert ConnOk(s, c);
        ReadConserves(s.conns[c], room);
        HeldUnchanged(s, Next(s, e), of, |s.conns|);
      case Close(c) =>
        HeldUnchanged(s, Next(s, e), of, |s.conns|);
    }
  }

  lemma StepKeepsInv(s: System, e: Event)
    requires Inv(s) && Enabled(s, e)
    ensures Inv(Next(s, e))
  {
    match e {
      case Recv(src, data) =>
        HandKeeps(s, src, data);
        WaitingIsApart(s, Some((src, data)), src);
      case Resume =>
        var (src, data) := s.waiting.value;
        HandKeeps(s, src, data);
        WaitingIsApart(HandOn(s, src, data), None, src);
      case Read(c, room) => ReadKeeps(s, c, room);
      case Close(c) => CloseKeeps(s, c);
    }
  }

  lemma {:induction false} RunKeeps(s: System, events: seq<Event>, t: System, of: Source)
    requires Inv(s) && AllHeld(s, of) && Run(s, events, t)
    ensures Inv(t) && AllHeld(t, of)
    decreases |events|
  {
    if events != [] {
      StepKeeps(s, events[0], of);
      RunKeeps(Next(s, events[0]), events[1..], t, of);
    }
  }

  /**
   * In every interleaving, a connection's reader has returned, and then still holds, exactly the
   * datagrams that went to it, in order and all from its source; and over all the connections a
   * source has had, that is everything received from the source, with nothing lost in between.
   */
  lemma Demultiplexes(events: seq<Event>, t: System, src: Source)
    requires Run(START, events, t)
    ensures forall c :: 0 <= c < |t.conns| ==> t.conns[c].returned + Waiting(t.conns[c].reader) == SentTo(t.log, c)
    ensures forall k :: 0 <= k < |t.log| ==> t.log[k].2 < |t.conns| && t.conns[t.log[k].2].src == t.log[k].0
    ensures HeldBy(t, src, |t.conns|) == ReceivedFrom(t.log, src)
  {
    RunKeeps(START, events, t, src);
    forall c | 0 <= c < |t.conns|
      ensures t.conns[c].returned + Waiting(t.conns[c].reader) == SentTo(t.log, c)
    {
      assert ConnOk(t, c);
    }
  }

  /**
   * A read reports as many bytes as it delivered exactly when the caller buffer holds the whole
   * datagram; with a shorter one it reports bytes it never wrote.
   */
  lemma ReportsTruthExactly(r: Reader, room: nat)
    requires (r.lastBuf.Some? ==> r.inBuf) && Waiting(r) != []
    ensures var p := Poll(r, room).1;
            p.Got? && (p.n == |p.data| <==> RoomEnough(r, room)) && |p.data| == Min(room, |Waiting(r)[0]|)
  {
  }

  /** What is received in a run, in order. */
  function Arrived(events: seq<Event>): seq<(Source, Datagram)> {
    if events == [] then []
    else Arrived(events[..|events| - 1]) + match events[|events| - 1] { case Recv(s, x) => [(s, x)] case _ => [] }
  }

  /** What was handed on, without the connection it went to. */
  function HandedOn(log: seq<(Source, Datagram, nat)>): (r: seq<(Source, Datagram)>)
    ensures |r| == |log|
  {
    seq(|log|, i requires 0 <= i < |log| => (log[i].0, log[i].1))
  }

  function InHand(s: System): seq<(Source, Datagram)> {
    if s.waiting.Some? then [s.waiting.value] else []
  }

  lemma StepLogs(s: System, e: Event)
    requires Enabled(s, e)
    ensures (HandedOn(Next(s, e).log) + InHand(Next(s, e))
          == HandedOn(s.log) + InHand(s) + match e { case Recv(src, x) => [(src, x)] case _ => [] })
  {
    match e {
      case Recv(src, x) => HandLogs(s, src, x);
      case Resume => HandLogs(s, s.waiting.value.0, s.waiting.value.1);
      case _ =>
    }
  }

  lemma HandLogs(s: System, src: Source, x: Datagram)
    ensures HandedOn(HandOn(s, src, x).log) == HandedOn(s.log) + [(src, x)] && HandOn(s, src, x).waiting == s.waiting
  {
  }

  lemma ArrivedSnoc(events: seq<Event>, e: Event)
    ensures Arrived(events + [e]) == Arrived(events) + match e { case Recv(src, x) => [(src, x)] case _ => [] }
  {
    assert (events + [e])[..|events|] == events;
  }

  lemma {:induction false} RunLogs(before: seq<Event>, s: System, events: seq<Event>, t: System)
    requires Run(s, events, t) && HandedOn(s.log) + InHand(s) == Arrived(before)
    ensures HandedOn(t.log) + InHand(t) == Arrived(before + events)
    decreases |events|
  {
    if events == [] {
      assert before + events == before;
    } else {
      StepLogs(s, events[0]);
      ArrivedSnoc(before, events[0]);
      assert before + [events[0]] + events[1..] == before + events;
      RunLogs(before + [events[0]], Next(s, events[0]), events[1..], t);
    }
  }

  /**
   * In every interleaving the datagrams handed on, and then the one that the receive loop holds
   * while it waits, are all those received, each once and in order.
   */
  lemma AllReceivedIsHandedOn(events: seq<Event>, t: System)
    requires Run(START, events, t)
    ensures HandedOn(t.log) + InHand(t) == Arrived(events)
  {
    assert [] + events == events;
    RunLogs([], START, events, t);
  }

  predicate OthersUnchanged(s: System, t: System, c: nat) {
    |t.conns| == |s.conns| && forall d :: 0 <= d < |s.conns| && d != c ==> t.conns[d] == s.conns[d]
  }

  /**
   * Closing a connection leaves all others as they were if and only if the entry of its source, when
   * there is one, leads to that connection.
   */
  lemma CloseHarmsExactly(s: System, c: nat)
    requires Inv(s) && Enabled(s, Close(c))
    ensures var src := s.conns[c].src;
            OthersUnchanged(s, Next(s, Close(c)), c) <==> (src in s.entries ==> s.entries[src] == c)
  {
    var src, t := s.conns[c].src, Next(s, Close(c));
    if src in s.entries {
      var d := s.entries[src];
      assert ConnOk(s, d) && !t.conns[d].reader.senderAlive;
    }
  }

  /** No writer is closed twice, nor at all when its connection is in `closed`. */
  predicate ClosedOnce(events: seq<Event>, closed: set<nat>) {
    events == []
    || (match events[0]
        case Close(c) => c !in closed && ClosedOnce(events[1..], closed + {c})
        case _ => ClosedOnce(events[1..], closed))
  }

  /** Every close on the way leaves the other connections as they were. */
  predicate ClosesHarmlessly(s: System, events: seq<Event>)
    decreases |events|
  {
    events == []
    || (Enabled(s, events[0])
        && (events[0].Close? ==> OthersUnchanged(s, Next(s, events[0]), events[0].conn))
        && ClosesHarmlessly(Next(s, events[0]), events[1..]))
  }

  predicate AliveUnless(s: System, closed: set<nat>) {
    forall c :: 0 <= c < |s.conns| && c !in closed ==> s.conns[c].reader.senderAlive
  }

  lemma CloseOnceStep(s: System, e: Event, closed: set<nat>)
    requires Inv(s) && AliveUnless(s, closed) && Enabled(s, e) && (e.Close? ==> e.conn !in closed)
    ensures AliveUnless(Next(s, e), if e.Close? then closed + {e.conn} else closed)
    ensures e.Close? ==> OthersUnchanged(s, Next(s, e), e.conn)
  {
    match e {
      case Close(c) =>
        assert ConnOk(s, c);
        CloseHarmsExactly(s, c);
      case Read(c, room) =>
        assert ConnOk(s, c);
        ReadConserves(s.conns[c], room);
      case _ =>
    }
  }

  lemma {:induction false} ClosedOnceIsHarmless(s: System, events: seq<Event>, t: System, closed: set<nat>)
    requires Inv(s) && AliveUnless(s, closed) && Run(s, events, t) && ClosedOnce(events, closed)
    ensures ClosesHarmlessly(s, events)
    decreases |events|
  {
    if events != [] {
      var e := events[0];
      CloseOnceStep(s, e, closed);
      StepKeepsInv(s, e);
      ClosedOnceIsHarmless(Next(s, e), events[1..], t, if e.Close? then closed + {e.conn} else closed);
    }
  }

  /** While each writer is closed at most once, no close touches another connection, in any interleaving. */
  lemma ClosingOnceIsSafe(events: seq<Event>, t: System)
    requires Run(START, events, t) && ClosedOnce(events, {})
    ensures ClosesHarmlessly(START, events)
  {
    ClosedOnceIsHarmless(START, events, t, {});
  }

  /**
   * A read hands over the front of the datagram that waits first, as far as the caller buffer goes,
   * and keeps the rest of it for the next read, before the datagrams behind it.
   */
  lemma ReadTakesFront(r: Reader, room: nat)
    requires (r.lastBuf.Some? ==> r.inBuf) && Waiting(r) != []
    ensures var (q, p) := Poll(r, room);
            var first, n := Waiting(r)[0], Min(room, |Waiting(r)[0]|);
            && p == Got(|first|, first[..n])
            && (Waiting(q) == (if n < |first| then [first[n..]] else []) + Waiting(r)[1..])
            && (q.lastBuf.Some? ==> q.inBuf) && q.senderAlive == r.senderAlive
  {
    var w := Waiting(r);
    assert w[0][..|w[0]|] == w[0];
    assert r.lastBuf.Some? ==> w[1..] == r.queue;
    assert r.lastBuf.None? ==> w == r.queue;
  }

  /**
   * With nothing waiting, a read waits on as long as the reader's entry stands and reports the end
   * once it is gone; otherwise it returns bytes.
   */
  lemma EndsExactly(r: Reader, room: nat)
    requires r.lastBuf.Some? ==> r.inBuf
    ensures Poll(r, room).1.ReadPending? <==> Waiting(r) == [] && r.senderAlive
    ensures Poll(r, room).1.ConnectionAborted? <==> Waiting(r) == [] && !r.senderAlive
  {
  }

  /**
   * In every reachable state a connection's reader is told that the connection ended if and only
   * if all that was sent its way has been returned and its source's entry no longer leads to it;
   * while the entry does, it is left waiting.
   */
  lemma ReaderEndsExactly(events: seq<Event>, t: System, c: nat, room: nat)
    requires Run(START, events, t) && c < |t.conns|
    ensures var n := t.conns[c];
            var ours := n.src in t.entries && t.entries[n.src] == c;
            && (Poll(n.reader, room).1.ConnectionAborted? <==> n.returned == SentTo(t.log, c) && !ours)
            && (Poll(n.reader, room).1.ReadPending? <==> n.returned == SentTo(t.log, c) && ours)
  {
    RunKeeps(START, events, t, t.conns[c].src);
    assert ConnOk(t, c);
    EndsExactly(t.conns[c].reader, room);
    var n := t.conns[c];
    assert |n.returned + Waiting(n.reader)| == |SentTo(t.log, c)|;
    assert Waiting(n.reader) == [] ==> n.returned + Waiting(n.reader) == n.returned;
  }

  /** A second close of an old connection cuts off the newer connection of the same source. */
  lemma LateCloseCutsNewer(src: Source, x: Datagram, y: Datagram)
    ensures var events := [Recv(src, x), Close(0), Recv(src, y), Close(0)];
            exists t :: Run(START, events, t) && |t.conns| == 2 && !t.conns[1].reader.senderAlive && t.entries == map[]
  {
    var s1 := Next(START, Recv(src, x));
    var s2 := Next(s1, Close(0));
    var s3 := Next(s2, Recv(src, y));
    var s4 := Next(s3, Close(0));
    RunFour(START, Recv(src, x), Close(0), Recv(src, y), Close(0), s1, s2, s3, s4);
  }

  /** No queue ever holds more than the channel's capacity. */
  predicate QueuesFit(s: System) {
    forall c :: 0 <= c < |s.conns| ==> |s.conns[c].reader.queue| <= QUEUE_CAP
  }

  lemma {:induction false} QueuesStayWithin(s: System, events: seq<Event>, t: System)
    requires QueuesFit(s) && Run(s, events, t)
    ensures QueuesFit(t)
    decreases |events|
  {
    if events != [] {
      QueuesStayWithin(Next(s, events[0]), events[1..], t);
    }
  }

  /** While the receive loop waits, the source it waits for has a connection. */
  predicate WaitsForEntry(s: System) {
    s.waiting.Some? ==> s.waiting.value.0 in s.entries
  }

  lemma {:induction false} AlwaysWaitsForEntry(s: System, events: seq<Event>, t: System)
    requires WaitsForEntry(s) && Run(s, events, t)
    ensures WaitsForEntry(t)
    decreases |events|
  {
    if events != [] {
      AlwaysWaitsForEntry(Next(s, events[0]), events[1..], t);
    }
  }

  /** How many of the events are reads of connection `c`. */
  function Reads(events: seq<Event>, c: nat): nat {
    if events == [] then 0
    else (if events[0].Read? && events[0].conn == c then 1 else 0) + Reads(events[1..], c)
  }

  /** How many reads it takes to make room in the queue: the first returns the buffered datagram, if any. */
  function Needed(r: Reader): nat {
    if |r.queue| < QUEUE_CAP then 0 else if r.lastBuf.Some? then 2 else 1
  }

  /** The states of a waiting receive loop, `c` being the connection it waits for. */
  predicate Stalled(s: System, c: nat) {
    && Inv(s) && QueuesFit(s)
    && s.waiting.Some? && s.waiting.value.0 in s.entries && s.entries[s.waiting.value.0] == c
  }

  lemma StallStep(s: System, c: nat, e: Event)
    requires Stalled(s, c) && Enabled(s, e) && !e.Resume?
    ensures e.Read? && Stalled(Next(s, e), c) && Next(s, e) == s.(conns := Next(s, e).conns)
    ensures (Needed(Next(s, e).conns[c].reader)
          == if e.conn == c && Needed(s.conns[c].reader) > 0 then Needed(s.conns[c].reader) - 1
             else Needed(s.conns[c].reader))
  {
    StepKeepsInv(s, e);
    assert ConnOk(s, e.conn);
    ReadFrees(s.conns[e.conn].reader, e.room);
  }

  lemma ReadFrees(r: Reader, room: nat)
    requires (r.lastBuf.Some? ==> r.inBuf) && RoomEnough(r, room) && |r.queue| <= QUEUE_CAP
    ensures var q := Poll(r, room).0;
            |q.queue| <= |r.queue| && Needed(q) == if Needed(r) > 0 then Needed(r) - 1 else 0
  {
    PollTakesFirst(r, room);
  }

  lemma {:induction false} StallRun(s: System, c: nat, events: seq<Event>, t: System)
    requires Stalled(s, c) && Run(s, events, t) && Resume !in events
    ensures t == s.(conns := t.conns) && Stalled(t, c) && forall e :: e in events ==> e.Read?
    ensures Needed(t.conns[c].reader) == 0 <==> Reads(events, c) >= Needed(s.conns[c].reader)
    decreases |events|
  {
    if events != [] {
      var e := events[0];
      assert e in events && events == [e] + events[1..];
      StallStep(s, c, e);
      StallRun(Next(s, e), c, events[1..], t);
    }
  }

  /**
   * In every interleaving: while the receive loop waits for room in a full queue, nothing but reads
   * can happen, so no source is received from, no connection opened and no writer closed; and the
   * loop goes on if and only if the one connection it waits for has been read often enough: twice
   * if its reader held a datagram besides the full queue, otherwise once.
   */
  lemma StalledReaderBlocksAll(before: seq<Event>, s: System, events: seq<Event>, t: System)
    requires Run(START, before, s) && s.waiting.Some? && Run(s, events, t) && Resume !in events
    ensures t == s.(conns := t.conns) && forall e :: e in events ==> e.Read?
    ensures WaitsForEntry(s) && s.entries[s.waiting.value.0] < |s.conns|
    ensures var c := s.entries[s.waiting.value.0];
            Enabled(t, Resume) <==> Reads(events, c) >= Needed(s.conns[c].reader)
  {
    RunKeeps(START, before, s, s.waiting.value.0);
    QueuesStayWithin(START, before, s);
    AlwaysWaitsForEntry(START, before, s);
    StallRun(s, s.entries[s.waiting.value.0], events, t);
  }

  function Arrivals(src: Source, x: Datagram, n: nat): (events: seq<Event>)
    ensures |events| == n
  {
    seq(n, _ => Recv(src, x))
  }

  /** What `n` arrivals from one source lead to while nobody reads. */
  function Filled(src: Source, x: Datagram, n: nat): System {
    if n == 0 then START else HandOn(Filled(src, x, n - 1), src, x)
  }

  lemma {:induction false} RunSnoc(s: System, events: seq<Event>, t: System, e: Event)
    requires Run(s, events, t) && Enabled(t, e)
    ensures Run(s, events + [e], Next(t, e))
    decreases |events|
  {
    if events == [] {
      assert [e][1..] == [] && events + [e] == [e];
      assert Run(Next(t, e), [], Next(t, e));
    } else {
      assert (events + [e])[1..] == events[1..] + [e];
      RunSnoc(Next(s, events[0]), events[1..], t, e);
    }
  }

  lemma {:induction false} FillsUp(src: Source, x: Datagram, n: nat)
    requires n <= QUEUE_CAP + 1
    ensures Run(START, Arrivals(src, x, n), Filled(src, x, n))
    ensures var s := Filled(src, x, n);
            && s.waiting == None
            && (n == 0 ==> s == START)
            && (n > 0 ==> |s.conns| == 1 && s.entries == map[src := 0])
            && (n > 0 ==> s.conns[0].reader.lastBuf == Some(x) && |s.conns[0].reader.queue| == n - 1)
  {
    if n > 0 {
      FillsUp(src, x, n - 1);
      RunSnoc(START, Arrivals(src, x, n - 1), Filled(src, x, n - 1), Recv(src, x));
      assert Arrivals(src, x, n) == Arrivals(src, x, n - 1) + [Recv(src, x)];
    }
  }

  /** A run that gets there: 102 datagrams of one source that nobody reads; two reads are needed then. */
  lemma SilentReaderStalls(src: Source, x: Datagram)
    ensures var s := Filled(src, x, QUEUE_CAP + 1).(waiting := Some((src, x)));
            && Run(START, Arrivals(src, x, QUEUE_CAP + 2), s)
            && Full(s, src) && Needed(s.conns[s.entries[src]].reader) == 2
  {
    FillsUp(src, x, QUEUE_CAP + 1);
    RunSnoc(START, Arrivals(src, x, QUEUE_CAP + 1), Filled(src, x, QUEUE_CAP + 1), Recv(src, x));
    assert Arrivals(src, x, QUEUE_CAP + 2) == Arrivals(src, x, QUEUE_CAP + 1) + [Recv(src, x)];
  }

  lemma RunFour(s0: System, a: Event, b: Event, c: Event, d: Event, s1: System, s2: System, s3: System, s4: System)
    requires Enabled(s0, a) && s1 == Next(s0, a) && Enabled(s1, b) && s2 == Next(s1, b)
    requires Enabled(s2, c) && s3 == Next(s2, c) && Enabled(s3, d) && s4 == Next(s3, d)
    ensures Run(s0, [a, b, c, d], s4)
  {
    assert Run(s4, [], s4);
    assert Run(s3, [d], s4) by { assert [d][1..] == []; }
    assert Run(s2, [c, d], s4) by { assert [c, d][1..] == [d]; }
    assert Run(s1, [b, c, d], s4) by { assert [b, c, d][1..] == [c, d]; }
    assert [a, b, c, d][1..] == [b, c, d];
  }
}
