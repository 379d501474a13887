/** When a read of a gRPC stream returns zero bytes, which callers take for its end. */
module GrpcEmptyReads {
  import opened Bytes
  import opened Varint
  import opened GrpcFrame
  import opened GrpcStream
  import opened GrpcRun

  /** A poll pulls what it needs and then hands out bytes, or is left waiting. */
  lemma {:induction false} PollPulls(r: Reader, room: nat)
    ensures var q := Pulled(r);
            && (Poll(r, room)
             == if CanDeliver(q) then Deliver(q, room) else (q, if r.closed then Got([]) else ReadPending))
            && q.next == r.next && q.closed == r.closed
    decreases |r.chunks|
  {
    if !CanDeliver(r) && r.chunks != [] {
      PollPulls(r.(buf := r.buf + r.chunks[0], chunks := r.chunks[1..]), room);
    }
  }

  /** The bytes at the front of the buffer are a head with nothing of a payload behind it. */
  predicate BareHead(r: Reader) {
    && r.next == 0 && |r.buf| >= READ_HEAD_LEN
    && var p := Parse(r.buf[READ_HEAD_LEN..]);
       p.err == None && (p.value == 0 || p.rest == [])
  }

  /**
   * A read with room returns zero bytes if and only if, once the chunks it needs are pulled, it
   * reads a head with no byte of its payload behind it in the buffer, or finds the stream closed.
   */
  lemma EmptyReadExactly(r: Reader, room: nat)
    requires room > 0
    ensures Poll(r, room).1 == Got([]) <==> if CanDeliver(Pulled(r)) then BareHead(Pulled(r)) else r.closed
  {
    PollPulls(r, room);
    var q := Pulled(r);
    if CanDeliver(q) {
      assert q.next > 0 ==> |Take(q, room).1.data| > 0;
    }
  }

  predicate IsBorder(r: Reader, pos: int) {
    exists j :: 0 <= j <= |r.chunks| && BorderAt(r, j) == pos
  }

  /** Among the frames ahead, which begin at `off`, one is empty or has a border right behind its head. */
  predicate Doomed(r: Reader, ahead: seq<seq<byte>>, off: int)
    decreases |ahead|
  {
    && ahead != []
    && (ahead[0] == [] || IsBorder(r, off + |Head(|ahead[0]|)|) || Doomed(r, ahead[1..], off + |Frame(ahead[0])|))
  }

  /** The readers have the same borders behind `off`, those of the second counted from `d` on. */
  ghost predicate SameBorders(r: Reader, q: Reader, off: int, d: int) {
    forall pos: int :: pos > off ==> (IsBorder(r, pos) <==> IsBorder(q, pos - d))
  }

  lemma {:induction false} DoomedShift(r: Reader, q: Reader, ahead: seq<seq<byte>>, off: int, d: int)
    requires SameBorders(r, q, off, d)
    ensures Doomed(r, ahead, off) <==> Doomed(q, ahead, off - d)
    decreases |ahead|
  {
    if ahead != [] {
      var pos := off + |Head(|ahead[0]|)|;
      assert IsBorder(r, pos) <==> IsBorder(q, pos - d);
      DoomedShift(r, q, ahead[1..], off + |Frame(ahead[0])|, d);
    }
  }

  /** If border `j` of each reader differs by `d`, all do. */
  lemma BordersShift(r: Reader, q: Reader, off: int, d: int)
    requires |r.chunks| == |q.chunks|
    requires forall j :: 0 <= j <= |r.chunks| ==> BorderAt(q, j) == BorderAt(r, j) - d
    ensures SameBorders(r, q, off, d)
  {
    forall pos: int | pos > off ensures IsBorder(r, pos) <==> IsBorder(q, pos - d) {
      if IsBorder(r, pos) {
        var j :| 0 <= j <= |r.chunks| && BorderAt(r, j) == pos;
        assert BorderAt(q, j) == pos - d;
      }
      if IsBorder(q, pos - d) {
        var j :| 0 <= j <= |q.chunks| && BorderAt(q, j) == pos - d;
        assert BorderAt(r, j) == pos;
      }
    }
  }

  lemma PullBorder(r: Reader, j: nat)
    requires r.chunks != [] && j < |r.chunks|
    ensures BorderAt(r.(buf := r.buf + r.chunks[0], chunks := r.chunks[1..]), j) == BorderAt(r, j + 1)
  {
    var long := r.chunks[..j + 1];
    assert long[1..] == r.chunks[1..][..j];
  }

  /** Pulling a chunk forgets no border ahead. */
  lemma PullBorders(r: Reader)
    requires !CanDeliver(r) && r.chunks != []
    ensures SameBorders(r, r.(buf := r.buf + r.chunks[0], chunks := r.chunks[1..]), 0, 0)
  {
    var q := r.(buf := r.buf + r.chunks[0], chunks := r.chunks[1..]);
    forall pos: int | pos > 0 ensures IsBorder(r, pos) <==> IsBorder(q, pos - 0) {
      if IsBorder(r, pos) {
        var j :| 0 <= j <= |r.chunks| && BorderAt(r, j) == pos;
        assert r.chunks[..0] == [];
        PullBorder(r, j - 1);
      }
      if IsBorder(q, pos) {
        var j :| 0 <= j <= |q.chunks| && BorderAt(q, j) == pos;
        PullBorder(r, j);
      }
    }
  }

  lemma {:induction false} PulledKeeps(r: Reader, wire: seq<byte>, ahead: seq<seq<byte>>)
    requires Standing(r, wire, ahead)
    ensures Standing(Pulled(r), wire, ahead) && (Doomed(r, ahead, 0) <==> Doomed(Pulled(r), ahead, 0))
    decreases |r.chunks|
  {
    if !CanDeliver(r) && r.chunks != [] {
      var q := r.(buf := r.buf + r.chunks[0], chunks := r.chunks[1..]);
      PullKeeps(r, wire, ahead);
      PullBorders(r);
      DoomedShift(r, q, ahead, 0, 0);
      PulledKeeps(q, wire, ahead);
    }
  }

  lemma TakeDoomed(r: Reader, ahead: seq<seq<byte>>, room: nat)
    ensures Doomed(r, ahead, 0) <==> Doomed(Take(r, room).0, ahead, 0)
  {
    BordersShift(r, Take(r, room).0, 0, 0);
    DoomedShift(r, Take(r, room).0, ahead, 0, 0);
  }

  /** Reading a head moves on to the next frame; the frame left behind doomed the read if it was to be. */
  lemma HeadDoomed(r: Reader, q: Reader, ahead: seq<seq<byte>>)
    requires ahead != [] && r.next == 0 && |r.buf| >= |Head(|ahead[0]|)|
    requires q == r.(buf := r.buf[|Head(|ahead[0]|)|..], next := |ahead[0]|)
    ensures Doomed(r, ahead, 0) <==> ahead[0] == [] || q.buf == [] || Doomed(q, ahead[1..], 0)
  {
    var h := |Head(|ahead[0]|)|;
    var d := |Frame(ahead[0])|;
    BordersShift(r, q, d, d);
    DoomedShift(r, q, ahead[1..], d, d);
    assert r.chunks[..0] == [];
    assert BorderAt(r, 0) == |r.buf|;
    assert IsBorder(r, h) <==> |r.buf| == h;
  }

  /** A read returns zero bytes if it comes to such a frame, and leaves the others to later reads. */
  lemma ReadDoomed(r: Reader, wire: seq<byte>, ahead: seq<seq<byte>>, room: nat)
    requires Standing(r, wire, ahead) && room > 0 && !r.closed
    ensures HeadsRead(r) <= |ahead|
    ensures var (t, out) := Poll(r, room);
            && (Doomed(r, ahead, 0) <==> out == Got([]) || Doomed(t, ahead[HeadsRead(r)..], 0))
            && t.next <= (if HeadsRead(r) == 0 then r.next else |ahead[0]|)
  {
    PollPulls(r, room);
    PulledKeeps(r, wire, ahead);
    assert ahead[0..] == ahead;
    var q := Pulled(r);
    if CanDeliver(q) {
      if q.next == 0 {
        HeadBuffered(q, wire, ahead);
        var t := HeadKeeps(q, wire, ahead);
        SameHead(q, wire, ahead, t);
        HeadDoomed(q, t, ahead);
        TakeDoomed(t, ahead[1..], room);
      } else {
        TakeDoomed(q, ahead, room);
      }
    }
  }

  lemma SameHead(r: Reader, wire: seq<byte>, ahead: seq<seq<byte>>, t: Reader)
    requires Standing(r, wire, ahead) && r.next == 0 && r.buf != [] && |r.buf| >= READ_HEAD_LEN && ahead != []
    requires var p := Parse(r.buf[READ_HEAD_LEN..]); p.err == None && t == r.(buf := p.rest, next := p.value)
    ensures |r.buf| >= |Head(|ahead[0]|)| && t == r.(buf := r.buf[|Head(|ahead[0]|)|..], next := |ahead[0]|)
  {
    HeadBuffered(r, wire, ahead);
    assert ahead[0] in ahead;
    HeadRead(r.buf, |ahead[0]|);
  }

  /** No border lies behind what was sent. */
  lemma BorderBound(r: Reader, wire: seq<byte>, ahead: seq<seq<byte>>, pos: int)
    requires Standing(r, wire, ahead) && pos > |EncodeAll(ahead)|
    ensures !IsBorder(r, pos)
  {
    UnreadLength(r, wire, ahead);
    forall j | 0 <= j <= |r.chunks| ensures BorderAt(r, j) < pos {
      FlatAppend(r.chunks[..j], r.chunks[j..]);
      assert r.chunks[..j] + r.chunks[j..] == r.chunks;
    }
  }

  lemma {:induction false} DoomedSnoc(r: Reader, ahead: seq<seq<byte>>, p: seq<byte>, off: int)
    requires !IsBorder(r, off + |EncodeAll(ahead)| + |Head(|p|)|)
    ensures Doomed(r, ahead + [p], off) <==> Doomed(r, ahead, off) || p == []
    decreases |ahead|
  {
    var more := ahead + [p];
    if ahead == [] {
      assert more[1..] == [];
    } else {
      assert more[1..] == ahead[1..] + [p];
      DoomedSnoc(r, ahead[1..], p, off + |Frame(ahead[0])|);
    }
  }

  lemma WriteDoomed(r: Reader, wire: seq<byte>, ahead: seq<seq<byte>>, p: seq<byte>)
    requires Standing(r, wire, ahead)
    ensures Doomed(r, ahead + [p], 0) <==> Doomed(r, ahead, 0) || p == []
  {
    BorderBound(r, wire, ahead, |EncodeAll(ahead)| + |Head(|p|)|);
    DoomedSnoc(r, ahead, p, 0);
  }

  /** A position right behind the head of one of these frames. */
  predicate AtHeadEnd(payloads: seq<seq<byte>>, pos: int)
    decreases |payloads|
  {
    && payloads != []
    && (pos == |Head(|payloads[0]|)| || AtHeadEnd(payloads[1..], pos - |Frame(payloads[0])|))
  }

  /** The second reader has one border more, at `at`. */
  ghost predicate OneMore(r: Reader, q: Reader, at: int) {
    forall pos: int :: IsBorder(q, pos) <==> IsBorder(r, pos) || pos == at
  }

  lemma {:induction false} DoomedAdd(r: Reader, q: Reader, ahead: seq<seq<byte>>, off: int, at: int)
    requires OneMore(r, q, at)
    ensures Doomed(q, ahead, off) <==> Doomed(r, ahead, off) || AtHeadEnd(ahead, at - off)
    decreases |ahead|
  {
    if ahead != [] {
      var pos := off + |Head(|ahead[0]|)|;
      assert IsBorder(q, pos) <==> IsBorder(r, pos) || pos == at;
      DoomedAdd(r, q, ahead[1..], off + |Frame(ahead[0])|, at);
    }
  }

  lemma CutAddsOne(r: Reader, c: seq<byte>)
    ensures OneMore(r, r.(chunks := r.chunks + [c]), |r.buf| + |Flat(r.chunks)| + |c| - r.next)
  {
    var q, at := r.(chunks := r.chunks + [c]), |r.buf| + |Flat(r.chunks)| + |c| - r.next;
    CutBorderAt(r, c, |r.chunks| + 1);
    forall pos: int ensures IsBorder(q, pos) <==> IsBorder(r, pos) || pos == at {
      if IsBorder(r, pos) {
        var j :| 0 <= j <= |r.chunks| && BorderAt(r, j) == pos;
        CutBorderAt(r, c, j);
      }
      if IsBorder(q, pos) {
        var j :| 0 <= j <= |q.chunks| && BorderAt(q, j) == pos;
        CutBorderAt(r, c, j);
      }
    }
  }

  /** Frames done with do not matter for a position that lies behind their last head. */
  lemma {:induction false} AtHeadEndAhead(done: seq<seq<byte>>, ahead: seq<seq<byte>>, pos: int)
    requires done == [] || pos > -|done[|done| - 1]|
    ensures AtHeadEnd(done + ahead, |EncodeAll(done)| + pos) <==> AtHeadEnd(ahead, pos)
  {
    if done == [] {
      assert done + ahead == ahead;
    } else {
      assert (done + ahead)[1..] == done[1..] + ahead;
      if |done| > 1 {
        LastFits(done[1..]);
      }
      AtHeadEndAhead(done[1..], ahead, pos);
    }
  }

  lemma {:induction false} LastFits(payloads: seq<seq<byte>>)
    requires payloads != []
    ensures |payloads[|payloads| - 1]| < |EncodeAll(payloads)|
  {
    if |payloads| > 1 {
      LastFits(payloads[1..]);
    }
  }

  /** Of a payload under way no more is due than all of it. */
  predicate NextWithin(s: System, k: nat) {
    k <= |s.payloads| && s.reader.next <= if k == 0 then 0 else |s.payloads[k - 1]|
  }

  predicate SystemDoomed(s: System, k: nat)
    requires k <= |s.payloads|
  {
    Doomed(s.reader, s.payloads[k..], 0)
  }

  /** The chunk is not empty and ends right behind a frame's head. */
  predicate HeadCut(s: System, e: Event) {
    e.Cut? && e.n > 0 && AtHeadEnd(s.payloads, CutEnd(s, e.n))
  }

  /** A write of which nothing is accepted still sends a frame. */
  predicate EmptyFrame(e: Event) {
    e.Write? && e.grant >= |Head(|e.buf|)| && AcceptedLen(|e.buf|, e.grant) == 0
  }

  predicate EmptyRead(s: System, e: Event) {
    e.Read? && Poll(s.reader, e.room).1 == Got([])
  }

  lemma CutAdds(r: Reader, c: seq<byte>, ahead: seq<seq<byte>>)
    ensures var at := |r.buf| + |Flat(r.chunks)| + |c| - r.next;
            Doomed(r.(chunks := r.chunks + [c]), ahead, 0) <==> Doomed(r, ahead, 0) || AtHeadEnd(ahead, at)
  {
    CutAddsOne(r, c);
    DoomedAdd(r, r.(chunks := r.chunks + [c]), ahead, 0, |r.buf| + |Flat(r.chunks)| + |c| - r.next);
  }

  /** The border behind the last chunk is one already. */
  lemma LastBorder(r: Reader, ahead: seq<seq<byte>>)
    ensures AtHeadEnd(ahead, |r.buf| + |Flat(r.chunks)| - r.next) ==> Doomed(r, ahead, 0)
  {
    var at := |r.buf| + |Flat(r.chunks)| - r.next;
    SameBorder(r, at);
    DoomedAdd(r, r, ahead, 0, at);
  }

  /** A chunk `c` arrives behind the others. */
  lemma CutDoomed(r: Reader, c: seq<byte>, payloads: seq<seq<byte>>, k: nat, at: int)
    requires k <= |payloads| && r.next <= if k == 0 then 0 else |payloads[k - 1]|
    requires at == |r.buf| + |Flat(r.chunks)| + |c| - r.next
    ensures var headCut := c != [] && AtHeadEnd(payloads, |EncodeAll(payloads)| - |EncodeAll(payloads[k..])| + at);
            Doomed(r.(chunks := r.chunks + [c]), payloads[k..], 0) <==> Doomed(r, payloads[k..], 0) || headCut
  {
    CutAdds(r, c, payloads[k..]);
    if c == [] {
      LastBorder(r, payloads[k..]);
    } else {
      HeadEndAhead(payloads, k, at);
    }
  }

  /** A position behind the head read last ends a head exactly when it ends one ahead. */
  lemma HeadEndAhead(payloads: seq<seq<byte>>, k: nat, pos: int)
    requires k <= |payloads| && (k == 0 || pos > -|payloads[k - 1]|)
    ensures AtHeadEnd(payloads, |EncodeAll(payloads)| - |EncodeAll(payloads[k..])| + pos)
            <==> AtHeadEnd(payloads[k..], pos)
  {
    var done, ahead := payloads[..k], payloads[k..];
    assert payloads == done + ahead;
    EncodeAllAppend(done, ahead);
    AtHeadEndAhead(done, ahead, pos);
  }

  lemma CutSystemDoomed(s: System, k: nat, n: nat)
    requires Inv(s, k) && NextWithin(s, k) && Enabled(s, Cut(n))
    ensures SystemDoomed(Next(s, Cut(n)), k) <==> SystemDoomed(s, k) || HeadCut(s, Cut(n))
  {
    var r, c := s.reader, s.wire[..n];
    CutEndIs(s, k, n);
    CutDoomed(r, c, s.payloads, k, |r.buf| + |Flat(r.chunks)| + |c| - r.next);
  }

  lemma CutEndIs(s: System, k: nat, n: nat)
    requires k <= |s.payloads| && Aligned(s.reader, s.wire, s.payloads[k..]) && n <= |s.wire|
    ensures (CutEnd(s, n) == |EncodeAll(s.payloads)| - |EncodeAll(s.payloads[k..])|
                           + |s.reader.buf| + |Flat(s.reader.chunks)| + n - s.reader.next)
  {
    UnreadLength(s.reader, s.wire, s.payloads[k..]);
  }

  lemma SameBorder(r: Reader, at: int)
    requires at == |r.buf| + |Flat(r.chunks)| - r.next
    ensures OneMore(r, r, at)
  {
    assert r.chunks[..|r.chunks|] == r.chunks;
    assert BorderAt(r, |r.chunks|) == at;
  }

  lemma WriteSystemDoomed(s: System, k: nat, e: Event)
    requires Inv(s, k) && NextWithin(s, k) && e.Write? && Enabled(s, e)
    ensures NextWithin(Next(s, e), k)
    ensures SystemDoomed(Next(s, e), k) <==> SystemDoomed(s, k) || EmptyFrame(e)
  {
    var p := e.buf[..AcceptedLen(|e.buf|, e.grant)];
    assert (s.payloads + [p])[k..] == s.payloads[k..] + [p];
    WriteDoomed(s.reader, s.wire, s.payloads[k..], p);
  }

  lemma ReadSystemDoomed(s: System, k: nat, room: nat)
    requires Inv(s, k) && NextWithin(s, k) && room > 0
    ensures var k' := k + HeadsRead(s.reader);
            && k' <= |s.payloads| && NextWithin(Next(s, Read(room)), k')
            && (SystemDoomed(s, k) <==> EmptyRead(s, Read(room)) || SystemDoomed(Next(s, Read(room)), k'))
  {
    var j := HeadsRead(s.reader);
    ReadDoomed(s.reader, s.wire, s.payloads[k..], room);
    SuffixOfSuffix(s.payloads, k, j);
  }

  lemma SuffixOfSuffix(s: seq<seq<byte>>, k: nat, j: nat)
    requires k + j <= |s|
    ensures s[k..][j..] == s[k + j..] && (j < |s[k..]| ==> s[k..][j] == s[k + j])
    ensures j > 0 ==> s[k..][j - 1] == s[k + j - 1]
  {
  }

  datatype Kind = Empty | BehindHead | NoPayload

  predicate Is(kind: Kind, s: System, e: Event) {
    match kind
    case Empty => EmptyRead(s, e)
    case BehindHead => HeadCut(s, e)
    case NoPayload => EmptyFrame(e)
  }

  /** Some event of the run from `s` is of this kind. */
  predicate Happens(kind: Kind, s: System, events: seq<Event>)
    decreases |events|
  {
    && events != [] && Enabled(s, events[0])
    && (Is(kind, s, events[0]) || Happens(kind, Next(s, events[0]), events[1..]))
  }

  predicate RoomAlways(events: seq<Event>) {
    forall e :: e in events && e.Read? ==> e.room > 0
  }

  lemma StepDoomed(s: System, k: nat, e: Event) returns (k': nat)
    requires Inv(s, k) && NextWithin(s, k) && Enabled(s, e) && (e.Read? ==> e.room > 0)
    ensures Inv(Next(s, e), k') && NextWithin(Next(s, e), k')
    ensures Is(Empty, s, e) || SystemDoomed(Next(s, e), k')
            <==> SystemDoomed(s, k) || Is(BehindHead, s, e) || Is(NoPayload, s, e)
  {
    match e {
      case Write(buf, grant) =>
        k' := k;
        WriteKeeps(s, k, buf, grant);
        WriteSystemDoomed(s, k, e);
      case Cut(n) =>
        k' := k;
        CutKeeps(s, k, n);
        CutSystemDoomed(s, k, n);
      case Read(room) =>
        k' := ReadKeeps(s, k, room);
        ReadSystemDoomed(s, k, room);
    }
  }

  lemma {:induction false} RunDoomed(s: System, k: nat, events: seq<Event>, t: System) returns (k': nat)
    requires Inv(s, k) && NextWithin(s, k) && Run(s, events, t) && RoomAlways(events)
    ensures Inv(t, k')
    ensures Happens(Empty, s, events) || SystemDoomed(t, k')
            <==> SystemDoomed(s, k) || Happens(BehindHead, s, events) || Happens(NoPayload, s, events)
    decreases |events|
  {
    if events == [] {
      k' := k;
    } else {
      var e := events[0];
      assert e in events;
      var k1 := StepDoomed(s, k, e);
      k' := RunDoomed(Next(s, e), k1, events[1..], t);
    }
  }

  /**
   * In every run that is read to the end, with room at each read, some read returns zero bytes if
   * and only if some chunk ends right behind a frame's head, or a frame without payload is sent.
   */
  lemma EmptyReadsInRun(events: seq<Event>, t: System)
    requires Run(START, events, t) && RoomAlways(events) && Unread(t.reader, t.wire) == []
    ensures Happens(Empty, START, events)
            <==> Happens(BehindHead, START, events) || Happens(NoPayload, START, events)
  {
    StartInv();
    var k := RunDoomed(START, 0, events, t);
    var ahead := t.payloads[k..];
    assert EncodeAll(ahead) == [];
    assert ahead == [];
  }
}
