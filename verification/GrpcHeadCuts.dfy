/** Chunks that end anywhere: when a read of a gRPC stream fails. */
module GrpcHeadCuts {
  import opened Bytes
  import opened Varint
  import opened GrpcFrame
  import opened GrpcStream
  import opened GrpcRun
  import opened GrpcEmptyReads

  /** A position strictly inside the head of one of these frames. */
  predicate InsideHead(payloads: seq<seq<byte>>, pos: int)
    decreases |payloads|
  {
    && payloads != []
    && (0 < pos < |Head(|payloads[0]|)| || InsideHead(payloads[1..], pos - |Frame(payloads[0])|))
  }

  lemma {:induction false} InsideBound(payloads: seq<seq<byte>>, pos: int)
    requires pos <= 0
    ensures !InsideHead(payloads, pos)
    decreases |payloads|
  {
    if payloads != [] {
      InsideBound(payloads[1..], pos - |Frame(payloads[0])|);
    }
  }

  /** Within what was sent, a position is safe exactly when it is inside no head. */
  lemma {:induction false} SafeIsOutside(payloads: seq<seq<byte>>, pos: int)
    requires pos <= |EncodeAll(payloads)|
    ensures HeadSafe(payloads, pos) <==> !InsideHead(payloads, pos)
    decreases |payloads|
  {
    if pos <= 0 {
      InsideBound(payloads, pos);
    } else {
      var d := |Frame(payloads[0])|;
      if pos <= d {
        InsideBound(payloads[1..], pos - d);
      } else {
        SafeIsOutside(payloads[1..], pos - d);
      }
    }
  }

  lemma {:induction false} HeadSafeFront(a: seq<seq<byte>>, p: seq<byte>, pos: int)
    requires pos <= |EncodeAll(a)| && HeadSafe(a + [p], pos)
    ensures HeadSafe(a, pos)
  {
    if pos > 0 {
      assert (a + [p])[1..] == a[1..] + [p];
      if pos > |Frame(a[0])| {
        HeadSafeFront(a[1..], p, pos - |Frame(a[0])|);
      }
    }
  }

  /** Frames done with do not matter for a position that lies behind their last head. */
  lemma {:induction false} SafeAhead(done: seq<seq<byte>>, ahead: seq<seq<byte>>, pos: int)
    requires done == [] || pos >= -|done[|done| - 1]|
    ensures HeadSafe(done + ahead, |EncodeAll(done)| + pos) <==> HeadSafe(ahead, pos)
  {
    if done == [] {
      assert done + ahead == ahead;
    } else {
      assert (done + ahead)[1..] == done[1..] + ahead;
      if |done| > 1 {
        LastFits(done[1..]);
      }
      SafeAhead(done[1..], ahead, pos);
    }
  }

  lemma BorderWithin(r: Reader, wire: seq<byte>, ahead: seq<seq<byte>>, i: nat)
    requires Aligned(r, wire, ahead) && i <= |r.chunks|
    ensures BorderAt(r, i) <= |EncodeAll(ahead)|
  {
    UnreadLength(r, wire, ahead);
    FlatAppend(r.chunks[..i], r.chunks[i..]);
    assert r.chunks[..i] + r.chunks[i..] == r.chunks;
  }

  lemma WriteBordersExactly(r: Reader, wire: seq<byte>, ahead: seq<seq<byte>>, p: seq<byte>)
    requires Aligned(r, wire, ahead)
    ensures BordersSafe(r, ahead + [p]) <==> BordersSafe(r, ahead)
  {
    if BordersSafe(r, ahead) {
      WriteBorders(r, ahead, p);
    }
    if BordersSafe(r, ahead + [p]) {
      forall i | 0 <= i <= |r.chunks| ensures BorderSafe(r, ahead, i) {
        assert BorderSafe(r, ahead + [p], i);
        BorderWithin(r, wire, ahead, i);
        HeadSafeFront(ahead, p, BorderAt(r, i));
      }
    }
  }

  lemma BordersBeforeCut(r: Reader, ahead: seq<seq<byte>>, c: seq<byte>)
    requires BordersSafe(r.(chunks := r.chunks + [c]), ahead)
    ensures BordersSafe(r, ahead)
  {
    var q := r.(chunks := r.chunks + [c]);
    forall i | 0 <= i <= |r.chunks| ensures BorderSafe(r, ahead, i) {
      assert BorderSafe(q, ahead, i);
      CutBorderAt(r, c, i);
    }
  }

  lemma CutEndSafe(r: Reader, ahead: seq<seq<byte>>, c: seq<byte>)
    requires BordersSafe(r.(chunks := r.chunks + [c]), ahead)
    ensures HeadSafe(ahead, |r.buf| + |Flat(r.chunks)| + |c| - r.next)
  {
    assert BorderSafe(r.(chunks := r.chunks + [c]), ahead, |r.chunks| + 1);
    CutBorderAt(r, c, |r.chunks| + 1);
  }

  lemma CutBordersExactly(r: Reader, q: Reader, ahead: seq<seq<byte>>, c: seq<byte>, at: int)
    requires q == r.(chunks := r.chunks + [c]) && at == |r.buf| + |Flat(r.chunks)| + |c| - r.next
    ensures BordersSafe(q, ahead) <==> BordersSafe(r, ahead) && HeadSafe(ahead, at)
  {
    if BordersSafe(q, ahead) {
      BordersBeforeCut(r, ahead, c);
      CutEndSafe(r, ahead, c);
    } else if BordersSafe(r, ahead) && HeadSafe(ahead, at) {
      CutBorders(r, ahead, c, at);
    }
  }

  /** Pulling a chunk forgets a border only if nothing lies ahead of it. */
  lemma PullBordersExactly(r: Reader, ahead: seq<seq<byte>>)
    requires r.chunks != [] && !CanDeliver(r)
    ensures BordersSafe(r.(buf := r.buf + r.chunks[0], chunks := r.chunks[1..]), ahead) <==> BordersSafe(r, ahead)
  {
    var q := r.(buf := r.buf + r.chunks[0], chunks := r.chunks[1..]);
    forall i | 0 <= i <= |q.chunks| ensures BorderSafe(q, ahead, i) <==> BorderSafe(r, ahead, i + 1) {
      PullBorder(r, i);
    }
    if BordersSafe(r, ahead) {
      forall i | 0 <= i <= |q.chunks| ensures BorderSafe(q, ahead, i) {
        assert BorderSafe(r, ahead, i + 1);
      }
    }
    if BordersSafe(q, ahead) {
      forall i | 0 <= i <= |r.chunks| ensures BorderSafe(r, ahead, i) {
        if i > 0 {
          assert BorderSafe(q, ahead, i - 1);
        }
      }
    }
  }

  lemma {:induction false} PulledAligned(r: Reader, wire: seq<byte>, ahead: seq<seq<byte>>)
    requires Aligned(r, wire, ahead)
    ensures var q := Pulled(r);
            && Aligned(q, wire, ahead) && Unread(q, wire) == Unread(r, wire)
            && (BordersSafe(q, ahead) <==> BordersSafe(r, ahead))
    decreases |r.chunks|
  {
    if !CanDeliver(r) && r.chunks != [] {
      PullAligned(r, wire, ahead);
      PullBordersExactly(r, ahead);
      PulledAligned(r.(buf := r.buf + r.chunks[0], chunks := r.chunks[1..]), wire, ahead);
    }
  }

  lemma TakeBordersExactly(r: Reader, ahead: seq<seq<byte>>, room: nat)
    ensures BordersSafe(Take(r, room).0, ahead) <==> BordersSafe(r, ahead)
  {
    var q := Take(r, room).0;
    assert forall i :: 0 <= i <= |r.chunks| ==> (BorderSafe(q, ahead, i) <==> BorderSafe(r, ahead, i));
  }

  /** With its head buffered whole, the first frame has no border inside the head. */
  lemma HeadBordersExactly(r: Reader, ahead: seq<seq<byte>>, q: Reader)
    requires r.next == 0 && ahead != []
    requires |r.buf| == |Head(|ahead[0]|)| + |q.buf| && q.chunks == r.chunks && q.next == |ahead[0]|
    ensures BordersSafe(q, ahead[1..]) <==> BordersSafe(r, ahead)
  {
    assert forall i :: 0 <= i <= |r.chunks| ==> (BorderSafe(q, ahead[1..], i) <==> BorderSafe(r, ahead, i));
  }

  predicate Failed(p: ReadPoll) {
    p.BadVarint? || p.Panicked?
  }

  /** The front of an encoded number, short of its last byte, is no varint. */
  lemma PartOfVarint(len: nat, m: nat)
    requires len < TWO64 && m < |Uvarint(len)|
    ensures Parse(Uvarint(len)[..m]).err == Some(NoFirstByte)
  {
    UvarintForm(len);
    UvarintAtMostTen(len);
    var part := Uvarint(len)[..m];
    assert forall i :: 0 <= i < |part| ==> part[i] == Uvarint(len)[i] >= 128;
    ParseRejects(part);
  }

  /**
   * Between frames, a read fails if and only if the head is buffered only in part: it panics on
   * fewer than six bytes, and with six or more it finds no length and throws them away.
   */
  lemma PartialHeadFails(r: Reader, wire: seq<byte>, ahead: seq<seq<byte>>, room: nat)
    requires Aligned(r, wire, ahead) && r.next == 0 && r.buf != []
    ensures ahead != [] && (Failed(Deliver(r, room).1) <==> |r.buf| < |Head(|ahead[0]|)|)
    ensures |r.buf| < 6 ==> Deliver(r, room) == (r, Panicked)
    ensures 6 <= |r.buf| < |Head(|ahead[0]|)| ==> Deliver(r, room) == (r.(buf := []), BadVarint(NoFirstByte))
  {
    var n := |r.buf|;
    HeadBegins(r, wire, ahead, n);
    var h := Head(|ahead[0]|);
    if n >= |h| {
      var _ := HeadAligned(r, wire, ahead);
    } else if n >= READ_HEAD_LEN {
      assert r.buf == h[..n];
      assert h[READ_HEAD_LEN..] == Uvarint(|ahead[0]|);
      assert r.buf[READ_HEAD_LEN..] == Uvarint(|ahead[0]|)[..n - READ_HEAD_LEN];
      assert ahead[0] in ahead;
      PartOfVarint(|ahead[0]|, n - READ_HEAD_LEN);
    }
  }

  lemma PartialHeadIsUnsafe(r: Reader, ahead: seq<seq<byte>>)
    requires ahead != [] && r.next == 0 && 0 < |r.buf| < |Head(|ahead[0]|)|
    ensures !BordersSafe(r, ahead)
  {
    assert r.chunks[..0] == [];
    assert !BorderSafe(r, ahead, 0);
  }

  /** What a poll does that does not fail: the reader stays aligned, and no border is forgotten. */
  ghost predicate GoesOn(r: Reader, t: Reader, wire: seq<byte>, ahead: seq<seq<byte>>, j: nat) {
    && j <= |ahead| && Aligned(t, wire, ahead[j..]) && t.closed == r.closed
    && (BordersSafe(t, ahead[j..]) <==> BordersSafe(r, ahead))
    && t.next <= (if j == 0 then r.next else |ahead[j - 1]|)
  }

  lemma DeliverOutcome(r: Reader, wire: seq<byte>, ahead: seq<seq<byte>>, room: nat)
    requires Aligned(r, wire, ahead) && CanDeliver(r)
    ensures var (t, out) := Deliver(r, room);
            && (Failed(out) ==> !BordersSafe(r, ahead))
            && (!Failed(out) ==> GoesOn(r, t, wire, ahead, if r.next == 0 then 1 else 0))
  {
    assert ahead[0..] == ahead;
    if r.next > 0 {
      TakeAligned(r, wire, ahead, room);
      TakeBordersExactly(r, ahead, room);
    } else {
      PartialHeadFails(r, wire, ahead, room);
      if |r.buf| < |Head(|ahead[0]|)| {
        PartialHeadIsUnsafe(r, ahead);
      } else {
        var q := HeadAligned(r, wire, ahead);
        HeadBordersExactly(r, ahead, q);
        TakeAligned(q, wire, ahead[1..], room);
        TakeBordersExactly(q, ahead[1..], room);
      }
    }
  }

  /** A read fails only if a chunk ends inside a head; if it does not fail, such ends stay ahead of it. */
  lemma PollOutcome(r: Reader, wire: seq<byte>, ahead: seq<seq<byte>>, room: nat)
    requires Aligned(r, wire, ahead)
    ensures var (t, out) := Poll(r, room);
            && (Failed(out) ==> !BordersSafe(r, ahead))
            && (!Failed(out) ==> GoesOn(r, t, wire, ahead, HeadsRead(r)))
  {
    PollPulls(r, room);
    PulledAligned(r, wire, ahead);
    var q := Pulled(r);
    if CanDeliver(q) {
      DeliverOutcome(q, wire, ahead, room);
    } else {
      assert ahead[0..] == ahead;
    }
  }

  /** `events` can happen one after the other from `s`, wherever chunks end, and lead to `t`. */
  predicate AnyRun(s: System, events: seq<Event>, t: System)
    decreases |events|
  {
    if events == [] then s == t
    else Possible(s, events[0]) && AnyRun(Next(s, events[0]), events[1..], t)
  }

  predicate FailsAt(s: System, e: Event) {
    e.Read? && Failed(Poll(s.reader, e.room).1)
  }

  /** A chunk of the bytes sent ends strictly inside a frame's head. */
  predicate CutsHead(s: System, e: Event) {
    e.Cut? && e.n <= |s.wire| && InsideHead(s.payloads, CutEnd(s, e.n))
  }

  /** Some read of the run fails. */
  predicate SomeReadFails(s: System, events: seq<Event>)
    decreases |events|
  {
    && events != [] && Possible(s, events[0])
    && (FailsAt(s, events[0]) || SomeReadFails(Next(s, events[0]), events[1..]))
  }

  predicate SomeHeadCut(s: System, events: seq<Event>)
    decreases |events|
  {
    && events != [] && Possible(s, events[0])
    && (CutsHead(s, events[0]) || SomeHeadCut(Next(s, events[0]), events[1..]))
  }

  /** The invariant while no read has failed; `k` frame heads have been read. */
  predicate OnCourse(s: System, k: nat) {
    NextWithin(s, k) && Aligned(s.reader, s.wire, s.payloads[k..]) && !s.reader.closed
  }

  predicate Intact(s: System, k: nat)
    requires k <= |s.payloads|
  {
    BordersSafe(s.reader, s.payloads[k..])
  }

  lemma WriteCourse(s: System, k: nat, e: Event)
    requires OnCourse(s, k) && e.Write? && Possible(s, e)
    ensures OnCourse(Next(s, e), k) && (Intact(Next(s, e), k) <==> Intact(s, k))
  {
    var p, ahead := e.buf[..AcceptedLen(|e.buf|, e.grant)], s.payloads[k..];
    assert (s.payloads + [p])[k..] == ahead + [p];
    WriteAligned(s.reader, s.wire, ahead, p);
    WriteBordersExactly(s.reader, s.wire, ahead, p);
  }

  /** A position behind the head read last is inside a head exactly when it is one ahead. */
  lemma InsideAhead(payloads: seq<seq<byte>>, k: nat, pos: int)
    requires k <= |payloads| && (k == 0 || pos >= -|payloads[k - 1]|) && pos <= |EncodeAll(payloads[k..])|
    ensures InsideHead(payloads, |EncodeAll(payloads)| - |EncodeAll(payloads[k..])| + pos)
            <==> !HeadSafe(payloads[k..], pos)
  {
    var done, ahead := payloads[..k], payloads[k..];
    assert payloads == done + ahead;
    EncodeAllAppend(done, ahead);
    SafeIsOutside(payloads, |EncodeAll(done)| + pos);
    SafeAhead(done, ahead, pos);
  }

  /** Where the cut ends counts from the start of the next frame as well as from the first byte sent. */
  lemma CutEndAhead(s: System, k: nat, n: nat, at: int)
    requires OnCourse(s, k) && n <= |s.wire|
    requires at == |s.reader.buf| + |Flat(s.reader.chunks)| + n - s.reader.next
    ensures InsideHead(s.payloads, CutEnd(s, n)) <==> !HeadSafe(s.payloads[k..], at)
  {
    UnreadLength(s.reader, s.wire, s.payloads[k..]);
    InsideAhead(s.payloads, k, at);
  }

  lemma CutCourse(s: System, k: nat, e: Event)
    requires OnCourse(s, k) && e.Cut? && Possible(s, e)
    ensures OnCourse(Next(s, e), k) && (Intact(Next(s, e), k) <==> Intact(s, k) && !CutsHead(s, e))
  {
    CutAligned(s.reader, s.wire, s.payloads[k..], e.n);
    var r, c := s.reader, s.wire[..e.n];
    var at := |r.buf| + |Flat(r.chunks)| + e.n - r.next;
    CutEndAhead(s, k, e.n, at);
    CutBordersExactly(r, r.(chunks := r.chunks + [c]), s.payloads[k..], c, at);
  }

  lemma ReadCourse(s: System, k: nat, e: Event) returns (k': nat)
    requires OnCourse(s, k) && e.Read?
    ensures FailsAt(s, e) ==> !Intact(s, k)
    ensures !FailsAt(s, e) ==> OnCourse(Next(s, e), k') && (Intact(Next(s, e), k') <==> Intact(s, k))
  {
    var ahead := s.payloads[k..];
    PollOutcome(s.reader, s.wire, ahead, e.room);
    k' := k + HeadsRead(s.reader);
    if !FailsAt(s, e) {
      assert ahead[HeadsRead(s.reader)..] == s.payloads[k'..];
    }
  }

  lemma StepCourse(s: System, k: nat, e: Event) returns (k': nat)
    requires OnCourse(s, k) && Possible(s, e)
    ensures FailsAt(s, e) ==> !Intact(s, k)
    ensures !FailsAt(s, e) ==>
              OnCourse(Next(s, e), k') && (Intact(Next(s, e), k') <==> Intact(s, k) && !CutsHead(s, e))
  {
    k' := k;
    match e {
      case Write(_, _) => WriteCourse(s, k, e);
      case Cut(_) => CutCourse(s, k, e);
      case Read(_) => k' := ReadCourse(s, k, e);
    }
  }

  lemma {:induction false} RunCourse(s: System, k: nat, events: seq<Event>, t: System) returns (k': nat)
    requires OnCourse(s, k) && AnyRun(s, events, t)
    ensures SomeReadFails(s, events) ==> !Intact(s, k) || SomeHeadCut(s, events)
    ensures !SomeReadFails(s, events) ==>
              OnCourse(t, k') && (Intact(t, k') <==> Intact(s, k) && !SomeHeadCut(s, events))
    decreases |events|
  {
    k' := k;
    if events != [] {
      var k1 := StepCourse(s, k, events[0]);
      if !FailsAt(s, events[0]) {
        k' := RunCourse(Next(s, events[0]), k1, events[1..], t);
      }
    }
  }

  /** One of these reads, one after the other, fails. */
  predicate ReadingFails(r: Reader, rooms: seq<nat>)
    decreases |rooms|
  {
    rooms != [] && (Failed(Poll(r, rooms[0]).1) || ReadingFails(Poll(r, rooms[0]).0, rooms[1..]))
  }

  lemma {:induction false} PulledDelivers(r: Reader)
    requires Unread(r, []) != [] && |Unread(r, [])| >= r.next
    ensures CanDeliver(Pulled(r))
    decreases |r.chunks|
  {
    if !CanDeliver(r) {
      assert r.chunks != [];
      Joined(r.buf, r.chunks[0], Flat(r.chunks[1..]));
      PulledDelivers(r.(buf := r.buf + r.chunks[0], chunks := r.chunks[1..]));
    }
  }

  /** A read with room takes bytes off what is left, unless it fails or nothing is left. */
  lemma ReadShrinks(r: Reader, ahead: seq<seq<byte>>, room: nat)
    requires Aligned(r, [], ahead) && room > 0 && !Failed(Poll(r, room).1)
    ensures |Unread(Poll(r, room).0, [])| < |Unread(r, [])| || Unread(Poll(r, room).0, []) == []
  {
    if Unread(r, []) == [] {
      NothingLeft(r, room);
    } else {
      PollPulls(r, room);
      PulledAligned(r, [], ahead);
      PulledDelivers(r);
      DeliverShrinks(Pulled(r), [], ahead, room);
    }
  }

  lemma DeliverShrinks(r: Reader, wire: seq<byte>, ahead: seq<seq<byte>>, room: nat)
    requires Aligned(r, wire, ahead) && CanDeliver(r) && room > 0 && !Failed(Deliver(r, room).1)
    ensures |Unread(Deliver(r, room).0, wire)| < |Unread(r, wire)|
  {
    if r.next == 0 {
      PartialHeadFails(r, wire, ahead, room);
      var _ := HeadAligned(r, wire, ahead);
    }
  }

  lemma NothingUnsafe(r: Reader, ahead: seq<seq<byte>>)
    requires Aligned(r, [], ahead) && Unread(r, []) == []
    ensures BordersSafe(r, ahead)
  {
    forall i | 0 <= i <= |r.chunks| ensures BorderSafe(r, ahead, i) {
      FlatAppend(r.chunks[..i], r.chunks[i..]);
      assert r.chunks[..i] + r.chunks[i..] == r.chunks;
    }
  }

  /** Read to the end with room, a stream fails to be read if and only if a chunk ends inside a head ahead. */
  lemma {:induction false} DrainOutcome(r: Reader, ahead: seq<seq<byte>>, rooms: seq<nat>)
    requires Aligned(r, [], ahead)
    requires |rooms| >= |Unread(r, [])| && forall i :: 0 <= i < |rooms| ==> rooms[i] > 0
    ensures ReadingFails(r, rooms) <==> !BordersSafe(r, ahead)
    decreases |rooms|
  {
    if rooms == [] {
      NothingUnsafe(r, ahead);
    } else {
      PollOutcome(r, [], ahead, rooms[0]);
      if !Failed(Poll(r, rooms[0]).1) {
        ReadShrinks(r, ahead, rooms[0]);
        DrainOutcome(Poll(r, rooms[0]).0, ahead[HeadsRead(r)..], rooms[1..]);
      }
    }
  }

  lemma StartCourse()
    ensures OnCourse(START, 0) && Intact(START, 0)
  {
    assert Flat([]) == [] && EncodeAll([]) == [];
    assert START.payloads[0..] == [];
  }

  /**
   * In every run, wherever its chunks end, that is then read to the end with room: some read fails,
   * with a panic or a bad length, if and only if some chunk ends strictly inside a frame's head.
   */
  lemma ReadFailsExactly(events: seq<Event>, t: System, rooms: seq<nat>)
    requires AnyRun(START, events, t) && t.wire == []
    requires |rooms| >= |Unread(t.reader, [])| && forall i :: 0 <= i < |rooms| ==> rooms[i] > 0
    ensures SomeReadFails(START, events) || ReadingFails(t.reader, rooms) <==> SomeHeadCut(START, events)
  {
    StartCourse();
    var k := RunCourse(START, 0, events, t);
    if !SomeReadFails(START, events) {
      DrainOutcome(t.reader, t.payloads[k..], rooms);
    }
  }
}
