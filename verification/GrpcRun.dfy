/** Whole runs of a gRPC stream: a writer, a network that cuts the bytes into chunks, a reader. */
module GrpcRun {
  import opened Bytes
  import opened Varint
  import opened GrpcFrame
  import opened GrpcStream

  datatype System = System(
    payloads: seq<seq<byte>>,  // payload of every frame written so far
    accepted: seq<byte>,       // bytes the writer reported as accepted
    wire: seq<byte>,           // bytes sent and not yet part of a chunk
    reader: Reader,
    delivered: seq<byte>)

  datatype Event =
    | Write(buf: seq<byte>, grant: nat)
    | Cut(n: nat)     // the next `n` bytes of the wire arrive as one DATA chunk
    | Read(room: nat)

  const START: System := System([], [], [], Reader([], 0, [], false), [])

  /** A cut after the first `pos` bytes of these frames falls inside no frame head. */
  predicate HeadSafe(payloads: seq<seq<byte>>, pos: int)
    decreases |payloads|
  {
    pos <= 0
    || (payloads != []
        && pos >= |Head(|payloads[0]|)|
        && (pos <= |Frame(payloads[0])| || HeadSafe(payloads[1..], pos - |Frame(payloads[0])|)))
  }

  /** What can happen at all. */
  predicate Possible(s: System, e: Event) {
    match e
    case Write(buf, grant) => |buf| < TWO64 && grant >= |Head(|buf|)|
    case Cut(n) => n <= |s.wire|
    case Read(_) => true
  }

  /** Where a chunk of `n` bytes would end, counted from the first byte ever sent. */
  function CutEnd(s: System, n: nat): int {
    |EncodeAll(s.payloads)| - |s.wire| + n
  }

  /** What can happen while no chunk ends inside a head. */
  predicate Enabled(s: System, e: Event) {
    Possible(s, e) && (e.Cut? ==> HeadSafe(s.payloads, CutEnd(s, e.n)))
  }

  function Next(s: System, e: Event): System
    requires Possible(s, e)
  {
    match e
    case Write(buf, grant) =>
      var p := buf[..AcceptedLen(|buf|, grant)];
      s.(payloads := s.payloads + [p], accepted := s.accepted + p, wire := s.wire + Frame(p))
    case Cut(n) =>
      s.(wire := s.wire[n..], reader := s.reader.(chunks := s.reader.chunks + [s.wire[..n]]))
    case Read(room) =>
      var (r, out) := Poll(s.reader, room);
      s.(reader := r, delivered := if out.Got? then s.delivered + out.data else s.delivered)
  }

  /** `events` can happen one after the other from `s` and end in `t`. */
  predicate Run(s: System, events: seq<Event>, t: System)
    decreases |events|
  {
    if events == [] then s == t
    else Enabled(s, events[0]) && Run(Next(s, events[0]), events[1..], t)
  }

  /** All the bytes sent and not yet taken out of the reader's buffer. */
  function Unread(r: Reader, wire: seq<byte>): seq<byte> {
    r.buf + Flat(r.chunks) + wire
  }

  /** Every chunk border ahead of the reader, who still is due `r.next` payload bytes, is safe. */
  predicate BordersSafe(r: Reader, payloads: seq<seq<byte>>) {
    forall i {:trigger BorderSafe(r, payloads, i)} :: 0 <= i <= |r.chunks| ==> BorderSafe(r, payloads, i)
  }

  predicate BorderSafe(r: Reader, payloads: seq<seq<byte>>, i: nat)
    requires i <= |r.chunks|
  {
    HeadSafe(payloads, BorderAt(r, i))
  }

  /** Where the border behind the first `j` chunks lies, counted from the start of the next frame. */
  function BorderAt(r: Reader, j: nat): int
    requires j <= |r.chunks|
  {
    |r.buf| + |Flat(r.chunks[..j])| - r.next
  }

  /** The reader stands inside a payload or between frames, with `payloads` still ahead of it. */
  predicate Aligned(r: Reader, wire: seq<byte>, payloads: seq<seq<byte>>) {
    && |Unread(r, wire)| >= r.next
    && Unread(r, wire)[r.next..] == EncodeAll(payloads)
    && forall p :: p in payloads ==> |p| < TWO64
  }

  predicate Standing(r: Reader, wire: seq<byte>, payloads: seq<seq<byte>>) {
    Aligned(r, wire, payloads) && BordersSafe(r, payloads)
  }

  /** What the reader must still deliver. */
  function Due(r: Reader, wire: seq<byte>, payloads: seq<seq<byte>>): seq<byte>
    requires |Unread(r, wire)| >= r.next
  {
    Unread(r, wire)[..r.next] + Flat(payloads)
  }

  /** The invariant of every run; `k` frame heads have been read. */
  predicate Inv(s: System, k: nat) {
    && k <= |s.payloads|
    && s.accepted == Flat(s.payloads)
    && Standing(s.reader, s.wire, s.payloads[k..])
    && s.delivered + Due(s.reader, s.wire, s.payloads[k..]) == s.accepted
    && !s.reader.closed
  }

  lemma {:induction false} HeadSafeSuffix(a: seq<seq<byte>>, b: seq<seq<byte>>, pos: int)
    requires HeadSafe(a + b, |EncodeAll(a)| + pos)
    ensures HeadSafe(b, pos)
  {
    if a == [] {
      assert a + b == b;
    } else if pos > 0 {
      assert (a + b)[1..] == a[1..] + b;
      HeadSafeSuffix(a[1..], b, pos);
    }
  }

  lemma {:induction false} HeadSafeAppend(a: seq<seq<byte>>, p: seq<byte>, pos: int)
    requires HeadSafe(a, pos)
    ensures HeadSafe(a + [p], pos)
  {
    if pos > 0 {
      assert (a + [p])[1..] == a[1..] + [p];
      if pos > |Frame(a[0])| {
        HeadSafeAppend(a[1..], p, pos - |Frame(a[0])|);
      }
    }
  }

  lemma Slices(u: seq<byte>, f: seq<byte>, n: nat)
    requires n <= |u|
    ensures (u + f)[n..] == u[n..] + f && (u + f)[..n] == u[..n]
    ensures u == u[..n] + u[n..]
  {
  }

  lemma WriteBorders(r: Reader, ahead: seq<seq<byte>>, p: seq<byte>)
    requires BordersSafe(r, ahead)
    ensures BordersSafe(r, ahead + [p])
  {
    forall i | 0 <= i <= |r.chunks|
      ensures BorderSafe(r, ahead + [p], i)
    {
      assert BorderSafe(r, ahead, i);
      HeadSafeAppend(ahead, p, BorderAt(r, i));
    }
  }

  lemma WriteUnread(r: Reader, wire: seq<byte>, f: seq<byte>)
    ensures Unread(r, wire + f) == Unread(r, wire) + f
  {
    assert r.buf + Flat(r.chunks) + (wire + f) == r.buf + Flat(r.chunks) + wire + f;
  }

  lemma WriteAligned(r: Reader, wire: seq<byte>, ahead: seq<seq<byte>>, p: seq<byte>)
    requires Aligned(r, wire, ahead) && |p| < TWO64
    ensures Aligned(r, wire + Frame(p), ahead + [p])
    ensures Due(r, wire + Frame(p), ahead + [p]) == Due(r, wire, ahead) + p
  {
    WriteUnread(r, wire, Frame(p));
    Slices(Unread(r, wire), Frame(p), r.next);
    EncodeAllSnoc(ahead, p);
    FlatSnoc(ahead, p);
    Joined(Unread(r, wire)[..r.next], Flat(ahead), p);
  }

  lemma Joined(a: seq<byte>, b: seq<byte>, c: seq<byte>)
    ensures a + (b + c) == a + b + c
  {
  }

  lemma WriteStanding(r: Reader, wire: seq<byte>, ahead: seq<seq<byte>>, p: seq<byte>)
    requires Standing(r, wire, ahead) && |p| < TWO64
    ensures Standing(r, wire + Frame(p), ahead + [p])
    ensures Due(r, wire + Frame(p), ahead + [p]) == Due(r, wire, ahead) + p
  {
    WriteAligned(r, wire, ahead, p);
    WriteBorders(r, ahead, p);
  }

  lemma WriteKeeps(s: System, k: nat, buf: seq<byte>, grant: nat)
    requires Inv(s, k) && Enabled(s, Write(buf, grant))
    ensures Inv(Next(s, Write(buf, grant)), k)
  {
    var p := buf[..AcceptedLen(|buf|, grant)];
    assert (s.payloads + [p])[k..] == s.payloads[k..] + [p];
    FlatSnoc(s.payloads, p);
    WriteStanding(s.reader, s.wire, s.payloads[k..], p);
    Joined(s.delivered, Due(s.reader, s.wire, s.payloads[k..]), p);
  }

  lemma CutBorders(r: Reader, ahead: seq<seq<byte>>, c: seq<byte>, pos: int)
    requires BordersSafe(r, ahead)
    requires HeadSafe(ahead, pos) && pos == |r.buf| + |Flat(r.chunks)| + |c| - r.next
    ensures BordersSafe(r.(chunks := r.chunks + [c]), ahead)
  {
    var q := r.(chunks := r.chunks + [c]);
    forall i | 0 <= i <= |q.chunks| ensures BorderSafe(q, ahead, i) {
      CutBorderAt(r, c, i);
      assert i <= |r.chunks| ==> BorderSafe(r, ahead, i);
    }
  }

  /** A new chunk adds one border behind all others. */
  lemma CutBorderAt(r: Reader, c: seq<byte>, j: nat)
    requires j <= |r.chunks| + 1
    ensures BorderAt(r.(chunks := r.chunks + [c]), j)
         == if j <= |r.chunks| then BorderAt(r, j) else |r.buf| + |Flat(r.chunks)| + |c| - r.next
  {
    if j <= |r.chunks| {
      assert (r.chunks + [c])[..j] == r.chunks[..j];
    } else {
      assert (r.chunks + [c])[..j] == r.chunks + [c];
      FlatSnoc(r.chunks, c);
    }
  }

  lemma CutUnread(r: Reader, wire: seq<byte>, n: nat)
    requires n <= |wire|
    ensures Unread(r.(chunks := r.chunks + [wire[..n]]), wire[n..]) == Unread(r, wire)
  {
    FlatSnoc(r.chunks, wire[..n]);
    assert wire == wire[..n] + wire[n..];
    assert r.buf + (Flat(r.chunks) + wire[..n]) + wire[n..] == r.buf + Flat(r.chunks) + wire;
  }

  lemma UnreadLength(r: Reader, wire: seq<byte>, ahead: seq<seq<byte>>)
    requires Aligned(r, wire, ahead)
    ensures |r.buf| + |Flat(r.chunks)| + |wire| == |EncodeAll(ahead)| + r.next
  {
    assert |Unread(r, wire)| == |r.buf| + |Flat(r.chunks)| + |wire|;
  }

  /** Where the unread bytes are held does not matter. */
  lemma SameUnread(r: Reader, q: Reader, wire: seq<byte>, left: seq<byte>, ahead: seq<seq<byte>>)
    requires Aligned(r, wire, ahead) && q.next == r.next && Unread(q, left) == Unread(r, wire)
    ensures Aligned(q, left, ahead) && Due(q, left, ahead) == Due(r, wire, ahead)
  {
  }

  lemma CutAligned(r: Reader, wire: seq<byte>, ahead: seq<seq<byte>>, n: nat)
    requires Aligned(r, wire, ahead) && n <= |wire|
    ensures var q := r.(chunks := r.chunks + [wire[..n]]);
            Aligned(q, wire[n..], ahead) && Due(q, wire[n..], ahead) == Due(r, wire, ahead)
  {
    CutUnread(r, wire, n);
    SameUnread(r, r.(chunks := r.chunks + [wire[..n]]), wire, wire[n..], ahead);
  }

  lemma CutStanding(r: Reader, wire: seq<byte>, ahead: seq<seq<byte>>, n: nat)
    requires Standing(r, wire, ahead) && n <= |wire|
    requires HeadSafe(ahead, |EncodeAll(ahead)| - |wire| + n)
    ensures var q := r.(chunks := r.chunks + [wire[..n]]);
            Standing(q, wire[n..], ahead) && Due(q, wire[n..], ahead) == Due(r, wire, ahead)
  {
    CutAligned(r, wire, ahead, n);
    UnreadLength(r, wire, ahead);
    CutBorders(r, ahead, wire[..n], |EncodeAll(ahead)| - |wire| + n);
  }

  lemma CutKeeps(s: System, k: nat, n: nat)
    requires Inv(s, k) && Enabled(s, Cut(n))
    ensures Inv(Next(s, Cut(n)), k)
  {
    var done, ahead := s.payloads[..k], s.payloads[k..];
    assert s.payloads == done + ahead;
    EncodeAllAppend(done, ahead);
    HeadSafeSuffix(done, ahead, |EncodeAll(ahead)| - |s.wire| + n);
    CutStanding(s.reader, s.wire, ahead, n);
  }

  predicate CanDeliver(r: Reader) {
    r.buf != [] && |r.buf| >= r.next
  }

  /** The reader once it has pulled as many chunks as it needs to hand out bytes, or all there are. */
  function Pulled(r: Reader): Reader
    decreases |r.chunks|
  {
    if CanDeliver(r) || r.chunks == [] then r
    else Pulled(r.(buf := r.buf + r.chunks[0], chunks := r.chunks[1..]))
  }

  /** How many frame heads the next poll reads. */
  function HeadsRead(r: Reader): nat {
    if CanDeliver(Pulled(r)) && Pulled(r).next == 0 then 1 else 0
  }

  /** Every poll succeeds and delivers the next bytes that are due; `j` tells whether it read a head. */
  lemma {:induction false} PollKeeps(r: Reader, wire: seq<byte>, ahead: seq<seq<byte>>, room: nat) returns (j: nat)
    requires Standing(r, wire, ahead)
    ensures j == HeadsRead(r) <= |ahead|
    ensures Standing(Poll(r, room).0, wire, ahead[j..])
    ensures Poll(r, room).1.Got? || (Poll(r, room).1.ReadPending? && j == 0)
    ensures Poll(r, room).1.Got? ==>
              Poll(r, room).1.data + Due(Poll(r, room).0, wire, ahead[j..]) == Due(r, wire, ahead)
    ensures Poll(r, room).1.ReadPending? ==> Due(Poll(r, room).0, wire, ahead) == Due(r, wire, ahead)
    ensures Poll(r, room).0.closed == r.closed
    decreases |r.chunks|
  {
    assert ahead[0..] == ahead;
    if r.buf != [] && |r.buf| >= r.next {
      j := DeliverKeeps(r, wire, ahead, room);
    } else if r.chunks == [] {
      j := 0;
    } else {
      var q := r.(buf := r.buf + r.chunks[0], chunks := r.chunks[1..]);
      PullKeeps(r, wire, ahead);
      j := PollKeeps(q, wire, ahead, room);
    }
  }

  lemma PullAligned(r: Reader, wire: seq<byte>, ahead: seq<seq<byte>>)
    requires Aligned(r, wire, ahead) && r.chunks != []
    ensures var q := r.(buf := r.buf + r.chunks[0], chunks := r.chunks[1..]);
            Aligned(q, wire, ahead) && Due(q, wire, ahead) == Due(r, wire, ahead) && Unread(q, wire) == Unread(r, wire)
  {
    var q := r.(buf := r.buf + r.chunks[0], chunks := r.chunks[1..]);
    Joined(r.buf, r.chunks[0], Flat(r.chunks[1..]));
    SameUnread(r, q, wire, wire, ahead);
  }

  lemma PullKeeps(r: Reader, wire: seq<byte>, ahead: seq<seq<byte>>)
    requires Standing(r, wire, ahead) && r.chunks != []
    ensures var q := r.(buf := r.buf + r.chunks[0], chunks := r.chunks[1..]);
            Standing(q, wire, ahead) && Due(q, wire, ahead) == Due(r, wire, ahead)
  {
    var q := r.(buf := r.buf + r.chunks[0], chunks := r.chunks[1..]);
    PullAligned(r, wire, ahead);
    forall i | 0 <= i <= |q.chunks|
      ensures BorderSafe(q, ahead, i)
    {
      var long := r.chunks[..i + 1];
      assert long[1..] == q.chunks[..i];
      assert BorderSafe(r, ahead, i + 1);
    }
  }

  lemma DeliverKeeps(r: Reader, wire: seq<byte>, ahead: seq<seq<byte>>, room: nat) returns (j: nat)
    requires Standing(r, wire, ahead)
    requires r.buf != [] && |r.buf| >= r.next
    ensures j == (if r.next == 0 then 1 else 0) <= |ahead|
    ensures Deliver(r, room).1.Got?
    ensures Standing(Deliver(r, room).0, wire, ahead[j..])
    ensures Deliver(r, room).1.data + Due(Deliver(r, room).0, wire, ahead[j..]) == Due(r, wire, ahead)
    ensures Deliver(r, room).0.closed == r.closed
  {
    if r.next > 0 {
      j := 0;
      assert ahead[0..] == ahead;
      TakeKeeps(r, wire, ahead, room);
    } else {
      j := 1;
      var q := HeadKeeps(r, wire, ahead);
      TakeKeeps(q, wire, ahead[1..], room);
    }
  }

  lemma TakeBorders(r: Reader, ahead: seq<seq<byte>>, room: nat)
    requires BordersSafe(r, ahead)
    ensures BordersSafe(Take(r, room).0, ahead)
  {
    var q := Take(r, room).0;
    forall i | 0 <= i <= |q.chunks|
      ensures BorderSafe(q, ahead, i)
    {
      assert BorderSafe(r, ahead, i);
    }
  }

  lemma SplitPrefix(u: seq<byte>, n: nat, m: nat)
    requires n <= m <= |u|
    ensures u[..m] == u[..n] + u[n..][..m - n] && u[n..][m - n..] == u[m..]
  {
  }

  lemma TakeUnread(r: Reader, wire: seq<byte>, n: nat)
    requires n <= |r.buf|
    ensures Unread(r.(buf := r.buf[n..]), wire) == Unread(r, wire)[n..]
    ensures r.buf[..n] == Unread(r, wire)[..n]
  {
    var rest := Flat(r.chunks) + wire;
    Slices(r.buf, rest, n);
    assert Unread(r, wire) == r.buf + rest;
    assert Unread(r.(buf := r.buf[n..]), wire) == r.buf[n..] + rest;
  }

  lemma TakeAligned(r: Reader, wire: seq<byte>, ahead: seq<seq<byte>>, room: nat)
    requires Aligned(r, wire, ahead)
    ensures Aligned(Take(r, room).0, wire, ahead)
    ensures Take(r, room).1.data + Due(Take(r, room).0, wire, ahead) == Due(r, wire, ahead)
  {
    var n := Min(room, Min(|r.buf|, r.next));
    var u := Unread(r, wire);
    TakeUnread(r, wire, n);
    SplitPrefix(u, n, r.next);
    Joined(u[..n], u[n..][..r.next - n], Flat(ahead));
  }

  lemma TakeKeeps(r: Reader, wire: seq<byte>, ahead: seq<seq<byte>>, room: nat)
    requires Standing(r, wire, ahead)
    ensures Standing(Take(r, room).0, wire, ahead)
    ensures Take(r, room).1.data + Due(Take(r, room).0, wire, ahead) == Due(r, wire, ahead)
  {
    TakeAligned(r, wire, ahead, room);
    TakeBorders(r, ahead, room);
  }

  /** Between frames, what is buffered begins as the next head does. */
  lemma HeadBegins(r: Reader, wire: seq<byte>, ahead: seq<seq<byte>>, n: nat)
    requires Aligned(r, wire, ahead) && r.next == 0 && r.buf != []
    ensures ahead != []
    ensures n <= |r.buf| && n <= |Head(|ahead[0]|)| ==> r.buf[..n] == Head(|ahead[0]|)[..n]
  {
    var u := Unread(r, wire);
    assert u == u[0..];
    assert u == r.buf + (Flat(r.chunks) + wire);
    assert ahead != [] by {
      assert u != [];
    }
    HeadFirst(ahead);
    if n <= |r.buf| && n <= |Head(|ahead[0]|)| {
      SamePrefix(r.buf, Flat(r.chunks) + wire, Head(|ahead[0]|), ahead[0] + EncodeAll(ahead[1..]), n);
    }
  }

  lemma SamePrefix(a: seq<byte>, b: seq<byte>, c: seq<byte>, d: seq<byte>, n: nat)
    requires a + b == c + d && n <= |a| && n <= |c|
    ensures a[..n] == c[..n]
  {
    assert (a + b)[..n] == a[..n] && (c + d)[..n] == c[..n];
  }

  /** Between frames, whatever is buffered holds the next head whole. */
  lemma HeadBuffered(r: Reader, wire: seq<byte>, ahead: seq<seq<byte>>)
    requires Standing(r, wire, ahead) && r.next == 0 && r.buf != []
    ensures ahead != [] && |r.buf| >= |Head(|ahead[0]|)|
    ensures r.buf[..|Head(|ahead[0]|)|] == Head(|ahead[0]|)
  {
    FirstBorder(r, ahead);
    HeadBegins(r, wire, ahead, |Head(|ahead[0]|)|);
  }

  lemma HeadFirst(ahead: seq<seq<byte>>)
    requires ahead != []
    ensures var n := |Head(|ahead[0]|)|;
            && n <= |EncodeAll(ahead)| && EncodeAll(ahead)[..n] == Head(|ahead[0]|)
            && EncodeAll(ahead)[n..] == ahead[0] + EncodeAll(ahead[1..])
            && EncodeAll(ahead) == Head(|ahead[0]|) + (ahead[0] + EncodeAll(ahead[1..]))
  {
    var h, rest := Head(|ahead[0]|), ahead[0] + EncodeAll(ahead[1..]);
    Joined(h, ahead[0], EncodeAll(ahead[1..]));
    assert (h + rest)[..|h|] == h && (h + rest)[|h|..] == rest;
  }

  lemma FirstBorder(r: Reader, ahead: seq<seq<byte>>)
    requires BordersSafe(r, ahead) && |r.buf| > r.next
    ensures ahead != [] && |r.buf| - r.next >= |Head(|ahead[0]|)|
  {
    assert r.chunks[..0] == [];
    assert BorderSafe(r, ahead, 0);
  }

  lemma HeadKeeps(r: Reader, wire: seq<byte>, ahead: seq<seq<byte>>) returns (q: Reader)
    requires Standing(r, wire, ahead) && r.next == 0 && r.buf != []
    ensures ahead != [] && |r.buf| >= READ_HEAD_LEN
    ensures var p := Parse(r.buf[READ_HEAD_LEN..]);
            p.err == None && q == r.(buf := p.rest, next := p.value)
    ensures Standing(q, wire, ahead[1..]) && Due(q, wire, ahead[1..]) == Due(r, wire, ahead)
  {
    HeadBuffered(r, wire, ahead);
    q := HeadAligned(r, wire, ahead);
    HeadBorders(r, ahead, q);
  }

  /** A head that is buffered whole is read. */
  lemma HeadAligned(r: Reader, wire: seq<byte>, ahead: seq<seq<byte>>) returns (q: Reader)
    requires Aligned(r, wire, ahead) && r.next == 0 && ahead != [] && |r.buf| >= |Head(|ahead[0]|)|
    ensures |r.buf| >= READ_HEAD_LEN && Parse(r.buf[READ_HEAD_LEN..]).err == None
    ensures var p := Parse(r.buf[READ_HEAD_LEN..]); q == r.(buf := p.rest, next := p.value)
    ensures |r.buf| == |Head(|ahead[0]|)| + |q.buf| && q.next == |ahead[0]|
    ensures Aligned(q, wire, ahead[1..]) && Due(q, wire, ahead[1..]) == Due(r, wire, ahead)
  {
    var p, h := ahead[0], Head(|ahead[0]|);
    HeadBegins(r, wire, ahead, |h|);
    assert p in ahead;
    HeadRead(r.buf, |p|);
    q := r.(buf := r.buf[|h|..], next := |p|);
    assert r.buf == h + q.buf;
    HeadTaken(r, wire, ahead, q);
  }

  lemma HeadRead(buf: seq<byte>, len: nat)
    requires len < TWO64 && |buf| >= |Head(len)| && buf[..|Head(len)|] == Head(len)
    ensures Parse(buf[READ_HEAD_LEN..]) == Parsed(None, len, buf[|Head(len)|..])
  {
    var body := buf[|Head(len)|..];
    assert buf == Head(len) + body;
    assert buf[READ_HEAD_LEN..] == Uvarint(len) + body;
    ParseRoundTrip(len, body);
  }

  lemma HeadTaken(r: Reader, wire: seq<byte>, ahead: seq<seq<byte>>, q: Reader)
    requires Aligned(r, wire, ahead) && r.next == 0 && ahead != []
    requires r.buf == Head(|ahead[0]|) + q.buf && q == r.(buf := q.buf, next := |ahead[0]|)
    ensures Aligned(q, wire, ahead[1..]) && Due(q, wire, ahead[1..]) == Due(r, wire, ahead)
  {
    var u, v := Unread(r, wire), Unread(q, wire);
    var p, h := ahead[0], Head(|ahead[0]|);
    HeadFirst(ahead);
    assert u == u[0..];
    assert u == h + v;
    assert v == u[|h|..];
    Slices(p, EncodeAll(ahead[1..]), |p|);
  }

  lemma HeadBorders(r: Reader, ahead: seq<seq<byte>>, q: Reader)
    requires BordersSafe(r, ahead) && r.next == 0 && ahead != []
    requires |r.buf| == |Head(|ahead[0]|)| + |q.buf| && q.chunks == r.chunks && q.next == |ahead[0]|
    ensures BordersSafe(q, ahead[1..])
  {
    forall i | 0 <= i <= |q.chunks|
      ensures BorderSafe(q, ahead[1..], i)
    {
      assert BorderSafe(r, ahead, i);
    }
  }

  lemma ReadKeeps(s: System, k: nat, room: nat) returns (k': nat)
    requires Inv(s, k)
    ensures k' == k + HeadsRead(s.reader)
    ensures Inv(Next(s, Read(room)), k')
    ensures Poll(s.reader, room).1.Got? || Poll(s.reader, room).1.ReadPending?
  {
    var ahead := s.payloads[k..];
    var j := PollKeeps(s.reader, s.wire, ahead, room);
    k' := k + j;
    assert s.payloads[k'..] == ahead[j..];
    var (r, out) := Poll(s.reader, room);
    if out.Got? {
      assert s.delivered + out.data + Due(r, s.wire, ahead[j..]) == s.delivered + Due(s.reader, s.wire, ahead);
    }
  }

  lemma {:induction false} RunKeeps(s: System, k: nat, events: seq<Event>, t: System) returns (k': nat)
    requires Inv(s, k) && Run(s, events, t)
    ensures Inv(t, k')
    decreases |events|
  {
    if events == [] {
      k' := k;
    } else {
      var k1;
      match events[0] {
        case Write(buf, grant) => WriteKeeps(s, k, buf, grant); k1 := k;
        case Cut(n) => CutKeeps(s, k, n); k1 := k;
        case Read(room) => k1 := ReadKeeps(s, k, room);
      }
      k' := RunKeeps(Next(s, events[0]), k1, events[1..], t);
    }
  }

  lemma StartInv()
    ensures Inv(START, 0)
  {
    assert Flat([]) == [] && EncodeAll([]) == [];
    assert START.payloads[0..] == [];
  }

  /**
   * End to end: in every run the delivered bytes are a prefix of the accepted ones, no read
   * fails, and they are all of them once nothing is left on the way.
   */
  lemma DeliveredIsPrefix(events: seq<Event>, t: System)
    requires Run(START, events, t)
    ensures t.delivered <= t.accepted
    ensures Unread(t.reader, t.wire) == [] ==> t.delivered == t.accepted
    ensures forall room :: Poll(t.reader, room).1.Got? || Poll(t.reader, room).1.ReadPending?
  {
    StartInv();
    var k := RunKeeps(START, 0, events, t);
    forall room ensures Poll(t.reader, room).1.Got? || Poll(t.reader, room).1.ReadPending? {
      var _ := ReadKeeps(t, k, room);
    }
    if Unread(t.reader, t.wire) == [] {
      var ahead := t.payloads[k..];
      assert EncodeAll(ahead) == [];
      assert ahead == [];
    }
  }

  /** Reads one after the other, with the bytes they hand out. */
  function ReadMany(r: Reader, rooms: seq<nat>): (Reader, seq<byte>)
    decreases |rooms|
  {
    if rooms == [] then (r, [])
    else
      var (r1, out) := Poll(r, rooms[0]);
      var (r2, data) := ReadMany(r1, rooms[1..]);
      (r2, DataOf(out) + data)
  }

  lemma {:induction false} PollProgress(r: Reader, ahead: seq<seq<byte>>, room: nat)
    requires Standing(r, [], ahead) && Unread(r, []) != [] && room > 0
    ensures |Unread(Poll(r, room).0, [])| < |Unread(r, [])|
    decreases |r.chunks|
  {
    if CanDeliver(r) {
      DeliverProgress(r, ahead, room);
    } else {
      assert r.chunks != [];
      PullKeeps(r, [], ahead);
      PullAligned(r, [], ahead);
      PollProgress(r.(buf := r.buf + r.chunks[0], chunks := r.chunks[1..]), ahead, room);
    }
  }

  lemma DeliverProgress(r: Reader, ahead: seq<seq<byte>>, room: nat)
    requires Standing(r, [], ahead) && CanDeliver(r) && room > 0
    ensures |Unread(Deliver(r, room).0, [])| < |Unread(r, [])|
  {
    if r.next == 0 {
      HeadBuffered(r, [], ahead);
      var _ := HeadAligned(r, [], ahead);
    }
  }

  function DataOf(p: ReadPoll): seq<byte> {
    if p.Got? then p.data else []
  }

  lemma OneRead(r: Reader, ahead: seq<seq<byte>>, room: nat) returns (j: nat)
    requires Standing(r, [], ahead) && room > 0
    ensures j <= |ahead| && Standing(Poll(r, room).0, [], ahead[j..])
    ensures DataOf(Poll(r, room).1) + Due(Poll(r, room).0, [], ahead[j..]) == Due(r, [], ahead)
    ensures |Unread(r, [])| == 0 || |Unread(Poll(r, room).0, [])| < |Unread(r, [])|
    ensures Unread(r, []) == [] ==> Unread(Poll(r, room).0, []) == []
  {
    j := PollKeeps(r, [], ahead, room);
    if Poll(r, room).1.ReadPending? {
      assert ahead[j..] == ahead;
    }
    if Unread(r, []) != [] {
      PollProgress(r, ahead, room);
    } else {
      NothingLeft(r, room);
    }
  }

  lemma NothingDue(r: Reader, ahead: seq<seq<byte>>)
    requires Standing(r, [], ahead) && Unread(r, []) == []
    ensures Due(r, [], ahead) == []
  {
    assert EncodeAll(ahead) == [];
    assert ahead == [];
  }

  /** Once everything has arrived, as many non-empty reads as there are bytes deliver all that is due. */
  lemma {:induction false} ReadManyDrains(r: Reader, ahead: seq<seq<byte>>, rooms: seq<nat>)
    requires Standing(r, [], ahead)
    requires |rooms| >= |Unread(r, [])| && forall i :: 0 <= i < |rooms| ==> rooms[i] > 0
    ensures ReadMany(r, rooms).1 == Due(r, [], ahead)
    decreases |rooms|
  {
    if rooms == [] {
      NothingDue(r, ahead);
    } else {
      var j := OneRead(r, ahead, rooms[0]);
      ReadManyDrains(Poll(r, rooms[0]).0, ahead[j..], rooms[1..]);
    }
  }

  lemma {:induction false} NothingLeft(r: Reader, room: nat)
    requires Unread(r, []) == []
    ensures Unread(Poll(r, room).0, []) == []
    decreases |r.chunks|
  {
    if r.chunks != [] {
      assert Flat(r.chunks) == r.chunks[0] + Flat(r.chunks[1..]);
      NothingLeft(r.(buf := r.buf + r.chunks[0], chunks := r.chunks[1..]), room);
    }
  }

  /** After any run whose bytes have all been cut into chunks, reading on delivers everything accepted. */
  lemma RunThenDrain(events: seq<Event>, t: System, rooms: seq<nat>)
    requires Run(START, events, t) && t.wire == []
    requires |rooms| >= |Unread(t.reader, [])| && forall i :: 0 <= i < |rooms| ==> rooms[i] > 0
    ensures t.delivered + ReadMany(t.reader, rooms).1 == t.accepted
  {
    StartInv();
    var k := RunKeeps(START, 0, events, t);
    ReadManyDrains(t.reader, t.payloads[k..], rooms);
  }

  /** A frame cut right behind its head, a safe cut, reads as the end of the stream. */
  lemma FalseEndOfStream(payload: seq<byte>, room: nat)
    requires 0 < |payload| < TWO64 && room > 0
    ensures HeadSafe([payload], |Head(|payload|)|)
    ensures Poll(Reader(Head(|payload|), 0, [], false), room) == (Reader([], |payload|, [], false), Got([]))
  {
    var h := Head(|payload|);
    assert h[READ_HEAD_LEN..] == Uvarint(|payload|) + [];
    ParseRoundTrip(|payload|, []);
  }
}
