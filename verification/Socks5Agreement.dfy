/** The SOCKS5 server reaches the same result however the client's messages were joined together. */
module Socks5Agreement {
  import opened Bytes
  import opened AddrCodec
  import opened Chunked
  import opened Users
  import opened Socks5
  import opened Socks5Client

  /** Chunks that carry these messages and then the payload, cut at message borders or inside the payload. */
  predicate Grouped(chunks: seq<seq<byte>>, msgs: seq<seq<byte>>, payload: seq<byte>)
    decreases |msgs|
  {
    chunks != [] && msgs != []
    && exists k :: 1 <= k <= |msgs| && GroupOf(chunks, msgs, payload, k)
  }

  /** The first chunk carries exactly the first `k` messages, or all of them and some payload. */
  predicate GroupOf(chunks: seq<seq<byte>>, msgs: seq<seq<byte>>, payload: seq<byte>, k: nat)
    requires chunks != [] && 1 <= k <= |msgs|
    decreases |msgs|, 0
  {
    if k < |msgs| then chunks[0] == Flat(msgs[..k]) && Grouped(chunks[1..], msgs[k..], payload)
    else
      var m := Flat(msgs);
      m <= chunks[0] && chunks[0][|m|..] + Flat(chunks[1..]) == payload
  }

  /**
   * How many payload bytes come along in the read that brings the end of the `len` message bytes
   * still to come: those of the chunk that holds it, as far as the buffer takes them.
   */
  function Along(chunks: seq<seq<byte>>, len: nat): nat {
    if chunks == [] then 0
    else if |chunks[0]| < len then Along(chunks[1..], len - |chunks[0]|)
    else if BUF_LEN <= len then 0
    else Min(|chunks[0]|, BUF_LEN) - len
  }

  /** What one read of such chunks yields: `k` messages and then the payload bytes `q`. */
  ghost predicate Yields(
    data: seq<byte>, rest: seq<seq<byte>>, msgs: seq<seq<byte>>, payload: seq<byte>, k: nat, q: seq<byte>)
  {
    && 1 <= k <= |msgs| && data == Flat(msgs[..k]) + q
    && (k < |msgs| ==> q == [] && Grouped(rest, msgs[k..], payload))
    && (k == |msgs| ==> q + Flat(rest) == payload)
  }

  /** A chunk that carries the last messages `m` whole, read with room for at least them. */
  lemma ReadLast(chunks: seq<seq<byte>>, m: seq<byte>, payload: seq<byte>, cap: nat) returns (q: seq<byte>)
    requires chunks != [] && m <= chunks[0] && chunks[0][|m|..] + Flat(chunks[1..]) == payload && |m| <= cap
    ensures ReadChunk(chunks, cap).0 == m + q && q + Flat(ReadChunk(chunks, cap).1) == payload
  {
    var (data, rest) := ReadChunk(chunks, cap);
    q := data[|m|..];
    assert Flat(chunks) == m + payload by {
      assert chunks[0] == m + chunks[0][|m|..];
    }
    SamePrefix(m, payload, q + Flat(rest));
  }

  lemma SamePrefix(m: seq<byte>, x: seq<byte>, y: seq<byte>)
    requires m + x == m + y
    ensures x == y
  {
    assert (m + x)[|m|..] == x && (m + y)[|m|..] == y;
  }

  /** The payload bytes that came along, after a read that brought `k` messages and the bytes `q`. */
  ghost predicate AlongAfter(
    chunks: seq<seq<byte>>, rest: seq<seq<byte>>, msgs: seq<seq<byte>>, k: nat, q: seq<byte>)
    requires k <= |msgs|
  {
    Along(chunks, |Flat(msgs)|) == if k < |msgs| then Along(rest, |Flat(msgs[k..])|) else |q|
  }

  lemma NotEmpty(msgs: seq<seq<byte>>, k: nat)
    requires k < |msgs| && [] !in msgs
    ensures Flat(msgs[k..]) != []
  {
    assert msgs[k] in msgs && msgs[k..][0] == msgs[k];
  }

  lemma ReadGroup(chunks: seq<seq<byte>>, msgs: seq<seq<byte>>, payload: seq<byte>) returns (k: nat, q: seq<byte>)
    requires Grouped(chunks, msgs, payload) && |Flat(msgs)| < BUF_LEN && [] !in msgs
    ensures var (data, rest) := ReadChunk(chunks, BUF_LEN);
            Yields(data, rest, msgs, payload, k, q) && AlongAfter(chunks, rest, msgs, k, q)
  {
    k :| 1 <= k <= |msgs| && GroupOf(chunks, msgs, payload, k);
    if k < |msgs| {
      q := [];
      ReadSome(chunks, msgs, payload, k);
    } else {
      q := ReadEnd(chunks, msgs, payload);
    }
  }

  lemma ReadSome(chunks: seq<seq<byte>>, msgs: seq<seq<byte>>, payload: seq<byte>, k: nat)
    requires chunks != [] && 1 <= k < |msgs| && GroupOf(chunks, msgs, payload, k)
    requires |Flat(msgs)| < BUF_LEN && [] !in msgs
    ensures var (data, rest) := ReadChunk(chunks, BUF_LEN);
            Yields(data, rest, msgs, payload, k, []) && AlongAfter(chunks, rest, msgs, k, [])
  {
    assert msgs == msgs[..k] + msgs[k..];
    FlatAppend(msgs[..k], msgs[k..]);
    NotEmpty(msgs, k);
  }

  lemma ReadEnd(chunks: seq<seq<byte>>, msgs: seq<seq<byte>>, payload: seq<byte>) returns (q: seq<byte>)
    requires chunks != [] && 1 <= |msgs| && GroupOf(chunks, msgs, payload, |msgs|) && |Flat(msgs)| < BUF_LEN
    ensures var (data, rest) := ReadChunk(chunks, BUF_LEN);
            Yields(data, rest, msgs, payload, |msgs|, q) && AlongAfter(chunks, rest, msgs, |msgs|, q)
  {
    assert msgs[..|msgs|] == msgs;
    q := ReadLast(chunks, Flat(msgs), payload, BUF_LEN);
  }

  /** Credentials and an address that the client can put on the wire whole. */
  predicate Proper(up: Option<PlainText>, a: Addr) {
    && Sendable(a)
    && (up.Some? ==> 1 <= |up.value.user| <= 255 && |up.value.pass| <= 255 && |up.value.user| + |up.value.pass| >= 2)
  }

  predicate Admits(um: Auth, up: Option<PlainText>) {
    if up.None? then um.None? else um.Some? && AuthStr(up.value) in um.value
  }

  /** The target the server reports for the address `a` the client was given. */
  function Target(world: World, a: Addr): Addr {
    match Canonical(a).addr
    case AtName(n, p) =>
      (match world.parseIp(n)
       case None => Addr(AtName(n, p), TCP)
       case Some(ip) => Addr(AtNameAndSocket(n, Socket(ip, p), p), TCP))
    case _ => Canonical(a)
  }

  function Replies(up: Option<PlainText>): seq<byte> {
    [VERSION5, MethodOf(up)] + (if up.Some? then [1, 0] else []) + COMMON_REPLY
  }

  /** What the request stage makes of payload bytes `q` buffered behind the request. */
  function Expected(world: World, a: Addr, up: Option<PlainText>, q: seq<byte>, conn: Conn): Outcome {
    var (early, c) := FirstRead(world, q, conn.(sent := conn.sent + COMMON_REPLY));
    Accepted(Target(world, a), early, up, c)
  }

  lemma SocketRequest(world: World, so: Socket, q: seq<byte>, buf: seq<byte>)
    requires [VERSION5, CMD_CONNECT, 0] + EncodeSocket(so) + q <= buf
    ensures |buf| >= 7
    ensures var e := 3 + |EncodeSocket(so)|;
            ParseHost(world, buf) == At(Some(so.ip), None, e) && FromBe16(buf[e - 2..]) == so.port
  {
    var m := [VERSION5, CMD_CONNECT, 0] + EncodeSocket(so) + q;
    var e := 3 + |EncodeSocket(so)|;
    assert buf[..|m|] == m;
    Be16RoundTrip(so.port, []);
    assert buf[e - 2] == m[e - 2] && buf[e - 1] == m[e - 1];
    match so.ip {
      case V4(o) => assert buf[4..8] == m[4..8] == o;
      case V6(o) => assert buf[4..20] == m[4..20] == o;
    }
  }

  lemma NameRequest(world: World, n: seq<byte>, p: Port, q: seq<byte>, buf: seq<byte>)
    requires |n| <= 255 && [VERSION5, CMD_CONNECT, 0] + EncodeName(n, p) + q <= buf
    ensures |buf| >= 7
    ensures var e := 7 + |n|;
            ParseHost(world, buf) == At(world.parseIp(n), Some(n), e) && FromBe16(buf[e - 2..]) == p
  {
    var m := [VERSION5, CMD_CONNECT, 0] + EncodeName(n, p) + q;
    var e := 7 + |n|;
    assert buf[..|m|] == m;
    Be16RoundTrip(p, []);
    assert buf[3] == m[3] && buf[4] == m[4];
    assert buf[e - 2] == m[e - 2] && buf[e - 1] == m[e - 1];
    assert buf[5..5 + |n|] == m[5..5 + |n|] == n;
  }

  /** The server parses the address the client encoded, at its exact end. */
  lemma RequestParses(world: World, a: Addr, q: seq<byte>, buf: seq<byte>)
    requires Sendable(a) && RequestMsg(a) + q <= buf
    ensures |buf| >= 7
    ensures var h := ParseHost(world, buf);
            h.At? && h.end == |RequestMsg(a)| && TargetOf(h, FromBe16(buf[h.end - 2..])) == Target(world, a)
  {
    match a.addr {
      case AtSocket(so) => SocketRequest(world, so, q, buf);
      case AtName(n, p) => NameRequest(world, n, p, q, buf);
      case AtNameAndSocket(n, so, p) =>
        if |n| > 255 {
          SocketRequest(world, so, q, buf);
        } else {
          NameRequest(world, n, p, q, buf);
        }
    }
  }

  lemma RequestStage(world: World, w: Work, a: Addr, up: Option<PlainText>, q: seq<byte>)
    requires Sendable(a) && Sound(w) && w.buf[..w.n] == RequestMsg(a) + q
    ensures Request(world, w, up) == Expected(world, a, up, q, w.conn)
  {
    var m := RequestMsg(a);
    assert m + q <= w.buf;
    RequestParses(world, a, q, w.buf);
    assert w.buf[0] == (m + q)[0] == VERSION5 && w.buf[1] == (m + q)[1] == CMD_CONNECT;
    assert w.buf[|m|..w.n] == (m + q)[|m|..] == q;
  }

  /** After a read of grouped chunks, the bytes read stand at the front of the buffer. */
  lemma ReadWork(w: Work, msgs: seq<seq<byte>>, payload: seq<byte>) returns (k: nat, q: seq<byte>)
    requires Grouped(w.conn.chunks, msgs, payload) && |Flat(msgs)| < |w.buf| == BUF_LEN && [] !in msgs
    ensures var r := Read(w); Yields(r.buf[..r.n], r.conn.chunks, msgs, payload, k, q) && r.conn.sent == w.conn.sent
    ensures AlongAfter(w.conn.chunks, Read(w).conn.chunks, msgs, k, q)
  {
    k, q := ReadGroup(w.conn.chunks, msgs, payload);
  }

  lemma MessageLengths(up: Option<PlainText>, a: Addr)
    requires Proper(up, a)
    ensures 7 <= |RequestMsg(a)| <= 262
    ensures up.Some? ==> 5 <= |AuthMsg(up.value)| <= 513
  {
  }

  lemma FlatOne(m: seq<byte>)
    ensures Flat([m]) == m && [m][..1] == [m]
  {
    assert Flat([m]) == m + [];
  }

  /** A fresh read brings the request, and perhaps payload behind it. */
  lemma ReadRequest(w: Work, a: Addr, payload: seq<byte>) returns (q: seq<byte>)
    requires Sendable(a) && |w.buf| == BUF_LEN && Grouped(w.conn.chunks, [RequestMsg(a)], payload)
    ensures var v := Read(w);
            v.buf[..v.n] == RequestMsg(a) + q && q + Flat(v.conn.chunks) == payload && v.conn.sent == w.conn.sent
    ensures |q| == Along(w.conn.chunks, |RequestMsg(a)|)
  {
    MessageLengths(None, a);
    var k;
    FlatOne(RequestMsg(a));
    k, q := ReadWork(w, [RequestMsg(a)], payload);
  }

  /** What is said about the end of the handshake, `q` being the payload that came with the request. */
  ghost predicate Reached(
    r: Outcome, world: World, a: Addr, up: Option<PlainText>, payload: seq<byte>, sent: seq<byte>, q: seq<byte>)
  {
    exists conn: Conn ::
      r == Expected(world, a, up, q, conn) && q + Flat(conn.chunks) == payload && conn.sent == sent
  }

  /** The request is already in the buffer. */
  lemma FinishBuffered(
    world: World, w: Work, remain: nat, a: Addr, up: Option<PlainText>, payload: seq<byte>, q: seq<byte>)
    requires Sendable(a) && Sound(w) && 0 < remain <= w.n
    requires w.buf[w.n - remain..w.n] == RequestMsg(a) + q && q + Flat(w.conn.chunks) == payload
    ensures Reached(Request(world, RequestWork(w, remain), up), world, a, up, payload, w.conn.sent, q)
  {
    var v := RequestWork(w, remain);
    assert v.buf[..v.n] == w.buf[w.n - remain..w.n];
    RequestStage(world, v, a, up, q);
    assert Request(world, v, up) == Expected(world, a, up, q, w.conn);
  }

  /** The request is still to be read. */
  lemma FinishReading(world: World, w: Work, a: Addr, up: Option<PlainText>, payload: seq<byte>) returns (q: seq<byte>)
    requires Sendable(a) && Sound(w) && |w.buf| == BUF_LEN
    requires Grouped(w.conn.chunks, [RequestMsg(a)], payload)
    ensures Reached(Request(world, RequestWork(w, 0), up), world, a, up, payload, w.conn.sent, q)
    ensures |q| == Along(w.conn.chunks, |RequestMsg(a)|)
  {
    q := ReadRequest(w, a, payload);
    var v := Read(w);
    RequestStage(world, v, a, up, q);
    assert Request(world, v, up) == Expected(world, a, up, q, v.conn);
  }

  lemma ServeHello(um: Auth, world: World, w: Work, m: byte)
    requires Sound(w) && w.n >= 3 && w.buf[..3] == [VERSION5, 1, m]
    ensures w.buf[2] == m
    ensures Serve(um, world, w) == Conclude(world, Negotiate(um, 2, 3, w, w.n - 3, false, false))
  {
    assert w.buf[0] == w.buf[..3][0] && w.buf[1] == w.buf[..3][1] && w.buf[2] == w.buf[..3][2];
  }

  /** The negotiation succeeds for this user, with `t` left over at the end of the bytes in the buffer. */
  ghost predicate Admitted(r: Negotiated, len: nat, up: Option<PlainText>, t: seq<byte>, conn: Conn) {
    && r.Authed? && r.user == up && r.remain == |t| && Sound(r.w) && |r.w.buf| == len && |t| <= r.w.n
    && r.w.buf[r.w.n - |t|..r.w.n] == t && r.w.conn == conn
  }

  /** The rest of the handshake once the user is known and `t` is left in the buffer. */
  lemma FinishAuthed(
    world: World, r: Negotiated, len: nat, conn: Conn, a: Addr, up: Option<PlainText>, payload: seq<byte>, t: seq<byte>,
    k: nat, q0: seq<byte>)
    returns (q: seq<byte>)
    requires Sendable(a) && Admitted(r, len, up, t, conn) && len == BUF_LEN
    requires k == 0 ==> t == [] && Grouped(conn.chunks, [RequestMsg(a)], payload)
    requires k > 0 ==> t == RequestMsg(a) + q0 && q0 + Flat(conn.chunks) == payload
    ensures Reached(Conclude(world, r), world, a, up, payload, conn.sent, q)
    ensures |q| == if k == 0 then Along(conn.chunks, |RequestMsg(a)|) else |q0|
  {
    if k == 0 {
      q := FinishReading(world, r.w, a, up, payload);
    } else {
      q := q0;
      FinishBuffered(world, r.w, |t|, a, up, payload, q0);
    }
  }

  /** A reply overwrites the first two bytes of the buffer only. */
  lemma ReplyKeeps(w: Work, x: byte, y: byte)
    requires Sound(w) && w.n >= 3
    ensures Reply(w, x, y).buf[3..w.n] == w.buf[3..w.n]
  {
    var v := Reply(w, x, y);
    assert v.buf[2..] == w.buf[2..];
    assert v.buf[3..w.n] == v.buf[2..][1..w.n - 2];
  }

  /** Without users: the reply to the hello leaves what came behind it. */
  lemma NegotiateNone(w: Work)
    requires Sound(w) && w.n >= 3 && w.buf[2] == AUTH_NONE
    ensures Admitted(Negotiate(None, 2, 3, w, w.n - 3, false, false), |w.buf|, None, w.buf[3..w.n],
                     w.conn.(sent := w.conn.sent + [VERSION5, AUTH_NONE]))
  {
    ReplyKeeps(w, VERSION5, AUTH_NONE);
    NegotiateNoneIs(w);
  }

  lemma NegotiateNoneIs(w: Work)
    requires Sound(w) && w.n >= 3 && w.buf[2] == AUTH_NONE
    ensures Negotiate(None, 2, 3, w, w.n - 3, false, false) == Authed(Reply(w, VERSION5, AUTH_NONE), w.n - 3, None)
  {
  }

  lemma SuffixStays(buf: seq<byte>, from: nat, n: nat, m: seq<byte>, t: seq<byte>)
    requires from <= n <= |buf| && buf[from..n] == m + t
    ensures n - |t| == from + |m| && buf[n - |t|..n] == t
  {
    assert buf[from + |m|..n] == buf[from..n][|m|..];
  }

  /** The first read brought the hello and then `t`: nothing, or the request and payload `q0`. */
  lemma AgreesHelloAnd(world: World, w: Work, a: Addr, payload: seq<byte>, t: seq<byte>, k: nat, q0: seq<byte>)
    returns (q: seq<byte>)
    requires Sendable(a) && Sound(w) && |w.buf| == BUF_LEN
    requires w.n >= 3 && w.buf[..3] == HelloMsg(None) && w.buf[3..w.n] == t
    requires k == 0 ==> t == [] && Grouped(w.conn.chunks, [RequestMsg(a)], payload)
    requires k > 0 ==> t == RequestMsg(a) + q0 && q0 + Flat(w.conn.chunks) == payload
    ensures Reached(Serve(None, world, w), world, a, None, payload, w.conn.sent + [VERSION5, AUTH_NONE], q)
    ensures |q| == if k == 0 then Along(w.conn.chunks, |RequestMsg(a)|) else |q0|
  {
    ServeHello(None, world, w, AUTH_NONE);
    NegotiateNone(w);
    q := FinishAuthed(world, Negotiate(None, 2, 3, w, w.n - 3, false, false), |w.buf|,
                      w.conn.(sent := w.conn.sent + [VERSION5, AUTH_NONE]), a, None, payload, t, k, q0);
  }

  /** The server's first read, into a fresh buffer. */
  lemma ReadHello(um: Auth, world: World, chunks: seq<seq<byte>>, msgs: seq<seq<byte>>, payload: seq<byte>)
    returns (w: Work, k: nat, q: seq<byte>)
    requires Grouped(chunks, msgs, payload) && |Flat(msgs)| < BUF_LEN && [] !in msgs
    ensures Sound(w) && |w.buf| == BUF_LEN && w.conn.sent == []
    ensures Handshake(um, world, Conn(chunks, []), None) == Serve(um, world, w)
    ensures Yields(w.buf[..w.n], w.conn.chunks, msgs, payload, k, q)
    ensures AlongAfter(chunks, w.conn.chunks, msgs, k, q)
  {
    var start := Work(Zeros(BUF_LEN), 0, Conn(chunks, []));
    k, q := ReadWork(start, msgs, payload);
    w := Read(start);
  }

  /** What follows the first read of a client without credentials. */
  lemma AfterHello(world: World, w: Work, a: Addr, payload: seq<byte>, k: nat, q0: seq<byte>) returns (q: seq<byte>)
    requires Sendable(a) && Sound(w) && |w.buf| == BUF_LEN
    requires Yields(w.buf[..w.n], w.conn.chunks, Messages(None, a), payload, k, q0)
    ensures Reached(Serve(None, world, w), world, a, None, payload, w.conn.sent + [VERSION5, AUTH_NONE], q)
    ensures |q| == if k == 1 then Along(w.conn.chunks, |RequestMsg(a)|) else |q0|
  {
    var msgs, hello := Messages(None, a), HelloMsg(None);
    FlatMessages(None, a);
    if k == 1 {
      HelloOnly(msgs, w.buf[..w.n]);
      assert msgs[1..] == [RequestMsg(a)];
      q := AgreesHelloAnd(world, w, a, payload, [], 0, []);
    } else {
      assert msgs[..k] == msgs;
      SplitFront(w.buf, w.n, hello, RequestMsg(a) + q0);
      q := AgreesHelloAnd(world, w, a, payload, RequestMsg(a) + q0, 1, q0);
    }
  }

  lemma AlongTwo(chunks: seq<seq<byte>>, rest: seq<seq<byte>>, a: Addr, k: nat, q: seq<byte>)
    requires Sendable(a)
    ensures var msgs := Messages(None, a);
            && [] !in msgs && |Flat(msgs)| < BUF_LEN
            && (1 <= k <= |msgs| && AlongAfter(chunks, rest, msgs, k, q) ==>
                  Along(chunks, |Flat(msgs)|) == if k == 1 then Along(rest, |RequestMsg(a)|) else |q|)
  {
    var msgs := Messages(None, a);
    FlatMessages(None, a);
    MessageLengths(None, a);
    FlatOne(RequestMsg(a));
    assert msgs[1..] == [RequestMsg(a)];
  }

  /** For a client without credentials. */
  lemma AgreesWithoutUser(world: World, chunks: seq<seq<byte>>, a: Addr, payload: seq<byte>) returns (q: seq<byte>)
    requires Sendable(a) && Grouped(chunks, Messages(None, a), payload)
    ensures Reached(Handshake(None, world, Conn(chunks, []), None), world, a, None, payload, [VERSION5, AUTH_NONE], q)
    ensures |q| == Along(chunks, |Flat(Messages(None, a))|)
  {
    AlongTwo(chunks, [], a, 0, []);
    var w, k, q0 := ReadHello(None, world, chunks, Messages(None, a), payload);
    AlongTwo(chunks, w.conn.chunks, a, k, q0);
    q := AfterHello(world, w, a, payload, k, q0);
    assert w.conn.sent + [VERSION5, AUTH_NONE] == [VERSION5, AUTH_NONE];
  }

  lemma SplitFront(buf: seq<byte>, n: nat, m: seq<byte>, rest: seq<byte>)
    requires n <= |buf| && buf[..n] == m + rest
    ensures |m| <= n && buf[..|m|] == m && buf[|m|..n] == rest
  {
    assert buf[..|m|] == buf[..n][..|m|] && buf[|m|..n] == buf[..n][|m|..];
  }

  lemma AuthParses(u: PlainText, t: seq<byte>, bs: seq<byte>, n: nat)
    requires 1 <= |u.user| <= 255 && |u.pass| <= 255 && |u.user| + |u.pass| >= 2
    requires bs == AuthMsg(u) + t && n >= |bs|
    ensures ParseAuth(bs, n) == Given(u, |AuthMsg(u)|)
  {
    var ul, pl := |u.user|, |u.pass|;
    assert bs[1] == ul && bs[2 + ul] == pl;
    assert bs[2..2 + ul] == u.user;
    assert bs[3 + ul..3 + ul + pl] == u.pass;
  }

  /** The password message is in the buffer behind the hello. */
  lemma NegotiateBuffered(um: Auth, w: Work, u: PlainText, t: seq<byte>)
    requires Sound(w) && w.n > 3 && w.buf[2] == AUTH_PASSWORD
    requires Proper(Some(u), Addr(AtName([], 0), TCP)) && Admits(um, Some(u))
    requires w.buf[3..w.n] == AuthMsg(u) + t
    ensures Admitted(Negotiate(um, 2, 3, w, w.n - 3, false, false), |w.buf|, Some(u), t,
                     w.conn.(sent := w.conn.sent + [VERSION5, AUTH_PASSWORD] + [SUBNEGOTIATION, SUCCESS]))
  {
    var v := Reply(w, VERSION5, AUTH_PASSWORD);
    ReplyKeeps(w, VERSION5, AUTH_PASSWORD);
    AuthParses(u, t, v.buf[3..v.n], v.n);
    NegotiateGiven(um, w, u, |AuthMsg(u)|);
    AdmittedTail(v, u, AuthMsg(u), t);
  }

  lemma AdmittedTail(v: Work, u: PlainText, m: seq<byte>, t: seq<byte>)
    requires Sound(v) && v.n >= 3 && v.buf[3..v.n] == m + t
    ensures Admitted(Authed(Write(v, [SUBNEGOTIATION, SUCCESS]), v.n - 3 - |m|, Some(u)), |v.buf|, Some(u), t,
                     v.conn.(sent := v.conn.sent + [SUBNEGOTIATION, SUCCESS]))
  {
    SuffixStays(v.buf, 3, v.n, m, t);
  }

  lemma NegotiateGiven(um: Auth, w: Work, u: PlainText, len: nat)
    requires Sound(w) && w.n > 3 && w.buf[2] == AUTH_PASSWORD && um.Some? && AuthStr(u) in um.value && len <= w.n - 3
    requires var v := Reply(w, VERSION5, AUTH_PASSWORD); ParseAuth(v.buf[3..v.n], v.n) == Given(u, len)
    ensures Negotiate(um, 2, 3, w, w.n - 3, false, false)
         == Authed(Write(Reply(w, VERSION5, AUTH_PASSWORD), [SUBNEGOTIATION, SUCCESS]), w.n - 3 - len, Some(u))
  {
  }

  /** The password message is still to be read. */
  lemma NegotiateReading(um: Auth, w: Work, u: PlainText, t: seq<byte>)
    requires Sound(w) && w.n == 3 && w.buf[2] == AUTH_PASSWORD
    requires Proper(Some(u), Addr(AtName([], 0), TCP)) && Admits(um, Some(u))
    requires var v := Read(Reply(w, VERSION5, AUTH_PASSWORD)); v.buf[..v.n] == AuthMsg(u) + t
    ensures var v := Read(Reply(w, VERSION5, AUTH_PASSWORD));
            Admitted(Negotiate(um, 2, 3, w, 0, false, false), |w.buf|, Some(u), t,
                     v.conn.(sent := v.conn.sent + [SUBNEGOTIATION, SUCCESS]))
  {
    var v := Read(Reply(w, VERSION5, AUTH_PASSWORD));
    AuthParses(u, t, v.buf[..v.n], v.n);
    assert v.buf[0..v.n] == v.buf[..v.n];
    SuffixStays(v.buf, 0, v.n, AuthMsg(u), t);
  }

  /** What a read of a password message and perhaps more leaves behind the message. */
  lemma TailOfAuth(
    data: seq<byte>, rest: seq<seq<byte>>, up: PlainText, a: Addr, payload: seq<byte>, k: nat, q: seq<byte>)
    returns (t: seq<byte>)
    requires Yields(data, rest, [AuthMsg(up), RequestMsg(a)], payload, k, q)
    ensures data == AuthMsg(up) + t
    ensures k == 1 ==> t == [] && Grouped(rest, [RequestMsg(a)], payload)
    ensures k == 2 ==> t == RequestMsg(a) + q && q + Flat(rest) == payload
  {
    var auth, req := AuthMsg(up), RequestMsg(a);
    var msgs := [auth, req];
    assert msgs[1..] == [req];
    FlatOne(req);
    FlatOne(auth);
    if k == 1 {
      t := [];
      assert msgs[..1] == [auth];
    } else {
      t := req + q;
      assert msgs[..2] == msgs;
      assert data == auth + req + q == auth + t;
    }
  }

  /** A fresh read brings the password message and then `t`: nothing, or the request and payload `q`. */
  lemma ReadAuth(v: Work, u: PlainText, a: Addr, payload: seq<byte>) returns (k: nat, q: seq<byte>, t: seq<byte>)
    requires Proper(Some(u), a) && |v.buf| == BUF_LEN && Grouped(v.conn.chunks, [AuthMsg(u), RequestMsg(a)], payload)
    ensures var x := Read(v);
            && x.buf[..x.n] == AuthMsg(u) + t && x.conn.sent == v.conn.sent && k >= 1
            && (k == 1 ==> t == [] && Grouped(x.conn.chunks, [RequestMsg(a)], payload))
            && (k > 1 ==> t == RequestMsg(a) + q && q + Flat(x.conn.chunks) == payload)
            && Along(v.conn.chunks, |AuthMsg(u)| + |RequestMsg(a)|)
               == if k == 1 then Along(x.conn.chunks, |RequestMsg(a)|) else |q|
  {
    var msgs := [AuthMsg(u), RequestMsg(a)];
    MessageLengths(Some(u), a);
    FlatOne(RequestMsg(a));
    assert msgs[1..] == [RequestMsg(a)];
    k, q := ReadWork(v, msgs, payload);
    var x := Read(v);
    t := TailOfAuth(x.buf[..x.n], x.conn.chunks, u, a, payload, k, q);
  }

  /** The first read brought the hello alone. */
  lemma AgreesHelloAlone(um: Auth, world: World, w: Work, u: PlainText, a: Addr, payload: seq<byte>)
    returns (q: seq<byte>)
    requires Proper(Some(u), a) && Admits(um, Some(u)) && Sound(w) && |w.buf| == BUF_LEN
    requires w.buf[..w.n] == HelloMsg(Some(u)) && Grouped(w.conn.chunks, [AuthMsg(u), RequestMsg(a)], payload)
    ensures Reached(Serve(um, world, w), world, a, Some(u), payload,
                    w.conn.sent + [VERSION5, AUTH_PASSWORD] + [SUBNEGOTIATION, SUCCESS], q)
    ensures |q| == Along(w.conn.chunks, |AuthMsg(u)| + |RequestMsg(a)|)
  {
    assert w.n == 3;
    ServeHello(um, world, w, AUTH_PASSWORD);
    var v := Reply(w, VERSION5, AUTH_PASSWORD);
    var x := Read(v);
    var k, q0, t := ReadAuth(v, u, a, payload);
    NegotiateReading(um, w, u, t);
    q := FinishAuthed(world, Negotiate(um, 2, 3, w, 0, false, false), |w.buf|,
                      x.conn.(sent := x.conn.sent + [SUBNEGOTIATION, SUCCESS]), a, Some(u), payload, t, k - 1, q0);
  }

  /** The first read brought the hello and the password message, perhaps more. */
  lemma AgreesHelloAndAuth(
    um: Auth, world: World, w: Work, u: PlainText, a: Addr, payload: seq<byte>, k: nat, q0: seq<byte>)
    returns (q: seq<byte>)
    requires Proper(Some(u), a) && Admits(um, Some(u)) && Sound(w) && |w.buf| == BUF_LEN
    requires w.n >= 3 && w.buf[..3] == HelloMsg(Some(u))
    requires Yields(w.buf[3..w.n], w.conn.chunks, [AuthMsg(u), RequestMsg(a)], payload, k, q0)
    ensures Reached(Serve(um, world, w), world, a, Some(u), payload,
                    w.conn.sent + [VERSION5, AUTH_PASSWORD] + [SUBNEGOTIATION, SUCCESS], q)
    ensures |q| == if k == 1 then Along(w.conn.chunks, |RequestMsg(a)|) else |q0|
  {
    MessageLengths(Some(u), a);
    ServeHello(um, world, w, AUTH_PASSWORD);
    var t := TailOfAuth(w.buf[3..w.n], w.conn.chunks, u, a, payload, k, q0);
    NegotiateBuffered(um, w, u, t);
    q := FinishAuthed(world, Negotiate(um, 2, 3, w, w.n - 3, false, false), |w.buf|,
                      w.conn.(sent := w.conn.sent + [VERSION5, AUTH_PASSWORD] + [SUBNEGOTIATION, SUCCESS]),
                      a, Some(u), payload, t, k - 1, q0);
  }

  lemma MessagesLeft(u: PlainText, a: Addr)
    requires Proper(Some(u), a)
    ensures var msgs := Messages(Some(u), a);
            && |msgs| == 3 && [] !in msgs && |Flat(msgs)| < BUF_LEN
            && |Flat(msgs[1..])| == |AuthMsg(u)| + |RequestMsg(a)|
            && msgs[1..] == [AuthMsg(u), RequestMsg(a)] && |Flat(msgs[2..])| == |RequestMsg(a)|
  {
    var msgs := Messages(Some(u), a);
    FlatMessages(Some(u), a);
    MessageLengths(Some(u), a);
    FlatOne(RequestMsg(a));
    assert msgs[1..] == [AuthMsg(u), RequestMsg(a)] && msgs[2..] == [RequestMsg(a)];
    assert Flat(msgs) == HelloMsg(Some(u)) + Flat(msgs[1..]);
  }

  /** What follows the first read of a client with credentials. */
  lemma AfterHelloOf(um: Auth, world: World, w: Work, u: PlainText, a: Addr, payload: seq<byte>, k: nat, q0: seq<byte>)
    returns (q: seq<byte>)
    requires Proper(Some(u), a) && Admits(um, Some(u)) && Sound(w) && |w.buf| == BUF_LEN
    requires Yields(w.buf[..w.n], w.conn.chunks, Messages(Some(u), a), payload, k, q0)
    ensures Reached(Serve(um, world, w), world, a, Some(u), payload,
                    w.conn.sent + [VERSION5, AUTH_PASSWORD] + [SUBNEGOTIATION, SUCCESS], q)
    ensures |q| == if k == 1 then Along(w.conn.chunks, |AuthMsg(u)| + |RequestMsg(a)|)
                   else if k == 2 then Along(w.conn.chunks, |RequestMsg(a)|) else |q0|
  {
    MessagesLeft(u, a);
    if k == 1 {
      HelloOnly(Messages(Some(u), a), w.buf[..w.n]);
      q := AgreesHelloAlone(um, world, w, u, a, payload);
    } else {
      HelloAndMore(w, u, a, payload, k, q0);
      q := AgreesHelloAndAuth(um, world, w, u, a, payload, k - 1, q0);
    }
  }

  lemma AlongThree(chunks: seq<seq<byte>>, rest: seq<seq<byte>>, u: PlainText, a: Addr, k: nat, q: seq<byte>)
    requires Proper(Some(u), a)
    ensures var msgs := Messages(Some(u), a);
            && [] !in msgs && |Flat(msgs)| < BUF_LEN
            && (1 <= k <= |msgs| && AlongAfter(chunks, rest, msgs, k, q) ==>
                  Along(chunks, |Flat(msgs)|) == if k == 1 then Along(rest, |AuthMsg(u)| + |RequestMsg(a)|)
                                                 else if k == 2 then Along(rest, |RequestMsg(a)|) else |q|)
  {
    MessagesLeft(u, a);
  }

  /** For a client with credentials. */
  lemma AgreesWithUser(um: Auth, world: World, chunks: seq<seq<byte>>, u: PlainText, a: Addr, payload: seq<byte>)
    returns (q: seq<byte>)
    requires Proper(Some(u), a) && Admits(um, Some(u)) && Grouped(chunks, Messages(Some(u), a), payload)
    ensures Reached(Handshake(um, world, Conn(chunks, []), None), world, a, Some(u), payload,
                    [VERSION5, AUTH_PASSWORD] + [SUBNEGOTIATION, SUCCESS], q)
    ensures |q| == Along(chunks, |Flat(Messages(Some(u), a))|)
  {
    AlongThree(chunks, [], u, a, 0, []);
    var w, k, q0 := ReadHello(um, world, chunks, Messages(Some(u), a), payload);
    AlongThree(chunks, w.conn.chunks, u, a, k, q0);
    q := AfterHelloOf(um, world, w, u, a, payload, k, q0);
    assert w.conn.sent + [VERSION5, AUTH_PASSWORD] == [VERSION5, AUTH_PASSWORD];
  }

  lemma HelloOnly(msgs: seq<seq<byte>>, data: seq<byte>)
    requires msgs != [] && data == Flat(msgs[..1]) + []
    ensures data == msgs[0]
  {
    assert msgs[..1] == [msgs[0]] && Flat([msgs[0]]) == msgs[0] + [];
  }

  lemma HelloAndMore(w: Work, u: PlainText, a: Addr, payload: seq<byte>, k: nat, q: seq<byte>)
    requires Sound(w) && k > 1 && Yields(w.buf[..w.n], w.conn.chunks, Messages(Some(u), a), payload, k, q)
    ensures w.n >= 3 && w.buf[..3] == HelloMsg(Some(u))
    ensures Yields(w.buf[3..w.n], w.conn.chunks, [AuthMsg(u), RequestMsg(a)], payload, k - 1, q)
  {
    assert Messages(Some(u), a) == [HelloMsg(Some(u))] + [AuthMsg(u), RequestMsg(a)];
    BehindFirst(w.buf, w.n, w.conn.chunks, HelloMsg(Some(u)), [AuthMsg(u), RequestMsg(a)], payload, k, q);
  }

  lemma BehindFirst(
    buf: seq<byte>, n: nat, rest: seq<seq<byte>>, hello: seq<byte>, more: seq<seq<byte>>, payload: seq<byte>, k: nat,
    q: seq<byte>)
    requires n <= |buf| && k > 1 && |hello| == 3 && Yields(buf[..n], rest, [hello] + more, payload, k, q)
    ensures n >= 3 && buf[..3] == hello && Yields(buf[3..n], rest, more, payload, k - 1, q)
  {
    FirstMessage(hello, more, k);
    assert hello + Flat(more[..k - 1]) + q == hello + (Flat(more[..k - 1]) + q);
    BehindThree(buf, n, hello, Flat(more[..k - 1]) + q);
  }

  lemma FirstMessage(hello: seq<byte>, more: seq<seq<byte>>, k: nat)
    requires 1 <= k <= |more| + 1
    ensures var msgs := [hello] + more;
            msgs[k..] == more[k - 1..] && Flat(msgs[..k]) == hello + Flat(more[..k - 1])
  {
    assert ([hello] + more)[..k] == [hello] + more[..k - 1];
    assert ([hello] + more[..k - 1])[1..] == more[..k - 1];
  }

  lemma BehindThree(buf: seq<byte>, n: nat, hello: seq<byte>, rest: seq<byte>)
    requires n <= |buf| && buf[..n] == hello + rest && |hello| == 3
    ensures n >= 3 && buf[..3] == hello && buf[3..n] == rest
  {
    assert buf[..3] == buf[..n][..3] && buf[3..n] == buf[..n][3..];
  }

  lemma PayloadKept(world: World, a: Addr, up: Option<PlainText>, q: seq<byte>, conn: Conn, payload: seq<byte>)
    requires q + Flat(conn.chunks) == payload
    ensures var r := Expected(world, a, up, q, conn);
            r.early + Flat(r.conn.chunks) == payload <==> q != [] || world.firstData == InTime || world.capacity == 0
  {
    var r := Expected(world, a, up, q, conn);
    if q == [] && world.firstData != InTime {
      assert |r.early + Flat(r.conn.chunks)| == world.capacity + |payload|;
      if world.capacity == 0 {
        assert r.early == [];
      }
    }
  }

  /** What the server hands on, `along` being the number of payload bytes that came with the request. */
  ghost predicate HandsOn(r: Outcome, world: World, along: nat, payload: seq<byte>)
    requires r.Accepted?
  {
    && along <= |payload|
    && (along > 0 ==> r.early == payload[..along])
    && (along == 0 && world.firstData != InTime ==>
          r.early == Zeros(world.capacity) && Flat(r.conn.chunks) == payload)
    && (r.early + Flat(r.conn.chunks) == payload <==>
          along > 0 || world.firstData == InTime || world.capacity == 0)
  }

  /** The server accepts, with the client's target and user, and hands the payload on. */
  ghost predicate Agreed(r: Outcome, world: World, up: Option<PlainText>, a: Addr, along: nat, payload: seq<byte>) {
    && r.Accepted? && r.target == Target(world, a) && r.user == up && r.conn.sent == Replies(up)
    && HandsOn(r, world, along, payload)
  }

  lemma FromReached(
    r: Outcome, world: World, a: Addr, up: Option<PlainText>, payload: seq<byte>, sent: seq<byte>, q: seq<byte>)
    requires Reached(r, world, a, up, payload, sent, q) && sent + COMMON_REPLY == Replies(up)
    ensures Agreed(r, world, up, a, |q|, payload)
  {
    var conn: Conn :| r == Expected(world, a, up, q, conn) && q + Flat(conn.chunks) == payload && conn.sent == sent;
    PayloadKept(world, a, up, q, conn, payload);
    assert payload[..|q|] == q;
    assert q == [] ==> q + Flat(conn.chunks) == Flat(conn.chunks);
  }

  lemma ServerAgreesWithNone(world: World, chunks: seq<seq<byte>>, a: Addr, payload: seq<byte>)
    requires Sendable(a) && Grouped(chunks, Messages(None, a), payload)
    ensures Agreed(Handshake(None, world, Conn(chunks, []), None), world, None, a,
                   Along(chunks, |Flat(Messages(None, a))|), payload)
  {
    var q := AgreesWithoutUser(world, chunks, a, payload);
    RepliesJoin();
    FromReached(Handshake(None, world, Conn(chunks, []), None), world, a, None, payload, [VERSION5, AUTH_NONE], q);
  }

  lemma ServerAgreesWith(um: Auth, world: World, chunks: seq<seq<byte>>, u: PlainText, a: Addr, payload: seq<byte>)
    requires Proper(Some(u), a) && Admits(um, Some(u)) && Grouped(chunks, Messages(Some(u), a), payload)
    ensures Agreed(Handshake(um, world, Conn(chunks, []), None), world, Some(u), a,
                   Along(chunks, |Flat(Messages(Some(u), a))|), payload)
  {
    var q := AgreesWithUser(um, world, chunks, u, a, payload);
    var sent := [VERSION5, AUTH_PASSWORD] + [SUBNEGOTIATION, SUCCESS];
    RepliesJoin();
    FromReached(Handshake(um, world, Conn(chunks, []), None), world, a, Some(u), payload, sent, q);
  }

  lemma RepliesJoin()
    ensures Replies(None) == [VERSION5, AUTH_NONE] + COMMON_REPLY
    ensures forall u :: Replies(Some(u)) == [VERSION5, AUTH_PASSWORD] + [SUBNEGOTIATION, SUCCESS] + COMMON_REPLY
  {
  }

  /**
   * However the messages were joined, the server accepts, with the client's target and user and
   * the same reply bytes. Early data and unread stream together are the payload if and only if
   * the chunk that ends the messages carries payload into the buffer, or the read of first data
   * succeeds in time, or the buffer has no room left; otherwise the early data are stale zeros.
   */
  lemma ServerAgrees(
    um: Auth, world: World, chunks: seq<seq<byte>>, up: Option<PlainText>, a: Addr, payload: seq<byte>)
    requires Proper(up, a) && Admits(um, up) && Grouped(chunks, Messages(up, a), payload)
    ensures Agreed(Handshake(um, world, Conn(chunks, []), None), world, up, a,
                   Along(chunks, |Flat(Messages(up, a))|), payload)
  {
    match up {
      case None => ServerAgreesWithNone(world, chunks, a, payload);
      case Some(u) => ServerAgreesWith(um, world, chunks, u, a, payload);
    }
  }

  /** The server's replies, each read on its own, are replies the client goes on with. */
  lemma RepliesSatisfyClient(up: Option<PlainText>)
    ensures var rs := [[VERSION5, MethodOf(up)]] + (if up.Some? then [[1, 0]] else []) + [COMMON_REPLY];
            GoodReplies(up, rs) && Flat(rs) == Replies(up)
  {
    var m := [VERSION5, MethodOf(up)];
    assert Flat([COMMON_REPLY]) == COMMON_REPLY + [];
    match up {
      case None =>
        var rs: seq<seq<byte>> := [m] + [] + [COMMON_REPLY];
        assert rs[1..] == [COMMON_REPLY] && [[VERSION5, MethodOf(up)]] + [] + [COMMON_REPLY] == rs;
      case Some(_) =>
        var rs: seq<seq<byte>> := [m] + [[1, 0]] + [COMMON_REPLY];
        assert rs[1..] == [[1, 0], COMMON_REPLY] && rs[1..][1..] == [COMMON_REPLY];
    }
  }

  /**
   * A client whose hello is answered before it sends the request and `x`: with no data in time
   * `x` is kept if it is not empty, and zeros are relayed in the client's name if it is.
   */
  lemma StaleZeros(world: World, a: Addr, x: seq<byte>)
    requires Sendable(a) && world.firstData == TimedOut && |x| <= BUF_LEN - |RequestMsg(a)|
    ensures var r := Handshake(None, world, Conn([HelloMsg(None), RequestMsg(a) + x], []), None);
            r.Accepted? && r.early == if x != [] then x else Zeros(world.capacity)
  {
    var hello, req := HelloMsg(None), RequestMsg(a);
    var chunks, msgs := [hello, req + x], Messages(None, a);
    assert chunks[1..] == [req + x] && msgs[1..] == [req] && msgs[..1] == [hello];
    FlatOne(hello);
    FlatOne(req);
    var none: seq<seq<byte>> := [];
    assert [req + x][1..] == none && (req + x)[|req|..] + Flat(none) == x;
    assert GroupOf([req + x], [req], x, 1);
    assert GroupOf(chunks, msgs, x, 1);
    ServerAgrees(None, world, chunks, None, a, x);
    FlatMessages(None, a);
    assert Along(chunks, 3 + |req|) == |x|;
    assert x[..|x|] == x;
  }
}
