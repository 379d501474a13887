/** What the SOCKS5 server makes of any hello, password message and request, in bytes. */
module Socks5Bytes {
  import opened Bytes
  import opened AddrCodec
  import opened Chunked
  import opened Users
  import opened Socks5
  import opened Socks5Client
  import opened Socks5Offers

  /** The bytes of a hello: those handed over, or else what one read brings. */
  function FirstBytes(conn: Conn, preRead: Option<seq<byte>>): (seq<byte>, seq<seq<byte>>) {
    match preRead
    case Some(pd) => (pd, conn.chunks)
    case None => ReadChunk(conn.chunks, 1024)
  }

  lemma HelloIs(conn: Conn, preRead: Option<seq<byte>>)
    ensures var w, (hello, rest) := Hello(conn, preRead), FirstBytes(conn, preRead);
            w.n == |hello| && w.buf[..w.n] == hello && w.conn == Conn(rest, conn.sent)
  {
  }

  lemma RefusedWith(why: Refusal, w: Work)
    requires Sound(w) && w.n >= 2
    ensures (Refuse(why, Reply(w, 5, 255))
          == Refused(why, [5, 255] + w.buf[..w.n][2..], Conn(w.conn.chunks, w.conn.sent + [5, 255])))
  {
    assert Reply(w, 5, 255).buf[..w.n] == [5, 255] + w.buf[..w.n][2..];
  }

  lemma RequestIsLater(world: World, w: Work, user: Option<PlainText>)
    requires Sound(w)
    ensures !Request(world, w, user).HelloTooShort?
  {
  }

  lemma ConcludesLater(world: World, neg: Negotiated)
    requires !neg.Crash? ==> Sound(neg.w)
    requires neg.Authed? ==> neg.remain <= neg.w.n
    requires neg.NotAuthed? ==> |neg.w.buf| >= 2
    ensures !Conclude(world, neg).HelloTooShort?
  {
    if neg.Authed? {
      RequestIsLater(world, RequestWork(neg.w, neg.remain), neg.user);
    }
  }

  lemma NeverTooShort(um: Auth, world: World, w: Work)
    requires Sound(w) && w.n >= 3
    ensures !Serve(um, world, w).HelloTooShort?
  {
    var end := 2 + w.buf[1] as int;
    if w.buf[0] == VERSION5 && w.buf[1] != 0 && w.n >= end {
      ConcludesLater(world, Negotiate(um, 2, end, w, w.n - end, false, false));
    }
  }

  lemma ServeRefuses(um: Auth, world: World, w: Work)
    requires Sound(w)
    ensures var hello, r := w.buf[..w.n], Serve(um, world, w);
            && (|hello| >= 3 && hello[0] != 5 ==> r == Refused(BadVersion, hello, w.conn))
            && (|hello| >= 3 && hello[0] == 5 && (hello[1] == 0 || |hello| < 2 + hello[1] as int) ==>
                  r == Refused(BadMethods, [5, 255] + hello[2..], Conn(w.conn.chunks, w.conn.sent + [5, 255])))
  {
    if w.n >= 3 {
      assert w.buf[0] == w.buf[..w.n][0] && w.buf[1] == w.buf[..w.n][1];
      RefusedWith(BadMethods, w);
    }
  }

  /** Over all bytes: which hellos are turned away at once, how, and with what written. */
  lemma HelloRefusals(um: Auth, world: World, conn: Conn, preRead: Option<seq<byte>>)
    ensures var (hello, rest) := FirstBytes(conn, preRead);
            var r := Handshake(um, world, conn, preRead);
            && (|hello| < 3 <==> r == HelloTooShort)
            && (|hello| >= 3 && hello[0] != 5 ==> r == Refused(BadVersion, hello, Conn(rest, conn.sent)))
            && (|hello| >= 3 && hello[0] == 5 && (hello[1] == 0 || |hello| < 2 + hello[1] as int) ==>
                  r == Refused(BadMethods, [5, 255] + hello[2..], Conn(rest, conn.sent + [5, 255])))
  {
    var w := Hello(conn, preRead);
    HelloIs(conn, preRead);
    ServeRefuses(um, world, w);
    if w.n >= 3 {
      NeverTooShort(um, world, w);
    }
  }

  /** The bytes begin with a password message for this user (section 2 of RFC 1929). */
  predicate Logs(bs: seq<byte>, up: PlainText) {
    && 1 <= |up.user| <= 255 && |up.pass| <= 255
    && [1, |up.user|] + up.user + [|up.pass|] + up.pass <= bs
  }

  lemma LogsIs(bs: seq<byte>, up: PlainText)
    requires Logs(bs, up)
    ensures var ul, pl := |up.user|, |up.pass|;
            && |bs| >= 3 + ul + pl && bs[0] == 1 && bs[1] == ul && bs[2 + ul] == pl
            && bs[2..2 + ul] == up.user && bs[3 + ul..3 + ul + pl] == up.pass
  {
    var msg: seq<byte> := [1, |up.user|] + up.user + [|up.pass|] + up.pass;
    var ul, pl := |up.user|, |up.pass|;
    assert bs[..|msg|] == msg;
    assert bs[0] == msg[0] && bs[1] == msg[1] && bs[2 + ul] == msg[2 + ul];
    assert bs[2..2 + ul] == msg[2..2 + ul] && bs[3 + ul..3 + ul + pl] == msg[3 + ul..3 + ul + pl];
  }

  lemma GivenLogs(bs: seq<byte>, n: nat)
    requires ParseAuth(bs, n).Given?
    ensures Logs(bs, ParseAuth(bs, n).up)
  {
    var ul := bs[1] as int;
    var pl := bs[2 + ul] as int;
    assert [bs[0], bs[1]] + bs[2..2 + ul] + [bs[2 + ul]] + bs[3 + ul..3 + ul + pl] == bs[..3 + ul + pl];
  }

  /** The name or the password would end behind the bytes, but not behind `n`. */
  predicate RunsOver(bs: seq<byte>, n: nat)
    requires |bs| >= 2
  {
    var ul := bs[1] as int;
    if ul + 2 >= |bs| then ul + 2 <= n else |bs| < ul + 3 + bs[ul + 2] as int <= n + 1
  }

  /**
   * Over all bytes: a name and a password are taken if and only if the bytes begin with a password
   * message of at least five bytes; the server fails on an index if and only if there are not two
   * bytes, or the message runs over the bytes but not over `n`.
   */
  lemma PasswordMessageExactly(bs: seq<byte>, n: nat)
    requires n >= |bs|
    ensures ParseAuth(bs, n).Given? <==> |bs| >= 5 && exists up :: Logs(bs, up)
    ensures forall up :: |bs| >= 5 && Logs(bs, up) ==>
              ParseAuth(bs, n) == Given(up, 3 + |up.user| + |up.pass|)
    ensures ParseAuth(bs, n).BadIndex? <==>
              |bs| < 2 || (|bs| >= 5 && bs[0] == 1 && bs[1] != 0 && RunsOver(bs, n))
  {
    forall up | |bs| >= 5 && Logs(bs, up) ensures ParseAuth(bs, n) == Given(up, 3 + |up.user| + |up.pass|) {
      LogsIs(bs, up);
    }
    if ParseAuth(bs, n).Given? {
      GivenLogs(bs, n);
    }
  }

  /** The answer to a password message: 1 0 for a user the server knows, 1 1 for anybody else. */
  lemma PasswordAnswered(users: set<seq<byte>>, u: Work, bs: seq<byte>, left: nat, up: PlainText)
    requires u.n >= |bs| >= 5 && Logs(bs, up)
    ensures var r, len := PasswordJudged(users, u, bs, left), 3 + |up.user| + |up.pass|;
            && (len > left ==> r == Broken(u.conn))
            && (len <= left && AuthStr(up) in users ==>
                  r == Passed(u.(conn := u.conn.(sent := u.conn.sent + [1, 0])), left - len, up))
            && (len <= left && AuthStr(up) !in users ==>
                  r == Denied(u.(conn := u.conn.(sent := u.conn.sent + [1, 1]))))
  {
    PasswordMessageExactly(bs, u.n);
  }

  lemma FirstOfTwo(a: seq<byte>, b: seq<byte>, more: seq<seq<byte>>)
    ensures [a, b] + more == [a] + ([b] + more)
  {
  }

  /**
   * Whatever else was offered: where the password method is chosen and the message that comes next
   * names no user, the server answers 5 2 1 1 and turns the peer away with that message in hand.
   */
  lemma StrangersAreRefused(
    um: Auth, world: World, methods: seq<byte>, login: seq<byte>, more: seq<seq<byte>>, up: PlainText)
    requires 1 <= |methods| <= 255 && StandsBefore(methods, 2, 0)
    requires um.Some? && 5 <= |login| <= 1024 && Logs(login, up) && AuthStr(up) !in um.value
    ensures (Handshake(um, world, Conn([Offer(methods), login] + more, []), None)
          == Refused(AuthFailed, login, Conn(more, [5, 2, 1, 1])))
  {
    var chunks := [login] + more;
    var w := Socks5Offers.Greeted(methods, chunks);
    FirstOfTwo(Offer(methods), login, more);
    var k, dealt := OfferReaches(um, world, methods, chunks);
    StrangerAtLogin(um, w, k, w.n, dealt, login, more, up);
  }

  lemma StrangerAtLogin(
    um: Auth, w: Work, k: nat, end: nat, none: bool, login: seq<byte>, more: seq<seq<byte>>, up: PlainText)
    requires 3 <= end == w.n && Sound(w) && |w.buf| == BUF_LEN && 2 <= k < end && w.buf[k] == 2
    requires w.conn == Conn([login] + more, [])
    requires um.Some? && 5 <= |login| <= 1024 && Logs(login, up) && AuthStr(up) !in um.value
    ensures var r := Negotiate(um, k, end, w, 0, none, false);
            r.WrongPassword? && r.w.buf[..r.w.n] == login && r.w.conn == Conn(more, [5, 2, 1, 1])
  {
    var v := Read(Reply(w, VERSION5, AUTH_PASSWORD));
    assert ([login] + more)[1..] == more;
    assert v.buf[..v.n] == login && v.conn == Conn(more, [5, 2]);
    LogsIs(login, up);
    PasswordAnswered(um.value, v, login, |login|, up);
    assert [5, 2] + [1, 1] == [5, 2, 1, 1];
  }

  /** A message that is no password message and does not run over its own end. */
  ghost predicate Malformed(bs: seq<byte>) {
    |bs| >= 2 && !ParseAuth(bs, |bs|).Given? && !ParseAuth(bs, |bs|).BadIndex?
  }

  /** In bytes: too short, with a wrong first byte or no name, or with a name or password that ends beyond. */
  lemma MalformedInBytes(bs: seq<byte>)
    requires |bs| >= 2
    ensures Malformed(bs) <==>
      || |bs| < 5 || bs[0] != 1 || bs[1] == 0 || |bs| < 2 + bs[1] as int
      || (|bs| > 2 + bs[1] as int && |bs| < 2 + bs[1] as int + bs[2 + bs[1] as int] as int)
  {
  }

  /** With users, once a password message is passed over nothing else is accepted. */
  lemma {:induction false} NothingAfterPassword(um: Auth, i: nat, end: nat, w: Work, remain: nat, none: bool)
    requires um.Some? && 3 <= end <= |w.buf| && Sound(w) && remain <= w.n
    ensures Negotiate(um, i, end, w, remain, none, true) == NotAuthed(w)
    decreases end - i
  {
    if i < end {
      NothingAfterPassword(um, i + 1, end, w, remain, true);
      NothingAfterPassword(um, i + 1, end, w, remain, none);
    }
  }

  /**
   * Whatever else was offered: where the password method is chosen and a malformed message comes
   * next, the server refuses with 5 2 5 255, though it goes on over the methods.
   */
  lemma MalformedIsRefused(um: Auth, world: World, methods: seq<byte>, login: seq<byte>, more: seq<seq<byte>>)
    requires 1 <= |methods| <= 255 && StandsBefore(methods, 2, 0)
    requires um.Some? && |login| <= 1024 && Malformed(login)
    ensures (Handshake(um, world, Conn([Offer(methods), login] + more, []), None)
          == Refused(NotAuthenticated, [5, 255] + login[2..], Conn(more, [5, 2, 5, 255])))
  {
    var chunks := [login] + more;
    var w := Socks5Offers.Greeted(methods, chunks);
    FirstOfTwo(Offer(methods), login, more);
    var k, dealt := OfferReaches(um, world, methods, chunks);
    var v := MalformedAtLogin(um, w, k, w.n, dealt, login, more);
    RefusedWith(NotAuthenticated, v);
    assert [5, 2] + [5, 255] == [5, 2, 5, 255];
  }

  lemma MalformedAtLogin(um: Auth, w: Work, k: nat, end: nat, none: bool, login: seq<byte>, more: seq<seq<byte>>)
    returns (v: Work)
    requires 3 <= end == w.n && Sound(w) && |w.buf| == BUF_LEN && 2 <= k < end && w.buf[k] == 2
    requires w.conn == Conn([login] + more, [])
    requires um.Some? && |login| <= 1024 && Malformed(login)
    ensures Negotiate(um, k, end, w, 0, none, false) == NotAuthed(v)
    ensures Sound(v) && v.n >= 2 && v.buf[..v.n] == login && v.conn == Conn(more, [5, 2])
  {
    v := Read(Reply(w, VERSION5, AUTH_PASSWORD));
    assert ([login] + more)[1..] == more;
    assert v.buf[..v.n] == login && v.conn == Conn(more, [5, 2]);
    NothingAfterPassword(um, k + 1, end, v, v.n, none);
  }

  /** Without users, a request read on its own is judged on its bytes. */
  lemma RequestIsJudged(world: World, methods: seq<byte>, q: seq<byte>, more: seq<seq<byte>>) returns (w: Work)
    requires 1 <= |methods| <= 255 && StandsBefore(methods, 0, 2) && |q| <= 1024
    ensures Sound(w) && w.buf[..w.n] == q && |w.buf| == 1024 && w.conn == Conn(more, [5, 0])
    ensures Handshake(None, world, Conn([Offer(methods), q] + more, []), None) == Request(world, w, None)
  {
    var chunks := [q] + more;
    var g := Socks5Offers.Greeted(methods, chunks);
    FirstOfTwo(Offer(methods), q, more);
    var k, dealt := OfferReaches(None, world, methods, chunks);
    w := Read(Reply(g, VERSION5, AUTH_NONE));
    assert chunks[1..] == more && g.conn.sent + [5, 0] == [5, 0];
  }

  /** With users, so is a request that follows a good password message, each read on its own. */
  lemma RequestIsJudgedAfterLogin(
    um: Auth, world: World, methods: seq<byte>, login: seq<byte>, up: PlainText, q: seq<byte>, more: seq<seq<byte>>)
    returns (w: Work)
    requires 1 <= |methods| <= 255 && StandsBefore(methods, 2, 0) && |q| <= 1024
    requires um.Some? && |login| >= 5 && Logs(login, up) && |login| == 3 + |up.user| + |up.pass|
    requires AuthStr(up) in um.value
    ensures Sound(w) && w.buf[..w.n] == q && |w.buf| == 1024 && w.conn == Conn(more, [5, 2, 1, 0])
    ensures Handshake(um, world, Conn([Offer(methods), login, q] + more, []), None) == Request(world, w, Some(up))
  {
    var chunks := [login] + ([q] + more);
    var g := Socks5Offers.Greeted(methods, chunks);
    assert [Offer(methods), login, q] + more == [Offer(methods)] + chunks;
    var k, dealt := OfferReaches(um, world, methods, chunks);
    assert login + [] == login;
    var v := UserAtLogin(um, g, k, g.n, dealt, login, [], [q] + more, up);
    w := Read(v);
    assert ([q] + more)[1..] == more;
  }

  lemma UserAtLogin(
    um: Auth, w: Work, k: nat, end: nat, none: bool, login: seq<byte>, q: seq<byte>, more: seq<seq<byte>>,
    up: PlainText)
    returns (v: Work)
    requires 3 <= end == w.n && Sound(w) && |w.buf| == BUF_LEN && 2 <= k < end && w.buf[k] == 2
    requires w.conn == Conn([login + q] + more, []) && |login| + |q| <= 1024
    requires um.Some? && |login| >= 5 && Logs(login, up) && |login| == 3 + |up.user| + |up.pass|
    requires AuthStr(up) in um.value
    ensures Negotiate(um, k, end, w, 0, none, false) == Authed(v, |q|, Some(up))
    ensures Sound(v) && |v.buf| == BUF_LEN && v.buf[..v.n] == login + q && v.conn == Conn(more, [5, 2, 1, 0])
  {
    var u := Read(Reply(w, VERSION5, AUTH_PASSWORD));
    assert ([login + q] + more)[1..] == more;
    assert u.buf[..u.n] == login + q && u.conn == Conn(more, [5, 2]);
    LogsMore(login, q, up);
    PasswordAnswered(um.value, u, login + q, |login + q|, up);
    v := u.(conn := u.conn.(sent := u.conn.sent + [1, 0]));
    assert [5, 2] + [1, 0] == [5, 2, 1, 0];
  }

  lemma BehindLogin(v: Work, login: seq<byte>, q: seq<byte>)
    requires Sound(v) && v.buf[..v.n] == login + q && q != []
    ensures var w := RequestWork(v, |q|);
            w.n == |q| && w.buf[..w.n] == q && |w.buf| == |v.buf| - |login| && w.conn == v.conn
  {
    assert RequestWork(v, |q|).buf[..|q|] == v.buf[..v.n][|login|..] == q;
  }

  lemma LogsMore(login: seq<byte>, q: seq<byte>, up: PlainText)
    requires Logs(login, up)
    ensures Logs(login + q, up)
  {
  }

  /** The server's working state after one read of a hello with `q` behind it. */
  function GreetedWith(methods: seq<byte>, q: seq<byte>, more: seq<seq<byte>>): Work
    requires |methods| + 2 + |q| <= 1024 && |methods| <= 255
  {
    Work(Overwrite(Zeros(BUF_LEN), Offer(methods) + q), |methods| + 2 + |q|, Conn(more, []))
  }

  lemma ReadsOfferWith(um: Auth, world: World, methods: seq<byte>, q: seq<byte>, more: seq<seq<byte>>)
    requires 1 <= |methods| <= 255 && |methods| + 2 + |q| <= 1024
    ensures var w, end := GreetedWith(methods, q, more), |methods| + 2;
            && w.buf[2..end] == methods && w.buf[end..w.n] == q
            && Handshake(um, world, Conn([Offer(methods) + q] + more, []), None)
               == Conclude(world, Negotiate(um, 2, end, w, |q|, false, false))
  {
    var w := GreetedWith(methods, q, more);
    assert ([Offer(methods) + q] + more)[1..] == more;
    assert w.buf[..w.n] == Offer(methods) + q;
    assert w.buf[2..|methods| + 2] == w.buf[..w.n][2..|methods| + 2];
    assert w.buf[|methods| + 2..w.n] == w.buf[..w.n][|methods| + 2..];
    assert w.buf[0] == w.buf[..w.n][0] && w.buf[1] == w.buf[..w.n][1];
  }

  /** Without users, whatever comes along with the hello is judged as the request, however short. */
  lemma LeftoverIsJudged(world: World, methods: seq<byte>, q: seq<byte>, more: seq<seq<byte>>) returns (w: Work)
    requires 1 <= |methods| <= 255 && StandsBefore(methods, 0, 2) && q != [] && |methods| + 2 + |q| <= 1024
    ensures Sound(w) && w.buf[..w.n] == q && |w.buf| == 1022 - |methods| && w.conn == Conn(more, [5, 0])
    ensures Handshake(None, world, Conn([Offer(methods) + q] + more, []), None) == Request(world, w, None)
  {
    var g, end := GreetedWith(methods, q, more), |methods| + 2;
    ReadsOfferWith(None, world, methods, q, more);
    assert methods[..0] == [];
    var k, dealt := LoopFinds(None, methods, g, 2, |q|, false, false);
    assert [] + [5, 0] == [5, 0];
    w := LeftoverAtNone(world, g, k, end, dealt, q);
  }

  lemma LeftoverAtNone(world: World, g: Work, k: nat, end: nat, pass: bool, q: seq<byte>) returns (w: Work)
    requires 3 <= end <= g.n <= |g.buf| && 2 <= k < end && g.buf[k] == 0 && g.buf[end..g.n] == q != []
    ensures Sound(w) && w.buf[..w.n] == q && |w.buf| == |g.buf| - end
    ensures w.conn == g.conn.(sent := g.conn.sent + [5, 0])
    ensures Conclude(world, Negotiate(None, k, end, g, |q|, false, pass)) == Request(world, w, None)
  {
    var v := Reply(g, VERSION5, AUTH_NONE);
    w := RequestWork(v, |q|);
    assert w.buf == v.buf[end..] == g.buf[end..];
    assert w.buf[..w.n] == g.buf[end..g.n];
  }

  /** With users, so is whatever comes along with a good password message. */
  lemma LeftoverIsJudgedAfterLogin(
    um: Auth, world: World, methods: seq<byte>, login: seq<byte>, up: PlainText, q: seq<byte>, more: seq<seq<byte>>)
    returns (w: Work)
    requires 1 <= |methods| <= 255 && StandsBefore(methods, 2, 0) && q != [] && |login| + |q| <= 1024
    requires um.Some? && |login| >= 5 && Logs(login, up) && |login| == 3 + |up.user| + |up.pass|
    requires AuthStr(up) in um.value
    ensures Sound(w) && w.buf[..w.n] == q && |w.buf| == 1024 - |login| && w.conn == Conn(more, [5, 2, 1, 0])
    ensures Handshake(um, world, Conn([Offer(methods), login + q] + more, []), None) == Request(world, w, Some(up))
  {
    var chunks := [login + q] + more;
    var g := Socks5Offers.Greeted(methods, chunks);
    FirstOfTwo(Offer(methods), login + q, more);
    var k, dealt := OfferReaches(um, world, methods, chunks);
    var v := UserAtLogin(um, g, k, g.n, dealt, login, q, more, up);
    w := RequestWork(v, |q|);
    BehindLogin(v, login, q);
  }

  /** A request of version 5 for a stream or for datagrams, with one of the three kinds of address. */
  predicate Asks(q: seq<byte>) {
    |q| >= 7 && q[0] == 5 && (q[1] == 1 || q[1] == 3) && (q[3] == 1 || q[3] == 3 || q[3] == 4)
  }

  /** How long such a request is, its port included. */
  function RequestLen(q: seq<byte>): nat
    requires Asks(q)
  {
    if q[3] == 1 then 10 else if q[3] == 4 then 22 else 7 + q[4] as int
  }

  /** Over all bytes `q` in the server's buffer: which requests are turned away, and how. */
  lemma RequestRefusals(world: World, w: Work, user: Option<PlainText>)
    requires Sound(w)
    ensures var q, r := w.buf[..w.n], Request(world, w, user);
            && (|q| < 7 ==> r == Refused(RequestTooShort, q, w.conn))
            && (|q| >= 7 && q[0] != 5 ==> r == Refused(BadVersion, q, w.conn))
            && (|q| >= 7 && q[0] == 5 && q[1] !in {1, 3} ==> r == Refused(BadCommand, q, w.conn))
            && (|q| >= 7 && q[0] == 5 && q[1] in {1, 3} && !Asks(q) ==> r == Refused(BadAddressType, q, w.conn))
            && (Asks(q) && |w.buf| < RequestLen(q) - 2 ==> r == Panicked(w.conn))
            && (Asks(q) && |q| < RequestLen(q) <= |w.buf| + 2 ==> r == Refused(NoPort, q, w.conn))
  {
  }

  /** The address in a request: octets and port, or a name, with a socket too if the name is an IP in text. */
  function Asked(world: World, q: seq<byte>): Addr
    requires Asks(q) && |q| >= RequestLen(q)
  {
    var n := RequestLen(q);
    var port: Port := q[n - 2] as int * 256 + q[n - 1] as int;
    if q[3] == 1 then Addr(AtSocket(Socket(V4(q[4..8]), port)), TCP)
    else if q[3] == 4 then Addr(AtSocket(Socket(V6(q[4..20]), port)), TCP)
    else
      var name := q[5..n - 2];
      match world.parseIp(name)
      case None => Addr(AtName(name, port), TCP)
      case Some(ip) => Addr(AtNameAndSocket(name, Socket(ip, port), port), TCP)
  }

  /** The address and its end, as the server finds them in its buffer. */
  lemma AskedIsFound(world: World, buf: seq<byte>, q: seq<byte>)
    requires q <= buf && Asks(q) && |q| >= RequestLen(q)
    ensures var h := ParseHost(world, buf);
            h.At? && h.end == RequestLen(q) && TargetOf(h, FromBe16(buf[h.end - 2..])) == Asked(world, q)
  {
    var n := RequestLen(q);
    assert q[4..n - 2] == buf[4..n - 2];
    assert buf[n - 2..][0] == q[n - 2] && buf[n - 2..][1] == q[n - 1];
    if q[3] == 3 {
      assert q[5..n - 2] == buf[5..n - 2];
    }
  }

  /**
   * What a whole request gets: a stream is answered with the ten bytes 5 0 0 1 0 0 0 0 0 0 and goes
   * on with what came behind the request; a datagram relay is set up, unanswered here, or refused
   * with those bytes handed back.
   */
  lemma RequestGrants(world: World, w: Work, user: Option<PlainText>)
    requires Sound(w) && Asks(w.buf[..w.n]) && w.n >= RequestLen(w.buf[..w.n])
    ensures var q, r := w.buf[..w.n], Request(world, w, user);
            var a, left := Asked(world, q), q[RequestLen(q)..];
            if q[1] == 1 then
              && r.Accepted? && r.target == a && r.user == user
              && r.conn.sent == w.conn.sent + [5, 0, 0, 1, 0, 0, 0, 0, 0, 0]
              && (r.early, r.conn.chunks) == EarlyAndLeft(world, left, w.conn.chunks)
            else if world.supportUdp then r == UdpAssociate(a, user, w.conn)
            else r == Unsupported(left, w.conn)
  {
    var q := w.buf[..w.n];
    AskedIsFound(world, w.buf, q);
    assert q[RequestLen(q)..] == w.buf[RequestLen(q)..w.n];
  }

  /**
   * Early data and the chunks left: what came behind the request; else what of the next chunk the
   * buffer takes, if it comes in time; else as many zeros as the buffer has room for.
   */
  function EarlyAndLeft(world: World, left: seq<byte>, chunks: seq<seq<byte>>): (seq<byte>, seq<seq<byte>>) {
    if left != [] then (left, chunks)
    else if world.firstData != InTime then (seq(world.capacity, _ => 0), chunks)
    else if chunks == [] then ([], [])
    else if |chunks[0]| <= world.capacity then (chunks[0], chunks[1..])
    else (chunks[0][..world.capacity], [chunks[0][world.capacity..]] + chunks[1..])
  }
}
