/** The SOCKS5 server handshake (RFC 1928 and RFC 1929) over a connection that hands out chunks. */
module Socks5 {
  import opened Bytes
  import opened AddrCodec
  import opened Chunked
  import opened Users

  const VERSION5: byte := 5
  const AUTH_NONE: byte := 0
  const AUTH_PASSWORD: byte := 2
  const AUTH_NO_ACCEPTABLE: byte := 0xff
  const CMD_CONNECT: byte := 1
  const CMD_BIND: byte := 2
  const CMD_UDP_ASSOCIATE: byte := 3
  const SUBNEGOTIATION: byte := 1
  const SUCCESS: byte := 0
  const FAILURE: byte := 1
  const BUF_LEN: nat := 1024

  const COMMON_REPLY: seq<byte> := [5, 0, 0, 1, 0, 0, 0, 0, 0, 0]

  /** Puts two bytes at the front of the buffer and writes them. */
  function Reply(w: Work, a: byte, b: byte): (r: Work)
    requires |w.buf| >= 2
    ensures |r.buf| == |w.buf| && r.n == w.n
  {
    Write(w.(buf := Overwrite(w.buf, [a, b])), [a, b])
  }

  /** The users' auth strings, if the server has users. */
  type Auth = Option<set<seq<byte>>>

  /** What a password message yields; `Skip` goes on to the next method. */
  datatype Credentials = Given(up: PlainText, len: nat) | Skip | BadIndex

  /** Parses a password message; the length checks use `n`, which may exceed the message's length. */
  function ParseAuth(bs: seq<byte>, n: nat): (r: Credentials)
    ensures r.Given? ==> r.len <= |bs|
  {
    if |bs| < 2 then BadIndex
    else
      var ul := bs[1] as int;
      if |bs| < 5 || bs[0] != SUBNEGOTIATION || ul == 0 then Skip
      else if ul + 2 > n then Skip
      else if 2 + ul >= |bs| then BadIndex
      else
        var pl := bs[2 + ul] as int;
        if ul + 2 + pl > n then Skip
        else if 3 + ul + pl > |bs| then BadIndex
        else Given(PlainText(bs[2..2 + ul], bs[3 + ul..3 + ul + pl]), 3 + ul + pl)
  }

  /** How the password exchange ends; `left` bytes of the buffer are not used up. */
  datatype Login =
    | Broken(conn: Conn)
    | Skipped(w: Work, left: nat)
    | Passed(w: Work, left: nat, up: PlainText)
    | Denied(w: Work)

  /** The method is announced, and the password message is read unless it came with the methods. */
  function PasswordRead(end: nat, w: Work, remain: nat): (r: (Work, seq<byte>, nat))
    requires 3 <= end <= |w.buf| && Sound(w) && remain <= w.n && (w.n != end ==> w.n >= 3)
    ensures Sound(r.0) && |r.0.buf| == |w.buf| && r.2 <= r.0.n
  {
    var v := Reply(w, VERSION5, AUTH_PASSWORD);
    if v.n == end then
      var u := Read(v);
      (u, u.buf[..u.n], u.n)
    else (v, v.buf[3..v.n], remain)
  }

  /** The verdict on the password message at the front of `bs`, of which `left` bytes are not used up. */
  function PasswordJudged(users: set<seq<byte>>, u: Work, bs: seq<byte>, left: nat): (r: Login) {
    match ParseAuth(bs, u.n)
    case BadIndex => Broken(u.conn)
    case Skip => Skipped(u, left)
    case Given(up, len) =>
      if len > left then Broken(u.conn)
      else if AuthStr(up) in users then Passed(Write(u, [SUBNEGOTIATION, SUCCESS]), left - len, up)
      else Denied(Write(u, [SUBNEGOTIATION, FAILURE]))
  }

  function PasswordStep(users: set<seq<byte>>, end: nat, w: Work, remain: nat): (r: Login)
    requires 3 <= end <= |w.buf| && Sound(w) && remain <= w.n && (w.n != end ==> w.n >= 3)
    ensures !r.Broken? ==> Sound(r.w) && |r.w.buf| == |w.buf|
    ensures r.Skipped? || r.Passed? ==> r.left <= r.w.n
  {
    var (u, bs, left) := PasswordRead(end, w, remain);
    PasswordJudged(users, u, bs, left)
  }

  datatype Negotiated =
    | Authed(w: Work, remain: nat, user: Option<PlainText>)
    | NotAuthed(w: Work)
    | WrongPassword(w: Work)
    | Crash(conn: Conn)

  /** One turn of the loop over the offered methods ends it or goes on. */
  datatype Turn =
    | Stop(neg: Negotiated)
    | Go(w: Work, remain: nat, dealtNone: bool, dealtPass: bool)

  /** The turn for method `m`. */
  function TurnOf(um: Auth, m: byte, end: nat, w: Work, remain: nat, dealtNone: bool, dealtPass: bool): (t: Turn)
    requires 3 <= end <= |w.buf| && Sound(w) && remain <= w.n
    requires !dealtPass ==> end <= w.n
    ensures t.Go? ==> Sound(t.w) && |t.w.buf| == |w.buf| && t.remain <= t.w.n && (!t.dealtPass ==> end <= t.w.n)
    ensures t.Stop? && !t.neg.Crash? ==> Sound(t.neg.w) && |t.neg.w.buf| == |w.buf|
    ensures t.Stop? && t.neg.Authed? ==> t.neg.remain <= t.neg.w.n
  {
    if m == AUTH_NONE then
      if dealtNone then Stop(NotAuthed(w))
      else if um.Some? then Go(w, remain, true, dealtPass)
      else Stop(Authed(Reply(w, VERSION5, AUTH_NONE), remain, None))
    else if m == AUTH_PASSWORD then
      if dealtPass then Stop(NotAuthed(w))
      else if um.None? then Go(w, remain, dealtNone, true)
      else
        match PasswordStep(um.value, end, w, remain)
        case Broken(conn) => Stop(Crash(conn))
        case Skipped(u, left) => Go(u, left, dealtNone, true)
        case Passed(u, left, up) => Stop(Authed(u, left, Some(up)))
        case Denied(u) => Stop(WrongPassword(u))
    else Go(w, remain, dealtNone, dealtPass)
  }

  /**
   * The loop over the offered methods from index `i` on. The methods are read from the buffer,
   * also after a password message has been read over them.
   */
  function Negotiate(um: Auth, i: nat, end: nat, w: Work, remain: nat, dealtNone: bool, dealtPass: bool)
    : (r: Negotiated)
    requires 3 <= end <= |w.buf| && Sound(w) && remain <= w.n
    requires !dealtPass ==> end <= w.n
    ensures r.Authed? ==> Sound(r.w) && |r.w.buf| == |w.buf| && r.remain <= r.w.n
    ensures r.NotAuthed? || r.WrongPassword? ==> Sound(r.w) && |r.w.buf| == |w.buf|
    decreases end - i
  {
    if i >= end then NotAuthed(w)
    else
      match TurnOf(um, w.buf[i], end, w, remain, dealtNone, dealtPass)
      case Stop(neg) => neg
      case Go(u, left, none, pass) => Negotiate(um, i + 1, end, u, left, none, pass)
  }

  datatype Refusal =
    | BadVersion | BadMethods | NotAuthenticated | AuthFailed | RequestTooShort | BadCommand | BadAddressType | NoPort

  /** How the attempt to read first payload data right after the reply ends. */
  datatype FirstData = InTime | TimedOut | ReadFailed

  datatype Outcome =
    | HelloTooShort
    | Refused(why: Refusal, buf: seq<byte>, conn: Conn)
    | Accepted(target: Addr, early: seq<byte>, user: Option<PlainText>, conn: Conn)
    | UdpAssociate(target: Addr, udpUser: Option<PlainText>, conn: Conn)
    | Unsupported(buf: seq<byte>, conn: Conn)
    | Panicked(conn: Conn)

  /** What the server cannot decide itself. */
  datatype World = World(
    parseIp: seq<byte> -> Option<Ip>,  // IP text in a name
    supportUdp: bool,
    firstData: FirstData,
    capacity: nat)                     // capacity of the emptied buffer at the first-data read

  function Refuse(why: Refusal, w: Work): Outcome
    requires Sound(w)
  {
    Refused(why, w.buf[..w.n], w.conn)
  }

  /** The address part of a request at the front of `buf`: host and where the port ends. */
  datatype Host = NoHost | OutOfBounds | At(ip: Option<Ip>, name: Option<seq<byte>>, end: nat)

  function ParseHost(world: World, buf: seq<byte>): (h: Host)
    requires |buf| >= 7
    ensures h.At? ==> h.end >= 7 && (h.ip.Some? || h.name.Some?)
  {
    if buf[3] == ATYP_IP4 then
      if |buf| < 8 then OutOfBounds else At(Some(V4(buf[4..8])), None, 10)
    else if buf[3] == ATYP_IP6 then
      if |buf| < 20 then OutOfBounds else At(Some(V6(buf[4..20])), None, 22)
    else if buf[3] == ATYP_DOMAIN then
      var l := buf[4] as int;
      if |buf| < 5 + l then OutOfBounds
      else At(world.parseIp(buf[5..5 + l]), Some(buf[5..5 + l]), 7 + l)
    else NoHost
  }

  function TargetOf(h: Host, port: Port): Addr
    requires h.At? && (h.ip.Some? || h.name.Some?)
  {
    match h.name
    case None => Addr(AtSocket(Socket(h.ip.value, port)), TCP)
    case Some(n) =>
      match h.ip
      case None => Addr(AtName(n, port), TCP)
      case Some(ip) => Addr(AtNameAndSocket(n, Socket(ip, port), port), TCP)
  }

  /** The early data handed on: what came with the request, else the first data, else stale zeros. */
  function FirstRead(world: World, rest: seq<byte>, conn: Conn): (seq<byte>, Conn) {
    if rest != [] then (rest, conn)
    else if world.firstData == InTime then
      var (data, chunks) := ReadChunk(conn.chunks, world.capacity);
      (data, conn.(chunks := chunks))
    else (Zeros(world.capacity), conn)
  }

  /** The request stage, on `n` bytes at the front of the buffer. */
  function Request(world: World, w: Work, user: Option<PlainText>): Outcome
    requires Sound(w)
  {
    if w.n < 7 then Refuse(RequestTooShort, w)
    else if w.buf[0] != VERSION5 then Refuse(BadVersion, w)
    else if w.buf[1] != CMD_UDP_ASSOCIATE && w.buf[1] != CMD_CONNECT then Refuse(BadCommand, w)
    else
      match ParseHost(world, w.buf)
      case NoHost => Refuse(BadAddressType, w)
      case OutOfBounds => Panicked(w.conn)
      case At(ip, name, end) =>
        if w.n < end then Refuse(NoPort, w)
        else
          var target := TargetOf(At(ip, name, end), FromBe16(w.buf[end - 2..]));
          var rest := w.buf[end..w.n];
          if w.buf[1] == CMD_CONNECT then
            var (early, conn) := FirstRead(world, rest, Write(w, COMMON_REPLY).conn);
            Accepted(target, early, user, conn)
          else if world.supportUdp then UdpAssociate(target, user, w.conn)
          else Unsupported(rest, w.conn)
  }

  /** The state the request stage starts in: leftover bytes moved to the front, or a fresh read. */
  function RequestWork(w: Work, remain: nat): (r: Work)
    requires Sound(w) && remain <= w.n
    ensures Sound(r)
  {
    if remain > 0 then Work(w.buf[w.n - remain..], remain, w.conn) else Read(w)
  }

  /** The hello: handed over by an earlier layer, else the first read. */
  function Hello(conn: Conn, preRead: Option<seq<byte>>): (w: Work)
    ensures Sound(w)
  {
    match preRead
    case Some(pd) => Work(pd, |pd|, conn)
    case None => Read(Work(Zeros(BUF_LEN), 0, conn))
  }

  function Handshake(um: Auth, world: World, conn: Conn, preRead: Option<seq<byte>>): Outcome {
    Serve(um, world, Hello(conn, preRead))
  }

  /** The handshake on a hello of `w.n` bytes. */
  function Serve(um: Auth, world: World, w: Work): Outcome
    requires Sound(w)
  {
    if w.n < 3 then HelloTooShort
    else if w.buf[0] != VERSION5 then Refuse(BadVersion, w)
    else
      var end := 2 + w.buf[1] as int;
      if w.buf[1] == 0 || w.n < end then Refuse(BadMethods, Reply(w, VERSION5, AUTH_NO_ACCEPTABLE))
      else
        Conclude(world, Negotiate(um, 2, end, w, w.n - end, false, false))
  }

  /** What follows the method negotiation. */
  function Conclude(world: World, neg: Negotiated): Outcome
    requires !neg.Crash? ==> Sound(neg.w)
    requires neg.Authed? ==> neg.remain <= neg.w.n
    requires neg.NotAuthed? ==> |neg.w.buf| >= 2
  {
    match neg
    case Crash(conn) => Panicked(conn)
    case WrongPassword(v) => Refuse(AuthFailed, v)
    case NotAuthed(v) => Refuse(NotAuthenticated, Reply(v, VERSION5, AUTH_NO_ACCEPTABLE))
    case Authed(v, remain, user) => Request(world, RequestWork(v, remain), user)
  }

  /** A user the server knows, or none if it has no users. */
  predicate UserFits(um: Auth, user: Option<PlainText>) {
    if um.None? then user.None? else user.Some? && AuthStr(user.value) in um.value
  }

  lemma {:induction false} NegotiateAuthenticates(
    um: Auth, i: nat, end: nat, w: Work, remain: nat, dealtNone: bool, dealtPass: bool)
    requires 3 <= end <= |w.buf| && Sound(w) && remain <= w.n
    requires !dealtPass ==> end <= w.n
    ensures var r := Negotiate(um, i, end, w, remain, dealtNone, dealtPass);
            r.Authed? ==> UserFits(um, r.user)
    decreases end - i
  {
    if i < end {
      if w.buf[i] == AUTH_PASSWORD && um.Some? && !dealtPass {
        var s := PasswordStep(um.value, end, w, remain);
        if s.Skipped? {
          NegotiateAuthenticates(um, i + 1, end, s.w, s.left, dealtNone, true);
        }
      } else {
        NegotiateAuthenticates(um, i + 1, end, w, remain, true, dealtPass);
        NegotiateAuthenticates(um, i + 1, end, w, remain, dealtNone, true);
        NegotiateAuthenticates(um, i + 1, end, w, remain, dealtNone, dealtPass);
      }
    }
  }

  lemma RequestKeepsUser(world: World, w: Work, user: Option<PlainText>)
    requires Sound(w)
    ensures Request(world, w, user).Accepted? ==> Request(world, w, user).user == user
    ensures Request(world, w, user).UdpAssociate? ==> Request(world, w, user).udpUser == user
  {
  }

  /** Whoever gets through fits. */
  predicate LetsOnlyFitting(um: Auth, r: Outcome) {
    (r.Accepted? ==> UserFits(um, r.user)) && (r.UdpAssociate? ==> UserFits(um, r.udpUser))
  }

  lemma ConcludeAuthenticates(um: Auth, world: World, neg: Negotiated)
    requires !neg.Crash? ==> Sound(neg.w)
    requires neg.Authed? ==> neg.remain <= neg.w.n && UserFits(um, neg.user)
    requires neg.NotAuthed? ==> |neg.w.buf| >= 2
    ensures LetsOnlyFitting(um, Conclude(world, neg))
  {
    if neg.Authed? {
      RequestKeepsUser(world, RequestWork(neg.w, neg.remain), neg.user);
    }
  }

  lemma ServeAuthenticates(um: Auth, world: World, w: Work)
    requires Sound(w)
    ensures LetsOnlyFitting(um, Serve(um, world, w))
  {
    if w.n >= 3 && w.buf[1] != 0 && w.n >= 2 + w.buf[1] as int {
      NegotiatedLetsOnlyFitting(um, world, w, 2 + w.buf[1] as int);
    }
  }

  lemma NegotiatedLetsOnlyFitting(um: Auth, world: World, w: Work, end: nat)
    requires Sound(w) && 3 <= end <= w.n
    ensures LetsOnlyFitting(um, Conclude(world, Negotiate(um, 2, end, w, w.n - end, false, false)))
  {
    NegotiateAuthenticates(um, 2, end, w, w.n - end, false, false);
    ConcludeAuthenticates(um, world, Negotiate(um, 2, end, w, w.n - end, false, false));
  }

  /**
   * Over every input: a server with users lets nobody through whose auth string was not added,
   * whatever methods are offered, in whatever order and however often; one without users
   * attaches no user.
   */
  lemma OnlyUsersPass(um: Auth, world: World, conn: Conn, preRead: Option<seq<byte>>)
    ensures var r := Handshake(um, world, conn, preRead);
            (r.Accepted? ==> UserFits(um, r.user)) && (r.UdpAssociate? ==> UserFits(um, r.udpUser))
  {
    ServeAuthenticates(um, world, Hello(conn, preRead));
  }

  /** What the server authenticates against once these users were added. */
  function AuthOf(added: seq<PlainText>): Auth {
    if added == [] then None else Some(AuthStrs(added))
  }

  /**
   * In terms of the users added: if there are any, whoever gets through has the auth string of
   * one of them, and is one of them unless name or password holds a line feed.
   */
  lemma OnlyAddedUsersPass(added: seq<PlainText>, world: World, conn: Conn, preRead: Option<seq<byte>>)
    requires added != []
    ensures var r := Handshake(AuthOf(added), world, conn, preRead);
            && (r.Accepted? ==> r.user.Some? && AddedUser(added, r.user.value))
            && (r.UdpAssociate? ==> r.udpUser.Some? && AddedUser(added, r.udpUser.value))
  {
    OnlyUsersPass(AuthOf(added), world, conn, preRead);
    var r := Handshake(AuthOf(added), world, conn, preRead);
    if r.Accepted? {
      HasAddedStr(added, r.user.value);
    } else if r.UdpAssociate? {
      HasAddedStr(added, r.udpUser.value);
    }
  }

  predicate AddedUser(added: seq<PlainText>, v: PlainText) {
    && (exists u :: u in added && AuthStr(u) == AuthStr(v))
    && (LINE_FEED !in v.user && LINE_FEED !in v.pass ==> v in added)
  }

  lemma HasAddedStr(added: seq<PlainText>, v: PlainText)
    requires AuthStr(v) in AuthStrs(added)
    ensures AddedUser(added, v)
  {
    var u :| u in added && AuthStr(u) == AuthStr(v);
    if LINE_FEED !in v.user && LINE_FEED !in v.pass {
      SameAuthStr(v, u);
    }
  }

  /** A hello handed over by an earlier layer, with nothing behind it, leaves too small a buffer to go on. */
  lemma ShortPreReadNeverPasses(um: Auth, world: World, conn: Conn, pd: seq<byte>)
    requires |pd| < 7
    ensures var r := Handshake(um, world, conn, Some(pd));
            !r.Accepted? && !r.UdpAssociate? && !r.Unsupported?
  {
  }
}
