/** The SOCKS5 server as the program runs it: one buffer, updated step by step. */
module Socks5Server {
  import opened Bytes
  import opened AddrCodec
  import opened Chunked
  import opened Connections
  import opened Users
  import opened Socks5

  ghost predicate SameUsers(a: seq<PlainText>, b: seq<PlainText>) {
    |a| == |b| && forall u :: u in a <==> u in b
  }

  lemma PopKeepsUsers(added: seq<PlainText>, left: seq<PlainText>, all: seq<PlainText>)
    requires left != [] && SameUsers(added + left, all)
    ensures SameUsers(added + [left[|left| - 1]] + left[..|left| - 1], all)
  {
    var u := left[|left| - 1];
    assert left == left[..|left| - 1] + [u];
  }

  lemma SameAuth(a: seq<PlainText>, b: seq<PlainText>)
    requires SameUsers(a, b)
    ensures AuthOf(a) == AuthOf(b)
  {
    assert AuthStrs(a) == AuthStrs(b);
  }

  /** Adds the listed users, the last one first. */
  method AddAll(users: UsersMap, listed: seq<PlainText>, ghost all: seq<PlainText>)
    requires users.Valid() && all == users.added + listed
    modifies users
    ensures users.Valid() && SameUsers(users.added, all)
  {
    var left := listed;
    while left != []
      invariant users.Valid() && SameUsers(users.added + left, all)
      decreases |left|
    {
      var u := left[|left| - 1];
      PopKeepsUsers(users.added, left, all);
      left := left[..|left| - 1];
      users.AddUser(u);
    }
    assert users.added + [] == users.added;
  }

  class Server {
    const um: UsersMap?  // null for a server without users
    const world: World

    /** The users of a server are there to stay, and there is one at least. */
    ghost predicate Valid()
      reads this, um
    {
      um != null ==> um.Valid() && um.added != []
    }

    ghost function AuthNow(): Auth
      reads this, um
    {
      if um == null then None else AuthOf(um.added)
    }

    /** Adds the user given on one line, if valid, and then the listed users, the last one first. */
    constructor (oneLine: Option<PlainText>, listed: seq<PlainText>, world: World)
      ensures this.world == world && Valid() && (um != null ==> fresh(um))
      ensures (AuthNow()
            == AuthOf((if oneLine.Some? && StrictValid(oneLine.value) then [oneLine.value] else []) + listed))
    {
      var users := new UsersMap();
      ghost var all := (if oneLine.Some? && StrictValid(oneLine.value) then [oneLine.value] else []) + listed;
      if oneLine.Some? && StrictValid(oneLine.value) {
        users.AddUser(oneLine.value);
      }
      AddAll(users, listed, all);
      SameAuth(users.added, all);
      var none := users.IsEmpty();
      this.um := if none then null else users;
      this.world := world;
    }

    method HandshakeOn(base: Connection, preRead: Option<seq<byte>>) returns (r: Outcome)
      requires Valid()
      modifies base
      ensures r == Handshake(AuthNow(), world, old(base.State()), preRead)
    {
      match preRead {
        case Some(pd) =>
          r := ServeOn(base, pd, |pd|);
        case None =>
          var buf, n := base.Read(Zeros(BUF_LEN));
          r := ServeOn(base, buf, n);
      }
    }

    method ServeOn(base: Connection, hello: seq<byte>, n: nat) returns (r: Outcome)
      requires Valid() && n <= |hello|
      modifies base
      ensures r == Serve(AuthNow(), world, Work(hello, n, old(base.State())))
    {
      var buf := hello;
      if n < 3 {
        return HelloTooShort;
      }
      if buf[0] != VERSION5 {
        return Refused(BadVersion, buf[..n], base.State());
      }
      var nm := buf[1];
      var end := 2 + nm as int;
      if nm == 0 || n < end {
        buf := Overwrite(buf, [VERSION5, AUTH_NO_ACCEPTABLE]);
        base.Write(buf[..2]);
        return Refused(BadMethods, buf[..n], base.State());
      }
      var neg := NegotiateOn(base, buf, n, end);
      r := ConcludeOn(base, neg);
    }

    method ConcludeOn(base: Connection, neg: Negotiated) returns (r: Outcome)
      requires if neg.Crash? then neg.conn == base.State() else neg.w.conn == base.State() && Sound(neg.w)
      requires neg.Authed? ==> neg.remain <= neg.w.n
      requires neg.NotAuthed? ==> |neg.w.buf| >= 2
      modifies base
      ensures r == Conclude(world, neg)
    {
      match neg {
        case Crash(_) => return Panicked(base.State());
        case WrongPassword(w) => return Refused(AuthFailed, w.buf[..w.n], base.State());
        case NotAuthed(w) =>
          var buf := Overwrite(w.buf, [VERSION5, AUTH_NO_ACCEPTABLE]);
          base.Write(buf[..2]);
          return Refused(NotAuthenticated, buf[..w.n], base.State());
        case Authed(w, remain, user) => r := FollowOn(base, w.buf, w.n, remain, user);
      }
    }

    /** The request is what came along with the messages before it, or else is read. */
    method FollowOn(base: Connection, had: seq<byte>, len: nat, remain: nat, user: Option<PlainText>)
      returns (r: Outcome)
      requires remain <= len <= |had|
      modifies base
      ensures r == Request(world, RequestWork(Work(had, len, old(base.State())), remain), user)
    {
      var buf, n := had, len;
      if remain > 0 {
        buf := buf[n - remain..];
        n := remain;
      } else {
        buf, n := base.Read(buf);
      }
      r := RequestOn(base, buf, n, user);
    }

    /** Whether the auth string is that of a user; without users nobody is asked. */
    method Knows(up: PlainText) returns (known: bool)
      requires Valid() && um != null
      ensures AuthNow().Some? && (known <==> AuthStr(up) in AuthNow().value)
    {
      var user := um.AuthUserByAuthstr(AuthStr(up));
      known := user.Some?;
    }

    method PasswordOn(base: Connection, head: seq<byte>, len: nat, end: nat, before: nat)
      returns (buf: seq<byte>, n: nat, bs: seq<byte>, left: nat)
      requires 3 <= end <= |head| && len <= |head| && before <= len && (len != end ==> len >= 3)
      modifies base
      ensures (Work(buf, n, base.State()), bs, left) == PasswordRead(end, Work(head, len, old(base.State())), before)
    {
      buf, n := Overwrite(head, [VERSION5, AUTH_PASSWORD]), len;
      base.Write(buf[..2]);
      if n == end {
        buf, n := base.Read(buf);
        return buf, n, buf[..n], n;
      }
      bs, left := buf[3..n], before;
    }

    method JudgeOn(base: Connection, buf: seq<byte>, n: nat, bs: seq<byte>, left: nat, ghost users: set<seq<byte>>)
      returns (r: Login)
      requires Valid() && um != null && AuthNow() == Some(users)
      modifies base
      ensures r == PasswordJudged(users, Work(buf, n, old(base.State())), bs, left)
      ensures base.State() == if r.Broken? then r.conn else r.w.conn
    {
      var c := ParseAuth(bs, n);
      if c.BadIndex? || (c.Given? && c.len > left) {
        return Broken(base.State());
      }
      if c.Skip? {
        return Skipped(Work(buf, n, base.State()), left);
      }
      var known := Knows(c.up);
      assert known <==> AuthStr(c.up) in users;
      if known {
        base.Write([SUBNEGOTIATION, SUCCESS]);
        return Passed(Work(buf, n, base.State()), left - c.len, c.up);
      }
      base.Write([SUBNEGOTIATION, FAILURE]);
      r := Denied(Work(buf, n, base.State()));
    }

    /** The password exchange, once that method is chosen. */
    method LoginOn(base: Connection, head: seq<byte>, len: nat, end: nat, before: nat) returns (r: Login)
      requires Valid() && um != null
      requires 3 <= end <= |head| && len <= |head| && before <= len && (len != end ==> len >= 3)
      modifies base
      ensures AuthNow().Some?
      ensures r == PasswordStep(AuthNow().value, end, Work(head, len, old(base.State())), before)
      ensures base.State() == if r.Broken? then r.conn else r.w.conn
    {
      var buf, n, bs, left := PasswordOn(base, head, len, end, before);
      r := JudgeOn(base, buf, n, bs, left, AuthNow().value);
    }

    /** What the server does about the offered method `m`. */
    method TurnOn(
      base: Connection, m: byte, buf: seq<byte>, n: nat, end: nat, remain: nat, dealtNone: bool, dealtPass: bool)
      returns (t: Turn)
      requires Valid() && 3 <= end <= |buf| && n <= |buf| && remain <= n && (!dealtPass ==> end <= n)
      modifies base
      ensures t == TurnOf(AuthNow(), m, end, Work(buf, n, old(base.State())), remain, dealtNone, dealtPass)
      ensures t.Go? ==> t.w.conn == base.State()
      ensures t.Stop? ==> base.State() == if t.neg.Crash? then t.neg.conn else t.neg.w.conn
    {
      var serverHasUser := um != null;
      if m == AUTH_NONE {
        if dealtNone {
          return Stop(NotAuthed(Work(buf, n, base.State())));
        }
        if serverHasUser {
          return Go(Work(buf, n, base.State()), remain, true, dealtPass);
        }
        var out := Overwrite(buf, [VERSION5, AUTH_NONE]);
        base.Write(out[..2]);
        return Stop(Authed(Work(out, n, base.State()), remain, None));
      }
      if m == AUTH_PASSWORD {
        if dealtPass {
          return Stop(NotAuthed(Work(buf, n, base.State())));
        }
        if !serverHasUser {
          return Go(Work(buf, n, base.State()), remain, dealtNone, true);
        }
        var login := LoginOn(base, buf, n, end, remain);
        match login {
          case Broken(_) => return Stop(Crash(base.State()));
          case Passed(w, left, up) => return Stop(Authed(w, left, Some(up)));
          case Denied(w) => return Stop(WrongPassword(w));
          case Skipped(w, left) => return Go(w, left, dealtNone, true);
        }
      }
      t := Go(Work(buf, n, base.State()), remain, dealtNone, dealtPass);
    }

    /** The loop over the offered methods, which stand in the buffer up to index `end`. */
    method NegotiateOn(base: Connection, hello: seq<byte>, len: nat, end: nat) returns (r: Negotiated)
      requires Valid() && 3 <= end <= len <= |hello|
      modifies base
      ensures r == Negotiate(AuthNow(), 2, end, Work(hello, len, old(base.State())), len - end, false, false)
      ensures base.State() == if r.Crash? then r.conn else r.w.conn
    {
      var buf, n := hello, len;
      ghost var auth := AuthNow();
      ghost var want := Negotiate(auth, 2, end, Work(hello, len, base.State()), len - end, false, false);
      var remain: nat := n - end;
      var dealtNone, dealtPass, i := false, false, 2;
      while i < end
        invariant Valid() && AuthNow() == auth
        invariant end <= |buf| && n <= |buf| && remain <= n && 2 <= i <= end
        invariant !dealtPass ==> end <= n
        invariant Negotiate(auth, i, end, Work(buf, n, base.State()), remain, dealtNone, dealtPass) == want
      {
        var t := TurnOn(base, buf[i], buf, n, end, remain, dealtNone, dealtPass);
        match t {
          case Stop(neg) => return neg;
          case Go(w, left, none, pass) => buf, n, remain, dealtNone, dealtPass := w.buf, w.n, left, none, pass;
        }
        i := i + 1;
      }
      r := NotAuthed(Work(buf, n, base.State()));
    }

    method RequestOn(base: Connection, buf: seq<byte>, n: nat, user: Option<PlainText>) returns (r: Outcome)
      requires n <= |buf|
      modifies base
      ensures r == Request(world, Work(buf, n, old(base.State())), user)
    {
      if n < 7 {
        return Refused(RequestTooShort, buf[..n], base.State());
      }
      if buf[0] != VERSION5 {
        return Refused(BadVersion, buf[..n], base.State());
      }
      var cmd := buf[1];
      if cmd == CMD_BIND || (cmd != CMD_UDP_ASSOCIATE && cmd != CMD_CONNECT) {
        return Refused(BadCommand, buf[..n], base.State());
      }
      var h := HostOn(buf);
      if h.OutOfBounds? {
        return Panicked(base.State());
      }
      if h.NoHost? {
        return Refused(BadAddressType, buf[..n], base.State());
      }
      if n < h.end {
        return Refused(NoPort, buf[..n], base.State());
      }
      var target := TargetOf(h, FromBe16(buf[h.end - 2..]));
      var rest := buf[h.end..n];
      if cmd == CMD_CONNECT {
        base.Write(COMMON_REPLY);
        var early := FirstDataOn(base, rest);
        return Accepted(target, early, user, base.State());
      }
      if world.supportUdp {
        return UdpAssociate(target, user, base.State());
      }
      r := Unsupported(rest, base.State());
    }

    /** The host, at `off` and with the port `l` bytes long, and where the port ends. */
    method HostOn(buf: seq<byte>) returns (h: Host)
      requires |buf| >= 7
      ensures h == ParseHost(world, buf)
    {
      var l, off, ip, name := 2, 4, None, None;
      if buf[3] == ATYP_IP4 {
        l := l + 4;
        if |buf| < off + 4 {
          return OutOfBounds;
        }
        ip := Some(V4(buf[off..off + 4]));
      } else if buf[3] == ATYP_IP6 {
        l := l + 16;
        if |buf| < off + 16 {
          return OutOfBounds;
        }
        ip := Some(V6(buf[off..off + 16]));
      } else if buf[3] == ATYP_DOMAIN {
        l := l + buf[4] as int;
        off := 5;
        if |buf| < off + l - 2 {
          return OutOfBounds;
        }
        name := Some(buf[off..off + l - 2]);
        ip := world.parseIp(name.value);
      } else {
        return NoHost;
      }
      h := At(ip, name, off + l);
    }

    /** Early data: the leftover, or else what one read in time brings, or else the emptied buffer as it is. */
    method FirstDataOn(base: Connection, rest: seq<byte>) returns (early: seq<byte>)
      modifies base
      ensures (early, base.State()) == FirstRead(world, rest, old(base.State()))
    {
      early := rest;
      if early == [] {
        early := Zeros(world.capacity);
        if world.firstData == InTime {
          var u;
          early, u := base.Read(early);
          early := early[..u];
        }
      }
    }
  }
}
