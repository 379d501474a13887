/** The SOCKS5 client handshake for TCP targets, and its agreement with the server. */
module Socks5Client {
  import opened Bytes
  import opened AddrCodec
  import opened Chunked
  import opened Connections
  import opened Users
  import opened Socks5

  function MethodOf(up: Option<PlainText>): byte {
    if up.Some? then AUTH_PASSWORD else AUTH_NONE
  }

  function HelloMsg(up: Option<PlainText>): seq<byte> {
    [VERSION5, 1, MethodOf(up)]
  }

  /** The length bytes keep the low eight bits. */
  function AuthMsg(u: PlainText): seq<byte> {
    [SUBNEGOTIATION, |u.user| % 256] + u.user + [|u.pass| % 256] + u.pass
  }

  function RequestMsg(a: Addr): seq<byte> {
    [VERSION5, CMD_CONNECT, 0] + Encode(a)
  }

  /** Everything the client sends before payload data. */
  function Messages(up: Option<PlainText>, a: Addr): seq<seq<byte>> {
    match up
    case None => [HelloMsg(up), RequestMsg(a)]
    case Some(u) => [HelloMsg(up), AuthMsg(u), RequestMsg(a)]
  }

  /** The same as one byte string. */
  function Spoken(up: Option<PlainText>, a: Addr): seq<byte> {
    HelloMsg(up) + (if up.Some? then AuthMsg(up.value) else []) + RequestMsg(a)
  }

  /** What a client for datagrams says: it asks for a relay for any address. */
  function SpokenUdp(up: Option<PlainText>): seq<byte> {
    HelloMsg(up) + (if up.Some? then AuthMsg(up.value) else []) + AssociateMsg()
  }

  const ANY: Addr := Addr(AtSocket(Socket(V4([0, 0, 0, 0]), 0)), TCP)

  function AssociateMsg(): seq<byte> {
    [VERSION5, CMD_UDP_ASSOCIATE, 0] + Encode(ANY)
  }

  lemma SpokenInOrder(before: seq<byte>, hello: seq<byte>, auth: seq<byte>, request: seq<byte>)
    ensures before + hello + auth + request == before + (hello + auth + request)
  {
  }

  datatype ClientResult =
    | Failed
    | Done(unsent: Option<seq<byte>>)
    | Associated(relay: Socket, target: Addr, unsent: Option<seq<byte>>)

  /** The reply to the request: at least ten bytes, version 5, success. */
  predicate GoodReply(reply: seq<byte>) {
    |reply| >= 10 && reply[0] == 5 && reply[1] == 0 && reply[2] == 0
  }

  /** The relay's address in the reply to a datagram client, if the reply grants one. */
  function RelayOf(reply: seq<byte>): Option<Socket> {
    if |reply| < 3 || reply[0] != VERSION5 || reply[1] != 0 || reply[2] != 0 then None
    else
      match Decode(reply[3..]).result
      case Err(_) => None
      case Ok(a) => if a.addr.AtSocket? then Some(a.addr.so) else None
  }

  /** In bytes: a socket address of either kind behind the three bytes of a granting reply. */
  lemma RelayInBytes(reply: seq<byte>)
    ensures RelayOf(reply).Some? <==>
      && |reply| >= 10 && reply[..3] == [5, 0, 0] && (reply[3] == 1 || (reply[3] == 4 && |reply| >= 22))
    ensures RelayOf(reply).Some? && reply[3] == 1 ==>
      RelayOf(reply).value == Socket(V4(reply[4..8]), reply[8] as int * 256 + reply[9] as int)
    ensures RelayOf(reply).Some? && reply[3] == 4 ==>
      RelayOf(reply).value == Socket(V6(reply[4..20]), reply[20] as int * 256 + reply[21] as int)
  {
    if |reply| >= 10 {
      assert reply[3..][1..5] == reply[4..8] && reply[3..][5..][0] == reply[8] && reply[3..][5..][1] == reply[9];
    }
    if |reply| >= 22 {
      assert reply[3..][1..17] == reply[4..20] && reply[3..][17..][0] == reply[20] && reply[3..][17..][1] == reply[21];
    }
  }

  /** What the client's next read of a reply returns, and what stays unread. */
  function NextReply(replies: seq<seq<byte>>): (seq<byte>, seq<seq<byte>>) {
    ReadChunk(replies, BUF_LEN)
  }

  predicate Greeted(up: Option<PlainText>, replies: seq<seq<byte>>) {
    NextReply(replies).0 == [VERSION5, MethodOf(up)]
  }

  predicate LoggedIn(up: Option<PlainText>, replies: seq<seq<byte>>) {
    up.Some? ==> NextReply(replies).0 == [1, 0]
  }

  /** The replies still unread after the password exchange, if there is one. */
  function AfterLogin(up: Option<PlainText>, replies: seq<seq<byte>>): seq<seq<byte>> {
    if up.Some? then NextReply(replies).1 else replies
  }

  /** Method and password, if any, are accepted. */
  predicate LetIn(up: Option<PlainText>, replies: seq<seq<byte>>) {
    Greeted(up, replies) && LoggedIn(up, NextReply(replies).1)
  }

  /** The reply to the request, and what is left unread behind it. */
  function LastReply(up: Option<PlainText>, replies: seq<seq<byte>>): (seq<byte>, seq<seq<byte>>) {
    NextReply(AfterLogin(up, NextReply(replies).1))
  }

  /** The replies a stream client with these credentials goes on with. */
  predicate GoodReplies(up: Option<PlainText>, replies: seq<seq<byte>>) {
    LetIn(up, replies) && GoodReply(LastReply(up, replies).0)
  }

  /**
   * A peer's first bytes, `data`, are still to be read after the handshake if and only if the read
   * that brings the reply ends where the reply ends. What comes along with it is dropped.
   */
  lemma FirstBytesSurviveExactly(up: Option<PlainText>, replies: seq<seq<byte>>, reply: seq<byte>, data: seq<byte>)
    requires GoodReplies(up, replies) && Flat(AfterLogin(up, NextReply(replies).1)) == reply + data
    ensures var chunks, unread := AfterLogin(up, NextReply(replies).1), Flat(LastReply(up, replies).1);
            && chunks != []
            && unread == Flat(chunks)[Min(|chunks[0]|, BUF_LEN)..]
            && (unread == data <==> Min(|chunks[0]|, BUF_LEN) == |reply|)
  {
    var chunks := AfterLogin(up, NextReply(replies).1);
    var (taken, left) := ReadChunk(chunks, BUF_LEN);
    assert (taken + Flat(left))[|taken|..] == Flat(left);
    assert |taken| + |Flat(left)| == |reply| + |data|;
    if |taken| == |reply| {
      assert (reply + data)[|reply|..] == data;
    }
  }

  /** The input: a peer whose first bytes `x` come with the reply; the client goes on without them. */
  lemma FirstBytesDropped(x: seq<byte>)
    requires |x| <= BUF_LEN - |COMMON_REPLY|
    ensures var replies := [[VERSION5, AUTH_NONE], COMMON_REPLY + x];
            GoodReplies(None, replies) && Flat(LastReply(None, replies).1) == []
  {
    var replies: seq<seq<byte>> := [[VERSION5, AUTH_NONE], COMMON_REPLY + x];
    assert NextReply(replies) == ([VERSION5, AUTH_NONE], replies[1..]);
    assert replies[1..][1..] == replies[2..] && |replies[2..]| == 0;
    assert NextReply(replies[1..]) == (COMMON_REPLY + x, replies[1..][1..]);
    assert (COMMON_REPLY + x)[..|COMMON_REPLY|] == COMMON_REPLY;
  }

  class Client {
    const up: Option<PlainText>
    const isTail: bool
    const preDefined: Option<seq<byte>>

    constructor (up: Option<PlainText>, isTail: bool, preDefined: Option<seq<byte>>)
      ensures this.up == up && this.isTail == isTail && this.preDefined == preDefined
    {
      this.up, this.isTail, this.preDefined := up, isTail, preDefined;
    }

    /** Early data: what the caller gave, followed by the configured bytes. */
    function EarlyData(b: Option<seq<byte>>): Option<seq<byte>> {
      match preDefined
      case None => b
      case Some(bf) => Some((if b.Some? then b.value else []) + bf)
    }

    method ReadReply(base: Connection) returns (reply: seq<byte>)
      modifies base
      ensures base.sent == old(base.sent)
      ensures (reply, base.chunks) == NextReply(old(base.chunks))
    {
      var buf, n := base.Read(Zeros(BUF_LEN));
      reply := buf[..n];
    }

    method Greet(base: Connection) returns (ok: bool)
      modifies base
      ensures base.sent == old(base.sent) + HelloMsg(up)
      ensures ok <==> Greeted(up, old(base.chunks))
      ensures base.chunks == NextReply(old(base.chunks)).1
    {
      base.Write([VERSION5, 1, MethodOf(up)]);
      var reply := ReadReply(base);
      ok := |reply| == 2 && reply[0] == VERSION5 && reply[1] == MethodOf(up);
    }

    method Authenticate(base: Connection, u: PlainText) returns (ok: bool)
      modifies base
      ensures base.sent == old(base.sent) + AuthMsg(u)
      ensures ok <==> NextReply(old(base.chunks)).0 == [1, 0]
      ensures base.chunks == NextReply(old(base.chunks)).1
    {
      var buf: seq<byte> := [1];
      buf := buf + [|u.user| % 256];
      buf := buf + u.user;
      buf := buf + [|u.pass| % 256];
      buf := buf + u.pass;
      assert buf == AuthMsg(u);
      base.Write(buf);
      var reply := ReadReply(base);
      ok := |reply| == 2 && reply[0] == 1 && reply[1] == 0;
    }

    method Ask(base: Connection, a: Addr) returns (ok: bool)
      modifies base
      ensures base.sent == old(base.sent) + RequestMsg(a)
      ensures ok <==> GoodReply(NextReply(old(base.chunks)).0)
      ensures base.chunks == NextReply(old(base.chunks)).1
    {
      var buf := AddrToSocks5Bytes(a, [VERSION5, CMD_CONNECT, 0]);
      base.Write(buf);
      var reply := ReadReply(base);
      ok := |reply| >= 10 && reply[0] == 5 && reply[1] == 0 && reply[2] == 0;
    }

    /** The password exchange, for a client that has credentials. */
    method AuthenticateIf(base: Connection) returns (ok: bool)
      modifies base
      ensures base.sent == old(base.sent) + (if up.Some? then AuthMsg(up.value) else [])
      ensures ok <==> LoggedIn(up, old(base.chunks))
      ensures base.chunks == AfterLogin(up, old(base.chunks))
    {
      if up.None? {
        return true;
      }
      ok := Authenticate(base, up.value);
    }

    /** The exchange up to the password; a client that is not let in sends none of what follows. */
    method Enter(base: Connection) returns (ok: bool)
      modifies base
      ensures ok <==> LetIn(up, old(base.chunks))
      ensures ok ==> base.chunks == AfterLogin(up, NextReply(old(base.chunks)).1)
      ensures ok ==> base.sent == old(base.sent) + HelloMsg(up) + (if up.Some? then AuthMsg(up.value) else [])
      ensures !Greeted(up, old(base.chunks)) ==> base.sent == old(base.sent) + HelloMsg(up)
      ensures !ok ==>
        old(base.sent) <= base.sent <= old(base.sent) + HelloMsg(up) + (if up.Some? then AuthMsg(up.value) else [])
    {
      ok := Greet(base);
      if ok {
        ok := AuthenticateIf(base);
      }
    }

    /** Asks for the stream; the reply decides. */
    method Converse(base: Connection, a: Addr) returns (ok: bool)
      modifies base
      ensures ok <==> GoodReplies(up, old(base.chunks))
      ensures ok ==> base.sent == old(base.sent) + Spoken(up, a) && base.chunks == LastReply(up, old(base.chunks)).1
      ensures !ok ==> old(base.sent) <= base.sent <= old(base.sent) + Spoken(up, a)
      ensures !Greeted(up, old(base.chunks)) ==> base.sent == old(base.sent) + HelloMsg(up)
    {
      SpokenInOrder(base.sent, HelloMsg(up), if up.Some? then AuthMsg(up.value) else [], RequestMsg(a));
      ok := Enter(base);
      if ok {
        ok := Ask(base, a);
      }
    }

    /** Asks for a datagram relay; the reply names its address. */
    method Associate(base: Connection) returns (relay: Option<Socket>)
      modifies base
      ensures relay == if LetIn(up, old(base.chunks)) then RelayOf(LastReply(up, old(base.chunks)).0) else None
      ensures LetIn(up, old(base.chunks)) ==>
        base.sent == old(base.sent) + SpokenUdp(up) && base.chunks == LastReply(up, old(base.chunks)).1
      ensures old(base.sent) <= base.sent <= old(base.sent) + SpokenUdp(up)
    {
      SpokenInOrder(base.sent, HelloMsg(up), if up.Some? then AuthMsg(up.value) else [], AssociateMsg());
      var ok := Enter(base);
      if !ok {
        return None;
      }
      var buf := AddrToSocks5Bytes(ANY, [VERSION5, CMD_UDP_ASSOCIATE, 0]);
      base.Write(buf);
      var reply := ReadReply(base);
      if |reply| < 3 || reply[0] != VERSION5 || reply[1] != 0 || reply[2] != 0 {
        return None;
      }
      var d := Socks5BytesToAddr(reply[3..]);
      relay := match d.result { case Err(_) => None case Ok(a) => if a.addr.AtSocket? then Some(a.addr.so) else None };
    }

    /** `bound` tells whether a local socket can be had for datagrams. */
    method HandshakeOn(base: Connection, a: Addr, b: Option<seq<byte>>, bound: bool) returns (r: ClientResult)
      modifies base
      ensures r.Done? <==> a.network == TCP && GoodReplies(up, old(base.chunks))
      ensures r.Done? <==>
        var (first, more) := ReadChunk(old(base.chunks), 1024);
        var (second, rest) := if up.Some? then ReadChunk(more, 1024) else ([1, 0], more);
        var last := ReadChunk(rest, 1024).0;
        && a.network == TCP && first == [5, if up.Some? then 2 else 0] && second == [1, 0]
        && |last| >= 10 && last[..3] == [5, 0, 0]
      ensures r.Done? ==>
        && (base.sent == old(base.sent) + Spoken(up, a)
                       + if isTail && EarlyData(b).Some? then EarlyData(b).value else [])
        && r.unsent == (if isTail then None else EarlyData(b)) && base.chunks == LastReply(up, old(base.chunks)).1
      ensures r.Associated? <==>
        && a.network == UDP && bound && LetIn(up, old(base.chunks))
        && RelayOf(LastReply(up, old(base.chunks)).0).Some?
      ensures r.Associated? <==>
        var (first, more) := ReadChunk(old(base.chunks), 1024);
        var (second, rest) := if up.Some? then ReadChunk(more, 1024) else ([1, 0], more);
        var last := ReadChunk(rest, 1024).0;
        && a.network == UDP && bound && first == [5, if up.Some? then 2 else 0] && second == [1, 0]
        && |last| >= 10 && last[..3] == [5, 0, 0] && (last[3] == 1 || (last[3] == 4 && |last| >= 22))
      ensures r.Associated? ==>
        && base.sent == old(base.sent) + SpokenUdp(up) && Some(r.relay) == RelayOf(LastReply(up, old(base.chunks)).0)
        && r.target == a && r.unsent == EarlyData(b) && base.chunks == LastReply(up, old(base.chunks)).1
      ensures a.network != TCP && a.network != UDP ==> base.State() == old(base.State())
      ensures r.Failed? ==>
        base.sent <= old(base.sent) + (if a.network == UDP then SpokenUdp(up) else Spoken(up, a))
    {
      if a.network != TCP && a.network != UDP {
        return Failed;
      }
      var theEd := EarlyData(b);
      if a.network == UDP {
        var relay := Associate(base);
        return if relay.Some? && bound then Associated(relay.value, a, theEd) else Failed;
      }
      var ok := Converse(base, a);
      if !ok {
        return Failed;
      }
      if theEd.Some? && isTail {
        base.Write(theEd.value);
        theEd := None;
      }
      r := Done(theEd);
    }
  }

  lemma FlatMessages(up: Option<PlainText>, a: Addr)
    ensures Flat(Messages(up, a)) == Spoken(up, a)
  {
    var ms := Messages(up, a);
    assert Flat([RequestMsg(a)]) == RequestMsg(a) + [];
    match up {
      case None =>
        assert ms[1..] == [RequestMsg(a)];
      case Some(u) =>
        assert ms[1..] == [AuthMsg(u), RequestMsg(a)] && ms[1..][1..] == [RequestMsg(a)];
    }
  }
}
