/** What the trojan server makes of a trojan client's bytes, however they are cut into chunks. */
module TrojanAgreement {
  import opened Bytes
  import opened Text
  import opened AddrCodec
  import opened Chunked
  import opened TrojanHandshake
  import TrojanUdp

  /** The target the server should report. */
  function Reported(a: Addr): Addr {
    if a.network == UDP then Canonical(a).(network := UDP) else Canonical(a)
  }

  /** An address and a network that the client accepts and can put on the wire. */
  predicate Proper(a: Addr) {
    Sendable(a) && (a.network == TCP || a.network == UDP)
  }

  /** The fewest bytes the parser needs: the header, and at least seven bytes behind the command. */
  function Needed(h: Hash, a: Addr): nat {
    if |Header(h, a)| < PASS_LEN + 10 then PASS_LEN + 10 else |Header(h, a)|
  }

  lemma {:induction false} LoopConserves(got: seq<byte>, cap: nat, chunks: seq<seq<byte>>)
    requires |got| <= cap
    ensures var r := ReadLoop(got, cap, chunks); r.0 + Flat(r.1) == got + Flat(chunks)
    decreases cap - |got|
  {
    var (data, rest) := ReadChunk(chunks, cap - |got|);
    assert got + data + Flat(rest) == got + (data + Flat(rest));
    if data != [] && |got + data| < CAP && !StopsAt(got + data, |got|) {
      LoopConserves(got + data, cap, rest);
    }
  }

  /** No byte is lost or invented on the way to the parser. */
  lemma GatherConserves(chunks: seq<seq<byte>>, preRead: Option<seq<byte>>)
    ensures var r := Gather(chunks, preRead);
            r.0 + Flat(r.2) == (if preRead.Some? then preRead.value else []) + Flat(chunks)
  {
    match preRead {
      case None => LoopConserves([], CAP, chunks);
      case Some(ob) =>
        if |ob| < 17 {
          LoopConserves(ob, |ob|, chunks);
        }
    }
  }

  lemma HeaderParts(h: Hash, a: Addr, x: seq<byte>)
    ensures var got := Header(h, a) + x;
            && got[..PASS_LEN] == h && got[PASS_LEN..][..2] == CRLF && got[PASS_LEN..][2] == CmdOf(a.network)
            && got[PASS_LEN..][3..] == Encode(a) + (CRLF + x)
    ensures |Header(h, a)| == PASS_LEN + 5 + |Encode(a)| && |Header(h, a)| >= PASS_LEN + 9
  {
    var got := Header(h, a) + x;
    assert got == h + (CRLF + ([CmdOf(a.network)] + (Encode(a) + (CRLF + x))));
  }

  /** With enough bytes, the target stage reports the client's address and what came behind the header. */
  lemma TargetWhole(user: seq<byte>, a: Addr, x: seq<byte>, conn: Conn)
    requires Proper(a) && |Encode(a) + (CRLF + x)| >= MIN_LEN
    ensures Target(user, CmdOf(a.network), Encode(a) + (CRLF + x), conn)
         == if a.network == UDP then FirstPacket(user, Reported(a), x, conn) else Accepted(user, Reported(a), x, conn)
  {
    RoundTrip(a, CRLF + x);
    assert (CRLF + x)[..2] == CRLF && (CRLF + x)[2..] == x;
  }

  lemma ParseWhole(users: set<seq<byte>>, h: Hash, a: Addr, x: seq<byte>, conn: Conn)
    requires Proper(a) && h in users && |Header(h, a) + x| >= Needed(h, a)
    ensures Parse(users, Header(h, a) + x, conn)
         == if a.network == UDP then FirstPacket(h, Reported(a), x, conn) else Accepted(h, Reported(a), x, conn)
  {
    HeaderParts(h, a, x);
    TargetWhole(h, a, x, conn);
  }

  /** Cut short, the bytes behind the command are not accepted. */
  lemma TargetCut(user: seq<byte>, a: Addr, b: seq<byte>, more: seq<byte>, x: seq<byte>, conn: Conn)
    requires Proper(a) && b + more == Encode(a) + (CRLF + x)
    requires |b| < |Encode(a)| + 2 || |b| < MIN_LEN
    ensures !Target(user, CmdOf(a.network), b, conn).Accepted?
  {
    var d := Decode(b);
    if d.result.Ok? {
      DecodeExtends(b, more);
      RoundTrip(a, CRLF + x);
      assert |d.rest + more| == |CRLF + x|;
    }
  }

  /** Whatever is cut before the needed bytes, nobody is let through. */
  lemma ParseCut(users: set<seq<byte>>, h: Hash, a: Addr, got: seq<byte>, more: seq<byte>, x: seq<byte>, conn: Conn)
    requires Proper(a) && got + more == Header(h, a) + x && PASS_LEN + 9 <= |got| < Needed(h, a)
    ensures !Parse(users, got, conn).Accepted?
  {
    HeaderParts(h, a, x);
    var b, whole := got[PASS_LEN..], (Header(h, a) + x)[PASS_LEN..];
    assert b + more == whole;
    assert b[2] == whole[2];
    assert b[3..] + more == whole[3..];
    TargetCut(got[..PASS_LEN], a, b[3..], more, x, conn);
  }

  /** The bytes given to the parser, and those still unread. */
  function Got(chunks: seq<seq<byte>>, preRead: Option<seq<byte>>): seq<byte> {
    Gather(chunks, preRead).0
  }

  function Sent(chunks: seq<seq<byte>>, preRead: Option<seq<byte>>): seq<byte> {
    (if preRead.Some? then preRead.value else []) + Flat(chunks)
  }

  lemma SplitAfter(got: seq<byte>, rest: seq<byte>, header: seq<byte>, payload: seq<byte>)
    requires got + rest == header + payload && |got| >= |header|
    ensures got == header + got[|header|..] && got[|header|..] + rest == payload
  {
    assert got[..|header|] == (got + rest)[..|header|] == (header + payload)[..|header|] == header;
    assert (header + payload)[|header|..] == payload;
    assert (got + rest)[|header|..] == got[|header|..] + rest;
  }

  lemma CutNeverAccepted(users: set<seq<byte>>, h: Hash, a: Addr, conn: Conn, preRead: Option<seq<byte>>,
                         payload: seq<byte>)
    requires Proper(a) && Sent(conn.chunks, preRead) == Header(h, a) + payload
    requires |Got(conn.chunks, preRead)| < Needed(h, a)
    ensures !Handshake(users, conn, preRead).Accepted?
  {
    GatherConserves(conn.chunks, preRead);
    var (got, cap, rest) := Gather(conn.chunks, preRead);
    if |got| >= PASS_LEN + 9 {
      ParseCut(users, h, a, got, Flat(rest), payload, conn.(chunks := rest));
    }
  }

  /**
   * A client's stream header, however it is cut into chunks and whatever an earlier layer read
   * of it: the server accepts if and only if the bytes it gathered are enough. Then it names the
   * registered hash and the address in canonical form, and early data and unread stream together
   * are the payload.
   */
  lemma TcpAgrees(users: set<seq<byte>>, h: Hash, a: Addr, conn: Conn, preRead: Option<seq<byte>>, payload: seq<byte>)
    requires Proper(a) && a.network == TCP && h in users
    requires Sent(conn.chunks, preRead) == Header(h, a) + payload
    ensures var r := Handshake(users, conn, preRead);
            && (r.Accepted? <==> |Got(conn.chunks, preRead)| >= Needed(h, a))
            && (r.Accepted? ==>
                  && r.user == h && r.target == Canonical(a) && r.conn.sent == conn.sent
                  && r.early + Flat(r.conn.chunks) == payload)
  {
    var (got, cap, rest) := Gather(conn.chunks, preRead);
    if |got| < Needed(h, a) {
      CutNeverAccepted(users, h, a, conn, preRead, payload);
    } else {
      GatherConserves(conn.chunks, preRead);
      SplitAfter(got, Flat(rest), Header(h, a), payload);
      ParseWhole(users, h, a, got[|Header(h, a)|..], conn.(chunks := rest));
    }
  }

  lemma PacketParts(p: TrojanUdp.Item, x: seq<byte>)
    ensures TrojanUdp.EncodePacket(p) + x == Encode(p.addr) + (Be16(|p.data|) + (CRLF + (p.data + x)))
    ensures |TrojanUdp.EncodePacket(p)| == |Encode(p.addr)| + 4 + |p.data|
  {
    assert Be16(TrojanUdp.CRLF) == CRLF;
  }

  /** The first packet, whole and with `x` behind it, is handed on; `x` is dropped. */
  lemma FirstPacketWhole(user: seq<byte>, ta: Addr, p: TrojanUdp.Item, x: seq<byte>, conn: Conn)
    requires TrojanUdp.Fits(p)
    ensures FirstPacket(user, ta, TrojanUdp.EncodePacket(p) + x, conn)
         == Accepted(user, TrojanUdp.Udp(p.addr), p.data, conn)
  {
    PacketParts(p, x);
    var tail := CRLF + (p.data + x);
    RoundTrip(p.addr, Be16(|p.data|) + tail);
    Be16RoundTrip(|p.data|, tail);
    assert tail[..2] == CRLF && tail[2..] == p.data + x;
    assert (p.data + x)[..|p.data|] == p.data;
  }

  /** A first packet of which only a part came with the header ends the handshake. */
  lemma FirstPacketCut(user: seq<byte>, ta: Addr, p: TrojanUdp.Item, b: seq<byte>, more: seq<byte>, x: seq<byte>,
                       conn: Conn)
    requires TrojanUdp.Fits(p) && b + more == TrojanUdp.EncodePacket(p) + x && 0 < |b| < |TrojanUdp.EncodePacket(p)|
    ensures !FirstPacket(user, ta, b, conn).Accepted?
  {
    PacketParts(p, x);
    var d := Decode(b);
    if d.result.Ok? {
      var tail := Be16(|p.data|) + (CRLF + (p.data + x));
      DecodeExtends(b, more);
      RoundTrip(p.addr, tail);
      assert d.rest + more == tail;
      if |d.rest| >= 2 {
        assert d.rest[0] == tail[0] && d.rest[1] == tail[1];
        Be16RoundTrip(|p.data|, []);
      }
    }
  }

  /** What is said about a datagram header of length `n0` and packets `ps`, `n` bytes having been gathered. */
  ghost predicate UdpOutcome(r: Outcome, h: Hash, a: Addr, ps: seq<TrojanUdp.Item>, n0: nat, n: nat, sent: seq<byte>)
    requires ps != []
  {
    var first := TrojanUdp.EncodePacket(ps[0]);
    && (r.Accepted? <==> n >= Needed(h, a) && (n == n0 || n >= n0 + |first|))
    && (r.Accepted? ==> r.user == h && r.conn.sent == sent)
    && (r.Accepted? && n == n0 ==>
          r.target == Reported(a) && r.early == [] && Flat(r.conn.chunks) == TrojanUdp.EncodePackets(ps))
    && (r.Accepted? && n > n0 ==>
          && r.target == TrojanUdp.Udp(ps[0].addr) && r.early == ps[0].data
          && n - n0 <= |TrojanUdp.EncodePackets(ps)| && Flat(r.conn.chunks) == TrojanUdp.EncodePackets(ps)[n - n0..])
  }

  /**
   * A client's datagram header followed by packets: the server accepts if and only if it gathered
   * the header alone or the header and the whole first packet. Of what it gathered behind the
   * first packet nothing is handed on: those packets are lost.
   */
  lemma UdpAgrees(users: set<seq<byte>>, h: Hash, a: Addr, conn: Conn, preRead: Option<seq<byte>>,
                  ps: seq<TrojanUdp.Item>)
    requires Proper(a) && a.network == UDP && h in users && ps != [] && TrojanUdp.AllFit(ps)
    requires Sent(conn.chunks, preRead) == Header(h, a) + TrojanUdp.EncodePackets(ps)
    ensures UdpOutcome(Handshake(users, conn, preRead), h, a, ps, |Header(h, a)|, |Got(conn.chunks, preRead)|,
                       conn.sent)
  {
    var (got, cap, rest) := Gather(conn.chunks, preRead);
    if |got| < Needed(h, a) {
      CutNeverAccepted(users, h, a, conn, preRead, TrojanUdp.EncodePackets(ps));
    } else {
      var left := conn.(chunks := rest);
      GatherConserves(conn.chunks, preRead);
      UdpGathered(users, h, a, ps, got, left);
      assert Handshake(users, conn, preRead) == Parse(users, got, left);
    }
  }

  lemma UdpGathered(users: set<seq<byte>>, h: Hash, a: Addr, ps: seq<TrojanUdp.Item>, got: seq<byte>, conn: Conn)
    requires Proper(a) && a.network == UDP && h in users && ps != [] && TrojanUdp.AllFit(ps)
    requires got + Flat(conn.chunks) == Header(h, a) + TrojanUdp.EncodePackets(ps) && |got| >= Needed(h, a)
    ensures UdpOutcome(Parse(users, got, conn), h, a, ps, |Header(h, a)|, |got|, conn.sent)
  {
    var n0, all := |Header(h, a)|, TrojanUdp.EncodePackets(ps);
    var x := got[n0..];
    SplitAfter(got, Flat(conn.chunks), Header(h, a), all);
    ParseWhole(users, h, a, x, conn);
    FirstOfMany(h, Reported(a), ps, x, Flat(conn.chunks), conn);
    assert all[|x|..] == Flat(conn.chunks);
  }

  lemma FirstOfMany(user: seq<byte>, ta: Addr, ps: seq<TrojanUdp.Item>, x: seq<byte>, more: seq<byte>, conn: Conn)
    requires ps != [] && TrojanUdp.AllFit(ps) && x + more == TrojanUdp.EncodePackets(ps)
    ensures var r, first := FirstPacket(user, ta, x, conn), TrojanUdp.EncodePacket(ps[0]);
            && (x == [] ==> r == Accepted(user, ta, [], conn))
            && (0 < |x| < |first| ==> !r.Accepted?)
            && (|x| >= |first| ==> r == Accepted(user, TrojanUdp.Udp(ps[0].addr), ps[0].data, conn))
  {
    var p, behind := ps[0], TrojanUdp.EncodePackets(ps[1..]);
    var first := TrojanUdp.EncodePacket(p);
    PacketParts(p, []);
    if |x| >= |first| {
      SplitAfter(x, more, first, behind);
      FirstPacketWhole(user, ta, p, x[|first|..], conn);
    } else if x != [] {
      FirstPacketCut(user, ta, p, x, more, behind, conn);
    }
  }

  /** The first packet is handed on and the others can still be read, or all of them can. */
  predicate AllKept(r: Outcome, ps: seq<TrojanUdp.Item>)
    requires ps != [] && r.Accepted?
  {
    || (r.early == [] && Flat(r.conn.chunks) == TrojanUdp.EncodePackets(ps))
    || (r.early == ps[0].data && r.target == TrojanUdp.Udp(ps[0].addr)
        && Flat(r.conn.chunks) == TrojanUdp.EncodePackets(ps[1..]))
  }

  /**
   * With an accepted datagram header, no packet is lost if and only if what was gathered behind
   * the header is nothing or exactly the first packet.
   */
  lemma UdpKeepsExactly(users: set<seq<byte>>, h: Hash, a: Addr, conn: Conn, preRead: Option<seq<byte>>,
                        ps: seq<TrojanUdp.Item>)
    requires Proper(a) && a.network == UDP && h in users && ps != [] && TrojanUdp.AllFit(ps)
    requires Sent(conn.chunks, preRead) == Header(h, a) + TrojanUdp.EncodePackets(ps)
    requires Handshake(users, conn, preRead).Accepted?
    ensures AllKept(Handshake(users, conn, preRead), ps)
            <==> |Got(conn.chunks, preRead)| - |Header(h, a)| in {0, |TrojanUdp.EncodePacket(ps[0])|}
  {
    var r, n0, n := Handshake(users, conn, preRead), |Header(h, a)|, |Got(conn.chunks, preRead)|;
    var first, all := TrojanUdp.EncodePacket(ps[0]), TrojanUdp.EncodePackets(ps);
    UdpAgrees(users, h, a, conn, preRead, ps);
    PacketParts(ps[0], []);
    assert all == first + TrojanUdp.EncodePackets(ps[1..]);
    if n == n0 + |first| {
      assert all[|first|..] == TrojanUdp.EncodePackets(ps[1..]);
    }
  }

  /** One chunk that fits the buffer is gathered whole. */
  lemma OneChunkGathered(c: seq<byte>)
    requires 0 < |c| <= CAP
    ensures Got([c], None) == c && Gather([c], None).2 == []
  {
    assert c[..|c|] == c && [] + c == c;
    assert [c][1..] == [];
  }

  /** Header and two packets in one chunk: the second packet is handed on by nobody. */
  lemma UdpLosesSecond(users: set<seq<byte>>, h: Hash, a: Addr, p: TrojanUdp.Item, q: TrojanUdp.Item)
    requires Proper(a) && a.network == UDP && h in users && TrojanUdp.AllFit([p, q])
    requires |Header(h, a) + TrojanUdp.EncodePackets([p, q])| <= CAP
    ensures var r := Handshake(users, Conn([Header(h, a) + TrojanUdp.EncodePackets([p, q])], []), None);
            r.Accepted? && r.early == p.data && Flat(r.conn.chunks) == [] && !AllKept(r, [p, q])
  {
    var ps, c := [p, q], Header(h, a) + TrojanUdp.EncodePackets([p, q]);
    var conn := Conn([c], []);
    assert Sent([c], None) == c by {
      assert Flat([c]) == c + Flat([c][1..]);
    }
    HeaderParts(h, a, TrojanUdp.EncodePackets(ps));
    PacketParts(p, []);
    PacketParts(q, []);
    TwoPackets(p, q);
    OneChunkGathered(c);
    UdpAgrees(users, h, a, conn, None, ps);
    UdpKeepsExactly(users, h, a, conn, None, ps);
  }

  lemma TwoPackets(p: TrojanUdp.Item, q: TrojanUdp.Item)
    ensures TrojanUdp.EncodePackets([p, q]) == TrojanUdp.EncodePacket(p) + TrojanUdp.EncodePacket(q)
  {
    assert [p, q][1..] == [q];
    assert [q][1..] == [];
    assert TrojanUdp.EncodePackets([q]) == TrojanUdp.EncodePacket(q) + [];
  }

  function Skip(s: seq<byte>, n: nat): seq<byte> {
    if n <= |s| then s[n..] else []
  }

  /** Bytes that send the peer to the fallback handler: too few, of no user, or with no line end behind the hash. */
  predicate FallsBack(users: set<seq<byte>>, got: seq<byte>) {
    && |got| >= 17
    && (|got| < PASS_LEN + 9 || got[..PASS_LEN] !in users || got[PASS_LEN..][..2] != CRLF)
  }

  lemma ParseFallback(users: set<seq<byte>>, got: seq<byte>, conn: Conn)
    requires |got| >= PASS_LEN + 9
    ensures var r := Parse(users, got, conn);
            && (r.Fallback? <==> FallsBack(users, got))
            && (r.Fallback? ==>
                 r.conn == conn && r.buf == got[if got[..PASS_LEN] !in users then PASS_LEN else PASS_LEN + 2..])
  {
  }

  /**
   * A peer is handed to the fallback handler exactly when the bytes gathered say so. The handler
   * then receives, in the buffer and behind it, exactly what the peer sent if and only if those
   * bytes are short of a header and an earlier layer read some of them; a longer header lacks its
   * hash, and its line end too when that was the fault.
   */
  lemma FallbackIntact(users: set<seq<byte>>, conn: Conn, preRead: Option<seq<byte>>)
    ensures var r, got, sent := Handshake(users, conn, preRead), Got(conn.chunks, preRead), Sent(conn.chunks, preRead);
            && (r.Fallback? <==> FallsBack(users, got))
            && (r.Fallback? ==>
                 && (r.buf + Flat(r.conn.chunks) == sent <==> |got| < PASS_LEN + 9 && preRead.Some?)
                 && (|got| >= PASS_LEN + 9 ==>
                      && (r.buf + Flat(r.conn.chunks)
                       == Skip(sent, if got[..PASS_LEN] !in users then PASS_LEN else PASS_LEN + 2))))
  {
    GatherConserves(conn.chunks, preRead);
    var (got, cap, rest) := Gather(conn.chunks, preRead);
    var left := conn.(chunks := rest);
    if |got| >= PASS_LEN + 9 {
      ParseFallback(users, got, left);
      SkipInto(got, Flat(rest), PASS_LEN);
      SkipInto(got, Flat(rest), PASS_LEN + 2);
    } else {
      ShortBuffer(conn.chunks, preRead);
      assert |Padded(got, cap) + Flat(rest)| == cap + |Flat(rest)|;
    }
  }

  lemma SkipInto(got: seq<byte>, rest: seq<byte>, n: nat)
    requires 0 < n <= |got|
    ensures got[n..] + rest == Skip(got + rest, n) && |got[n..] + rest| < |got + rest|
  {
  }

  lemma ShortBuffer(chunks: seq<seq<byte>>, preRead: Option<seq<byte>>)
    ensures var (got, cap, rest) := Gather(chunks, preRead);
            |got| < PASS_LEN + 9 ==> if preRead.Some? then Padded(got, cap) == got else |Padded(got, cap)| > |got|
  {
    if preRead.Some? && |preRead.value| < 17 {
      var ob := preRead.value;
      LoopConserves(ob, |ob|, chunks);
    }
  }

  /** Where the first chunk border at or beyond byte 58 lies, `n` bytes being read already. */
  function FirstBorder(chunks: seq<seq<byte>>, n: nat): nat {
    if chunks == [] || n >= PASS_LEN + 2 then n else FirstBorder(chunks[1..], n + |chunks[0]|)
  }

  /** Up to there no chunk is empty and none ends between the two bytes of the first CRLF. */
  predicate CrlfWhole(chunks: seq<seq<byte>>, n: nat) {
    n >= PASS_LEN + 2 || chunks == []
    || (chunks[0] != [] && n + |chunks[0]| != PASS_LEN + 1 && CrlfWhole(chunks[1..], n + |chunks[0]|))
  }

  lemma StopsWithCrlf(got: seq<byte>, from: nat, h: Hash)
    requires from <= PASS_LEN && |got| >= PASS_LEN + 2 && got[..PASS_LEN] == h && got[PASS_LEN..PASS_LEN + 2] == CRLF
    ensures StopsAt(got, from)
  {
    var rest := got[PASS_LEN + 2..];
    assert got[from..] == h[from..] + CRLF + rest;
    FindAfterClear(h[from..], CRLF, rest);
  }

  lemma GoesOnWithoutCrlf(got: seq<byte>, from: nat, h: Hash)
    requires from <= |got| <= PASS_LEN && got == h[..|got|]
    ensures !StopsAt(got, from)
  {
    FindInClear(got[from..], CRLF);
  }

  lemma HeaderFront(h: Hash, a: Addr, payload: seq<byte>, got: seq<byte>, rest: seq<byte>)
    requires got + rest == Header(h, a) + payload
    ensures |got| <= PASS_LEN ==> got == h[..|got|] && rest != []
    ensures |got| >= PASS_LEN + 2 ==> got[..PASS_LEN] == h && got[PASS_LEN..PASS_LEN + 2] == CRLF
  {
    HeaderParts(h, a, payload);
    var all := Header(h, a) + payload;
    assert |all| == |got| + |rest| && |all| >= PASS_LEN + 9;
    assert all[..PASS_LEN] == h && all[PASS_LEN..PASS_LEN + 2] == all[PASS_LEN..][..2];
    assert got == all[..|got|];
    if |got| <= PASS_LEN {
      assert all[..|got|] == all[..PASS_LEN][..|got|];
    } else if |got| >= PASS_LEN + 2 {
      assert all[..|got|][PASS_LEN..PASS_LEN + 2] == all[PASS_LEN..PASS_LEN + 2];
      assert all[..|got|][..PASS_LEN] == all[..PASS_LEN];
    }
  }

  /** One read, of the chunk or of what the buffer has room for. */
  lemma OneRead(got: seq<byte>, chunks: seq<seq<byte>>)
    requires |got| <= PASS_LEN && chunks != [] && chunks[0] != []
    ensures var (data, rest) := ReadChunk(chunks, CAP - |got|);
            data != []
            && if |got| + |chunks[0]| <= CAP then data == chunks[0] && rest == chunks[1..] else |got + data| == CAP
  {
  }

  lemma {:induction false} LoopStops(got: seq<byte>, chunks: seq<seq<byte>>, h: Hash, a: Addr, payload: seq<byte>)
    requires |got| <= PASS_LEN && got + Flat(chunks) == Header(h, a) + payload && CrlfWhole(chunks, |got|)
    ensures |ReadLoop(got, CAP, chunks).0| == Min(CAP, FirstBorder(chunks, |got|))
    decreases CAP - |got|
  {
    HeaderFront(h, a, payload, got, Flat(chunks));
    OneRead(got, chunks);
    var (data, rest) := ReadChunk(chunks, CAP - |got|);
    var now := got + data;
    assert now + Flat(rest) == got + (data + Flat(rest));
    HeaderFront(h, a, payload, now, Flat(rest));
    if |now| >= PASS_LEN + 2 {
      StopsWithCrlf(now, |got|, h);
    } else {
      GoesOnWithoutCrlf(now, |got|, h);
      LoopStops(now, rest, h, a, payload);
    }
  }

  /**
   * On a fresh connection whose chunks leave the first CRLF whole, a stream header is accepted if
   * and only if the chunk that completes that CRLF completes the header as well.
   */
  lemma AcceptedByChunks(users: set<seq<byte>>, h: Hash, a: Addr, conn: Conn, payload: seq<byte>)
    requires Proper(a) && a.network == TCP && h in users
    requires Flat(conn.chunks) == Header(h, a) + payload && CrlfWhole(conn.chunks, 0)
    ensures Handshake(users, conn, None).Accepted? <==> FirstBorder(conn.chunks, 0) >= Needed(h, a)
  {
    assert [] + Flat(conn.chunks) == Flat(conn.chunks);
    LoopStops([], conn.chunks, h, a, payload);
    TcpAgrees(users, h, a, conn, None, payload);
    NeededFits(h, a);
  }

  /** The longest header fits the buffer. */
  lemma NeededFits(h: Hash, a: Addr)
    requires Sendable(a)
    ensures Needed(h, a) <= CAP
  {
    HeaderParts(h, a, []);
    assert |Encode(a)| <= 259;
  }
}
