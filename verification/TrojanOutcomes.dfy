/** What the trojan server makes of any bytes at all: how many it reads, and what they come to. */
module TrojanOutcomes {
  import opened Bytes
  import opened Text
  import opened AddrCodec
  import opened Chunked
  import opened TrojanHandshake
  import TrojanAgreement
  import TrojanUdp

  /** A CRLF lies within this chunk; in the first chunk of a stream it must not come at the very front. */
  predicate EndsReading(chunk: seq<byte>, first: bool) {
    && (exists i :: 0 <= i < |chunk| - 1 && LineEnd(chunk, i))
    && (first ==> chunk[0] != 13 || chunk[1] != 10)
  }

  predicate LineEnd(s: seq<byte>, i: nat)
    requires i + 1 < |s|
  {
    s[i] == 13 && s[i + 1] == 10
  }

  /** How far the server would read in a buffer without end, `n` bytes being read already. */
  function ReadsTo(chunks: seq<seq<byte>>, n: nat): nat {
    if chunks == [] || chunks[0] == [] then n
    else if EndsReading(chunks[0], n == 0) then n + |chunks[0]|
    else ReadsTo(chunks[1..], n + |chunks[0]|)
  }

  lemma LineEndIsCrlf(s: seq<byte>, i: nat)
    ensures At(s, CRLF, i) <==> i + 1 < |s| && LineEnd(s, i)
  {
    if i + 1 < |s| {
      assert s[i..i + 2] == [s[i], s[i + 1]];
    }
  }

  lemma StopsAtChunk(got: seq<byte>, chunk: seq<byte>)
    ensures StopsAt(got + chunk, |got|) <==> EndsReading(chunk, got == [])
  {
    assert (got + chunk)[|got|..] == chunk;
    FindFound(chunk, CRLF);
    var f := Find(chunk, CRLF);
    if f.Some? {
      LineEndIsCrlf(chunk, f.value);
    }
    LineEndIsCrlf(chunk, 0);
    forall i | 0 <= i < |chunk| - 1 && LineEnd(chunk, i) ensures At(chunk, CRLF, i) {
      LineEndIsCrlf(chunk, i);
    }
  }

  lemma {:induction false} LoopReadsTo(got: seq<byte>, chunks: seq<seq<byte>>)
    requires |got| < CAP
    ensures ReadsTo(chunks, |got|) >= |got|
    ensures |ReadLoop(got, CAP, chunks).0| == Min(1024, ReadsTo(chunks, |got|))
    decreases CAP - |got|
  {
    var (data, rest) := ReadChunk(chunks, CAP - |got|);
    if data != [] {
      StopsAtChunk(got, data);
      if |got + data| < CAP {
        assert data == chunks[0] && rest == chunks[1..];
        LoopReadsTo(got + data, rest);
      } else {
        ReadsOn(chunks, |got|);
      }
    }
  }

  lemma {:induction false} ReadsOn(chunks: seq<seq<byte>>, n: nat)
    ensures ReadsTo(chunks, n) >= n
    ensures chunks != [] ==> ReadsTo(chunks, n) >= n + |chunks[0]|
  {
    if chunks != [] && chunks[0] != [] {
      ReadsOn(chunks[1..], n + |chunks[0]|);
    }
  }

  lemma GathersAlone(chunks: seq<seq<byte>>)
    ensures var (got, cap, rest) := Gather(chunks, None);
            && ReadsTo(chunks, 0) <= |Flat(chunks)| && cap == 1024
            && got == Flat(chunks)[..Min(1024, ReadsTo(chunks, 0))] && got + Flat(rest) == Flat(chunks)
  {
    TrojanAgreement.LoopConserves([], CAP, chunks);
    var (got, rest) := ReadLoop([], CAP, chunks);
    LoopReadsTo([], chunks);
    ReadsWithin(chunks, 0);
    assert [] + Flat(chunks) == Flat(chunks);
    assert got == (got + Flat(rest))[..|got|];
  }

  lemma TakesHandedOver(chunks: seq<seq<byte>>, ob: seq<byte>)
    ensures var (got, cap, rest) := Gather(chunks, Some(ob));
            got == ob && cap == |ob| && Flat(rest) == Flat(chunks)
  {
    if |ob| < 17 {
      assert ReadLoop(ob, |ob|, chunks).0 == ob;
      assert [] + Flat(ReadChunk(chunks, 0).1) == Flat(ReadChunk(chunks, 0).1);
    }
  }

  /**
   * What the server gathers. On its own it reads up to the chunk that ends a line, or the last one,
   * or 1024 bytes; of bytes handed over by an earlier layer it takes those and reads nothing.
   */
  lemma GathersExactly(chunks: seq<seq<byte>>, preRead: Option<seq<byte>>)
    ensures var (got, cap, rest) := Gather(chunks, preRead);
            match preRead
            case None =>
              && ReadsTo(chunks, 0) <= |Flat(chunks)| && cap == 1024
              && got == Flat(chunks)[..Min(1024, ReadsTo(chunks, 0))] && got + Flat(rest) == Flat(chunks)
            case Some(ob) => got == ob && cap == |ob| && Flat(rest) == Flat(chunks)
  {
    match preRead {
      case None => GathersAlone(chunks);
      case Some(ob) => TakesHandedOver(chunks, ob);
    }
  }

  lemma {:induction false} ReadsWithin(chunks: seq<seq<byte>>, n: nat)
    ensures ReadsTo(chunks, n) <= n + |Flat(chunks)|
  {
    if chunks != [] {
      ReadsWithin(chunks[1..], n + |chunks[0]|);
    }
  }

  /** The bytes are a hash, a line end, a command, an address, a line end, and `x`. */
  predicate Spelt(got: seq<byte>, h: seq<byte>, cmd: byte, a: Addr, x: seq<byte>) {
    && |h| == 56 && Sendable(a) && Canonical(a) == a
    && got == h + [13, 10, cmd] + Encode(a) + [13, 10] + x
  }

  lemma SpeltParts(got: seq<byte>, h: seq<byte>, cmd: byte, a: Addr, x: seq<byte>)
    requires Spelt(got, h, cmd, a, x)
    ensures |got| >= 61 && got[..56] == h && got[56..][..2] == CRLF && got[56..][2] == cmd
    ensures got[56..][3..] == Encode(a) + (CRLF + x)
  {
    assert got == h + ([13, 10, cmd] + (Encode(a) + (CRLF + x)));
  }

  lemma SpeltBack(got: seq<byte>, a: Addr, x: seq<byte>)
    requires |got| >= 59 && got[56..][..2] == CRLF && Sendable(a) && Canonical(a) == a
    requires got[56..][3..] == Encode(a) + (CRLF + x)
    ensures Spelt(got, got[..56], got[58], a, x)
  {
    Parts(got[..56], [13, 10, got[58]], Encode(a), [13, 10], x);
    assert got[56..] == [13, 10, got[58]] + got[56..][3..];
    assert got == got[..56] + got[56..];
  }

  lemma Parts(h: seq<byte>, front: seq<byte>, address: seq<byte>, end: seq<byte>, x: seq<byte>)
    ensures h + (front + (address + (end + x))) == h + front + address + end + x
  {
  }

  /** For datagrams, nothing or a whole packet stands behind the header. */
  ghost predicate GoesOn(cmd: byte, x: seq<byte>) {
    cmd == 1 || (cmd == 3 && (x == [] || exists p :: TrojanUdp.Begins(x, p)))
  }

  /** What a server answers that accepts such bytes. */
  ghost predicate AnswersTo(r: Outcome, h: seq<byte>, cmd: byte, a: Addr, x: seq<byte>, conn: Conn) {
    && (cmd == 1 ==> r == Accepted(h, a, x, conn))
    && (cmd == 3 && x == [] ==> r == Accepted(h, a.(network := UDP), [], conn))
    && (cmd == 3 ==> forall p :: TrojanUdp.Begins(x, p) ==>
          r == Accepted(h, Canonical(p.addr).(network := UDP), p.data, conn))
  }

  lemma PacketAccepted(user: seq<byte>, ta: Addr, x: seq<byte>, p: TrojanUdp.Item, conn: Conn)
    requires TrojanUdp.Begins(x, p)
    ensures FirstPacket(user, ta, x, conn) == Accepted(user, Canonical(p.addr).(network := UDP), p.data, conn)
  {
    var n := |TrojanUdp.EncodePacket(p)|;
    assert x == TrojanUdp.EncodePacket(p) + x[n..];
    TrojanAgreement.FirstPacketWhole(user, ta, p, x[n..], conn);
  }

  lemma PacketStood(user: seq<byte>, ta: Addr, x: seq<byte>, conn: Conn)
    requires x != [] && FirstPacket(user, ta, x, conn).Accepted?
    ensures exists p :: TrojanUdp.Begins(x, p)
  {
    var d := Decode(x);
    DecodeIsOnto(x);
    var len := FromBe16(d.rest);
    var p := TrojanUdp.Item(d.result.value, d.rest[4..4 + len]);
    assert Be16(FromBe16(d.rest[2..])) == d.rest[2..4] == CRLF by {
      Be16Onto(d.rest[2..]);
    }
    assert FromBe16(d.rest[2..]) == TrojanUdp.CRLF;
    TrojanUdp.BehindAddress(Encode(p.addr), d.rest, len);
    assert x == TrojanUdp.EncodePacket(p) + d.rest[4 + len..];
    assert TrojanUdp.Begins(x, p);
  }

  lemma SpeltIsAccepted(users: set<seq<byte>>, got: seq<byte>, h: seq<byte>, cmd: byte, a: Addr, x: seq<byte>,
                        conn: Conn)
    requires Spelt(got, h, cmd, a, x) && h in users && GoesOn(cmd, x) && |got| >= 66
    ensures AnswersTo(Parse(users, got, conn), h, cmd, a, x, conn) && Parse(users, got, conn).Accepted?
  {
    SpeltParts(got, h, cmd, a, x);
    RoundTrip(a, CRLF + x);
    assert (CRLF + x)[..2] == CRLF && (CRLF + x)[2..] == x;
    var r := Parse(users, got, conn);
    if cmd == 3 {
      forall p | TrojanUdp.Begins(x, p)
        ensures r == Accepted(h, Canonical(p.addr).(network := UDP), p.data, conn) && x != []
      {
        PacketAccepted(h, a.(network := UDP), x, p, conn);
        TrojanAgreement.PacketParts(p, []);
      }
    }
  }

  lemma AcceptedIsSpelt(users: set<seq<byte>>, got: seq<byte>, conn: Conn) returns (a: Addr, x: seq<byte>)
    requires |got| >= 65 && Parse(users, got, conn).Accepted?
    ensures Spelt(got, got[..56], got[58], a, x) && got[..56] in users && GoesOn(got[58], x) && |got| >= 66
  {
    var b := got[56..][3..];
    DecodeIsOnto(b);
    a, x := Decode(b).result.value, Decode(b).rest[2..];
    assert Decode(b).rest == CRLF + x;
    SpeltBack(got, a, x);
    if got[58] == 3 && x != [] {
      PacketStood(got[..56], a.(network := UDP), x, conn);
    }
  }

  /** Who gets through on these bytes: their hash, command, address and the rest. */
  ghost predicate LetIn(users: set<seq<byte>>, got: seq<byte>, h: seq<byte>, cmd: byte, a: Addr, x: seq<byte>) {
    Spelt(got, h, cmd, a, x) && h in users && GoesOn(cmd, x)
  }

  /**
   * Over all bytes: the server accepts if and only if it gathered at least 66 bytes and they spell
   * a user's hash, the stream or the datagram command and an address, each where it belongs, with
   * nothing or a whole packet behind a datagram header. It answers with what they spell.
   */
  lemma AcceptsExactly(users: set<seq<byte>>, conn: Conn, preRead: Option<seq<byte>>)
    ensures var (got, cap, rest) := Gather(conn.chunks, preRead);
            var r := Handshake(users, conn, preRead);
            && (r.Accepted? <==> |got| >= 66 && exists h, cmd, a, x :: LetIn(users, got, h, cmd, a, x))
            && (forall h, cmd, a, x :: |got| >= 66 && LetIn(users, got, h, cmd, a, x) ==>
                  AnswersTo(r, h, cmd, a, x, conn.(chunks := rest)))
  {
    var (got, cap, rest) := Gather(conn.chunks, preRead);
    var left := conn.(chunks := rest);
    if |got| >= 66 {
      forall h, cmd, a, x | LetIn(users, got, h, cmd, a, x)
        ensures Parse(users, got, left).Accepted? && AnswersTo(Parse(users, got, left), h, cmd, a, x, left)
      {
        SpeltIsAccepted(users, got, h, cmd, a, x, left);
      }
    }
    if Handshake(users, conn, preRead).Accepted? {
      var a, x := AcceptedIsSpelt(users, got, left);
      assert LetIn(users, got, got[..56], got[58], a, x);
    }
  }

  /** A user's hash and a line end stand at the front. */
  predicate KnownFront(users: set<seq<byte>>, got: seq<byte>) {
    |got| >= 65 && got[..56] in users && got[56] == 13 && got[57] == 10
  }

  lemma FrontIs(got: seq<byte>)
    requires |got| >= 65
    ensures got[56..][..2] == CRLF <==> got[56] == 13 && got[57] == 10
    ensures got[56..][2] == got[58] && got[56..][2..] == got[58..] && got[56..][3..] == got[59..]
  {
    assert got[56..][..2] == [got[56], got[57]];
  }

  /** Over all bytes: who is turned away before the address, with what. */
  lemma FrontRefusals(users: set<seq<byte>>, conn: Conn, preRead: Option<seq<byte>>)
    ensures var (got, cap, rest) := Gather(conn.chunks, preRead);
            var r, left := Handshake(users, conn, preRead), conn.(chunks := rest);
            && (|got| < 17 ==> r == Failed)
            && (17 <= |got| < 65 ==> r == Fallback(ShortHeader, got + Zeros(cap - |got|), left))
            && (|got| >= 65 && got[..56] !in users ==> r == Fallback(UnknownHash, got[56..], left))
            && (|got| >= 65 && got[..56] in users && !KnownFront(users, got) ==>
                  r == Fallback(NoCrlf, got[58..], left))
            && (KnownFront(users, got) && got[58] !in {1, 3} ==> r == Dropped(got[59..]))
            && (KnownFront(users, got) && got[58] in {1, 3} ==> r == Target(got[..56], got[58], got[59..], left))
  {
    var got := Gather(conn.chunks, preRead).0;
    if |got| >= 65 {
      FrontIs(got);
    }
  }

  /** Who is turned away at the address or the line end behind it, with what. */
  lemma AddressRefusals(user: seq<byte>, cmd: byte, b: seq<byte>, a: Addr, t: seq<byte>, conn: Conn)
    ensures Decode(b).result.Err? ==> Target(user, cmd, b, conn) == Dropped(Decode(b).rest)
    ensures Sendable(a) && |b| >= 7 && b == Encode(a) + t ==>
              && (t == [] ==> Target(user, cmd, b, conn) == Failed)
              && (|t| == 1 ==> Target(user, cmd, b, conn) == Dropped(t))
              && (|t| >= 2 && (t[0] != 13 || t[1] != 10) ==> Target(user, cmd, b, conn) == Dropped(t[2..]))
  {
    RoundTrip(a, t);
    if |t| >= 2 {
      assert t[..2] == [t[0], t[1]];
    }
  }

  /** What a first datagram that is not whole comes to: thrown away, a panic, or the end. */
  lemma PacketRefusals(user: seq<byte>, ta: Addr, x: seq<byte>, a: Addr, u: seq<byte>, conn: Conn)
    requires x != []
    ensures Decode(x).result.Err? ==> FirstPacket(user, ta, x, conn) == Dropped(Decode(x).rest)
    ensures Sendable(a) && |x| >= 7 && x == Encode(a) + u ==>
              && (|u| < 4 ==> FirstPacket(user, ta, x, conn) == Panicked)
              && (|u| >= 4 && (u[2] != 13 || u[3] != 10 || |u| < 4 + u[0] as int * 256 + u[1] as int) ==>
                    FirstPacket(user, ta, x, conn) == Failed)
  {
    RoundTrip(a, u);
    if |u| >= 4 {
      assert u[2..][..2] == [u[2], u[3]];
    }
  }
}
