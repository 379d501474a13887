/** The trojan handshake: the header a client sends and the server's read loop and parser. */
module TrojanHandshake {
  import opened Bytes
  import opened Text
  import opened AddrCodec
  import opened Chunked
  import opened Connections

  const CR: byte := 0x0d
  const LF: byte := 0x0a
  const CRLF: seq<byte> := [0x0d, 0x0a]
  const CMD_CONNECT: byte := 1
  const CMD_UDPASSOCIATE: byte := 3
  const PASS_LEN: nat := 56
  const CAP: nat := 1024

  /** A password hash as the header carries it: 56 characters, none of them part of a line ending. */
  type Hash = h: seq<byte> | |h| == 56 && CR !in h && LF !in h witness seq(56, _ => 0x30)

  function CmdOf(n: Network): byte {
    if n == UDP then CMD_UDPASSOCIATE else CMD_CONNECT
  }

  function Header(h: Hash, a: Addr): seq<byte> {
    h + CRLF + [CmdOf(a.network)] + Encode(a) + CRLF
  }

  datatype ClientResult = Unsupported | SentHeader(unsent: seq<byte>)

  class Client {
    const hash: Hash
    const isTail: bool

    constructor (hash: Hash, isTail: bool)
      ensures this.hash == hash && this.isTail == isTail
    {
      this.hash, this.isTail := hash, isTail;
    }

    /** The payload goes out with the header if it is a stream's and no other layer follows. */
    method HandshakeOn(base: Connection, ta: Addr, firstPayload: seq<byte>) returns (r: ClientResult)
      modifies base
      ensures r.Unsupported? <==> ta.network != TCP && ta.network != UDP
      ensures r.Unsupported? ==> base.State() == old(base.State())
      ensures r.SentHeader? ==>
        var along := if isTail && ta.network == TCP then firstPayload else [];
        && base.State() == old(base.State()).(sent := old(base.sent) + (Header(hash, ta) + along))
        && along + r.unsent == firstPayload
    {
      var buf: seq<byte> := hash;
      buf := buf + CRLF;
      if ta.network == TCP {
        buf := buf + [CMD_CONNECT];
      } else if ta.network == UDP {
        buf := buf + [CMD_UDPASSOCIATE];
      } else {
        return Unsupported;
      }
      buf := AddrToSocks5Bytes(ta, buf);
      buf := buf + CRLF;
      assert buf == Header(hash, ta);
      var unsent := firstPayload;
      if isTail && ta.network == TCP {
        buf := buf + firstPayload;
        unsent := [];
      }
      base.Write(buf);
      r := SentHeader(unsent);
    }
  }

  datatype Fault = ShortHeader | UnknownHash | NoCrlf

  datatype Outcome =
    | Failed                                                     // the connection is dropped
    | Fallback(why: Fault, buf: seq<byte>, conn: Conn)           // handed to another handler
    | Dropped(left: seq<byte>)                                   // dropped, with bytes left in the buffer
    | Panicked
    | Accepted(user: seq<byte>, target: Addr, early: seq<byte>, conn: Conn)

  /** The read loop ends once a read ends a CRLF that it also began, not at the very front. */
  predicate StopsAt(got: seq<byte>, from: nat)
    requires from <= |got|
  {
    match Find(got[from..], CRLF)
    case None => false
    case Some(i) => from + i > 0
  }

  /** The read loop, on a buffer of length `cap` of which `got` is filled. */
  function ReadLoop(got: seq<byte>, cap: nat, chunks: seq<seq<byte>>): (r: (seq<byte>, seq<seq<byte>>))
    requires |got| <= cap
    ensures |r.0| <= cap
    decreases cap - |got|
  {
    var (data, rest) := ReadChunk(chunks, cap - |got|);
    if data == [] then (got, rest)
    else if |got + data| >= CAP || StopsAt(got + data, |got|) then (got + data, rest)
    else ReadLoop(got + data, cap, rest)
  }

  /** A buffer of length `cap` with `got` read into its front. */
  function Padded(got: seq<byte>, cap: nat): (buf: seq<byte>)
    requires |got| <= cap
    ensures |buf| == cap
  {
    got + Zeros(cap - |got|)
  }

  /** What the parser is given: the bytes an earlier layer read, or those of the loop. */
  function Gather(chunks: seq<seq<byte>>, preRead: Option<seq<byte>>): (r: (seq<byte>, nat, seq<seq<byte>>))
    ensures |r.0| <= r.1
  {
    match preRead
    case None =>
      var (got, rest) := ReadLoop([], CAP, chunks);
      (got, CAP, rest)
    case Some(ob) =>
      if |ob| >= 17 then (ob, |ob|, chunks)
      else
        var (got, rest) := ReadLoop(ob, |ob|, chunks);
        (got, |ob|, rest)
  }

  function Handshake(users: set<seq<byte>>, conn: Conn, preRead: Option<seq<byte>>): Outcome {
    var (got, cap, rest) := Gather(conn.chunks, preRead);
    Judge(users, got, cap, conn.(chunks := rest))
  }

  /** The length checks; a fallback for want of bytes hands on the buffer with its unused end. */
  function Judge(users: set<seq<byte>>, got: seq<byte>, cap: nat, conn: Conn): Outcome
    requires |got| <= cap
  {
    if |got| < 17 then Failed
    else if |got| < PASS_LEN + 9 then Fallback(ShortHeader, Padded(got, cap), conn)
    else Parse(users, got, conn)
  }

  function Parse(users: set<seq<byte>>, got: seq<byte>, conn: Conn): Outcome
    requires |got| >= PASS_LEN + 9
  {
    var pass, b := got[..PASS_LEN], got[PASS_LEN..];
    if pass !in users then Fallback(UnknownHash, b, conn)
    else if b[..2] != CRLF then Fallback(NoCrlf, b[2..], conn)
    else if b[2] != CMD_CONNECT && b[2] != CMD_UDPASSOCIATE then Dropped(b[3..])
    else Target(pass, b[2], b[3..], conn)
  }

  function Target(user: seq<byte>, cmd: byte, b: seq<byte>, conn: Conn): Outcome {
    var d := Decode(b);
    if d.result.Err? then Dropped(d.rest)
    else if d.rest == [] then Failed
    else if |d.rest| == 1 then Dropped(d.rest)
    else if d.rest[..2] != CRLF then Dropped(d.rest[2..])
    else if cmd == CMD_CONNECT then Accepted(user, d.result.value, d.rest[2..], conn)
    else FirstPacket(user, d.result.value.(network := UDP), d.rest[2..], conn)
  }

  /** For UDP, a packet that came with the header is taken out of the buffer, and the buffer dropped. */
  function FirstPacket(user: seq<byte>, ta: Addr, buf: seq<byte>, conn: Conn): Outcome {
    if buf == [] then Accepted(user, ta, [], conn)
    else
      var d := Decode(buf);
      if d.result.Err? then Dropped(d.rest)
      else if |d.rest| < 2 then Panicked
      else
        var len, b := FromBe16(d.rest), d.rest[2..];
        if |b| < 2 then Panicked
        else if |b| - 2 < len || b[..2] != CRLF then Failed
        else Accepted(user, d.result.value.(network := UDP), b[2..][..len], conn)
  }

  /** Where the first CRLF of `buf` stands at or after index `i`, looked for from the left. */
  method ScanCrlf(buf: seq<byte>, from: nat, to: nat) returns (index: int)
    requires from <= to <= |buf|
    ensures -1 <= index < to && (index >= 0 ==> from <= index && At(buf, CRLF, index))
    ensures forall j: nat :: from <= j < (if index < 0 then to else index) ==> !At(buf, CRLF, j)
  {
    index := -1;
    for i := from to to
      invariant forall j: nat :: from <= j < i ==> !At(buf, CRLF, j)
    {
      if i + 2 <= |buf| && buf[i..i + 2] == CRLF {
        return i;
      }
    }
  }

  /** The scan of a read finds in the padded buffer what stands in the bytes read. */
  lemma PaddedScan(got: seq<byte>, cap: nat, from: nat, index: int)
    requires from <= |got| <= cap && -1 <= index < |got|
    requires index >= 0 ==> from <= index && At(Padded(got, cap), CRLF, index)
    requires forall j: nat :: from <= j < (if index < 0 then |got| else index) ==> !At(Padded(got, cap), CRLF, j)
    ensures StopsAt(got, from) <==> index > 0
  {
    var tail := got[from..];
    forall j: nat | At(tail, CRLF, j) ensures At(Padded(got, cap), CRLF, from + j) {
      TailAt(got, cap, from, j);
    }
    if index < 0 {
      FindNone(tail, CRLF);
    } else {
      PaddedAt(got, cap, index);
      assert tail[index - from..index - from + 2] == got[index..index + 2];
      FindIs(tail, CRLF, index - from);
    }
  }

  lemma TailAt(got: seq<byte>, cap: nat, from: nat, j: nat)
    requires from <= |got| <= cap && At(got[from..], CRLF, j)
    ensures At(Padded(got, cap), CRLF, from + j)
  {
    assert Padded(got, cap)[from + j..from + j + 2] == got[from..][j..j + 2];
  }

  /** A zero never completes a CRLF. */
  lemma PaddedAt(got: seq<byte>, cap: nat, index: nat)
    requires index < |got| <= cap && At(Padded(got, cap), CRLF, index)
    ensures index + 2 <= |got| && got[index..index + 2] == CRLF
  {
    var buf := Padded(got, cap);
    assert buf[index..index + 2][1] == buf[index + 1] == LF;
    assert buf[index..index + 2] == got[index..index + 2];
  }

  /** Reading `data` into the unused end of the buffer. */
  lemma PaddedRead(got: seq<byte>, cap: nat, data: seq<byte>)
    requires |got| + |data| <= cap
    ensures Padded(got, cap)[|got|..] == Zeros(cap - |got|)
    ensures got + Overwrite(Zeros(cap - |got|), data) == Padded(got + data, cap)
  {
    assert Zeros(cap - |got|)[|data|..] == Zeros(cap - |got + data|);
  }

  lemma LoopStep(got: seq<byte>, cap: nat, chunks: seq<seq<byte>>)
    requires |got| <= cap
    ensures var (data, rest) := ReadChunk(chunks, cap - |got|);
            ReadLoop(got, cap, chunks)
            == if data == [] || |got + data| >= CAP || StopsAt(got + data, |got|) then (got + data, rest)
               else ReadLoop(got + data, cap, rest)
  {
    var data := ReadChunk(chunks, cap - |got|).0;
    assert data == [] ==> got + data == got;
  }

  class Server {
    const users: set<seq<byte>>

    constructor (users: set<seq<byte>>)
      ensures this.users == users
    {
      this.users := users;
    }

    /** One read into the unused end of the buffer. */
    method ReadOnce(base: Connection, buf: seq<byte>, n: nat, ghost got: seq<byte>, ghost cap: nat)
      returns (out: seq<byte>, m: nat)
      requires n == |got| <= cap && buf == Padded(got, cap)
      modifies base
      ensures var (data, rest) := ReadChunk(old(base.chunks), cap - n);
              && out == Padded(got + data, cap) && m == |data|
              && base.State() == old(base.State()).(chunks := rest)
    {
      var tail;
      tail, m := base.Read(buf[n..]);
      PaddedRead(got, cap, tail[..m]);
      out := buf[..n] + tail;
    }

    /** Whether a CRLF was found among the bytes the last read brought, not at the very front. */
    method CrlfRead(buf: seq<byte>, from: nat, to: nat, ghost got: seq<byte>, ghost cap: nat) returns (stop: bool)
      requires from < to == |got| <= cap && buf == Padded(got, cap)
      ensures stop == StopsAt(got, from)
    {
      var indexCrlf := ScanCrlf(buf, from, to);
      PaddedScan(got, cap, from, indexCrlf);
      stop := indexCrlf > 0;
    }

    /** One turn of the read loop. */
    method ReadTurn(base: Connection, buf: seq<byte>, n: nat, ghost got: seq<byte>, ghost cap: nat)
      returns (out: seq<byte>, len: nat, stop: bool)
      requires n == |got| <= cap && buf == Padded(got, cap)
      modifies base
      ensures var (data, rest) := ReadChunk(old(base.chunks), cap - n);
              && out == Padded(got + data, cap) && len == |got + data|
              && (stop <==> data == [] || |got + data| >= CAP || StopsAt(got + data, n))
              && base.State() == old(base.State()).(chunks := rest)
    {
      ghost var data := ReadChunk(base.chunks, cap - n).0;
      var m;
      out, m := ReadOnce(base, buf, n, got, cap);
      len := n + m;
      if m == 0 {
        return out, len, true;
      }
      stop := CrlfRead(out, n, len, got + data, cap);
      stop := stop || len >= CAP;
    }

    /** The read loop, into a buffer whose unused end is zero. */
    method ReadHeader(base: Connection, start: seq<byte>, cap: nat) returns (buf: seq<byte>, n: nat)
      requires |start| <= cap
      modifies base
      ensures var (got, rest) := ReadLoop(start, cap, old(base.chunks));
              buf == Padded(got, cap) && n == |got| && base.State() == old(base.State()).(chunks := rest)
    {
      buf, n := Padded(start, cap), |start|;
      ghost var got := start;
      var stop := false;
      while !stop
        invariant n == |got| <= cap && buf == Padded(got, cap) && base.sent == old(base.sent)
        invariant ReadLoop(start, cap, old(base.chunks))
               == if stop then (got, base.chunks) else ReadLoop(got, cap, base.chunks)
        decreases cap - n, !stop
      {
        LoopStep(got, cap, base.chunks);
        ghost var data := ReadChunk(base.chunks, cap - n).0;
        buf, n, stop := ReadTurn(base, buf, n, got, cap);
        got := got + data;
      }
    }

    method HandshakeOn(base: Connection, preRead: Option<seq<byte>>) returns (r: Outcome)
      modifies base
      ensures r == Handshake(users, old(base.State()), preRead)
    {
      var buf, n := GatherOn(base, preRead);
      if n < 17 {
        return Failed;
      }
      if n < PASS_LEN + 8 + 1 {
        return Fallback(ShortHeader, buf, base.State());
      }
      buf := buf[..n];
      r := ParseOn(base, buf);
    }

    /** Bytes an earlier layer read are taken as they are unless they are too few. */
    method GatherOn(base: Connection, preRead: Option<seq<byte>>) returns (buf: seq<byte>, n: nat)
      modifies base
      ensures var (got, cap, rest) := Gather(old(base.chunks), preRead);
              buf == Padded(got, cap) && n == |got| && base.State() == old(base.State()).(chunks := rest)
    {
      if preRead.None? {
        buf, n := ReadHeader(base, [], CAP);
        return;
      }
      buf, n := preRead.value, |preRead.value|;
      assert Padded(buf, n) == buf;
      if n < 17 {
        buf, n := ReadHeader(base, buf, n);
      }
    }

    /** The fields of the header, taken off the front of the buffer one by one. */
    method ParseOn(base: Connection, got: seq<byte>) returns (r: Outcome)
      requires |got| >= PASS_LEN + 9
      ensures r == Parse(users, got, base.State())
    {
      var pass, buf := got[..PASS_LEN], got[PASS_LEN..];
      if pass !in users {
        return Fallback(UnknownHash, buf, base.State());
      }
      var crlf := buf[..2];
      buf := buf[2..];
      if crlf != CRLF {
        return Fallback(NoCrlf, buf, base.State());
      }
      var cmd := buf[0];
      buf := buf[1..];
      assert buf == got[PASS_LEN..][3..];
      if cmd != CMD_CONNECT && cmd != CMD_UDPASSOCIATE {
        return Dropped(buf);
      }
      r := ParseTarget(base, pass, cmd, buf);
    }

    method ParseTarget(base: Connection, user: seq<byte>, cmd: byte, b: seq<byte>) returns (r: Outcome)
      requires cmd == CMD_CONNECT || cmd == CMD_UDPASSOCIATE
      ensures r == Target(user, cmd, b, base.State())
    {
      var d := Socks5BytesToAddr(b);
      var buf := d.rest;
      if d.result.Err? {
        return Dropped(buf);
      }
      var ta := d.result.value;
      if cmd == CMD_UDPASSOCIATE {
        ta := ta.(network := UDP);
      }
      if |buf| < 2 {
        return if |buf| == 1 then Dropped(buf) else Failed;
      }
      var supposedCrlf := buf[..2];
      buf := buf[2..];
      if supposedCrlf != CRLF {
        return Dropped(buf);
      }
      if cmd == CMD_CONNECT {
        return Accepted(user, ta, buf, base.State());
      }
      r := ParsePacket(base, user, ta, buf);
    }

    method ParsePacket(base: Connection, user: seq<byte>, first: Addr, b: seq<byte>) returns (r: Outcome)
      ensures r == FirstPacket(user, first, b, base.State())
    {
      var ta, buf := first, b;
      if buf != [] {
        var d := Socks5BytesToAddr(buf);
        buf := d.rest;
        if d.result.Err? {
          return Dropped(buf);
        }
        ta := d.result.value.(network := UDP);
        if |buf| < 2 {
          return Panicked;
        }
        var l := FromBe16(buf);
        buf := buf[2..];
        if |buf| < 2 {
          return Panicked;
        }
        if |buf| - 2 < l {
          return Failed;
        }
        var crlf := buf[..2];
        buf := buf[2..];
        if crlf != CRLF {
          return Failed;
        }
        buf := buf[..l];
      }
      r := Accepted(user, ta, buf, base.State());
    }
  }
}
