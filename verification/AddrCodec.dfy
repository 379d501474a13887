/** Target addresses and their SOCKS5 byte form (section 5 of RFC 1928), shared by SOCKS5 and trojan. */
module AddrCodec {
  import opened Bytes

  type Octets4 = s: seq<byte> | |s| == 4 witness [0, 0, 0, 0]
  type Octets16 = s: seq<byte> | |s| == 16 witness [0, 0, 0, 0, 0, 0, 0, 0, 0, 0, 0, 0, 0, 0, 0, 0]
  type Port = p: int | 0 <= p < 0x1_0000

  datatype Ip = V4(octets4: Octets4) | V6(octets16: Octets16)

  datatype Socket = Socket(ip: Ip, port: Port)

  datatype NetAddr =
    | AtSocket(so: Socket)
    | AtName(name: seq<byte>, port: Port)
    | AtNameAndSocket(name: seq<byte>, so: Socket, port: Port)

  datatype Network = IP | TCP | UDP | Unix

  datatype Addr = Addr(addr: NetAddr, network: Network)

  datatype CodecError = TooShort | ShortName | BadAtyp(at: byte)

  datatype Decoded = Decoded(result: Result<Addr, CodecError>, rest: seq<byte>)

  const ATYP_IP4: byte := 1
  const ATYP_DOMAIN: byte := 3
  const ATYP_IP6: byte := 4

  /** Fewer bytes than this are refused before the first of them is looked at. */
  const MIN_LEN: nat := 7

  function EncodeSocket(so: Socket): seq<byte> {
    match so.ip
    case V4(o) => [ATYP_IP4] + o + Be16(so.port)
    case V6(o) => [ATYP_IP6] + o + Be16(so.port)
  }

  /** The length byte keeps only the low eight bits of the name's length. */
  function EncodeName(name: seq<byte>, port: Port): seq<byte> {
    [ATYP_DOMAIN, |name| % 256] + name + Be16(port)
  }

  function Encode(a: Addr): seq<byte> {
    match a.addr
    case AtSocket(so) => EncodeSocket(so)
    case AtName(n, p) => EncodeName(n, p)
    case AtNameAndSocket(n, so, p) => if |n| > 255 then EncodeSocket(so) else EncodeName(n, p)
  }

  /** The address a peer gets to see: a name wins over a socket when it can be sent, and TCP is set. */
  function Canonical(a: Addr): Addr {
    match a.addr
    case AtNameAndSocket(n, so, p) => Addr(if |n| > 255 then AtSocket(so) else AtName(n, p), TCP)
    case _ => Addr(a.addr, TCP)
  }

  /** A bare name that does not fit its length byte cannot be sent. */
  predicate Sendable(a: Addr) {
    a.addr.AtName? ==> |a.addr.name| <= 255
  }

  /** What decoding the front of `buf` yields; an error has already consumed some of it. */
  function Decode(buf: seq<byte>): Decoded {
    if |buf| < MIN_LEN then Decoded(Err(TooShort), buf)
    else if buf[0] == ATYP_IP4 then
      Decoded(Ok(Addr(AtSocket(Socket(V4(buf[1..5]), FromBe16(buf[5..]))), TCP)), buf[7..])
    else if buf[0] == ATYP_IP6 then
      if |buf| < 19 then Decoded(Err(TooShort), buf[1..])
      else Decoded(Ok(Addr(AtSocket(Socket(V6(buf[1..17]), FromBe16(buf[17..]))), TCP)), buf[19..])
    else if buf[0] == ATYP_DOMAIN then
      var dn := buf[1] as int;
      if |buf| < dn + 4 then Decoded(Err(ShortName), buf[2..])
      else Decoded(Ok(Addr(AtName(buf[2..2 + dn], FromBe16(buf[2 + dn..])), TCP)), buf[4 + dn..])
    else
      Decoded(Err(BadAtyp(buf[0])), buf[1..])
  }

  lemma Be16RoundTrip(p: Port, rest: seq<byte>)
    ensures FromBe16(Be16(p) + rest) == p && FromBe16(Be16(p)) == p
    ensures (Be16(p) + rest)[2..] == rest
  {
  }

  lemma Be16Onto(s: seq<byte>)
    requires |s| >= 2
    ensures Be16(FromBe16(s)) == s[..2]
  {
    var x := FromBe16(s);
    assert x / 256 == s[0] && x % 256 == s[1];
  }

  lemma SocketRoundTrip(so: Socket, suffix: seq<byte>)
    ensures Decode(EncodeSocket(so) + suffix) == Decoded(Ok(Addr(AtSocket(so), TCP)), suffix)
  {
    var buf := EncodeSocket(so) + suffix;
    Be16RoundTrip(so.port, suffix);
    match so.ip {
      case V4(o) =>
        assert buf[1..5] == o && buf[5..] == Be16(so.port) + suffix;
      case V6(o) =>
        assert buf[1..17] == o && buf[17..] == Be16(so.port) + suffix;
    }
  }

  lemma NameRoundTrip(n: seq<byte>, p: Port, suffix: seq<byte>)
    requires |n| <= 255 && |EncodeName(n, p) + suffix| >= MIN_LEN
    ensures Decode(EncodeName(n, p) + suffix) == Decoded(Ok(Addr(AtName(n, p), TCP)), suffix)
  {
    var buf := EncodeName(n, p) + suffix;
    Be16RoundTrip(p, suffix);
    assert buf[1] == |n|;
    assert buf[2..2 + |n|] == n && buf[2 + |n|..] == Be16(p) + suffix;
  }

  /**
   * Decoding an encoding gives the canonical form and leaves exactly the suffix, if and only
   * if the name fits its length byte and at least seven bytes are there: a name of one byte
   * needs two more bytes behind it.
   */
  lemma RoundTrip(a: Addr, suffix: seq<byte>)
    ensures Decode(Encode(a) + suffix) == Decoded(Ok(Canonical(a)), suffix)
            <==> Sendable(a) && |Encode(a) + suffix| >= MIN_LEN
  {
    match a.addr {
      case AtSocket(so) => SocketRoundTrip(so, suffix);
      case AtName(n, p) =>
        if |n| <= 255 && |Encode(a) + suffix| >= MIN_LEN {
          NameRoundTrip(n, p, suffix);
        } else {
          var d := Decode(Encode(a) + suffix).result;
          assert d.Ok? && |n| > 255 ==> |d.value.addr.name| <= 255;
        }
      case AtNameAndSocket(n, so, p) =>
        if |n| > 255 {
          SocketRoundTrip(so, suffix);
        } else if |Encode(a) + suffix| >= MIN_LEN {
          NameRoundTrip(n, p, suffix);
        }
    }
  }

  /** Bytes behind a decodable address never change what it decodes to. */
  lemma DecodeExtends(b: seq<byte>, x: seq<byte>)
    requires Decode(b).result.Ok?
    ensures Decode(b + x) == Decoded(Decode(b).result, Decode(b).rest + x)
  {
    DecodeIsOnto(b);
    var a, rest := Decode(b).result.value, Decode(b).rest;
    assert b + x == Encode(a) + (rest + x);
    RoundTrip(a, rest + x);
  }

  /** Whatever decodes was the encoding of the address it decodes to, with the rest behind it. */
  lemma DecodeIsOnto(buf: seq<byte>)
    requires Decode(buf).result.Ok?
    ensures var d := Decode(buf);
            && buf == Encode(d.result.value) + d.rest
            && Sendable(d.result.value) && Canonical(d.result.value) == d.result.value
  {
    if buf[0] == ATYP_DOMAIN {
      NameIsOnto(buf);
    } else {
      SocketIsOnto(buf, if buf[0] == ATYP_IP4 then 5 else 17);
    }
  }

  lemma SocketIsOnto(buf: seq<byte>, e: nat)
    requires Decode(buf).result.Ok? && buf[0] != ATYP_DOMAIN && e == if buf[0] == ATYP_IP4 then 5 else 17
    ensures buf == EncodeSocket(Decode(buf).result.value.addr.so) + Decode(buf).rest
  {
    Be16Onto(buf[e..]);
    CutInThree(buf, 1, e);
  }

  lemma NameIsOnto(buf: seq<byte>)
    requires Decode(buf).result.Ok? && buf[0] == ATYP_DOMAIN
    ensures var a := Decode(buf).result.value.addr; buf == EncodeName(a.name, a.port) + Decode(buf).rest
  {
    var e := 2 + buf[1] as int;
    Be16Onto(buf[e..]);
    CutInThree(buf, 2, e);
  }

  /** Why bytes do not decode, and what is left of them then. */
  lemma DecodeErrors(buf: seq<byte>)
    ensures var d := Decode(buf);
            && (d.result == Err(TooShort) <==> |buf| < 7 || (buf[0] == 4 && |buf| < 19))
            && (d.result == Err(ShortName) <==> |buf| >= 7 && buf[0] == 3 && |buf| < 4 + buf[1] as int)
            && (d.result.Err? && d.result.error.BadAtyp? <==> |buf| >= 7 && buf[0] != 1 && buf[0] != 3 && buf[0] != 4)
            && (d.result.Err? ==>
                  d.rest == buf[if |buf| < 7 then 0 else if buf[0] == 3 then 2 else 1..]
                  && (d.result.error.BadAtyp? ==> d.result.error.at == buf[0]))
  {
  }

  /** A header, a body up to `e`, a port, and the rest. */
  lemma CutInThree(buf: seq<byte>, h: nat, e: nat)
    requires h <= e && e + 2 <= |buf|
    ensures buf == buf[..h] + buf[h..e] + buf[e..][..2] + buf[e + 2..]
  {
  }

  method SoToSocks5Bytes(so: Socket, buf: seq<byte>) returns (out: seq<byte>)
    ensures out == buf + EncodeSocket(so)
  {
    out := buf;
    match so.ip {
      case V4(o) =>
        out := out + [ATYP_IP4];
        out := out + o;
        out := out + Be16(so.port);
      case V6(o) =>
        out := out + [ATYP_IP6];
        out := out + o;
        out := out + Be16(so.port);
    }
  }

  method AddrToSocks5Bytes(ta: Addr, buf: seq<byte>) returns (out: seq<byte>)
    ensures out == buf + Encode(ta)
  {
    match ta.addr {
      case AtSocket(so) => out := SoToSocks5Bytes(so, buf);
      case AtName(n, p) =>
        out := buf + [ATYP_DOMAIN];
        out := out + [|n| % 256];
        out := out + n;
        out := out + Be16(p);
      case AtNameAndSocket(n, so, p) =>
        if |n| > 255 {
          out := SoToSocks5Bytes(so, buf);
        } else {
          out := buf + [ATYP_DOMAIN];
          out := out + [|n|];
          out := out + n;
          out := out + Be16(p);
        }
    }
  }

  method Socks5BytesToAddr(buf: seq<byte>) returns (d: Decoded)
    ensures d == Decode(buf)
  {
    if |buf| < 7 {
      return Decoded(Err(TooShort), buf);
    }
    var at := buf[0];
    var b := buf[1..];
    var net: NetAddr;
    if at == ATYP_IP4 {
      net := AtSocket(Socket(V4(b[..4]), FromBe16(b[4..])));
      assert b[..4] == buf[1..5];
      b := b[4..];
    } else if at == ATYP_IP6 {
      if |b| < 18 {
        return Decoded(Err(TooShort), b);
      }
      net := AtSocket(Socket(V6(b[..16]), FromBe16(b[16..])));
      assert b[..16] == buf[1..17];
      b := b[16..];
    } else if at == ATYP_DOMAIN {
      var dn := b[0] as int;
      b := b[1..];
      if |b| < dn + 2 {
        return Decoded(Err(ShortName), b);
      }
      net := AtName(b[..dn], FromBe16(b[dn..]));
      assert b[..dn] == buf[2..2 + dn];
      b := b[dn..];
    } else {
      return Decoded(Err(BadAtyp(at)), b);
    }
    d := Decoded(Ok(Addr(net, TCP)), b[2..]);
  }
}
