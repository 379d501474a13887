/** The header of a SOCKS5 datagram (section 7 of RFC 1928). */
module Socks5Udp {
  import opened Bytes
  import opened AddrCodec

  const MIN_DIAGRAM: nat := 11

  function Diagram(a: Addr): seq<byte> {
    Be16(0) + [0] + Encode(a)
  }

  function Udp(a: Addr): Addr {
    a.(network := UDP)
  }

  method EncodeUdpDiagram(a: Addr, buf: seq<byte>) returns (out: seq<byte>)
    ensures out == buf + Diagram(a)
  {
    out := buf + Be16(0);
    out := out + [0];
    out := AddrToSocks5Bytes(a, out);
    assert out == buf + Diagram(a);
  }

  /** The address a datagram is for and the bytes behind its header; the fragment number is skipped. */
  function Open(buf: seq<byte>): (Option<Addr>, seq<byte>) {
    if |buf| < MIN_DIAGRAM then (None, buf)
    else if buf[..2] != Be16(0) then (None, buf[2..])
    else
      var d := Decode(buf[3..]);
      match d.result
      case Err(_) => (None, d.rest)
      case Ok(a) => (Some(Udp(a)), d.rest)
  }

  method DecodeUdpDiagram(buf: seq<byte>) returns (a: Option<Addr>, rest: seq<byte>)
    ensures (a, rest) == Open(buf)
  {
    rest := buf;
    if |rest| < 11 {
      return None, rest;
    }
    var first2bytes := FromBe16(rest);
    rest := rest[2..];
    if first2bytes != 0 {
      return None, rest;
    }
    rest := rest[1..];
    assert rest == buf[3..];
    var d := Socks5BytesToAddr(rest);
    rest := d.rest;
    match d.result {
      case Err(_) => a := None;
      case Ok(ad) => a := Some(ad.(network := UDP));
    }
  }

  /**
   * Opening a datagram gives back the canonical address and the payload if and only if the name
   * fits its length byte and header and payload together take at least eleven bytes.
   */
  lemma DiagramRoundTrip(a: Addr, payload: seq<byte>)
    ensures Open(Diagram(a) + payload) == (Some(Udp(Canonical(a))), payload)
            <==> Sendable(a) && |Diagram(a) + payload| >= MIN_DIAGRAM
  {
    var buf := Diagram(a) + payload;
    assert buf[..2] == Be16(0) && buf[3..] == Encode(a) + payload;
    RoundTrip(a, payload);
    if Decode(Encode(a) + payload).result.Ok? {
      assert Decode(Encode(a) + payload).result.value.network == TCP;
    }
  }

  /** The datagram has two zeros at the front and this address behind the third byte. */
  predicate Holds(buf: seq<byte>, a: Addr) {
    && |buf| >= 11 && buf[0] == 0 && buf[1] == 0
    && Sendable(a) && Canonical(a) == a && Encode(a) <= buf[3..]
  }

  /**
   * Over all bytes: a datagram opens if and only if it holds an address, which is reported as one
   * for datagrams, and what stands behind it is the payload. If it does not, what is left depends
   * on how far it was read.
   */
  lemma OpensExactly(buf: seq<byte>)
    ensures Open(buf).0.Some? <==> exists a :: Holds(buf, a)
    ensures forall a :: Holds(buf, a) ==> Open(buf) == (Some(a.(network := UDP)), buf[3..][|Encode(a)|..])
    ensures Open(buf).0.None? ==>
      Open(buf).1 == if |buf| < 11 then buf else if buf[0] != 0 || buf[1] != 0 then buf[2..] else Decode(buf[3..]).rest
  {
    if |buf| >= 11 {
      assert buf[..2] == [buf[0], buf[1]];
      forall a | Holds(buf, a) ensures Open(buf) == (Some(a.(network := UDP)), buf[3..][|Encode(a)|..]) {
        assert buf[3..] == Encode(a) + buf[3..][|Encode(a)|..];
        RoundTrip(a, buf[3..][|Encode(a)|..]);
      }
      if Open(buf).0.Some? {
        DecodeIsOnto(buf[3..]);
        var a := Decode(buf[3..]).result.value;
        assert buf[3..][..|Encode(a)|] == Encode(a);
        assert Holds(buf, a);
      }
    }
  }

  /** A datagram fragment is opened as if it were whole. */
  lemma FragmentsPassAsWhole(a: Addr, fragment: byte, payload: seq<byte>)
    ensures Open(Be16(0) + [fragment] + Encode(a) + payload) == Open(Diagram(a) + payload)
            || |Diagram(a) + payload| < MIN_DIAGRAM
  {
    var buf, whole := Be16(0) + [fragment] + Encode(a) + payload, Diagram(a) + payload;
    assert buf[3..] == whole[3..] && buf[..2] == whole[..2];
  }
}
