/** The bytes that both peers of each protocol agree on, spelt out. */
module WireBytes {
  import opened Bytes
  import opened Text
  import opened AddrCodec
  import opened Users
  import Base64
  import GrpcFrame
  import Socks5
  import Socks5Agreement
  import Socks5Client
  import Socks5Udp
  import TrojanHandshake
  import TrojanUdp
  import Varint

  lemma PortBytes(hi: byte, lo: byte)
    ensures Be16(hi as int * 256 + lo as int) == [hi, lo]
  {
  }

  /** A socket address on the wire: its kind, the octets, and the port, high byte first. */
  lemma SocketBytes(o4: Octets4, o16: Octets16, hi: byte, lo: byte, network: Network)
    ensures var port: Port := hi as int * 256 + lo as int;
            && Encode(Addr(AtSocket(Socket(V4(o4), port)), network)) == [1] + o4 + [hi, lo]
            && Encode(Addr(AtSocket(Socket(V6(o16), port)), network)) == [4] + o16 + [hi, lo]
  {
    PortBytes(hi, lo);
  }

  /** A name on the wire, with or without a socket of its own: a length byte stands before it. */
  lemma NameBytes(name: seq<byte>, so: Socket, hi: byte, lo: byte, network: Network)
    requires |name| <= 255
    ensures var port: Port := hi as int * 256 + lo as int;
            && Encode(Addr(AtName(name, port), network)) == [3, |name|] + name + [hi, lo]
            && Encode(Addr(AtNameAndSocket(name, so, port), network)) == [3, |name|] + name + [hi, lo]
  {
    PortBytes(hi, lo);
  }

  /** What is read off the wire: the address those bytes spell, for streams, and the bytes behind it. */
  lemma ReadSocket(o4: Octets4, o16: Octets16, hi: byte, lo: byte, more: seq<byte>)
    ensures var port: Port := hi as int * 256 + lo as int;
            && (Decode([1] + o4 + [hi, lo] + more)
             == Decoded(Ok(Addr(AtSocket(Socket(V4(o4), port)), TCP)), more))
            && (Decode([4] + o16 + [hi, lo] + more)
             == Decoded(Ok(Addr(AtSocket(Socket(V6(o16), port)), TCP)), more))
  {
    var port: Port := hi as int * 256 + lo as int;
    SocketBytes(o4, o16, hi, lo, TCP);
    SocketRoundTrip(Socket(V4(o4), port), more);
    SocketRoundTrip(Socket(V6(o16), port), more);
  }

  lemma ReadName(name: seq<byte>, hi: byte, lo: byte, more: seq<byte>)
    requires |name| <= 255 && |name| + |more| >= 3
    ensures (Decode([3, |name|] + name + [hi, lo] + more)
          == Decoded(Ok(Addr(AtName(name, hi as int * 256 + lo as int), TCP)), more))
  {
    var port: Port := hi as int * 256 + lo as int;
    PortBytes(hi, lo);
    NameRoundTrip(name, port, more);
  }

  /** What a SOCKS5 client says: 5 1 and its method, 1 and the credentials, 5 1 0 or 5 3 0 and the address. */
  lemma ClientBytes(up: PlainText, a: Addr)
    requires |up.user| <= 255 && |up.pass| <= 255
    ensures Socks5Client.HelloMsg(None) == [5, 1, 0] && Socks5Client.HelloMsg(Some(up)) == [5, 1, 2]
    ensures Socks5Client.AuthMsg(up) == [1, |up.user|] + up.user + [|up.pass|] + up.pass
    ensures Socks5Client.RequestMsg(a) == [5, 1, 0] + Encode(a)
    ensures Socks5Client.SpokenUdp(None) == [5, 1, 0] + [5, 3, 0, 1, 0, 0, 0, 0, 0, 0]
    ensures (Socks5Client.SpokenUdp(Some(up))
          == [5, 1, 2] + Socks5Client.AuthMsg(up) + [5, 3, 0, 1, 0, 0, 0, 0, 0, 0])
    ensures Socks5Client.Spoken(Some(up), a) == [5, 1, 2] + Socks5Client.AuthMsg(up) + Socks5Client.RequestMsg(a)
  {
    assert Encode(Socks5Client.ANY) == [1, 0, 0, 0, 0, 0, 0];
    assert Socks5Client.AssociateMsg() == [5, 3, 0, 1, 0, 0, 0, 0, 0, 0];
    assert [5, 1, 0] + [] + Socks5Client.AssociateMsg() == [5, 1, 0] + Socks5Client.AssociateMsg();
  }

  /** The string that identifies a user: a prefix, the name, a line feed, the password. */
  lemma AuthStrBytes(up: PlainText)
    ensures AuthStr(up) == Ascii("plaintext:") + up.user + Ascii("\n") + up.pass
  {
    assert PREFIX == Ascii("plaintext:") && [LINE_FEED] == Ascii("\n");
  }

  /** What a SOCKS5 server answers whom it lets in. */
  lemma ServerBytes(up: PlainText)
    ensures Socks5Agreement.Replies(None) == [5, 0, 5, 0, 0, 1, 0, 0, 0, 0, 0, 0]
    ensures Socks5Agreement.Replies(Some(up)) == [5, 2, 1, 0, 5, 0, 0, 1, 0, 0, 0, 0, 0, 0]
  {
  }

  /** A SOCKS5 datagram header: three zeros and the address. */
  lemma DatagramBytes(a: Addr)
    ensures Socks5Udp.Diagram(a) == [0, 0, 0] + Encode(a)
  {
    assert Be16(0) + [0] == [0, 0, 0];
  }

  /** A trojan header and a trojan datagram. */
  lemma TrojanBytes(h: TrojanHandshake.Hash, a: Addr, data: seq<byte>, hi: byte, lo: byte)
    requires |data| == hi as int * 256 + lo as int
    ensures TrojanHandshake.Header(h, a.(network := TCP)) == h + [13, 10, 1] + Encode(a) + [13, 10]
    ensures TrojanHandshake.Header(h, a.(network := UDP)) == h + [13, 10, 3] + Encode(a) + [13, 10]
    ensures TrojanUdp.EncodePacket(TrojanUdp.Item(a, data)) == Encode(a) + [hi, lo, 13, 10] + data
  {
    assert Be16(|data|) == [hi, lo] && Be16(TrojanUdp.CRLF) == [13, 10];
    assert [hi, lo] + [13, 10] == [hi, lo, 13, 10];
    assert h + [13, 10] + [1] == h + [13, 10, 1];
    assert h + [13, 10] + [3] == h + [13, 10, 3];
  }

  /** The gRPC head of a short payload, and of one of 300 bytes, whose length takes two bytes. */
  lemma GrpcBytes(n: byte)
    requires n < 128
    ensures GrpcFrame.Head(n) == [0, 0, 0, 0, n + 2, 10, n]
    ensures GrpcFrame.Head(300) == [0, 0, 0, 1, 47, 10, 172, 2]
  {
    assert Varint.Uvarint(n) == [n];
    assert Varint.Uvarint(300) == [172] + Varint.Uvarint(2) == [172, 2];
    assert Be32(303) == [0, 0, 1, 47];
    assert GrpcFrame.Head(300) == [0] + [0, 0, 1, 47] + [10] + [172, 2];
  }

  /** The digit for six bits, in the URL-safe alphabet. */
  function Letter(s: Base64.Sextet): char {
    if s < 26 then 'A' + s as char
    else if s < 52 then 'a' + (s - 26) as char
    else if s < 62 then '0' + (s - 52) as char
    else if s == 62 then '-'
    else '_'
  }

  lemma DigitIsLetter(s: Base64.Sextet)
    ensures Base64.Digit(s) == Letter(s) as int
  {
  }

  lemma SameBits(x: byte, y: byte, z: byte)
    ensures var a, b, c, d := Base64.First(x), Base64.Second(x, y), Base64.Third(y, z), Base64.Fourth(z);
            a * 262144 + b * 4096 + c * 64 + d == x as int * 65536 + y as int * 256 + z as int
  {
  }

  /** Three bytes become four letters that hold their 24 bits in order. */
  lemma Base64Bits(x: byte, y: byte, z: byte)
    ensures var a, b, c, d := Base64.First(x), Base64.Second(x, y), Base64.Third(y, z), Base64.Fourth(z);
            && Base64.Encode([x, y, z]) == [Letter(a) as int, Letter(b) as int, Letter(c) as int, Letter(d) as int]
            && Number([a, b, c, d], 64) == Number([x, y, z], 256)
  {
    var a, b, c, d := Base64.First(x), Base64.Second(x, y), Base64.Third(y, z), Base64.Fourth(z);
    SameBits(x, y, z);
    NumberOfFour(a, b, c, d);
    NumberOfThree(x, y, z);
    ThreeEncode(x, y, z);
    DigitIsLetter(a);
    DigitIsLetter(b);
    DigitIsLetter(c);
    DigitIsLetter(d);
  }

  lemma ThreeEncode(x: byte, y: byte, z: byte)
    ensures (Base64.Encode([x, y, z])
          == [Base64.Digit(Base64.First(x)), Base64.Digit(Base64.Second(x, y)), Base64.Digit(Base64.Third(y, z)),
              Base64.Digit(Base64.Fourth(z))])
  {
    assert [x, y, z][3..] == [];
    assert Base64.Encode([]) == [];
  }

  /** The number with these digits to this base, the first digit counting most. */
  function Number(digits: seq<int>, base: nat): int {
    if digits == [] then 0 else Number(digits[..|digits| - 1], base) * base + digits[|digits| - 1]
  }

  lemma NumberOfThree(x: int, y: int, z: int)
    ensures Number([x, y, z], 256) == x * 65536 + y * 256 + z
  {
    assert [x, y, z][..2] == [x, y] && [x, y][..1] == [x] && [x][..0] == [];
    assert Number([x], 256) == x;
    assert Number([x, y], 256) == x * 256 + y;
  }

  lemma NumberOfFour(a: int, b: int, c: int, d: int)
    ensures Number([a, b, c, d], 64) == a * 262144 + b * 4096 + c * 64 + d
  {
    assert [a, b, c, d][..3] == [a, b, c] && [a, b, c][..2] == [a, b] && [a, b][..1] == [a] && [a][..0] == [];
    assert Number([a], 64) == a;
    assert Number([a, b], 64) == a * 64 + b;
    assert Number([a, b, c], 64) == a * 4096 + b * 64 + c;
  }
}
