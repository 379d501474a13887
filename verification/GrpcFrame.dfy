/** One gRPC message as it stands on the h2 stream: head, then payload. */
module GrpcFrame {
  import opened Bytes
  import opened Varint

  const READ_HEAD_LEN: nat := 6

  /** The head of a message with `len` payload bytes. */
  function Head(len: nat): (h: seq<byte>)
    ensures |h| == READ_HEAD_LEN + |Uvarint(len)|
  {
    [0] + Be32(1 + |Uvarint(len)| + len) + [0x0a] + Uvarint(len)
  }

  function Frame(payload: seq<byte>): seq<byte> {
    Head(|payload|) + payload
  }

  /** The wire form of a list of payloads. */
  function EncodeAll(payloads: seq<seq<byte>>): seq<byte> {
    if payloads == [] then [] else Frame(payloads[0]) + EncodeAll(payloads[1..])
  }

  lemma {:induction false} EncodeAllAppend(a: seq<seq<byte>>, b: seq<seq<byte>>)
    ensures EncodeAll(a + b) == EncodeAll(a) + EncodeAll(b)
  {
    if a == [] {
      assert a + b == b;
    } else {
      assert (a + b)[1..] == a[1..] + b;
      EncodeAllAppend(a[1..], b);
    }
  }

  lemma EncodeAllSnoc(a: seq<seq<byte>>, p: seq<byte>)
    ensures EncodeAll(a + [p]) == EncodeAll(a) + Frame(p)
  {
    EncodeAllAppend(a, [p]);
    assert [p][1..] == [];
    assert EncodeAll([p]) == Frame(p) + [];
  }

  /** The big-endian field counts the bytes behind it exactly when they fit 32 bits. */
  lemma FieldCountsTheRest(payload: seq<byte>)
    ensures FromBe32(Frame(payload)[1..5]) == |Frame(payload)| - 5 <==> |Frame(payload)| - 5 < 0x1_0000_0000
  {
    var n := 1 + |Uvarint(|payload|)| + |payload|;
    HeadField(|payload|, payload);
    Be32Value(n);
    LowPart(n);
  }

  lemma HeadField(len: nat, more: seq<byte>)
    ensures (Head(len) + more)[1..5] == Be32(1 + |Uvarint(len)| + len)
  {
    FieldStands([0], Be32(1 + |Uvarint(len)| + len), [0x0a] + Uvarint(len) + more);
    assert Head(len) + more == [0] + Be32(1 + |Uvarint(len)| + len) + ([0x0a] + Uvarint(len) + more);
  }

  lemma FieldStands(flag: seq<byte>, field: seq<byte>, more: seq<byte>)
    requires |flag| == 1 && |field| == 4
    ensures (flag + field + more)[1..5] == field
  {
  }

  lemma LowPart(n: nat)
    ensures n % 0x1_0000_0000 == n <==> n < 0x1_0000_0000
  {
  }

  lemma DivTwice(n: nat)
    ensures n / 256 / 256 == n / 0x1_0000
  {
  }

  lemma DivThrice(n: nat)
    ensures n / 0x1_0000 / 256 == n / 0x100_0000
  {
  }

  /** A number's low byte and the rest of it. */
  lemma LowByte(n: nat)
    ensures n == 256 * (n / 256) + n % 256
  {
  }

  lemma Low32(hi: nat, low: nat)
    requires low < 0x1_0000_0000
    ensures (0x1_0000_0000 * hi + low) % 0x1_0000_0000 == low
  {
  }

  lemma Be32Value(n: nat)
    ensures FromBe32(Be32(n)) == n % 0x1_0000_0000
  {
    var a, b, c := n / 0x100_0000, n / 0x1_0000, n / 256;
    DivTwice(n);
    DivThrice(n);
    LowByte(n);
    LowByte(c);
    LowByte(b);
    LowByte(a);
    Low32(a / 256, FromBe32(Be32(n)));
  }

  /** A longer payload never has a shorter head. */
  lemma HeadMonotone(a: nat, b: nat)
    requires a <= b
    ensures |Head(a)| <= |Head(b)|
  {
    UvarintMonotone(a, b);
  }

  /** Past the six fixed bytes a frame parses to its payload length and leaves the payload. */
  lemma HeadParses(payload: seq<byte>, more: seq<byte>)
    requires |payload| < TWO64
    ensures Parse((Frame(payload) + more)[READ_HEAD_LEN..]) == Parsed(None, |payload|, payload + more)
  {
    var h := Head(|payload|);
    assert (Frame(payload) + more)[READ_HEAD_LEN..] == Uvarint(|payload|) + (payload + more);
    ParseRoundTrip(|payload|, payload + more);
  }

  /** The whole length on the wire of a message with `lp` payload bytes. */
  method GetRealLen(lp: nat) returns (n: nat)
    requires lp < TWO64
    ensures n == |Head(lp)| + lp
  {
    UvarintAtMostTen(lp);
    var header := new byte[MAX_VARINT_LEN64 + 1](_ => 0);
    header[0] := 0x0a;
    var varintSize := PutUvarint(header, 1, lp);
    var phLen := varintSize + 1;
    n := 5 + phLen + lp;
  }

  method EncodeHead(lp: nat) returns (buf: seq<byte>)
    requires lp < TWO64
    ensures buf == Head(lp)
  {
    UvarintAtMostTen(lp);
    var header := new byte[MAX_VARINT_LEN64 + 1](_ => 0);
    header[0] := 0x0a;
    var varintSize := PutUvarint(header, 1, lp);
    var phLen := varintSize + 1;
    buf := [0];
    buf := buf + Be32(phLen + lp);
    assert header[..phLen] == [header[0]] + header[1..1 + varintSize];
    buf := buf + header[..phLen];
  }

  method Encode(payload: seq<byte>, onlyHead: bool) returns (buf: seq<byte>)
    requires |payload| < TWO64
    ensures buf == if onlyHead then Head(|payload|) else Frame(payload)
  {
    buf := EncodeHead(|payload|);
    if !onlyHead {
      buf := buf + payload;
    }
  }
}
