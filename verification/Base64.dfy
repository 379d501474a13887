/** Base64 with the URL-safe alphabet and no padding (sections 4 and 5 of RFC 4648). */
module Base64 {
  import opened Bytes

  type Sextet = s: int | 0 <= s < 64

  function Digit(s: Sextet): byte {
    if s < 26 then 65 + s else if s < 52 then 71 + s else if s < 62 then s - 4 else if s == 62 then 45 else 95
  }

  function Value(c: byte): (r: Option<Sextet>) {
    if 65 <= c <= 90 then Some(c - 65)
    else if 97 <= c <= 122 then Some(c - 71)
    else if 48 <= c <= 57 then Some(c + 4)
    else if c == 45 then Some(62)
    else if c == 95 then Some(63)
    else None
  }

  function First(x: byte): Sextet {
    x / 4
  }

  function Second(x: byte, y: byte): Sextet {
    x % 4 * 16 + y / 16
  }

  function Third(y: byte, z: byte): Sextet {
    y % 16 * 4 + z / 64
  }

  function Fourth(z: byte): Sextet {
    z % 64
  }

  function Encode(bs: seq<byte>): seq<byte> {
    if bs == [] then []
    else if |bs| == 1 then [Digit(First(bs[0])), Digit(Second(bs[0], 0))]
    else if |bs| == 2 then [Digit(First(bs[0])), Digit(Second(bs[0], bs[1])), Digit(Third(bs[1], 0))]
    else
      [Digit(First(bs[0])), Digit(Second(bs[0], bs[1])), Digit(Third(bs[1], bs[2])), Digit(Fourth(bs[2]))]
      + Encode(bs[3..])
  }

  /** Two digits give one byte; the bits left over have to be zero. */
  function Decode2(a: Sextet, b: Sextet): Option<seq<byte>> {
    if b % 16 != 0 then None else Some([a * 4 + b / 16])
  }

  function Decode3(a: Sextet, b: Sextet, c: Sextet): Option<seq<byte>> {
    if c % 4 != 0 then None else Some([a * 4 + b / 16, b % 16 * 16 + c / 4])
  }

  function Decode4(a: Sextet, b: Sextet, c: Sextet, d: Sextet): seq<byte> {
    [a * 4 + b / 16, b % 16 * 16 + c / 4, c % 4 * 64 + d]
  }

  function Decode(cs: seq<byte>): Option<seq<byte>> {
    if cs == [] then Some([])
    else if |cs| == 1 then None
    else
      var a, b := Value(cs[0]), Value(cs[1]);
      if a.None? || b.None? then None
      else if |cs| == 2 then Decode2(a.value, b.value)
      else
        var c := Value(cs[2]);
        if c.None? then None
        else if |cs| == 3 then Decode3(a.value, b.value, c.value)
        else
          match (Value(cs[3]), Decode(cs[4..]))
          case (Some(d), Some(rest)) => Some(Decode4(a.value, b.value, c.value, d) + rest)
          case _ => None
  }

  lemma DigitValue(s: Sextet)
    ensures Value(Digit(s)) == Some(s)
  {
  }

  lemma FirstByte(x: byte, y: byte)
    ensures First(x) * 4 + Second(x, y) / 16 == x
  {
  }

  /** The low part of what is put together from a high and a low part. */
  lemma LowPart(high: nat, low: nat)
    ensures low < 16 ==> (high * 16 + low) % 16 == low
    ensures low < 4 ==> (high * 4 + low) % 4 == low && (high * 4 + low) / 4 == high
  {
  }

  lemma SecondByte(x: byte, y: byte, z: byte)
    ensures Second(x, y) % 16 * 16 + Third(y, z) / 4 == y
  {
    LowPart(x % 4, y / 16);
    LowPart(y % 16, z / 64);
  }

  lemma ThirdByte(y: byte, z: byte)
    ensures Third(y, z) % 4 * 64 + Fourth(z) == z
  {
    LowPart(y % 16, z / 64);
  }

  /** The digits at the end carry no bits of bytes that are not there. */
  lemma NoBitsLeft(x: byte)
    ensures Second(x, 0) % 16 == 0 && Third(x, 0) % 4 == 0
  {
  }

  lemma Group(x: byte, y: byte, z: byte)
    ensures Decode4(First(x), Second(x, y), Third(y, z), Fourth(z)) == [x, y, z]
    ensures Decode3(First(x), Second(x, y), Third(y, 0)) == Some([x, y])
    ensures Decode2(First(x), Second(x, 0)) == Some([x])
  {
    FirstByte(x, y);
    FirstByte(x, 0);
    SecondByte(x, y, z);
    SecondByte(x, y, 0);
    ThirdByte(y, z);
    NoBitsLeft(x);
    NoBitsLeft(y);
  }

  lemma DecodeCons(a: Sextet, b: Sextet, c: Sextet, d: Sextet, rest: seq<byte>)
    requires Decode(rest).Some?
    ensures Decode([Digit(a), Digit(b), Digit(c), Digit(d)] + rest) == Some(Decode4(a, b, c, d) + Decode(rest).value)
  {
    var cs := [Digit(a), Digit(b), Digit(c), Digit(d)] + rest;
    assert cs[4..] == rest;
    DigitValue(a);
    DigitValue(b);
    DigitValue(c);
    DigitValue(d);
  }

  lemma DecodeEnd(a: Sextet, b: Sextet, c: Sextet)
    ensures Decode([Digit(a), Digit(b)]) == Decode2(a, b)
    ensures Decode([Digit(a), Digit(b), Digit(c)]) == Decode3(a, b, c)
  {
    DigitValue(a);
    DigitValue(b);
    DigitValue(c);
  }

  lemma ShortRoundTrip(x: byte, y: byte)
    ensures Decode([Digit(First(x)), Digit(Second(x, 0))]) == Some([x])
    ensures Decode([Digit(First(x)), Digit(Second(x, y)), Digit(Third(y, 0))]) == Some([x, y])
  {
    Group(x, y, 0);
    DecodeEnd(First(x), Second(x, 0), 0);
    DecodeEnd(First(x), Second(x, y), Third(y, 0));
  }

  lemma LongRoundTrip(x: byte, y: byte, z: byte, bs: seq<byte>)
    requires Decode(Encode(bs)) == Some(bs)
    ensures Decode([Digit(First(x)), Digit(Second(x, y)), Digit(Third(y, z)), Digit(Fourth(z))] + Encode(bs))
         == Some([x, y, z] + bs)
  {
    Group(x, y, z);
    DecodeCons(First(x), Second(x, y), Third(y, z), Fourth(z), Encode(bs));
  }

  lemma FrontThree(bs: seq<byte>)
    requires |bs| > 2
    ensures bs == [bs[0], bs[1], bs[2]] + bs[3..]
  {
  }

  /** Decoding undoes encoding. */
  lemma {:induction false} RoundTrip(bs: seq<byte>)
    ensures Decode(Encode(bs)) == Some(bs)
  {
    if |bs| == 1 {
      ShortRoundTrip(bs[0], 0);
      assert bs == [bs[0]];
    } else if |bs| == 2 {
      ShortRoundTrip(bs[0], bs[1]);
      assert bs == [bs[0], bs[1]];
    } else if |bs| > 2 {
      RoundTrip(bs[3..]);
      LongRoundTrip(bs[0], bs[1], bs[2], bs[3..]);
      FrontThree(bs);
    }
  }

  /** Every three bytes take four digits; one or two bytes at the end take one digit more than bytes. */
  lemma {:induction false} Length(bs: seq<byte>)
    ensures |Encode(bs)| == |bs| / 3 * 4 + (if |bs| % 3 == 0 then 0 else |bs| % 3 + 1)
  {
    if |bs| > 2 {
      Length(bs[3..]);
    }
  }
}
