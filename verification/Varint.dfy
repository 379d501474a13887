/** The unsigned variable-length integers inside a gRPC message head. */
module Varint {
  import opened Bytes

  const MAX_VARINT_LEN64: nat := 10
  const TWO64: nat := 0x1_0000_0000_0000_0000

  datatype UvarintError = NoFirstByte | Overflow

  function Pow128(n: nat): (p: nat)
    ensures p >= 1
  {
    if n == 0 then 1 else 128 * Pow128(n - 1)
  }

  /** The number whose base-128 digits, lowest first, are the low seven bits of each byte. */
  function Groups(s: seq<byte>): nat {
    if s == [] then 0 else s[0] % 128 + 128 * Groups(s[1..])
  }

  /** `s` starts with a complete varint whose last byte is `s[k]`. */
  predicate EndsAt(s: seq<byte>, k: nat) {
    k < |s| && s[k] < 128 && forall i :: 0 <= i < k ==> s[i] >= 128
  }

  /** The encoding of `x`: seven bits a byte, every byte but the last flagged. */
  function Uvarint(x: nat): (bs: seq<byte>)
    ensures |bs| >= 1
  {
    if x < 128 then [x] else [x % 128 + 128] + Uvarint(x / 128)
  }

  lemma {:induction false} UvarintForm(x: nat)
    ensures EndsAt(Uvarint(x), |Uvarint(x)| - 1) && Groups(Uvarint(x)) == x
    ensures |Uvarint(x)| > 1 ==> Uvarint(x)[|Uvarint(x)| - 1] != 0
  {
    var s := Uvarint(x);
    if x < 128 {
      assert s[1..] == [];
    } else {
      UvarintForm(x / 128);
      assert s[1..] == Uvarint(x / 128);
    }
  }

  /** `b | 0x80` on one byte. */
  function WithHighBit(b: byte): byte {
    if b < 128 then b + 128 else b
  }

  lemma HighBit(x: nat)
    ensures WithHighBit(x % 256) == x % 128 + 128
  {
    assert x % 256 == x % 128 || x % 256 == x % 128 + 128;
  }

  lemma {:induction false} UvarintMonotone(x: nat, y: nat)
    requires x <= y
    ensures |Uvarint(x)| <= |Uvarint(y)|
  {
    if 128 <= x {
      UvarintMonotone(x / 128, y / 128);
    }
  }

  lemma {:induction false} UvarintLength(x: nat, n: nat)
    requires n >= 1
    ensures |Uvarint(x)| <= n <==> x < Pow128(n)
  {
    assert Pow128(n) == 128 * Pow128(n - 1);
    if n == 1 {
      assert Pow128(0) == 1;
    } else if x >= 128 {
      UvarintLength(x / 128, n - 1);
    }
  }

  lemma UvarintAtMostTen(x: nat)
    requires x < TWO64
    ensures |Uvarint(x)| <= MAX_VARINT_LEN64
  {
    PowersOf128();
    UvarintLength(x, 10);
  }

  lemma PowersOf128()
    ensures Pow128(9) == 0x8000_0000_0000_0000
    ensures Pow128(10) == 128 * 0x8000_0000_0000_0000
  {
    assert Pow128(2) == 0x4000;
    assert Pow128(4) == 0x1000_0000;
    assert Pow128(6) == 0x400_0000_0000;
    assert Pow128(8) == 0x100_0000_0000_0000;
  }

  lemma {:induction false} GroupsBound(s: seq<byte>)
    ensures Groups(s) < Pow128(|s|)
  {
    if s != [] {
      GroupsBound(s[1..]);
    }
  }

  lemma {:induction false} GroupsSnoc(s: seq<byte>, b: byte)
    ensures Groups(s + [b]) == Groups(s) + (b % 128) * Pow128(|s|)
  {
    if s == [] {
      assert s + [b] == [b];
      assert [b][1..] == [];
    } else {
      assert (s + [b])[1..] == s[1..] + [b];
      GroupsSnoc(s[1..], b);
    }
  }

  /** A byte string in encoded form is the encoding of its number: no number has two encodings. */
  lemma {:induction false} UvarintUnique(s: seq<byte>)
    requires s != [] && EndsAt(s, |s| - 1) && (|s| > 1 ==> s[|s| - 1] != 0)
    ensures s == Uvarint(Groups(s))
  {
    if |s| == 1 {
      assert s == [s[0]];
      assert Groups(s[1..]) == 0;
    } else {
      var t := s[1..];
      assert t[|t| - 1] == s[|s| - 1];
      UvarintUnique(t);
      GroupsPositive(t);
      UvarintCons(s[0], Groups(t));
      assert s == [s[0]] + t;
    }
  }

  lemma UvarintCons(b: byte, y: nat)
    requires b >= 128 && y > 0
    ensures Uvarint(b % 128 + 128 * y) == [b] + Uvarint(y)
  {
    var x := b % 128 + 128 * y;
    assert x >= 128 && x % 128 == b - 128 && x / 128 == y;
  }

  lemma {:induction false} GroupsPositive(s: seq<byte>)
    requires s != [] && 0 < s[|s| - 1] < 128
    ensures Groups(s) > 0
  {
    if |s| > 1 {
      GroupsPositive(s[1..]);
    }
  }

  lemma UvarintStep(code: seq<byte>, i: nat, rest: nat)
    requires i <= |code| && Uvarint(rest) == code[i..]
    ensures i < |code|
    ensures rest < 128 ==> code[i] == rest && i + 1 == |code|
    ensures rest >= 128 ==> code[i] == rest % 128 + 128 && code[i + 1..] == Uvarint(rest / 128)
  {
    var tail := code[i..];
    assert tail[0] == code[i];
    if rest >= 128 {
      assert tail == [rest % 128 + 128] + Uvarint(rest / 128);
      assert tail[1..] == code[i + 1..];
    }
  }

  /** Writes the encoding of `x` into `buf` at `off` and returns how many bytes it took. */
  method PutUvarint(buf: array<byte>, off: nat, x: nat) returns (n: nat)
    requires off + |Uvarint(x)| <= buf.Length
    modifies buf
    ensures n == |Uvarint(x)|
    ensures buf[off..off + n] == Uvarint(x)
    ensures forall j :: 0 <= j < off || off + n <= j < buf.Length ==> buf[j] == old(buf[j])
  {
    var rest, i := x, 0;
    ghost var code := Uvarint(x);
    while rest >= 0x80
      invariant i <= |code| && Uvarint(rest) == code[i..]
      invariant forall j :: 0 <= j < i ==> buf[off + j] == code[j]
      invariant forall j :: 0 <= j < off || off + i <= j < buf.Length ==> buf[j] == old(buf[j])
    {
      UvarintStep(code, i, rest);
      HighBit(rest);
      buf[off + i] := WithHighBit(rest % 256);
      rest := rest / 128;
      i := i + 1;
    }
    UvarintStep(code, i, rest);
    buf[off + i] := rest % 256;
    n := i + 1;
  }

  /** Where the first byte below 128 stands; the length of `r` when there is none. */
  function FirstEnd(r: seq<byte>): (k: nat)
    ensures k <= |r|
  {
    if r == [] || r[0] < 128 then 0 else 1 + FirstEnd(r[1..])
  }

  lemma {:induction false} FirstEndIs(r: seq<byte>, k: nat)
    requires k <= |r| && (forall i :: 0 <= i < k ==> r[i] >= 128) && (k < |r| ==> r[k] < 128)
    ensures FirstEnd(r) == k
  {
    if k > 0 {
      FirstEndIs(r[1..], k - 1);
    }
  }

  lemma {:induction false} FirstEndFlags(r: seq<byte>)
    ensures forall i :: 0 <= i < FirstEnd(r) ==> r[i] >= 128
    ensures FirstEnd(r) < |r| ==> r[FirstEnd(r)] < 128
  {
    if r != [] && r[0] >= 128 {
      FirstEndFlags(r[1..]);
      assert forall i :: 1 <= i < FirstEnd(r) ==> r[i] == r[1..][i - 1];
    }
  }

  datatype Parsed = Parsed(err: Option<UvarintError>, value: nat, rest: seq<byte>)

  /** What taking a varint off the front of `r` yields. The value only matters without an error. */
  function Parse(r: seq<byte>): Parsed {
    var k := FirstEnd(r);
    if k < |r| && k < MAX_VARINT_LEN64 && Groups(r[..k + 1]) < TWO64 then
      Parsed(None, Groups(r[..k + 1]), r[k + 1..])
    else if |r| < MAX_VARINT_LEN64 then
      Parsed(Some(NoFirstByte), 0, [])
    else
      Parsed(Some(Overflow), 0, r[MAX_VARINT_LEN64..])
  }

  predicate Flagged(r: seq<byte>, i: nat) {
    i <= |r| && forall j :: 0 <= j < i ==> r[j] >= 128
  }

  /** No end among the first ten bytes. */
  lemma ParseFlagged(r: seq<byte>)
    requires Flagged(r, Min(|r|, MAX_VARINT_LEN64))
    ensures Parse(r) == if |r| < MAX_VARINT_LEN64 then Parsed(Some(NoFirstByte), 0, [])
                        else Parsed(Some(Overflow), 0, r[MAX_VARINT_LEN64..])
  {
    FirstEndFlags(r);
  }

  /** The end is byte `i` of at most ten. */
  lemma ParseEnd(r: seq<byte>, i: nat)
    requires i < |r| && i < MAX_VARINT_LEN64 && Flagged(r, i) && r[i] < 128
    ensures Parse(r) == if i == MAX_VARINT_LEN64 - 1 && r[i] > 1 then Parsed(Some(Overflow), 0, r[i + 1..])
                        else Parsed(None, Or64(Groups(r[..i]), r[i], i), r[i + 1..])
  {
    FirstEndIs(r, i);
    GroupsStep(r, i);
  }

  /** Takes a varint off the front of `r`; the 64-bit accumulator drops bits shifted out of it. */
  method ReadUvarint(r: seq<byte>) returns (x: nat, err: Option<UvarintError>, rest: seq<byte>)
    ensures err == Parse(r).err && rest == Parse(r).rest
    ensures err == None ==> x == Parse(r).value
  {
    x, rest := 0, r;
    var i := 0;
    while i < MAX_VARINT_LEN64
      invariant i <= |r| && i <= MAX_VARINT_LEN64 && rest == r[i..]
      invariant Flagged(r, i)
      invariant i < MAX_VARINT_LEN64 ==> x == Groups(r[..i])
    {
      if rest == [] {
        ParseFlagged(r);
        return x, Some(NoFirstByte), rest;
      }
      var b := rest[0];
      rest := rest[1..];
      if b < 0x80 {
        ParseEnd(r, i);
        if i == MAX_VARINT_LEN64 - 1 && b > 1 {
          return x, Some(Overflow), rest;
        }
        return Or64(x, b, i), None, rest;
      }
      GroupsStep(r, i);
      x := Or64(x, b % 128, i);
      i := i + 1;
    }
    ParseFlagged(r);
    return x, Some(Overflow), rest;
  }

  lemma GroupsNext(r: seq<byte>, i: nat)
    requires i < |r|
    ensures Groups(r[..i + 1]) == Groups(r[..i]) + (r[i] % 128) * Pow128(i)
    ensures Groups(r[..i]) < Pow128(i) && Groups(r[..i + 1]) < Pow128(i + 1)
  {
    assert r[..i + 1] == r[..i] + [r[i]];
    GroupsSnoc(r[..i], r[i]);
    GroupsBound(r[..i + 1]);
    GroupsBound(r[..i]);
  }

  /** Up to the ninth byte nothing is shifted out of 64 bits. */
  lemma EarlyGroups(g: nat, b: byte, i: nat)
    requires i < 9 && b < 128 && g + b * Pow128(i) < Pow128(i + 1)
    ensures Or64(g, b, i) == g + b * Pow128(i) < TWO64
  {
    PowersOf128();
    Pow128Monotone(i + 1, 9);
    assert b * Pow128(i) >= 0;
    SmallMod(b * Pow128(i));
  }

  lemma SmallMod(n: nat)
    requires n < TWO64
    ensures n % TWO64 == n
  {
  }

  lemma GroupsStep(r: seq<byte>, i: nat)
    requires i < |r| && i < 10
    ensures i < 9 || r[i] <= 1 ==> Groups(r[..i + 1]) == Or64(Groups(r[..i]), r[i] % 128, i) < TWO64
    ensures i == 9 && 1 < r[i] < 128 ==> Groups(r[..i + 1]) >= TWO64
  {
    GroupsNext(r, i);
    if i < 9 {
      EarlyGroups(Groups(r[..i]), r[i] % 128, i);
    } else {
      PowersOf128();
    }
  }

  /** Reading an encoding with any suffix behind it gives the number back and leaves the suffix. */
  lemma ParseRoundTrip(v: nat, suffix: seq<byte>)
    requires v < TWO64
    ensures Parse(Uvarint(v) + suffix) == Parsed(None, v, suffix)
  {
    var code, n := Uvarint(v), |Uvarint(v)|;
    var r := code + suffix;
    UvarintAtMostTen(v);
    UvarintForm(v);
    assert r[..n] == code && r[n..] == suffix;
    FirstEndIs(r, n - 1);
  }

  /**
   * Reading fails exactly when no varint of at most ten bytes that fits 64 bits starts the
   * input; it fails for want of bytes exactly when fewer than ten bytes are there, all flagged.
   */
  lemma ParseRejects(r: seq<byte>)
    ensures (Parse(r).err == None
        <==> exists k: nat :: EndsAt(r, k) && k < MAX_VARINT_LEN64 && Groups(r[..k + 1]) < TWO64)
    ensures Parse(r).err == Some(NoFirstByte) <==> |r| < MAX_VARINT_LEN64 && forall i :: 0 <= i < |r| ==> r[i] >= 128
  {
    var k := FirstEnd(r);
    FirstEndFlags(r);
    if k < |r| {
      assert EndsAt(r, k);
      ShortFits(r[..k + 1]);
    }
    forall j: nat | EndsAt(r, j) ensures j == k {
    }
  }

  lemma ShortFits(s: seq<byte>)
    ensures |s| <= 9 ==> Groups(s) < TWO64
  {
    PowersOf128();
    GroupsBound(s);
    Pow128Monotone(|s|, 9);
  }

  /** `x | (b << 7 * i)` on 64 bits, for an `x` that uses only the low `7 * i` bits. */
  function Or64(x: nat, b: byte, i: nat): nat {
    x + (b * Pow128(i)) % TWO64
  }

  lemma {:induction false} Pow128Monotone(a: nat, b: nat)
    ensures a <= b ==> Pow128(a) <= Pow128(b)
    decreases b
  {
    if a < b {
      Pow128Monotone(a, b - 1);
    }
  }
}
