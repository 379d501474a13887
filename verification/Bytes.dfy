/** Byte strings, results and the big-endian fields shared by every codec of the model. */
module Bytes {
  type byte = b: int | 0 <= b < 256

  datatype Option<+T> = None | Some(value: T)

  datatype Result<+T, +E> = Ok(value: T) | Err(error: E)

  function Min(a: int, b: int): int {
    if a <= b then a else b
  }

  /** The bytes of a list of chunks, in order. */
  function Flat(chunks: seq<seq<byte>>): seq<byte> {
    if chunks == [] then [] else chunks[0] + Flat(chunks[1..])
  }

  lemma {:induction false} FlatAppend(a: seq<seq<byte>>, b: seq<seq<byte>>)
    ensures Flat(a + b) == Flat(a) + Flat(b)
  {
    if a == [] {
      assert a + b == b;
    } else {
      assert (a + b)[1..] == a[1..] + b;
      FlatAppend(a[1..], b);
    }
  }

  lemma FlatSnoc(a: seq<seq<byte>>, c: seq<byte>)
    ensures Flat(a + [c]) == Flat(a) + c
  {
    FlatAppend(a, [c]);
    assert [c][1..] == [];
  }

  /** Two bytes, high byte first, of the low 16 bits of `x` (`put_u16` after `as u16`). */
  function Be16(x: nat): (r: seq<byte>)
    ensures |r| == 2
  {
    [(x / 256) % 256, x % 256]
  }

  function FromBe16(s: seq<byte>): (r: nat)
    requires |s| >= 2
    ensures r < 0x1_0000
  {
    (s[0] as int) * 256 + s[1]
  }

  /** Four bytes, high byte first, of the low 32 bits of `x` (`put_u32` after `as u32`). */
  function Be32(x: nat): (r: seq<byte>)
    ensures |r| == 4
  {
    [(x / 0x100_0000) % 256, (x / 0x1_0000) % 256, (x / 256) % 256, x % 256]
  }

  function FromBe32(s: seq<byte>): nat
    requires |s| >= 4
  {
    (((s[0] as int) * 256 + s[1]) * 256 + s[2]) * 256 + s[3]
  }
}
