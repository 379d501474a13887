/** Connections that hand out the incoming bytes in chunks, and buffers that reads fill. */
module Chunked {
  import opened Bytes

  /** A connection: the chunks still to be read, in the pieces they arrive in, and the bytes written. */
  datatype Conn = Conn(chunks: seq<seq<byte>>, sent: seq<byte>)

  /** One read into a buffer of length `cap`: at most one chunk, the rest of which stays. */
  function ReadChunk(chunks: seq<seq<byte>>, cap: nat): (r: (seq<byte>, seq<seq<byte>>))
    ensures |r.0| <= cap
    ensures r.0 + Flat(r.1) == Flat(chunks)
  {
    if chunks == [] then ([], [])
    else if |chunks[0]| <= cap then (chunks[0], chunks[1..])
    else
      var rest := [chunks[0][cap..]] + chunks[1..];
      assert rest[1..] == chunks[1..];
      assert chunks[0] == chunks[0][..cap] + chunks[0][cap..];
      (chunks[0][..cap], rest)
  }

  /** A handshake's working state: of `buf`, the first `n` bytes were read. */
  datatype Work = Work(buf: seq<byte>, n: nat, conn: Conn)

  predicate Sound(w: Work) {
    w.n <= |w.buf|
  }

  function Overwrite(buf: seq<byte>, data: seq<byte>): (r: seq<byte>)
    requires |data| <= |buf|
    ensures |r| == |buf| && r[..|data|] == data
  {
    data + buf[|data|..]
  }

  function Read(w: Work): (r: Work)
    ensures Sound(r) && |r.buf| == |w.buf|
  {
    var (data, rest) := ReadChunk(w.conn.chunks, |w.buf|);
    Work(Overwrite(w.buf, data), |data|, w.conn.(chunks := rest))
  }

  function Write(w: Work, data: seq<byte>): Work {
    w.(conn := w.conn.(sent := w.conn.sent + data))
  }

  function Zeros(n: nat): (z: seq<byte>)
    ensures |z| == n
  {
    seq(n, _ => 0)
  }
}
