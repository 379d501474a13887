/** The connection object the handshakes read from and write to. */
module Connections {
  import opened Bytes
  import opened Chunked

  /** The connection object: reads take chunks off the front, writes go to `sent`. */
  class Connection {
    var chunks: seq<seq<byte>>
    var sent: seq<byte>

    constructor (chunks: seq<seq<byte>>)
      ensures State() == Conn(chunks, [])
    {
      this.chunks, this.sent := chunks, [];
    }

    function State(): Conn
      reads this
    {
      Conn(chunks, sent)
    }

    /** Reads into the front of `buf`, which keeps its length; `n` bytes were read. */
    method Read(buf: seq<byte>) returns (out: seq<byte>, n: nat)
      modifies this
      ensures Work(out, n, State()) == Chunked.Read(Work(buf, n, old(State())))
    {
      var (data, rest) := ReadChunk(chunks, |buf|);
      chunks, n := rest, |data|;
      out := Overwrite(buf, data);
    }

    method Write(data: seq<byte>)
      modifies this
      ensures State() == old(State()).(sent := old(sent) + data)
    {
      sent := sent + data;
    }
  }
}
