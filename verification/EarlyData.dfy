/** A connection whose first bytes were read by an earlier layer. */
module EarlyData {
  import opened Bytes
  import opened Chunked
  import opened Connections

  /** A caller's buffer: its capacity, how much of it is initialised, and how much of that is filled. */
  datatype Room = Room(cap: nat, init: nat, filled: nat)

  predicate Shaped(r: Room) {
    r.filled <= r.init <= r.cap
  }

  datatype Out = Panicked | Got(data: seq<byte>)

  datatype Wrapped = Wrapped(ed: Option<seq<byte>>, chunks: seq<seq<byte>>)

  /** One read: from the early data while there are any, counted against all of the initialised part. */
  function Poll(s: Wrapped, r: Room): (Wrapped, Out)
    requires Shaped(r)
  {
    match s.ed
    case Some(ed) =>
      if ed == [] then PollBase(s.(ed := None), r)
      else
        var m := Min(|ed|, r.init);
        if m > r.cap - r.filled then (s, Panicked)
        else (s.(ed := if m == |ed| then None else Some(ed[m..])), Got(ed[..m]))
    case None => PollBase(s, r)
  }

  function PollBase(s: Wrapped, r: Room): (Wrapped, Out)
    requires Shaped(r)
  {
    var (data, rest) := ReadChunk(s.chunks, r.cap - r.filled);
    (s.(chunks := rest), Got(data))
  }

  class EarlyDataWrapper {
    var ed: Option<seq<byte>>
    const base: Connection

    constructor (bs: seq<byte>, conn: Connection)
      ensures base == conn && ed == if bs == [] then None else Some(bs)
    {
      ed := if bs == [] then None else Some(bs);
      base := conn;
    }

    function State(): Wrapped
      reads this, base
    {
      Wrapped(ed, base.chunks)
    }

    method PollRead(r: Room) returns (out: Out)
      requires Shaped(r)
      modifies this, base
      ensures (State(), out) == Poll(old(State()), r)
      ensures base.sent == old(base.sent)
    {
      if ed.Some? {
        var el := |ed.value|;
        if el > 0 {
          var m := Min(el, r.init);
          if m > r.cap - r.filled {
            return Panicked;
          }
          out := Got(ed.value[..m]);
          ed := if m == el then None else Some(ed.value[m..]);
          return;
        }
        ed := None;
      }
      var buf, n := base.Read(Zeros(r.cap - r.filled));
      out := Got(buf[..n]);
    }
  }

  /** The bytes still to come. */
  function ToCome(s: Wrapped): seq<byte> {
    (if s.ed.Some? then s.ed.value else []) + Flat(s.chunks)
  }

  /** A read hands over the next bytes to come, or panics and changes nothing. */
  lemma PollHandsOver(s: Wrapped, r: Room)
    requires Shaped(r)
    ensures var (t, out) := Poll(s, r);
            if out.Panicked? then t == s else out.data + ToCome(t) == ToCome(s)
  {
    if s.ed.Some? && s.ed.value != [] {
      CutEarly(s.ed.value, Min(|s.ed.value|, r.init), Flat(s.chunks));
    } else {
      BaseHandsOver(Wrapped(None, s.chunks), r);
    }
  }

  lemma CutEarly(ed: seq<byte>, m: nat, more: seq<byte>)
    requires m <= |ed|
    ensures ed[..m] + ((if m == |ed| then [] else ed[m..]) + more) == ed + more
  {
  }

  lemma BaseHandsOver(s: Wrapped, r: Room)
    requires Shaped(r) && s.ed == None
    ensures var (t, out) := PollBase(s, r); out.Got? && out.data + ToCome(t) == Flat(s.chunks) == ToCome(s)
  {
    NothingBefore(s);
    NothingBefore(PollBase(s, r).0);
  }

  lemma NothingBefore(s: Wrapped)
    requires s.ed == None
    ensures ToCome(s) == Flat(s.chunks)
  {
    assert [] + Flat(s.chunks) == Flat(s.chunks);
  }

  /**
   * While early data are left, a read panics if and only if they and the initialised part both
   * exceed the unfilled part, and it hands over nothing if and only if nothing is initialised.
   * With none left it hands over what of the next chunk the unfilled part takes, and never panics.
   */
  lemma EarlyReadExactly(s: Wrapped, r: Room)
    requires Shaped(r)
    ensures var (t, out) := Poll(s, r);
            if s.ed.Some? && s.ed.value != [] then
              && (out.Panicked? <==> |s.ed.value| > r.cap - r.filled && r.init > r.cap - r.filled)
              && (out == Got([]) <==> r.init == 0)
              && (out.Got? ==> |out.data| == Min(|s.ed.value|, r.init) && t.chunks == s.chunks)
            else
              && out.Got? && |out.data| == (if s.chunks == [] then 0 else Min(|s.chunks[0]|, r.cap - r.filled))
              && t.ed == None
    ensures Poll(s, r).1.Got? ==> Poll(s, r).1.data <= ToCome(s)
  {
    PollHandsOver(s, r);
  }

  /** All the bytes that reads into fresh, initialised buffers of these lengths hand over. */
  function ReadMany(s: Wrapped, lens: seq<nat>): (Wrapped, seq<byte>)
    decreases |lens|
  {
    if lens == [] then (s, [])
    else
      var (t, out) := Poll(s, Room(lens[0], lens[0], 0));
      var (u, more) := ReadMany(t, lens[1..]);
      (u, (if out.Got? then out.data else []) + more)
  }

  /** Such reads hand over the early data first, then the connection's bytes, and lose none. */
  lemma {:induction false} EarlyDataFirst(s: Wrapped, lens: seq<nat>)
    ensures var (t, got) := ReadMany(s, lens); got + ToCome(t) == ToCome(s)
    decreases |lens|
  {
    if lens == [] {
      assert [] + ToCome(s) == ToCome(s);
    } else {
      var (t, out) := Poll(s, Room(lens[0], lens[0], 0));
      PollHandsOver(s, Room(lens[0], lens[0], 0));
      EarlyDataFirst(t, lens[1..]);
      var (u, more) := ReadMany(t, lens[1..]);
      assert out.data + more + ToCome(u) == out.data + (more + ToCome(u));
    }
  }
}
