/** UDP packets inside a trojan stream: the writer and the three-state reader. */
module TrojanUdp {
  import opened Bytes
  import opened AddrCodec

  const CRLF: nat := 0x0d0a

  /** A datagram and the address it is for or from. */
  datatype Item = Item(addr: Addr, data: seq<byte>)

  function EncodePacket(p: Item): seq<byte> {
    Encode(p.addr) + Be16(|p.data|) + Be16(CRLF) + p.data
  }

  function EncodePackets(ps: seq<Item>): seq<byte> {
    if ps == [] then [] else EncodePacket(ps[0]) + EncodePackets(ps[1..])
  }

  /** A packet whose length fields hold what they should. */
  predicate Fits(p: Item) {
    Sendable(p.addr) && |p.data| < 0x1_0000
  }

  predicate AllFit(ps: seq<Item>) {
    forall p :: p in ps ==> Fits(p)
  }

  function Udp(a: Addr): Addr {
    Canonical(a).(network := UDP)
  }

  datatype Mode = Base | Buf | LeftBuf

  /** What one read of the base connection yields; no entry yet means it is pending. */
  datatype BaseRead = Filled(data: seq<byte>) | BaseFailed

  datatype Reader = Reader(mode: Mode, buf: seq<byte>, left: nat, oldAddr: Addr, base: seq<BaseRead>)

  datatype ReadPoll =
    | ReadPending
    | BrokenPipe
    | BaseError
    | BadPacket
    | Panicked
    | Got(data: seq<byte>, addr: Addr)

  /** Parses one packet off the buffer into a caller buffer of length `room`. */
  function PollBuf(s: Reader, room: nat): (Reader, ReadPoll) {
    var d := Decode(s.buf);
    var bad := (s.(buf := [], mode := Base), BadPacket);
    if d.result.Err? || |d.rest| < 2 then bad
    else
      var len, b := FromBe16(d.rest), d.rest[2..];
      if |b| < 2 then (s.(buf := b), Panicked)
      else if |b| - 2 < len || FromBe16(b) != CRLF then bad
      else Hand(s, b[2..], len, d.result.value.(network := UDP), room)
  }

  /** Hands out the start of the `len` payload bytes that `b` begins with. */
  function Hand(s: Reader, b: seq<byte>, len: nat, ad: Addr, room: nat): (Reader, ReadPoll)
    requires |b| >= len
  {
    var n := Min(len, room);
    var t := s.(buf := b[n..]);
    var u :=
      if room < |b| && room < len then t.(left := len - room, oldAddr := ad, mode := LeftBuf)
      else if len < |b| && len < room then t.(mode := Buf)
      else t.(mode := Base, left := 0);
    (u, Got(b[..n], ad))
  }

  /** Hands out more of a payload whose first part an earlier, shorter caller buffer took. */
  function PollLeft(s: Reader, room: nat): (Reader, ReadPoll) {
    var n := Min(s.left, Min(room, |s.buf|));
    var t := s.(buf := s.buf[n..]);
    var u :=
      if |s.buf| < room && |s.buf| < s.left then t.(mode := Base)
      else if room < |s.buf| && room < s.left then t.(left := s.left - room)
      else if s.left < |s.buf| && s.left < room then t.(mode := Buf)
      else t.(mode := Base, left := 0);
    (u, Got(s.buf[..n], s.oldAddr))
  }

  /** One `poll_read_addr` with a caller buffer of length `room`. */
  function Poll(s: Reader, room: nat): (Reader, ReadPoll) {
    match s.mode
    case Buf => PollBuf(s, room)
    case LeftBuf => PollLeft(s, room)
    case Base =>
      if s.base == [] then (s, ReadPending)
      else
        var t := s.(base := s.base[1..]);
        match s.base[0]
        case BaseFailed => (t, BaseError)
        case Filled(data) =>
          if data == [] then (t, BrokenPipe)
          else if s.left > 0 then PollLeft(t.(buf := data, mode := LeftBuf), room)
          else PollBuf(t.(buf := data, mode := Buf), room)
  }

  class UdpReader {
    var base: seq<BaseRead>
    var buf: seq<byte>
    var state: Mode
    var leftDataLen: nat
    var oldAd: Addr

    constructor (oldAd: Addr)
      ensures State() == Reader(Base, [], 0, oldAd, [])
    {
      this.base, this.buf, this.state, this.leftDataLen, this.oldAd := [], [], Base, 0, oldAd;
    }

    function State(): Reader
      reads this
    {
      Reader(state, buf, leftDataLen, oldAd, base)
    }

    method PollReadAddr(room: nat) returns (r: ReadPoll)
      modifies this
      ensures (State(), r) == Poll(old(State()), room)
    {
      while true
        invariant Poll(State(), room) == Poll(old(State()), room)
        decreases if state == Base then 1 else 0
      {
        match state {
          case Base =>
            if base == [] {
              return ReadPending;
            }
            var got := base[0];
            base := base[1..];
            if got.BaseFailed? {
              return BaseError;
            }
            if got.data == [] {
              return BrokenPipe;
            }
            buf := got.data;
            state := if leftDataLen > 0 then LeftBuf else Buf;
          case Buf =>
            r := ReadPacket(room);
            return;
          case LeftBuf =>
            var ldl, bufLen := leftDataLen, |buf|;
            var toRead := Min(ldl, Min(room, bufLen));
            r := Got(buf[..toRead], oldAd);
            buf := buf[toRead..];
            if bufLen < room && bufLen < ldl {
              state := Base;
            } else if room < bufLen && room < ldl {
              leftDataLen := ldl - room;
            } else if ldl < bufLen && ldl < room {
              state := Buf;
            } else {
              state, leftDataLen := Base, 0;
            }
            return;
        }
      }
    }

    method ReadPacket(room: nat) returns (r: ReadPoll)
      modifies this
      ensures (State(), r) == PollBuf(old(State()), room)
    {
      var d := Socks5BytesToAddr(buf);
      if d.result.Err? || |d.rest| < 2 {
        buf, state := [], Base;
        return BadPacket;
      }
      var ad := d.result.value;
      var dataLen := FromBe16(d.rest);
      buf := d.rest[2..];
      if |buf| < 2 {
        return Panicked;
      }
      if |buf| - 2 < dataLen {
        buf, state := [], Base;
        return BadPacket;
      }
      var crlf := FromBe16(buf);
      buf := buf[2..];
      if crlf != CRLF {
        buf, state := [], Base;
        return BadPacket;
      }
      r := HandOut(dataLen, ad.(network := UDP), room);
    }

    /** Hands out what the caller buffer takes of the payload at the front of the buffer. */
    method HandOut(dataLen: nat, ad: Addr, room: nat) returns (r: ReadPoll)
      requires |buf| >= dataLen
      modifies this
      ensures (State(), r) == Hand(old(State()), old(buf), dataLen, ad, room)
    {
      var bufLen := |buf|;
      var n := Min(dataLen, Min(room, bufLen));
      r := Got(buf[..n], ad);
      buf := buf[n..];
      if room < bufLen && room < dataLen {
        leftDataLen, oldAd, state := dataLen - room, ad, LeftBuf;
      } else if dataLen < bufLen && dataLen < room {
        state := Buf;
      } else {
        state, leftDataLen := Base, 0;
      }
    }
  }

  datatype BaseWrite = WritePending | WriteFailed | WroteBytes(n: nat)

  datatype WritePoll = Pending | Failed | Impossible | Underflow | Wrote(n: nat)

  class UdpWriter {
    var sent: seq<byte>

    constructor ()
      ensures sent == []
    {
      sent := [];
    }

    /** A base that took fewer bytes than the packet head makes the count underflow. */
    method PollWriteAddr(buf: seq<byte>, addr: Addr, base: BaseWrite) returns (r: WritePoll)
      modifies this
      ensures var packet := EncodePacket(Item(addr, buf));
        match base
        case WritePending => r == Pending && sent == old(sent)
        case WriteFailed => r == Failed && sent == old(sent)
        case WroteBytes(n) =>
          if n > |packet| then r == Impossible && sent == old(sent)
          else
            && sent == old(sent) + packet[..n]
            && r == if n < |packet| - |buf| then Underflow else Wrote(|buf| - (|packet| - n))
    {
      var buf2 := AddrToSocks5Bytes(addr, []);
      buf2 := buf2 + Be16(|buf|);
      buf2 := buf2 + Be16(CRLF);
      buf2 := buf2 + buf;
      assert buf2 == EncodePacket(Item(addr, buf));
      var actual := |buf2|;
      match base {
        case WritePending => return Pending;
        case WriteFailed => return Failed;
        case WroteBytes(n) =>
          if n > actual {
            return Impossible;
          }
          sent := sent + buf2[..n];
          if n < actual {
            var diff := actual - n;
            if diff > |buf| {
              return Underflow;
            }
            return Wrote(|buf| - diff);
          }
          return Wrote(|buf|);
      }
    }
  }

  /** What the reader still has to hand out of the bytes it took from the base. */
  predicate Holds(s: Reader, pend: seq<Item>) {
    match s.mode
    case Base => pend == [] && s.left == 0
    case Buf => pend != [] && AllFit(pend) && s.buf == EncodePackets(pend)
    case LeftBuf =>
      && pend != [] && AllFit(pend[1..])
      && s.left == |pend[0].data| > 0 && s.oldAddr == Udp(pend[0].addr)
      && s.buf == pend[0].data + EncodePackets(pend[1..])
  }

  /** No payload is left over between base reads, and in `LeftBuf` the buffer covers what is left over. */
  predicate Clean(s: Reader) {
    (s.mode == Base ==> s.left == 0) && (s.mode == LeftBuf ==> s.left <= |s.buf|)
  }

  /** A bad packet is met while bytes of an earlier, split payload are still counted as left over. */
  predicate Spoils(s: Reader, room: nat) {
    s.mode == Buf && s.left > 0 && Poll(s, room).1.BadPacket?
  }

  lemma HandIsClean(s: Reader, b: seq<byte>, len: nat, ad: Addr, room: nat)
    requires |b| >= len
    ensures Clean(Hand(s, b, len, ad, room).0)
  {
  }

  lemma BufIsClean(s: Reader, room: nat)
    requires s.mode == Buf
    ensures Clean(PollBuf(s, room).0) <==> !(s.left > 0 && PollBuf(s, room).1.BadPacket?)
  {
    var d := Decode(s.buf);
    if d.result.Ok? && |d.rest| >= 4 && |d.rest| - 4 >= FromBe16(d.rest) {
      HandIsClean(s, d.rest[2..][2..], FromBe16(d.rest), d.result.value.(network := UDP), room);
    }
  }

  /** Over all base reads, one poll keeps the reader clean if and only if it does not spoil it. */
  lemma StaysCleanExactly(s: Reader, room: nat)
    requires Clean(s)
    ensures Clean(Poll(s, room).0) <==> !Spoils(s, room)
  {
    match s.mode {
      case Buf => BufIsClean(s, room);
      case LeftBuf =>
      case Base =>
        if s.base != [] && s.base[0].Filled? && s.base[0].data != [] {
          BufIsClean(s.(base := s.base[1..], buf := s.base[0].data, mode := Buf), room);
        }
    }
  }

  /** The reader after polls with these rooms; a panic ends the task. */
  function After(s: Reader, rooms: seq<nat>): Reader
    decreases |rooms|
  {
    if rooms == [] || Poll(s, rooms[0]).1.Panicked? then s else After(Poll(s, rooms[0]).0, rooms[1..])
  }

  predicate SpoiltIn(s: Reader, rooms: seq<nat>)
    decreases |rooms|
  {
    && rooms != [] && !Poll(s, rooms[0]).1.Panicked?
    && (Spoils(s, rooms[0]) || SpoiltIn(Poll(s, rooms[0]).0, rooms[1..]))
  }

  /** The reader is clean before each of the polls and after the last. */
  predicate AlwaysClean(s: Reader, rooms: seq<nat>)
    decreases |rooms|
  {
    && Clean(s)
    && (rooms == [] || Poll(s, rooms[0]).1.Panicked? || AlwaysClean(Poll(s, rooms[0]).0, rooms[1..]))
  }

  /**
   * Over all base reads: the buffer covers what is left over throughout a run, so that the branch
   * for a shorter buffer is never taken, if and only if no bad packet comes after a split payload.
   */
  lemma {:induction false} BufferCoversLeft(s: Reader, rooms: seq<nat>)
    requires Clean(s)
    ensures AlwaysClean(s, rooms) <==> !SpoiltIn(s, rooms)
    decreases |rooms|
  {
    if rooms != [] && !Poll(s, rooms[0]).1.Panicked? {
      StaysCleanExactly(s, rooms[0]);
      if !Spoils(s, rooms[0]) {
        BufferCoversLeft(Poll(s, rooms[0]).0, rooms[1..]);
      }
    }
  }

  /** After a bad packet the reader is as good as new if and only if nothing counted as left over. */
  lemma BadPacketLeavesNew(s: Reader, room: nat)
    requires s.mode == Buf && Poll(s, room).1.BadPacket?
    ensures Holds(Poll(s, room).0, []) <==> s.left == 0
  {
  }

  /**
   * A spoilt reader takes the next base read for payload of the old address; as long as reads
   * are shorter than what it counts as left over, it stays so.
   */
  lemma SpoiltTakesAnything(s: Reader, data: seq<byte>, room: nat)
    requires s.mode == Base && s.base != [] && s.base[0] == Filled(data) && 0 < |data| < s.left && |data| < room
    ensures Poll(s, room) == (s.(buf := [], base := s.base[1..]), Got(data, s.oldAddr))
  {
    assert data[..|data|] == data && data[|data|..] == [];
  }

  /** A run that gets there: a payload read in two parts, seven bytes of no packet, then any one byte. */
  lemma StaleLeftover(a: Addr, data: seq<byte>, x: byte, s: Reader)
    requires Sendable(a) && |data| == 5 && s.mode == Base && s.left == 0
    requires s.base == [Filled(EncodePacket(Item(a, data)) + seq(7, _ => 9)), Filled([x])]
    ensures ReadMany(s, [2, 10, 10, 10])
         == [Got(data[..2], Udp(a)), Got(data[2..], Udp(a)), BadPacket, Got([x], Udp(a))]
    ensures After(s, [2, 10, 10, 10]).left == 3
  {
    var junk: seq<byte> := seq(7, _ => 9);
    var p, b := Item(a, data), data + junk;
    var t := s.(mode := Buf, buf := EncodePacket(p) + junk, base := s.base[1..]);
    PacketParses(p, junk);
    assert Poll(s, 2) == PollBuf(t, 2) == Hand(t, b, 5, Udp(a), 2);
    var s1 := t.(mode := LeftBuf, left := 3, oldAddr := Udp(a), buf := data[2..] + junk);
    assert b[2..] == s1.buf && b[..2] == data[..2];
    var s2 := s1.(mode := Buf, buf := junk);
    var s3 := s2.(mode := Base, buf := []);
    RestThenJunk(s1, data[2..], junk);
    SpoiltTakesAnything(s3, [x], 10);
    FourReads(s, s1, s2, s3);
  }

  /** The rest of a payload and then no packet: the count of what is left over stays. */
  lemma RestThenJunk(s: Reader, rest: seq<byte>, junk: seq<byte>)
    requires s.mode == LeftBuf && s.left == |rest| == 3 && s.buf == rest + junk && junk == seq(7, _ => 9)
    ensures var t := s.(mode := Buf, buf := junk);
            Poll(s, 10) == (t, Got(rest, s.oldAddr)) && Poll(t, 10) == (t.(mode := Base, buf := []), BadPacket)
  {
    assert s.buf[..3] == rest && s.buf[3..] == junk;
  }

  lemma FourReads(s: Reader, s1: Reader, s2: Reader, s3: Reader)
    requires s1 == Poll(s, 2).0 && s2 == Poll(s1, 10).0 && s3 == Poll(s2, 10).0
    requires !Poll(s, 2).1.Panicked? && !Poll(s1, 10).1.Panicked?
    requires !Poll(s2, 10).1.Panicked? && !Poll(s3, 10).1.Panicked?
    ensures ReadMany(s, [2, 10, 10, 10]) == [Poll(s, 2).1, Poll(s1, 10).1, Poll(s2, 10).1, Poll(s3, 10).1]
    ensures After(s, [2, 10, 10, 10]) == Poll(s3, 10).0
  {
    ReadOne(s, 2, [10, 10, 10]);
    ReadOne(s1, 10, [10, 10]);
    ReadOne(s2, 10, [10]);
    ReadOne(s3, 10, []);
  }

  lemma ReadOne(s: Reader, room: nat, rooms: seq<nat>)
    requires !Poll(s, room).1.Panicked?
    ensures ReadMany(s, [room] + rooms) == [Poll(s, room).1] + ReadMany(Poll(s, room).0, rooms)
    ensures After(s, [room] + rooms) == After(Poll(s, room).0, rooms)
  {
    assert ([room] + rooms)[1..] == rooms;
  }

  /** A reader without the quirks: a short caller buffer cuts the first packet, a longer one takes it whole. */
  function Ideal(pend: seq<Item>, room: nat): (Item, seq<Item>)
    requires pend != []
  {
    var p := pend[0];
    if room < |p.data| then
      (Item(Udp(p.addr), p.data[..room]), [Item(p.addr, p.data[room..])] + pend[1..])
    else
      (Item(Udp(p.addr), p.data), pend[1..])
  }

  /** The caller buffer is exactly as long as the payload while another packet is buffered behind it. */
  predicate ExactFit(pend: seq<Item>, room: nat)
    requires pend != []
  {
    room == |pend[0].data| && |pend| > 1
  }

  lemma PacketParses(p: Item, more: seq<byte>)
    requires Fits(p)
    ensures var d := Decode(EncodePacket(p) + more);
            d.result == Ok(Canonical(p.addr)) && |d.rest| >= 4 && FromBe16(d.rest) == |p.data|
            && FromBe16(d.rest[2..]) == CRLF && d.rest[2..][2..] == p.data + more
  {
    var tail := Be16(|p.data|) + (Be16(CRLF) + (p.data + more));
    assert EncodePacket(p) + more == Encode(p.addr) + tail;
    RoundTrip(p.addr, tail);
    Be16RoundTrip(|p.data|, Be16(CRLF) + (p.data + more));
    Be16RoundTrip(CRLF, p.data + more);
  }

  lemma ConsPackets(pend: seq<Item>)
    requires pend != []
    ensures EncodePackets(pend) == EncodePacket(pend[0]) + EncodePackets(pend[1..])
    ensures |pend| > 1 <==> EncodePackets(pend[1..]) != []
  {
    if |pend| > 1 {
      assert |EncodePacket(pend[1])| > 0;
    }
  }

  /**
   * One poll on buffered packets hands out what the ideal reader would; what stays behind is
   * what the ideal reader keeps if and only if the caller buffer was no exact fit.
   */
  lemma PollIsIdeal(s: Reader, pend: seq<Item>, room: nat)
    requires Holds(s, pend) && pend != []
    ensures Poll(s, room).1 == Got(Ideal(pend, room).0.data, Ideal(pend, room).0.addr)
    ensures Holds(Poll(s, room).0, Ideal(pend, room).1) <==> !ExactFit(pend, room)
    ensures ExactFit(pend, room) ==> Holds(Poll(s, room).0, [])
    ensures Poll(s, room).0.base == s.base
  {
    var p, more := pend[0], EncodePackets(pend[1..]);
    ConsPackets(pend);
    if s.mode == Buf {
      PacketParses(p, more);
    }
    if s.mode == LeftBuf {
      LeftIsIdeal(s, pend, room);
    } else {
      HandIsIdeal(s, pend, room);
    }
  }

  lemma HandIsIdeal(s: Reader, pend: seq<Item>, room: nat)
    requires pend != [] && AllFit(pend)
    ensures var b, len := pend[0].data + EncodePackets(pend[1..]), |pend[0].data|;
            var (t, out) := Hand(s, b, len, Udp(pend[0].addr), room);
            && out == Got(Ideal(pend, room).0.data, Ideal(pend, room).0.addr)
            && (Holds(t, Ideal(pend, room).1) <==> !ExactFit(pend, room))
            && (ExactFit(pend, room) ==> Holds(t, []))
            && t.base == s.base
  {
    var p, more := pend[0], EncodePackets(pend[1..]);
    var b := p.data + more;
    ConsPackets(pend);
    assert b[..|p.data|] == p.data && b[|p.data|..] == more;
    if room < |p.data| {
      assert b[..room] == p.data[..room] && b[room..] == p.data[room..] + more;
      assert ([Item(p.addr, p.data[room..])] + pend[1..])[1..] == pend[1..];
    }
  }

  lemma LeftIsIdeal(s: Reader, pend: seq<Item>, room: nat)
    requires Holds(s, pend) && s.mode == LeftBuf
    ensures var (t, out) := PollLeft(s, room);
            && out == Got(Ideal(pend, room).0.data, Ideal(pend, room).0.addr)
            && (Holds(t, Ideal(pend, room).1) <==> !ExactFit(pend, room))
            && (ExactFit(pend, room) ==> Holds(t, []))
            && t.base == s.base
  {
    var p, more := pend[0], EncodePackets(pend[1..]);
    ConsPackets(pend);
    assert s.buf[..|p.data|] == p.data && s.buf[|p.data|..] == more;
    if room < |p.data| {
      assert s.buf[..room] == p.data[..room] && s.buf[room..] == p.data[room..] + more;
      assert ([Item(p.addr, p.data[room..])] + pend[1..])[1..] == pend[1..];
    }
  }

  /** Each read of the base carries whole packets. */
  predicate Feeds(base: seq<BaseRead>, batches: seq<seq<Item>>) {
    && |base| == |batches|
    && forall i :: 0 <= i < |base| ==>
         batches[i] != [] && AllFit(batches[i]) && base[i] == Filled(EncodePackets(batches[i]))
  }

  function Flatten(batches: seq<seq<Item>>): seq<Item> {
    if batches == [] then [] else batches[0] + Flatten(batches[1..])
  }

  /** No caller buffer of the run is an exact fit for a packet with another one buffered behind it. */
  predicate NeverExactFit(pend: seq<Item>, batches: seq<seq<Item>>, rooms: seq<nat>)
    decreases |rooms|, |batches|
  {
    if rooms == [] then true
    else if pend == [] then batches == [] || (batches[0] != [] && NeverExactFit(batches[0], batches[1..], rooms))
    else !ExactFit(pend, rooms[0]) && NeverExactFit(Ideal(pend, rooms[0]).1, batches, rooms[1..])
  }

  /** The results of reads with these caller buffers, one after the other. */
  function ReadMany(s: Reader, rooms: seq<nat>): seq<ReadPoll>
    decreases |rooms|
  {
    if rooms == [] then [] else [Poll(s, rooms[0]).1] + ReadMany(Poll(s, rooms[0]).0, rooms[1..])
  }

  /** What the ideal reader hands out for these caller buffers, and what it has left. */
  function IdealMany(all: seq<Item>, rooms: seq<nat>): (seq<Item>, seq<Item>)
    decreases |rooms|
  {
    if rooms == [] || all == [] then ([], all)
    else
      var (out, all1) := Ideal(all, rooms[0]);
      var (outs, rest) := IdealMany(all1, rooms[1..]);
      ([out] + outs, rest)
  }

  function AsPolls(outs: seq<Item>, n: nat): seq<ReadPoll>
    decreases n
  {
    if n == 0 then []
    else if outs == [] then [ReadPending] + AsPolls([], n - 1)
    else [Got(outs[0].data, outs[0].addr)] + AsPolls(outs[1..], n - 1)
  }

  lemma LoadBatch(s: Reader, batches: seq<seq<Item>>, room: nat)
    requires s.mode == Base && s.left == 0 && Feeds(s.base, batches) && batches != []
    ensures var t := s.(mode := Buf, buf := EncodePackets(batches[0]), base := s.base[1..]);
            Holds(t, batches[0]) && Feeds(t.base, batches[1..]) && Poll(s, room) == Poll(t, room)
  {
    ConsPackets(batches[0]);
    assert |EncodePacket(batches[0][0])| > 0;
  }

  lemma IdealOfPrefix(pend: seq<Item>, more: seq<Item>, room: nat)
    requires pend != []
    ensures Ideal(pend + more, room) == (Ideal(pend, room).0, Ideal(pend, room).1 + more)
  {
    assert (pend + more)[1..] == pend[1..] + more;
    var p := pend[0];
    if room < |p.data| {
      var head := [Item(p.addr, p.data[room..])];
      assert head + (pend[1..] + more) == head + pend[1..] + more;
    }
  }

  lemma IdealManyStep(all: seq<Item>, rooms: seq<nat>)
    requires all != [] && rooms != []
    ensures var (out, all1) := Ideal(all, rooms[0]);
            AsPolls(IdealMany(all, rooms).0, |rooms|)
            == [Got(out.data, out.addr)] + AsPolls(IdealMany(all1, rooms[1..]).0, |rooms| - 1)
  {
    var (out, all1) := Ideal(all, rooms[0]);
    var outs := IdealMany(all1, rooms[1..]).0;
    assert ([out] + outs)[1..] == outs;
  }

  lemma FirstReadIsIdeal(s: Reader, pend: seq<Item>, batches: seq<seq<Item>>, rooms: seq<nat>)
    requires pend != [] && rooms != []
    requires var (out, pend1) := Ideal(pend, rooms[0]);
             && Poll(s, rooms[0]).1 == Got(out.data, out.addr)
             && ReadMany(Poll(s, rooms[0]).0, rooms[1..])
             == AsPolls(IdealMany(pend1 + Flatten(batches), rooms[1..]).0, |rooms| - 1)
    ensures ReadMany(s, rooms) == AsPolls(IdealMany(pend + Flatten(batches), rooms).0, |rooms|)
  {
    IdealOfPrefix(pend, Flatten(batches), rooms[0]);
    IdealManyStep(pend + Flatten(batches), rooms);
  }

  lemma SameFirstPoll(s: Reader, t: Reader, rooms: seq<nat>)
    requires rooms != [] && Poll(s, rooms[0]) == Poll(t, rooms[0])
    ensures ReadMany(s, rooms) == ReadMany(t, rooms)
  {
  }

  /** A read from buffered packets leaves everything ready for the reads after it. */
  lemma PendNext(s: Reader, pend: seq<Item>, batches: seq<seq<Item>>, rooms: seq<nat>)
    requires Holds(s, pend) && Feeds(s.base, batches) && NeverExactFit(pend, batches, rooms)
    requires pend != [] && rooms != []
    ensures var t, (out, pend1) := Poll(s, rooms[0]).0, Ideal(pend, rooms[0]);
            && Holds(t, pend1) && Feeds(t.base, batches) && NeverExactFit(pend1, batches, rooms[1..])
            && Poll(s, rooms[0]).1 == Got(out.data, out.addr)
  {
    PollIsIdeal(s, pend, rooms[0]);
  }

  /** `t` is `s` once the next batch is read. */
  lemma LoadedIsIdeal(s: Reader, t: Reader, batches: seq<seq<Item>>, rooms: seq<nat>)
    requires batches != [] && rooms != [] && Poll(s, rooms[0]) == Poll(t, rooms[0])
    requires ReadMany(t, rooms) == AsPolls(IdealMany(batches[0] + Flatten(batches[1..]), rooms).0, |rooms|)
    ensures ReadMany(s, rooms) == AsPolls(IdealMany([] + Flatten(batches), rooms).0, |rooms|)
  {
    SameFirstPoll(s, t, rooms);
    assert [] + Flatten(batches) == batches[0] + Flatten(batches[1..]);
  }

  lemma NothingIsIdeal(s: Reader, rooms: seq<nat>)
    requires Holds(s, []) && Feeds(s.base, []) && rooms != []
    requires ReadMany(s, rooms[1..]) == AsPolls(IdealMany([] + Flatten([]), rooms[1..]).0, |rooms| - 1)
    ensures ReadMany(s, rooms) == AsPolls(IdealMany([] + Flatten([]), rooms).0, |rooms|)
  {
    assert [] + Flatten([]) == [];
    assert Poll(s, rooms[0]) == (s, ReadPending);
  }

  /**
   * A whole run of reads yields what the ideal reader yields on the flattened packet list, and
   * is only ever pending once that list is used up, provided no caller buffer is an exact fit.
   */
  lemma {:induction false} RunIsIdeal(s: Reader, pend: seq<Item>, batches: seq<seq<Item>>, rooms: seq<nat>)
    requires Holds(s, pend) && Feeds(s.base, batches) && NeverExactFit(pend, batches, rooms)
    ensures ReadMany(s, rooms) == AsPolls(IdealMany(pend + Flatten(batches), rooms).0, |rooms|)
    decreases |rooms|, |batches|, 1
  {
    if rooms != [] {
      if pend != [] {
        RunFromBuffer(s, pend, batches, rooms);
      } else if batches != [] {
        RunFromBatch(s, batches, rooms);
      } else {
        RunIsIdeal(s, [], [], rooms[1..]);
        NothingIsIdeal(s, rooms);
      }
    }
  }

  lemma {:induction false} RunFromBuffer(s: Reader, pend: seq<Item>, batches: seq<seq<Item>>, rooms: seq<nat>)
    requires Holds(s, pend) && Feeds(s.base, batches) && NeverExactFit(pend, batches, rooms)
    requires pend != [] && rooms != []
    ensures ReadMany(s, rooms) == AsPolls(IdealMany(pend + Flatten(batches), rooms).0, |rooms|)
    decreases |rooms|, |batches|, 0
  {
    PendNext(s, pend, batches, rooms);
    RunIsIdeal(Poll(s, rooms[0]).0, Ideal(pend, rooms[0]).1, batches, rooms[1..]);
    FirstReadIsIdeal(s, pend, batches, rooms);
  }

  lemma {:induction false} RunFromBatch(s: Reader, batches: seq<seq<Item>>, rooms: seq<nat>)
    requires Holds(s, []) && Feeds(s.base, batches) && NeverExactFit([], batches, rooms)
    requires batches != [] && rooms != []
    ensures ReadMany(s, rooms) == AsPolls(IdealMany([] + Flatten(batches), rooms).0, |rooms|)
    decreases |rooms|, |batches|, 0
  {
    var t := s.(mode := Buf, buf := EncodePackets(batches[0]), base := s.base[1..]);
    LoadBatch(s, batches, rooms[0]);
    RunIsIdeal(t, batches[0], batches[1..], rooms);
    LoadedIsIdeal(s, t, batches, rooms);
  }

  function Join(ps: seq<Item>): seq<byte> {
    if ps == [] then [] else ps[0].data + Join(ps[1..])
  }

  /** `outs` are the packets of `items` in order, each cut into one or more consecutive pieces. */
  predicate Pieces(outs: seq<Item>, items: seq<Item>)
    decreases |items|, 1
  {
    if items == [] then outs == [] else exists k :: 1 <= k <= |outs| && SplitsAt(outs, items, k)
  }

  /** The first `k` of `outs` are the pieces of the first packet. */
  predicate SplitsAt(outs: seq<Item>, items: seq<Item>, k: nat)
    requires items != [] && 1 <= k <= |outs|
    decreases |items|, 0
  {
    PieceOf(outs[..k], items[0]) && Pieces(outs[k..], items[1..])
  }

  /** These pieces all carry the packet's address and concatenate to its payload. */
  predicate PieceOf(outs: seq<Item>, p: Item) {
    (forall o :: o in outs ==> o.addr == Udp(p.addr)) && Join(outs) == p.data
  }

  function Reported(ps: seq<Item>): (r: seq<Item>)
    ensures |r| == |ps|
  {
    if ps == [] then [] else [Item(Udp(ps[0].addr), ps[0].data)] + Reported(ps[1..])
  }

  lemma PieceCons(o: Item, outs: seq<Item>, p: Item, n: nat)
    requires n <= |p.data| && o == Item(Udp(p.addr), p.data[..n])
    requires PieceOf(outs, Item(p.addr, p.data[n..]))
    ensures PieceOf([o] + outs, p)
  {
    assert ([o] + outs)[1..] == outs;
    assert Join([o] + outs) == p.data[..n] + p.data[n..];
  }

  lemma PiecesJoin(first: seq<Item>, rest: seq<Item>, items: seq<Item>)
    requires items != [] && first != [] && PieceOf(first, items[0]) && Pieces(rest, items[1..])
    ensures Pieces(first + rest, items)
  {
    assert (first + rest)[..|first|] == first && (first + rest)[|first|..] == rest;
    assert SplitsAt(first + rest, items, |first|);
  }

  lemma OnePiece(o: Item, p: Item)
    requires o == Item(Udp(p.addr), p.data)
    ensures PieceOf([o], p)
  {
    assert [o][1..] == [];
  }

  lemma {:induction false} WholePieces(all: seq<Item>)
    ensures Pieces(Reported(all), all)
  {
    if all != [] {
      var got := Reported(all);
      WholePieces(all[1..]);
      assert got[1..] == Reported(all[1..]);
      OnePiece(got[0], all[0]);
      PiecesJoin([got[0]], got[1..], all);
      assert got == [got[0]] + got[1..];
    }
  }

  /** Everything the ideal reader hands out, then what it has left, are the packets cut into pieces. */
  lemma {:induction false} IdealCutsIntoPieces(all: seq<Item>, rooms: seq<nat>)
    ensures Pieces(IdealMany(all, rooms).0 + Reported(IdealMany(all, rooms).1), all)
    decreases |rooms|
  {
    var (outs, rest) := IdealMany(all, rooms);
    if rooms == [] || all == [] {
      WholePieces(all);
      assert outs + Reported(rest) == Reported(all);
    } else {
      var (out, all1) := Ideal(all, rooms[0]);
      IdealCutsIntoPieces(all1, rooms[1..]);
      var tail := IdealMany(all1, rooms[1..]).0 + Reported(rest);
      assert outs + Reported(rest) == [out] + tail;
      assert ([out] + tail)[1..] == tail;
      FirstCut([out] + tail, all, rooms[0]);
    }
  }

  lemma FirstCut(got: seq<Item>, all: seq<Item>, room: nat)
    requires all != [] && got != [] && got[0] == Ideal(all, room).0 && Pieces(got[1..], Ideal(all, room).1)
    ensures Pieces(got, all)
  {
    if room < |all[0].data| {
      FirstPiece(got, all, room);
    } else {
      OnePiece(got[0], all[0]);
      PiecesJoin([got[0]], got[1..], all);
      assert got == [got[0]] + got[1..];
    }
  }

  /** A packet cut short is the first piece and the pieces of what is left of it. */
  lemma FirstPiece(got: seq<Item>, all: seq<Item>, room: nat)
    requires all != [] && got != [] && room < |all[0].data|
    requires got[0] == Ideal(all, room).0 && Pieces(got[1..], Ideal(all, room).1)
    ensures Pieces(got, all)
  {
    var tail, all1 := got[1..], Ideal(all, room).1;
    assert all1[1..] == all[1..];
    var k :| 1 <= k <= |tail| && SplitsAt(tail, all1, k);
    PiecesGrow(got, all, room, k);
  }

  lemma PiecesGrow(got: seq<Item>, all: seq<Item>, room: nat, k: nat)
    requires all != [] && got != [] && room < |all[0].data| && 1 <= k < |got|
    requires got[0] == Item(Udp(all[0].addr), all[0].data[..room])
    requires PieceOf(got[1..][..k], Item(all[0].addr, all[0].data[room..])) && Pieces(got[1..][k..], all[1..])
    ensures Pieces(got, all)
  {
    PieceCons(got[0], got[1..][..k], all[0], room);
    PiecesJoin([got[0]] + got[1..][..k], got[1..][k..], all);
    InThree(got, k);
  }

  lemma InThree(got: seq<Item>, k: nat)
    requires k < |got|
    ensures got == [got[0]] + got[1..][..k] + got[1..][k..]
  {
  }

  /** An exact fit really loses packets: here two arrive together and the second is never seen. */
  lemma ExactFitLosesPackets(a: Addr, x: byte, y: byte, s: Reader)
    requires Sendable(a) && s.mode == Base && s.left == 0
    requires s.base == [Filled(EncodePackets([Item(a, [x]), Item(a, [y])]))]
    ensures ReadMany(s, [1, 1]) == [Got([x], Udp(a)), ReadPending]
  {
    var ps := [Item(a, [x]), Item(a, [y])];
    assert Feeds(s.base, [ps]);
    LoadBatch(s, [ps], 1);
    var t := s.(mode := Buf, buf := EncodePackets(ps), base := []);
    PollIsIdeal(t, ps, 1);
    assert Poll(t, 1).0.mode == Base;
    assert ReadMany(s, [1, 1]) == [Poll(s, 1).1] + ReadMany(Poll(s, 1).0, [1]);
  }

  /** The bytes the next poll parses as a packet, if it parses any. */
  function ToParse(s: Reader): Option<seq<byte>> {
    match s.mode
    case Buf => Some(s.buf)
    case LeftBuf => None
    case Base =>
      if s.base != [] && s.base[0].Filled? && s.base[0].data != [] && s.left == 0 then Some(s.base[0].data) else None
  }

  /** A poll panics if and only if the bytes it parses end right behind a length field, or one byte later. */
  lemma PanicsExactly(s: Reader, room: nat)
    ensures Poll(s, room).1.Panicked? <==>
      var b := ToParse(s); b.Some? && Decode(b.value).result.Ok? && 2 <= |Decode(b.value).rest| < 4
  {
    if ToParse(s).Some? {
      BufPanics(s.(mode := Buf, buf := ToParse(s).value), room);
    }
  }

  lemma BufPanics(s: Reader, room: nat)
    ensures PollBuf(s, room).1.Panicked? <==> Decode(s.buf).result.Ok? && 2 <= |Decode(s.buf).rest| < 4
  {
  }

  /** The bytes begin with this packet, whole. */
  predicate Begins(b: seq<byte>, p: Item) {
    Fits(p) && EncodePacket(p) <= b
  }

  lemma WholeIsHanded(s: Reader, room: nat, p: Item)
    requires Begins(s.buf, p)
    ensures PollBuf(s, room) == Hand(s, s.buf[|EncodePacket(p)| - |p.data|..], |p.data|, Udp(p.addr), room)
    ensures PollBuf(s, room).1 == Got(p.data[..Min(|p.data|, room)], Udp(p.addr))
  {
    var more := s.buf[|EncodePacket(p)|..];
    assert s.buf == EncodePacket(p) + more;
    PacketParses(p, more);
    var b := p.data + more;
    assert s.buf[|EncodePacket(p)| - |p.data|..] == b;
    assert b[..Min(|p.data|, room)] == p.data[..Min(|p.data|, room)];
  }

  /** Whatever is handed out of a buffer is the front of a packet that the buffer begins with. */
  lemma HandedIsWhole(s: Reader, room: nat) returns (p: Item)
    requires PollBuf(s, room).1.Got?
    ensures Begins(s.buf, p)
  {
    var d := Decode(s.buf);
    DecodeIsOnto(s.buf);
    var len := FromBe16(d.rest);
    p := Item(d.result.value, d.rest[4..4 + len]);
    BehindAddress(Encode(p.addr), d.rest, len);
    assert s.buf == EncodePacket(p) + d.rest[4 + len..];
  }

  lemma BehindAddress(address: seq<byte>, rest: seq<byte>, len: nat)
    requires |rest| >= 4 + len && FromBe16(rest) == len && FromBe16(rest[2..]) == CRLF
    ensures address + rest == address + Be16(len) + Be16(CRLF) + rest[4..4 + len] + rest[4 + len..]
  {
    Be16Onto(rest);
    Be16Onto(rest[2..]);
    assert rest == rest[..2] + rest[2..][..2] + rest[4..4 + len] + rest[4 + len..];
  }

  /**
   * Over all bytes: parsing hands out the front of a packet, as far as the caller buffer goes and
   * under the packet's address, if and only if the bytes begin with a whole packet; if they do not
   * and are not so short that it panics, all of them are thrown away as a bad packet.
   */
  lemma ParsingExactly(s: Reader, room: nat)
    ensures PollBuf(s, room).1.Got? <==> exists p :: Begins(s.buf, p)
    ensures forall p :: Begins(s.buf, p) ==>
              PollBuf(s, room).1 == Got(p.data[..Min(|p.data|, room)], Canonical(p.addr).(network := UDP))
    ensures !PollBuf(s, room).1.Got? && !PollBuf(s, room).1.Panicked? ==>
              PollBuf(s, room) == (s.(buf := [], mode := Base), BadPacket)
  {
    forall p | Begins(s.buf, p)
      ensures PollBuf(s, room).1 == Got(p.data[..Min(|p.data|, room)], Canonical(p.addr).(network := UDP))
    {
      WholeIsHanded(s, room, p);
    }
    if PollBuf(s, room).1.Got? {
      var _ := HandedIsWhole(s, room);
    }
  }

  /** In every state, what the base answers decides every outcome that is not about packets. */
  lemma BaseDecides(s: Reader, room: nat)
    ensures var (t, out) := Poll(s, room);
            var asks := s.mode == Base;
            && (out.ReadPending? <==> asks && s.base == [])
            && (out.BaseError? <==> asks && s.base != [] && s.base[0] == BaseFailed)
            && (out.BrokenPipe? <==> asks && s.base != [] && s.base[0] == Filled([]))
            && (out.ReadPending? ==> t == s)
            && (out.BaseError? || out.BrokenPipe? ==> t == s.(base := s.base[1..]))
            && t.base == if asks && s.base != [] then s.base[1..] else s.base
  {
  }

  /** In every state, a poll with bytes left over hands out the next ones under the old address. */
  lemma LeftOverExactly(s: Reader, room: nat)
    requires s.mode == LeftBuf || (s.mode == Base && s.base != [] && s.base[0].Filled? && s.left > 0)
    requires s.mode == Base ==> s.base[0].data != []
    ensures var (t, out) := Poll(s, room);
            var buf := if s.mode == LeftBuf then s.buf else s.base[0].data;
            && out == Got(buf[..Min(s.left, Min(room, |buf|))], s.oldAddr)
            && (room < s.left && room < |buf| ==>
                  t.mode == LeftBuf && t.left == s.left - room && t.buf == buf[room..] && t.oldAddr == s.oldAddr)
            && (s.left < |buf| && s.left < room ==> t.mode == Buf && t.buf == buf[s.left..])
            && (s.left == |buf| <= room || s.left == room <= |buf| || room == |buf| < s.left ==>
                  t.mode == Base && t.left == 0)
            && (|buf| < s.left && |buf| < room ==> t.mode == Base && t.left == s.left && t.oldAddr == s.oldAddr)
  {
  }
}
