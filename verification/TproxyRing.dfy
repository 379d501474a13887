/** The two buffers a receiving thread fills in turn while a consumer copies slices out of them. */
module TproxyRing {
  import opened Bytes

  const MAX_DATAGRAM_SIZE: nat := 65535 - 20 - 8
  const MTU: nat := 1500

  /** A lap fills one buffer; it ends once fewer than `MTU` bytes are left, so at this offset or later. */
  const LAP: nat := MAX_DATAGRAM_SIZE - MTU + 1

  /** How many slices the consumer may be behind. */
  const SAFE_BACKLOG: nat := 84

  /** How many slices the channel to the consumer holds. */
  const CHANNEL_CAP: nat := 4096

  /** Where a datagram goes: how many laps were completed before it, and its left bound. */
  datatype Spot = Spot(lap: nat, left: nat)

  /** The spot behind a datagram of `n` bytes. */
  function After(s: Spot, n: nat): Spot {
    if s.left + n + MTU > MAX_DATAGRAM_SIZE then Spot(s.lap + 1, 0) else Spot(s.lap, s.left + n)
  }

  predicate Sized(history: seq<seq<byte>>) {
    forall i :: 0 <= i < |history| ==> 1 <= |history[i]| <= MTU
  }

  /** Where datagram `i` of the history goes; for `i == |history|`, where the next one goes. */
  function SpotOf(history: seq<seq<byte>>, i: nat): Spot
    requires i <= |history|
  {
    if i == 0 then Spot(0, 0) else After(SpotOf(history, i - 1), |history[i - 1]|)
  }

  /** How far the receiver has come when every lap counts for `LAP` bytes. */
  function Distance(s: Spot): nat {
    s.lap * LAP + s.left
  }

  /** Every receive window lies inside its buffer. */
  lemma {:induction false} WindowInBounds(history: seq<seq<byte>>, i: nat)
    requires i <= |history|
    ensures SpotOf(history, i).left + MTU <= MAX_DATAGRAM_SIZE
  {
    if i > 0 {
      WindowInBounds(history, i - 1);
    }
  }

  /** A lap is left behind only after at least `LAP` bytes were published in it. */
  lemma LapIsFull(history: seq<seq<byte>>, i: nat)
    requires i < |history| && Sized(history)
    ensures SpotOf(history, i + 1).lap != SpotOf(history, i).lap ==>
      LAP <= SpotOf(history, i).left + |history[i]| <= MAX_DATAGRAM_SIZE
  {
    WindowInBounds(history, i);
  }

  /** One datagram advances the receiver by at most its own length, also across the end of a lap. */
  lemma {:induction false} AtMostMtuEach(history: seq<seq<byte>>, i: nat, j: nat)
    requires i <= j <= |history| && Sized(history)
    ensures Distance(SpotOf(history, j)) <= Distance(SpotOf(history, i)) + MTU * (j - i)
    ensures SpotOf(history, i).lap <= SpotOf(history, j).lap
    decreases j
  {
    if i < j {
      AtMostMtuEach(history, i, j - 1);
      var s := SpotOf(history, j - 1);
      LapStep(s, |history[j - 1]|);
    }
  }

  lemma LapStep(s: Spot, n: nat)
    requires n <= MTU
    ensures Distance(After(s, n)) <= Distance(s) + n
  {
  }

  /** Slices of one lap are disjoint and in order. */
  lemma {:induction false} SameLapDisjoint(history: seq<seq<byte>>, i: nat, j: nat)
    requires i < j <= |history| && Sized(history)
    requires SpotOf(history, i).lap == SpotOf(history, j).lap
    ensures SpotOf(history, i).left + |history[i]| <= SpotOf(history, j).left
    decreases j
  {
    AtMostMtuEach(history, i, j - 1);
    AtMostMtuEach(history, j - 1, j);
    if i < j - 1 {
      SameLapDisjoint(history, i, j - 1);
    }
  }

  /** The window of datagram `j` and the slice of datagram `i` share a byte of the same buffer. */
  predicate Clash(history: seq<seq<byte>>, i: nat, j: nat)
    requires i < |history| && j <= |history|
  {
    var si, sj := SpotOf(history, i), SpotOf(history, j);
    si.lap % 2 == sj.lap % 2 && sj.left < si.left + |history[i]| && si.left < sj.left + MTU
  }

  /** At least `SAFE_BACKLOG` datagrams are published between a slice and the first window over it. */
  lemma ClashIsFarApart(history: seq<seq<byte>>, i: nat, j: nat)
    requires i < j <= |history| && Sized(history) && Clash(history, i, j)
    ensures j - i > SAFE_BACKLOG
  {
    var si, sj := SpotOf(history, i), SpotOf(history, j);
    AtMostMtuEach(history, i, j);
    if si.lap == sj.lap {
      SameLapDisjoint(history, i, j);
    }
    assert sj.lap >= si.lap + 2;
    TwoLaps(si, sj);
  }

  lemma TwoLaps(a: Spot, b: Spot)
    requires b.lap >= a.lap + 2 && a.left < b.left + MTU
    ensures Distance(b) - Distance(a) > 2 * LAP - MTU
  {
    assert b.lap * LAP >= (a.lap + 2) * LAP;
  }

  /** Full-size datagrams within one lap lie one behind the other. */
  lemma {:induction false} Straight(history: seq<seq<byte>>, i: nat, j: nat)
    requires i <= j <= |history|
    requires forall k :: i <= k < j ==> |history[k]| == MTU
    requires SpotOf(history, i).left + MTU * (j - i) + MTU <= MAX_DATAGRAM_SIZE
    ensures SpotOf(history, j) == Spot(SpotOf(history, i).lap, SpotOf(history, i).left + MTU * (j - i))
    decreases j
  {
    if i < j {
      Straight(history, i, j - 1);
    }
  }

  /** The bound is tight: a window can reach a slice with exactly `SAFE_BACKLOG` datagrams in between. */
  lemma SafeBacklogIsTight(history: seq<seq<byte>>)
    requires |history| == 86 && |history[0]| == MTU - 1 && forall k :: 1 <= k < 86 ==> |history[k]| == MTU
    ensures Sized(history) && Clash(history, 1, 1 + SAFE_BACKLOG + 1)
  {
    assert SpotOf(history, 1) == Spot(0, MTU - 1);
    Straight(history, 1, 42);
    assert SpotOf(history, 43) == Spot(1, 0);
    Straight(history, 43, 85);
    assert SpotOf(history, 86) == Spot(2, 0);
  }

  datatype Slot = Slot(bufIndex: nat, left: nat, right: nat)

  /** Contents of the two buffers, the next window, the channel, and every datagram published. */
  datatype State = State(
    bufs: seq<seq<byte>>,
    currentBuf: nat,
    leftBound: nat,
    queue: seq<Slot>,
    history: seq<seq<byte>>)

  function SlotOf(history: seq<seq<byte>>, i: nat): Slot
    requires i < |history|
  {
    var s := SpotOf(history, i);
    Slot(s.lap % 2, s.left, s.left + |history[i]|)
  }

  predicate TwoBuffers(bufs: seq<seq<byte>>) {
    |bufs| == 2 && |bufs[0]| == |bufs[1]| == MAX_DATAGRAM_SIZE
  }

  /** The bytes of datagram `i` still stand where they were received. */
  predicate Intact(bufs: seq<seq<byte>>, history: seq<seq<byte>>, i: nat)
    requires TwoBuffers(bufs) && i < |history|
  {
    var s := SlotOf(history, i);
    s.right <= MAX_DATAGRAM_SIZE && bufs[s.bufIndex][s.left..s.right] == history[i]
  }

  predicate AllIntact(bufs: seq<seq<byte>>, history: seq<seq<byte>>)
    requires TwoBuffers(bufs)
  {
    forall i {:trigger Intact(bufs, history, i)} ::
      0 <= i < |history| && |history| - i <= SAFE_BACKLOG ==> Intact(bufs, history, i)
  }

  predicate Queued(queue: seq<Slot>, history: seq<seq<byte>>) {
    |queue| <= |history|
    && forall k :: 0 <= k < |queue| ==> queue[k] == SlotOf(history, |history| - |queue| + k)
  }

  /** The window lies inside one of the two buffers. */
  predicate Placed(s: State) {
    TwoBuffers(s.bufs) && s.currentBuf < 2 && s.leftBound + MTU <= MAX_DATAGRAM_SIZE
  }

  predicate Inv(s: State) {
    && Placed(s) && Sized(s.history)
    && s.currentBuf == SpotOf(s.history, |s.history|).lap % 2
    && s.leftBound == SpotOf(s.history, |s.history|).left
    && Queued(s.queue, s.history)
    && AllIntact(s.bufs, s.history)
  }

  /** The buffers with `part` written from `left` on into buffer `b`. */
  function Written(bufs: seq<seq<byte>>, b: nat, left: nat, part: seq<byte>): (t: seq<seq<byte>>)
    requires TwoBuffers(bufs) && b < 2 && left + |part| <= MAX_DATAGRAM_SIZE
    ensures TwoBuffers(t) && t[1 - b] == bufs[1 - b] && t[b][left..left + |part|] == part
    ensures forall k :: 0 <= k < left || left + |part| <= k < MAX_DATAGRAM_SIZE ==> t[b][k] == bufs[b][k]
  {
    bufs[b := bufs[b][..left] + part + bufs[b][left + |part|..]]
  }

  /** What a consumer copies out for this slice. */
  function Slice(bufs: seq<seq<byte>>, s: Slot): seq<byte>
    requires TwoBuffers(bufs) && s.bufIndex < 2 && s.left <= s.right <= MAX_DATAGRAM_SIZE
  {
    bufs[s.bufIndex][s.left..s.right]
  }

  lemma {:induction false} SpotStays(history: seq<seq<byte>>, data: seq<byte>, i: nat)
    requires i <= |history|
    ensures SpotOf(history + [data], i) == SpotOf(history, i)
  {
    if i > 0 {
      SpotStays(history, data, i - 1);
    }
  }

  /** Writing into the window harms no slice that is at most `SAFE_BACKLOG` datagrams old. */
  lemma FillKeeps(s: State, part: seq<byte>, t: State)
    requires Inv(s) && |part| <= MTU
    requires t == s.(bufs := t.bufs) && TwoBuffers(t.bufs)
    requires forall b, k | 0 <= b < 2 && 0 <= k < MAX_DATAGRAM_SIZE ::
      (b == s.currentBuf && s.leftBound <= k < s.leftBound + |part|) || t.bufs[b][k] == s.bufs[b][k]
    ensures Inv(t)
  {
    forall i | 0 <= i < |s.history| && |s.history| - i <= SAFE_BACKLOG ensures Intact(t.bufs, s.history, i) {
      assert Intact(s.bufs, s.history, i);
      if Clash(s.history, i, |s.history|) {
        ClashIsFarApart(s.history, i, |s.history|);
      }
      var o := SlotOf(s.history, i);
      assert t.bufs[o.bufIndex][o.left..o.right] == s.bufs[o.bufIndex][o.left..o.right];
    }
  }

  /** The receiver after announcing `data`, which stands in the window, and moving on to the next window. */
  function Published(s: State, data: seq<byte>): State {
    var right := s.leftBound + |data|;
    var t := s.(queue := s.queue + [Slot(s.currentBuf, s.leftBound, right)], history := s.history + [data]);
    if right + MTU > MAX_DATAGRAM_SIZE then t.(leftBound := 0, currentBuf := if s.currentBuf == 0 then 1 else 0)
    else t.(leftBound := right)
  }

  /** One round: what is received goes into the window and, unless empty, through the channel if it has room. */
  function Received(s: State, data: seq<byte>, channelCap: nat): State
    requires Placed(s) && |data| <= MTU
  {
    var t := s.(bufs := Written(s.bufs, s.currentBuf, s.leftBound, data));
    if data != [] && |s.queue| < channelCap then Published(t, data) else t
  }

  /** Announcing what stands in the window and moving on to the next window keeps the invariant. */
  lemma PublishKeeps(s: State, data: seq<byte>, t: State)
    requires Inv(s) && 1 <= |data| <= MTU && s.leftBound + MTU <= MAX_DATAGRAM_SIZE
    requires s.bufs[s.currentBuf][s.leftBound..s.leftBound + |data|] == data
    requires t == Published(s, data)
    ensures Inv(t)
  {
    WindowInBounds(t.history, |t.history|);
    SpotStays(s.history, data, |s.history|);
    PublishQueued(s, data, t);
    forall i | 0 <= i < |t.history| && |t.history| - i <= SAFE_BACKLOG ensures Intact(t.bufs, t.history, i) {
      SpotStays(s.history, data, i);
      if i < |s.history| {
        assert Intact(s.bufs, s.history, i);
      }
    }
  }

  lemma PublishQueued(s: State, data: seq<byte>, t: State)
    requires Queued(s.queue, s.history) && t.history == s.history + [data]
    requires SlotOf(t.history, |s.history|) == Slot(s.currentBuf, s.leftBound, s.leftBound + |data|)
    requires t.queue == s.queue + [SlotOf(t.history, |s.history|)]
    ensures Queued(t.queue, t.history)
  {
    forall k | 0 <= k < |t.queue| ensures t.queue[k] == SlotOf(t.history, |t.history| - |t.queue| + k) {
      SpotStays(s.history, data, |t.history| - |t.queue| + k);
    }
  }

  lemma ReceivedKeeps(s: State, data: seq<byte>, channelCap: nat)
    requires Inv(s) && |data| <= MTU
    ensures Inv(Received(s, data, channelCap))
  {
    var t := s.(bufs := Written(s.bufs, s.currentBuf, s.leftBound, data));
    FillKeeps(s, data, t);
    if data != [] && |s.queue| < channelCap {
      PublishKeeps(t, data, Received(s, data, channelCap));
    }
  }

  function Initial(): State {
    State([seq(MAX_DATAGRAM_SIZE, _ => 0), seq(MAX_DATAGRAM_SIZE, _ => 0)], 0, 0, [], [])
  }

  /** One more datagram, for which the channel has room. */
  function NextReceived(s: State, d: seq<byte>): (t: State)
    requires Inv(s) && 1 <= |d| <= MTU && |s.queue| < CHANNEL_CAP
    ensures Inv(t) && t.history == s.history + [d] && |t.queue| == |s.queue| + 1
  {
    ReceivedKeeps(s, d, CHANNEL_CAP);
    Received(s, d, CHANNEL_CAP)
  }

  /** The state after these datagrams, of which the consumer has taken none. */
  function ReceivedAll(ds: seq<seq<byte>>): (s: State)
    requires Sized(ds) && |ds| <= CHANNEL_CAP
    ensures Inv(s) && s.history == ds && |s.queue| == |ds|
  {
    if ds == [] then Initial()
    else
      var n := |ds| - 1;
      assert ds[..n] + [ds[n]] == ds;
      NextReceived(ReceivedAll(ds[..n]), ds[n])
  }

  lemma QueueSlot(queue: seq<Slot>, ds: seq<seq<byte>>, i: nat)
    requires Sized(ds) && i < |ds| == |queue| && Queued(queue, ds)
    ensures queue[i] == SlotOf(ds, i) && SlotOf(ds, i).right <= MAX_DATAGRAM_SIZE
  {
    WindowInBounds(ds, i);
  }

  /** At position `k`, `part` written at `left` and `d` at `lo` do not differ. */
  predicate AgreesAt(left: nat, part: seq<byte>, lo: nat, d: seq<byte>, k: int) {
    lo <= k < lo + |d| && left <= k < left + |part| ==> part[k - left] == d[k - lo]
  }

  ghost predicate Agree(left: nat, part: seq<byte>, lo: nat, d: seq<byte>) {
    forall k :: AgreesAt(left, part, lo, d, k)
  }

  /** `now` is `was` with `part` written at `left`. */
  ghost predicate Overlaid(was: seq<byte>, now: seq<byte>, left: nat, part: seq<byte>) {
    && left + |part| <= |was| == |now| && now[left..left + |part|] == part
    && forall k :: 0 <= k < left || left + |part| <= k < |was| ==> now[k] == was[k]
  }

  lemma OverlaidByte(was: seq<byte>, now: seq<byte>, left: nat, part: seq<byte>, k: nat)
    requires Overlaid(was, now, left, part) && k < |was|
    ensures now[k] == if left <= k < left + |part| then part[k - left] else was[k]
  {
    if left <= k < left + |part| {
      assert now[left..left + |part|][k - left] == now[k];
    }
  }

  /** What stood at `lo` still stands there if and only if `part` agrees with it. */
  lemma Overlay(was: seq<byte>, now: seq<byte>, left: nat, part: seq<byte>, lo: nat, d: seq<byte>)
    requires Overlaid(was, now, left, part) && lo + |d| <= |was| && was[lo..lo + |d|] == d
    ensures now[lo..lo + |d|] == d <==> Agree(left, part, lo, d)
  {
    if now[lo..lo + |d|] == d {
      forall k ensures AgreesAt(left, part, lo, d, k) {
        if lo <= k < lo + |d| {
          OverlaidByte(was, now, left, part, k);
          assert now[lo..lo + |d|][k - lo] == now[k];
        }
      }
    }
    if Agree(left, part, lo, d) {
      forall m | 0 <= m < |d| ensures now[lo..lo + |d|][m] == d[m] {
        OverlaidByte(was, now, left, part, lo + m);
        assert AgreesAt(left, part, lo, d, lo + m);
        assert was[lo..lo + |d|][m] == was[lo + m];
      }
      assert now[lo..lo + |d|] == d;
    }
  }

  /** Written at `s`, `data` leaves the bytes of slice `i` as they were published. */
  ghost predicate Agrees(history: seq<seq<byte>>, i: nat, s: Spot, data: seq<byte>)
    requires i < |history|
  {
    var o := SpotOf(history, i);
    o.lap % 2 == s.lap % 2 ==> Agree(s.left, data, o.left, history[i])
  }

  lemma WrittenExactly(s: State, i: nat, data: seq<byte>)
    requires Inv(s) && i < |s.history| && Intact(s.bufs, s.history, i) && |data| <= MTU
    ensures Intact(Written(s.bufs, s.currentBuf, s.leftBound, data), s.history, i)
            <==> Agrees(s.history, i, SpotOf(s.history, |s.history|), data)
  {
    var o, b := SlotOf(s.history, i), s.currentBuf;
    var now := Written(s.bufs, b, s.leftBound, data);
    if o.bufIndex == b {
      Overlay(s.bufs[b], now[b], s.leftBound, data, o.left, s.history[i]);
    } else {
      assert now[o.bufIndex] == s.bufs[o.bufIndex];
    }
  }

  /**
   * The next datagram leaves slice `i` as it was published if and only if it agrees with it
   * wherever it is written over it.
   */
  lemma OverwritesExactly(s: State, i: nat, data: seq<byte>, channelCap: nat)
    requires Inv(s) && i < |s.history| && Intact(s.bufs, s.history, i) && |data| <= MTU
    ensures Intact(Received(s, data, channelCap).bufs, s.history, i)
            <==> Agrees(s.history, i, SpotOf(s.history, |s.history|), data)
  {
    WrittenExactly(s, i, data);
  }

  /** A datagram of `n` bytes at `s` shares no byte with slice `i`. */
  predicate SparedBy(ds: seq<seq<byte>>, i: nat, s: Spot, n: nat)
    requires i < |ds|
  {
    var o := SpotOf(ds, i);
    o.lap % 2 != s.lap % 2 || s.left + n <= o.left || o.left + |ds[i]| <= s.left
  }

  /** No later slice shares a byte with slice `i`. */
  predicate Spared(ds: seq<seq<byte>>, i: nat)
    requires i < |ds|
  {
    forall j {:trigger SpotOf(ds, j)} :: i < j < |ds| ==> SparedBy(ds, i, SpotOf(ds, j), |ds[j]|)
  }

  lemma SparedFront(front: seq<seq<byte>>, d: seq<byte>, i: nat)
    requires i < |front| && Spared(front + [d], i)
    ensures Spared(front, i) && SparedBy(front, i, SpotOf(front, |front|), |d|)
  {
    var ds := front + [d];
    SpotStays(front, d, i);
    forall j | i < j <= |front| ensures SparedBy(front, i, SpotOf(front, j), |ds[j]|) {
      SpotStays(front, d, j);
      assert SparedBy(ds, i, SpotOf(ds, j), |ds[j]|);
    }
    assert forall j :: i < j < |front| ==> ds[j] == front[j];
  }

  lemma SparedStays(s: State, i: nat, d: seq<byte>)
    requires Inv(s) && i < |s.history| && Intact(s.bufs, s.history, i)
    requires 1 <= |d| <= MTU && |s.queue| < CHANNEL_CAP
    requires SparedBy(s.history, i, SpotOf(s.history, |s.history|), |d|)
    ensures Intact(NextReceived(s, d).bufs, s.history + [d], i)
  {
    OverwritesExactly(s, i, d, CHANNEL_CAP);
    SpotStays(s.history, d, i);
  }

  lemma LastStands(s: State)
    requires Inv(s) && s.history != []
    ensures Intact(s.bufs, s.history, |s.history| - 1)
  {
  }

  /** However far behind the consumer is, a slice that no later one overlaps is read as it was published. */
  lemma {:induction false} SparedIsIntact(ds: seq<seq<byte>>, i: nat)
    requires Sized(ds) && i < |ds| <= CHANNEL_CAP && Spared(ds, i)
    ensures Intact(ReceivedAll(ds).bufs, ds, i)
  {
    var n := |ds| - 1;
    if i < n {
      var front := ds[..n];
      assert front + [ds[n]] == ds;
      SparedFront(front, ds[n], i);
      SparedIsIntact(front, i);
      SparedStays(ReceivedAll(front), i, ds[n]);
    } else {
      LastStands(ReceivedAll(ds));
    }
  }

  /** A first datagram one byte short of the full size, then 86 full-size ones. */
  predicate Overrun(ds: seq<seq<byte>>) {
    |ds| == 87 && |ds[0]| == MTU - 1 && forall k :: 1 <= k < |ds| ==> |ds[k]| == MTU
  }

  lemma LastSpot(ds: seq<seq<byte>>)
    requires Overrun(ds)
    ensures SpotOf(ds, 1) == Spot(0, MTU - 1) && SpotOf(ds, |ds| - 1) == Spot(2, 0)
  {
    assert SpotOf(ds, 1) == Spot(0, MTU - 1);
    Straight(ds, 1, 42);
    assert SpotOf(ds, 43) == Spot(1, 0);
    Straight(ds, 43, 85);
    assert SpotOf(ds, 86) == Spot(2, 0);
  }

  lemma LastIsIntact(s: State)
    requires Inv(s) && s.history != []
    ensures var last := SlotOf(s.history, |s.history| - 1);
            last.right <= MAX_DATAGRAM_SIZE && Slice(s.bufs, last) == s.history[|s.history| - 1]
  {
    LastStands(s);
  }

  /** Slices at the start of a buffer whose first `MTU` bytes are `d`. */
  lemma ReadOver(b: seq<byte>, d: seq<byte>)
    requires |b| >= 2 * MTU && |d| == MTU && b[0..MTU] == d
    ensures b[0..MTU - 1] == d[..MTU - 1] && b[MTU - 1..2 * MTU - 1][0] == d[MTU - 1]
  {
    assert b[0..MTU][..MTU - 1] == b[0..MTU - 1];
    assert b[0..MTU][MTU - 1] == b[MTU - 1];
  }

  /** The consumer would read bytes of the newest datagram for the oldest, and for the start of the second. */
  predicate Misreads(s: State) {
    && TwoBuffers(s.bufs) && |s.queue| >= 2 && s.history != [] && |s.history[|s.history| - 1]| == MTU
    && s.queue[0] == Slot(0, 0, MTU - 1) && s.queue[1] == Slot(0, MTU - 1, 2 * MTU - 1)
    && Slice(s.bufs, s.queue[0]) == s.history[|s.history| - 1][..MTU - 1]
    && Slice(s.bufs, s.queue[1])[0] == s.history[|s.history| - 1][MTU - 1]
  }

  lemma OverrunMisreads(s: State)
    requires Inv(s) && Overrun(s.history) && |s.queue| == |s.history|
    ensures Misreads(s)
  {
    OverrunSlots(s);
    LastIsIntact(s);
    ReadOver(s.bufs[0], s.history[|s.history| - 1]);
  }

  lemma OverrunSlots(s: State)
    requires Inv(s) && Overrun(s.history) && |s.queue| == |s.history|
    ensures s.queue[0] == Slot(0, 0, MTU - 1) && s.queue[1] == Slot(0, MTU - 1, 2 * MTU - 1)
    ensures SlotOf(s.history, |s.history| - 1) == Slot(0, 0, MTU)
  {
    QueueSlot(s.queue, s.history, 0);
    QueueSlot(s.queue, s.history, 1);
    LastSpot(s.history);
  }

  /**
   * A run that goes wrong within the channel's capacity: with these 87 datagrams waiting, the
   * oldest is overwritten whole by the newest, and the second in its first byte.
   */
  lemma OverrunReadsAnother(ds: seq<seq<byte>>)
    requires Overrun(ds)
    ensures Misreads(ReceivedAll(ds)) && ReceivedAll(ds).history == ds
  {
    OverrunMisreads(ReceivedAll(ds));
  }

  /** Buffers that hold `part` in the window, and what was there elsewhere. */
  lemma WrittenIs(s: State, part: seq<byte>, bufs: seq<seq<byte>>)
    requires Placed(s) && |part| <= MTU && TwoBuffers(bufs)
    requires forall k :: 0 <= k < |part| ==> bufs[s.currentBuf][s.leftBound + k] == part[k]
    requires forall k :: 0 <= k < s.leftBound ==> bufs[s.currentBuf][k] == s.bufs[s.currentBuf][k]
    requires forall k :: s.leftBound + |part| <= k < MAX_DATAGRAM_SIZE ==>
               bufs[s.currentBuf][k] == s.bufs[s.currentBuf][k]
    requires bufs[1 - s.currentBuf] == s.bufs[1 - s.currentBuf]
    ensures bufs == Written(s.bufs, s.currentBuf, s.leftBound, part)
  {
    var t := Written(s.bufs, s.currentBuf, s.leftBound, part);
    var left := s.leftBound;
    forall k | 0 <= k < MAX_DATAGRAM_SIZE ensures t[s.currentBuf][k] == bufs[s.currentBuf][k] {
      if left <= k < left + |part| {
        assert t[s.currentBuf][left..left + |part|][k - left] == part[k - left];
        assert bufs[s.currentBuf][left + (k - left)] == part[k - left];
      }
    }
    assert t[s.currentBuf] == bufs[s.currentBuf];
    assert t == [t[0], t[1]] && bufs == [bufs[0], bufs[1]];
  }

  class Ring {
    var buf1: array<byte>
    var buf2: array<byte>
    var currentBuf: nat
    var leftBound: nat
    var queue: seq<Slot>                // the message channel to the consumer
    ghost var history: seq<seq<byte>>   // every datagram published

    ghost function Contents(): State
      reads this, buf1, buf2
    {
      State([buf1[..], buf2[..]], currentBuf, leftBound, queue, history)
    }

    ghost predicate Valid()
      reads this, buf1, buf2
    {
      buf1 != buf2 && Inv(Contents())
    }

    constructor ()
      ensures Valid() && fresh(buf1) && fresh(buf2) && Contents() == Initial()
    {
      buf1 := new byte[MAX_DATAGRAM_SIZE](_ => 0);
      buf2 := new byte[MAX_DATAGRAM_SIZE](_ => 0);
      currentBuf, leftBound, queue, history := 0, 0, [], [];
      new;
      assert buf1[..] == Initial().bufs[0] && buf2[..] == Initial().bufs[1];
    }

    /** The kernel writes part of a datagram into the window; nothing is published yet. */
    method Fill(part: seq<byte>)
      requires Valid() && |part| <= MTU
      modifies buf1, buf2
      ensures Valid()
      ensures var s := old(Contents()); Contents() == s.(bufs := Written(s.bufs, s.currentBuf, s.leftBound, part))
    {
      var b := if currentBuf == 0 then buf1 else buf2;
      forall k | 0 <= k < |part| {
        b[leftBound + k] := part[k];
      }
      WrittenIs(old(Contents()), part, Contents().bufs);
      FillKeeps(old(Contents()), part, Contents());
    }

    /** Announces the `data` that stands in the window and moves on to the next window. */
    method Publish(data: seq<byte>)
      requires Valid() && 1 <= |data| <= MTU
      requires Contents().bufs[currentBuf][leftBound..leftBound + |data|] == data
      modifies this`currentBuf, this`leftBound, this`queue, this`history
      ensures Valid()
      ensures Contents() == Published(old(Contents()), data)
    {
      var n := |data|;
      history := history + [data];
      queue := queue + [Slot(currentBuf, leftBound, leftBound + n)];
      leftBound := leftBound + n;
      if leftBound + MTU > MAX_DATAGRAM_SIZE {
        leftBound := 0;
        currentBuf := currentBuf + 1;
        if currentBuf >= 2 {
          currentBuf := 0;
        }
      }
      PublishKeeps(old(Contents()), data, Contents());
    }

    /** One round of the receive loop. When the channel is full `sent` is false and the thread ends. */
    method Receive(data: seq<byte>, channelCap: nat) returns (sent: bool)
      requires Valid() && |data| <= MTU
      modifies this`currentBuf, this`leftBound, this`queue, this`history, buf1, buf2
      ensures Valid()
      ensures sent == (data == [] || |old(queue)| < channelCap)
      ensures Contents() == Received(old(Contents()), data, channelCap)
    {
      Fill(data);
      if data == [] {
        return true;
      }
      sent := |queue| < channelCap;
      if sent {
        Publish(data);
      }
    }

    /** The consumer takes the oldest slice and copies out what stands there; a backlog in bounds left it unharmed. */
    method Consume() returns (data: seq<byte>)
      requires Valid() && queue != []
      modifies this`queue
      ensures Valid() && Contents() == old(Contents()).(queue := old(queue)[1..])
      ensures var s := old(queue)[0];
              s.bufIndex < 2 && s.left <= s.right <= MAX_DATAGRAM_SIZE && data == Slice(Contents().bufs, s)
      ensures |old(queue)| <= SAFE_BACKLOG ==> data == history[|history| - |old(queue)|]
    {
      var s := queue[0];
      ghost var i := |history| - |queue|;
      assert s == SlotOf(history, i);
      WindowInBounds(history, i);
      if |queue| <= SAFE_BACKLOG {
        assert Intact(Contents().bufs, history, i);
      }
      var b := if s.bufIndex == 0 then buf1 else buf2;
      data := b[s.left..s.right];
      queue := queue[1..];
    }
  }
}
