/** The counters of live connections and relayed bytes, under every interleaving of relays. */
module Gauge {
  import opened Bytes

  const TWO32: nat := 0x1_0000_0000
  const TWO64: nat := 0x1_0000_0000_0000_0000

  /** How one turn of a datagram copy loop ends. */
  datatype Round = Moved(n: nat) | OtherError | HardError | TimedOut | ShutDown

  /** What a datagram copy loop adds up until a round ends it. */
  function Total(rounds: seq<Round>): nat {
    if rounds == [] then 0
    else
      match rounds[0]
      case Moved(n) => n + Total(rounds[1..])
      case OtherError => Total(rounds[1..])
      case _ => 0
  }

  method CopyDatagrams(rounds: seq<Round>) returns (whole: nat)
    ensures whole == Total(rounds)
  {
    whole := 0;
    for i := 0 to |rounds|
      invariant whole + Total(rounds[i..]) == Total(rounds)
    {
      assert rounds[i..][1..] == rounds[i + 1..];
      match rounds[i] {
        case Moved(n) => whole := whole + n;
        case OtherError =>
        case _ => break;
      }
    }
  }

  /** A turn after which the loop is over. */
  predicate Ends(r: Round) {
    r.HardError? || r.TimedOut? || r.ShutDown?
  }

  function MovedIn(r: Round): nat {
    if r.Moved? then r.n else 0
  }

  function MovedBy(rounds: seq<Round>): nat {
    if rounds == [] then 0 else MovedBy(rounds[..|rounds| - 1]) + MovedIn(rounds[|rounds| - 1])
  }

  lemma {:induction false} MovedFirst(rounds: seq<Round>)
    requires rounds != []
    ensures MovedBy(rounds) == MovedIn(rounds[0]) + MovedBy(rounds[1..])
  {
    var n := |rounds| - 1;
    if n == 0 {
      assert rounds[..0] == [] == rounds[1..];
    } else {
      MovedFirst(rounds[..n]);
      assert rounds[..n][1..] == rounds[1..][..n - 1];
    }
  }

  /** What is moved up to the first turn that ends the loop is counted, other errors included; the rest is not. */
  lemma {:induction false} TotalExactly(before: seq<Round>, after: seq<Round>)
    requires (forall r :: r in before ==> !Ends(r)) && (after != [] ==> Ends(after[0]))
    ensures Total(before + after) == MovedBy(before)
  {
    if before == [] {
      assert before + after == after;
    } else {
      MovedFirst(before);
      assert (before + after)[1..] == before[1..] + after;
      assert before[0] in before;
      TotalExactly(before[1..], after);
    }
  }

  /** One direction of a traced copy: an error after some bytes still counts them. */
  function OneWay(moved: nat, failed: bool): Option<nat> {
    if failed && moved == 0 then None else Some(moved)
  }

  /** What both directions of a traced copy report: first that of the one that ended first. */
  function SelectCopies(upFirst: bool, up: Option<nat>, down: Option<nat>): (nat, nat) {
    var u, d := if up.Some? then up.value else 0, if down.Some? then down.value else 0;
    if upFirst then (u, d) else (d, u)
  }

  /** How a copy of a stream or mixed relay ended, and the bytes it had moved each way by then. */
  datatype Copied =
    | Both(up: nat, down: nat)
    | Traced(up: nat, down: nat, upFirst: bool, upFailed: bool, downFailed: bool)
    | Unreported(up: nat, down: nat)  // ended by an error, dropped, or of a mixed relay

  /** What the copy reports as uploaded and downloaded, if it reports anything. */
  function Report(c: Copied): Option<(nat, nat)> {
    match c
    case Both(u, d) => Some((u, d))
    case Traced(u, d, upFirst, uf, df) => Some(SelectCopies(upFirst, OneWay(u, uf), OneWay(d, df)))
    case Unreported(_, _) => None
  }

  datatype Stage =
    | Fresh
    | Ready                                            // early data written
    | Copying                                          // counted as alive
    | HalfReported(half: Copied)                       // what it reports as uploaded is added
    | Closing(last: Option<Copied>)
    | Done(ready: bool, outcome: Option<Copied>)
    | Abandoned                                        // dropped while counted, and never uncounted

  datatype Copy = Running | Finished(n: nat)

  datatype Relay =
    | StreamRelay(ed: nat, stage: Stage)
    | MixedRelay(stage: Stage)
    | DatagramRelay(stage: Stage, up: Copy, down: Copy)

  datatype System = System(alive: nat, ub: nat, db: nat, relays: seq<Relay>)

  datatype Event =
    | Open(relay: Relay)
    | EarlyData(i: nat, ok: bool)
    | Count(i: nat)
    | End(i: nat, copied: Option<Copied>)
    | ReportDown(i: nat)
    | Uncount(i: nat)
    | CopyEnd(i: nat, isDown: bool, rounds: seq<Round>)
    | Cancel(i: nat, up: nat, down: nat)  // the task is dropped at an await point, having moved this much

  predicate Enabled(s: System, e: Event) {
    match e
    case Open(r) => r.stage == Fresh && (r.DatagramRelay? ==> r.up == Running && r.down == Running)
    case EarlyData(i, ok) => i < |s.relays| && s.relays[i].stage == Fresh
    case Count(i) => i < |s.relays| && s.relays[i].stage == Ready
    case End(i, copied) =>
      && i < |s.relays| && s.relays[i].stage == Copying
      && (copied.Some? <==> !s.relays[i].DatagramRelay?)
      && (s.relays[i].MixedRelay? ==> copied.value.Unreported?)
    case ReportDown(i) => i < |s.relays| && s.relays[i].StreamRelay? && s.relays[i].stage.HalfReported?
    case Uncount(i) => i < |s.relays| && s.relays[i].stage.Closing?
    case CopyEnd(i, isDown, _) =>
      && i < |s.relays| && s.relays[i].DatagramRelay? && s.relays[i].stage != Fresh
      && (if isDown then s.relays[i].down else s.relays[i].up) == Running
      && !(s.relays[i].stage.Done? && !s.relays[i].stage.ready)
    case Cancel(i, _, _) => i < |s.relays| && s.relays[i].stage in {Fresh, Ready, Copying}
  }

  function AddWrapped(x: nat, n: nat, limit: nat): nat
    requires limit > 0
  {
    (x + n) % limit
  }

  /** What the copy adds to the counters. */
  function Reports(c: Copied): (nat, nat) {
    if Report(c).Some? then Report(c).value else (0, 0)
  }

  function WithStage(r: Relay, g: Stage): Relay {
    r.(stage := g)
  }

  function Next(s: System, e: Event): System
    requires Enabled(s, e)
  {
    match e
    case Open(r) => s.(relays := s.relays + [r])
    case EarlyData(i, ok) =>
      var r := s.relays[i];
      var t := s.(relays := s.relays[i := WithStage(r, if ok then Ready else Done(false, None))]);
      if ok && r.StreamRelay? then t.(ub := AddWrapped(s.ub, r.ed, TWO64)) else t
    case Count(i) =>
      s.(alive := AddWrapped(s.alive, 1, TWO32), relays := s.relays[i := WithStage(s.relays[i], Copying)])
    case End(i, copied) =>
      if copied.Some? && Report(copied.value).Some? then
        s.(ub := AddWrapped(s.ub, Report(copied.value).value.0, TWO64),
           relays := s.relays[i := WithStage(s.relays[i], HalfReported(copied.value))])
      else s.(relays := s.relays[i := WithStage(s.relays[i], Closing(copied))])
    case ReportDown(i) =>
      var c := s.relays[i].stage.half;
      s.(db := AddWrapped(s.db, Reports(c).1, TWO64), relays := s.relays[i := WithStage(s.relays[i], Closing(Some(c)))])
    case Uncount(i) =>
      s.(alive := AddWrapped(s.alive, TWO32 - 1, TWO32),
         relays := s.relays[i := WithStage(s.relays[i], Done(true, s.relays[i].stage.last))])
    case CopyEnd(i, isDown, rounds) =>
      var n := Total(rounds);
      if isDown then
        s.(db := AddWrapped(s.db, n, TWO64), relays := s.relays[i := s.relays[i].(down := Finished(n))])
      else
        s.(ub := AddWrapped(s.ub, n, TWO64), relays := s.relays[i := s.relays[i].(up := Finished(n))])
    case Cancel(i, up, down) =>
      var r := s.relays[i];
      var g := if r.stage != Copying then Done(r.stage == Ready, None)
               else if r.DatagramRelay? then Abandoned else Closing(Some(Unreported(up, down)));
      s.(relays := s.relays[i := WithStage(r, g)])
  }

  /** The states a relay goes through once its copy ends: its report, if any, then its uncounting. */
  function AfterReports(s: System, i: nat, copied: Option<Copied>): System
    requires Enabled(s, End(i, copied))
  {
    var t := Next(s, End(i, copied));
    if Enabled(t, ReportDown(i)) then Next(t, ReportDown(i)) else t
  }

  /**
   * A relay whose copy has ended, or which is dropped while it copies a stream, can always be
   * uncounted then, and has ended with that copy; a copy of both ways that ended well has added
   * its bytes to the counters, each to its own, and a failed one nothing.
   */
  lemma EndsUncounted(s: System, i: nat, copied: Option<Copied>, up: nat, down: nat)
    requires Enabled(s, End(i, copied))
    ensures var t := AfterReports(s, i, copied);
            && Enabled(t, Uncount(i)) && Next(t, Uncount(i)).relays[i].stage == Done(true, copied)
            && t.relays == s.relays[i := t.relays[i]]
            && (copied == Some(Both(up, down)) ==>
                  t.alive == s.alive && t.ub == (s.ub + up) % TWO64 && t.db == (s.db + down) % TWO64)
            && (copied == Some(Unreported(up, down)) || copied == None ==>
                  t.alive == s.alive && t.ub == s.ub && t.db == s.db)
    ensures !s.relays[i].DatagramRelay? ==>
      var t := Next(s, Cancel(i, up, down));
      Enabled(t, Uncount(i)) && Next(t, Uncount(i)).relays[i].stage == Done(true, Some(Unreported(up, down)))
  {
  }

  predicate Run(s: System, events: seq<Event>, t: System)
    decreases |events|
  {
    if events == [] then s == t else Enabled(s, events[0]) && Run(Next(s, events[0]), events[1..], t)
  }

  /** 1 for a relay between the step that counts it and the one that uncounts it. */
  function Held(r: Relay): nat {
    if r.stage.Copying? || r.stage.HalfReported? || r.stage.Closing? || r.stage.Abandoned? then 1 else 0
  }

  /** The copy a relay has ended with. */
  function CopyOf(g: Stage): Option<Copied> {
    match g
    case HalfReported(c) => Some(c)
    case Closing(c) => c
    case Done(_, c) => c
    case _ => None
  }

  /** What a relay's copy has added to the counters so far. */
  function Reported(g: Stage): (nat, nat) {
    var c := CopyOf(g);
    if c == None then (0, 0) else if g.HalfReported? then (Reports(c.value).0, 0) else Reports(c.value)
  }

  predicate EarlyDataSent(g: Stage) {
    !(g.Fresh? || (g.Done? && !g.ready))
  }

  /** Uploaded bytes a relay has added to the counter: its early data and what its copy reported. */
  function Uploaded(r: Relay): nat {
    match r
    case StreamRelay(ed, g) => (if EarlyDataSent(g) then ed else 0) + Reported(g).0
    case MixedRelay(_) => 0
    case DatagramRelay(_, up, _) => if up.Finished? then up.n else 0
  }

  function Downloaded(r: Relay): nat {
    match r
    case StreamRelay(_, g) => Reported(g).1
    case MixedRelay(_) => 0
    case DatagramRelay(_, _, down) => if down.Finished? then down.n else 0
  }

  function Sum(rs: seq<Relay>, f: Relay -> nat): nat {
    if rs == [] then 0 else f(rs[0]) + Sum(rs[1..], f)
  }

  lemma {:induction false} SumUpdate(rs: seq<Relay>, i: nat, r: Relay, f: Relay -> nat)
    requires i < |rs|
    ensures Sum(rs[i := r], f) + f(rs[i]) == Sum(rs, f) + f(r)
  {
    if i > 0 {
      assert rs[i := r][1..] == rs[1..][i - 1 := r];
      SumUpdate(rs[1..], i - 1, r, f);
    } else {
      assert rs[i := r][1..] == rs[1..];
    }
  }

  lemma {:induction false} SumSnoc(rs: seq<Relay>, r: Relay, f: Relay -> nat)
    ensures Sum(rs + [r], f) == Sum(rs, f) + f(r)
  {
    if rs == [] {
      assert rs + [r] == [r];
    } else {
      assert (rs + [r])[1..] == rs[1..] + [r];
      SumSnoc(rs[1..], r, f);
    }
  }

  /** A wrapping counter that stood at `base` and should have grown by `sum`. */
  predicate Shows(value: nat, base: nat, sum: nat, limit: nat)
    requires limit > 0
  {
    value == (base + sum) % limit
  }

  ghost predicate Inv(s: System, base: System) {
    && Shows(s.alive, base.alive, Sum(s.relays, Held), TWO32)
    && Shows(s.ub, base.ub, Sum(s.relays, Uploaded), TWO64)
    && Shows(s.db, base.db, Sum(s.relays, Downloaded), TWO64)
  }

  lemma Adds(value: nat, base: nat, sum: nat, n: nat, limit: nat)
    requires (limit == TWO32 || limit == TWO64) && Shows(value, base, sum, limit)
    ensures Shows(AddWrapped(value, n, limit), base, sum + n, limit)
    ensures AddWrapped(value, 0, limit) == value
  {
    ModAdd(base + sum, n, limit);
  }

  lemma ModAdd(x: nat, n: nat, limit: nat)
    requires limit == TWO32 || limit == TWO64
    ensures (x % limit + n) % limit == (x + n) % limit && x % limit % limit == x % limit
  {
    if limit == TWO32 {
      ModAdd32(x, n);
    } else {
      ModAdd64(x, n);
    }
  }

  lemma ModIs32(x: nat, k: nat, r: nat)
    requires x == TWO32 * k + r && r < TWO32
    ensures x % TWO32 == r
  {
  }

  lemma ModIs64(x: nat, k: nat, r: nat)
    requires x == TWO64 * k + r && r < TWO64
    ensures x % TWO64 == r
  {
  }

  lemma ModAdd32(x: nat, n: nat)
    ensures (x % TWO32 + n) % TWO32 == (x + n) % TWO32
  {
    var y := x % TWO32 + n;
    ModIs32(x + n, x / TWO32 + y / TWO32, y % TWO32);
  }

  lemma ModAdd64(x: nat, n: nat)
    ensures (x % TWO64 + n) % TWO64 == (x + n) % TWO64
  {
    var y := x % TWO64 + n;
    ModIs64(x + n, x / TWO64 + y / TWO64, y % TWO64);
  }

  /** Subtracting one from a counter that shows at least one more than `sum`. */
  lemma Takes(value: nat, base: nat, sum: nat)
    requires Shows(value, base, sum + 1, TWO32)
    ensures Shows(AddWrapped(value, TWO32 - 1, TWO32), base, sum, TWO32)
  {
    ModAdd(base + sum + 1, TWO32 - 1, TWO32);
  }

  /** A step of relay `e.i` and the relay it leaves behind. */
  predicate Changes(s: System, e: Event) {
    !e.Open? && Enabled(s, e)
  }

  lemma OneRelayChanges(s: System, e: Event)
    requires Changes(s, e)
    ensures e.i < |s.relays| && Next(s, e).relays == s.relays[e.i := Next(s, e).relays[e.i]]
  {
  }

  lemma AliveKeeps(s: System, e: Event, base: nat)
    requires Changes(s, e) && Shows(s.alive, base, Sum(s.relays, Held), TWO32)
    ensures Shows(Next(s, e).alive, base, Sum(Next(s, e).relays, Held), TWO32)
  {
    OneRelayChanges(s, e);
    var sum, r := Sum(s.relays, Held), Next(s, e).relays[e.i];
    SumUpdate(s.relays, e.i, r, Held);
    match e {
      case Count(i) => Adds(s.alive, base, sum, 1, TWO32);
      case Uncount(i) => Takes(s.alive, base, sum - 1);
      case _ =>
    }
  }

  lemma UploadedGrows(s: System, e: Event)
    requires Changes(s, e)
    ensures var was, r := Uploaded(s.relays[e.i]), Uploaded(Next(s, e).relays[e.i]);
            was <= r && (Next(s, e).ub == AddWrapped(s.ub, r - was, TWO64) || (was == r && Next(s, e).ub == s.ub))
  {
  }

  lemma DownloadedGrows(s: System, e: Event)
    requires Changes(s, e)
    ensures var was, r := Downloaded(s.relays[e.i]), Downloaded(Next(s, e).relays[e.i]);
            was <= r && (Next(s, e).db == AddWrapped(s.db, r - was, TWO64) || (was == r && Next(s, e).db == s.db))
  {
  }

  lemma UploadKeeps(s: System, e: Event, base: nat)
    requires Changes(s, e) && Shows(s.ub, base, Sum(s.relays, Uploaded), TWO64)
    ensures Shows(Next(s, e).ub, base, Sum(Next(s, e).relays, Uploaded), TWO64)
  {
    OneRelayChanges(s, e);
    var sum, was, r := Sum(s.relays, Uploaded), s.relays[e.i], Next(s, e).relays[e.i];
    SumUpdate(s.relays, e.i, r, Uploaded);
    UploadedGrows(s, e);
    Adds(s.ub, base, sum, Uploaded(r) - Uploaded(was), TWO64);
  }

  lemma DownloadKeeps(s: System, e: Event, base: nat)
    requires Changes(s, e) && Shows(s.db, base, Sum(s.relays, Downloaded), TWO64)
    ensures Shows(Next(s, e).db, base, Sum(Next(s, e).relays, Downloaded), TWO64)
  {
    OneRelayChanges(s, e);
    var sum, was, r := Sum(s.relays, Downloaded), s.relays[e.i], Next(s, e).relays[e.i];
    SumUpdate(s.relays, e.i, r, Downloaded);
    DownloadedGrows(s, e);
    Adds(s.db, base, sum, Downloaded(r) - Downloaded(was), TWO64);
  }

  lemma StepKeeps(s: System, e: Event, base: System)
    requires Inv(s, base) && Enabled(s, e)
    ensures Inv(Next(s, e), base)
  {
    if e.Open? {
      SumSnoc(s.relays, e.relay, Held);
      SumSnoc(s.relays, e.relay, Uploaded);
      SumSnoc(s.relays, e.relay, Downloaded);
    } else {
      AliveKeeps(s, e, base.alive);
      UploadKeeps(s, e, base.ub);
      DownloadKeeps(s, e, base.db);
    }
  }

  lemma {:induction false} RunKeeps(s: System, events: seq<Event>, t: System, base: System)
    requires Inv(s, base) && Run(s, events, t)
    ensures Inv(t, base)
    decreases |events|
  {
    if events != [] {
      StepKeeps(s, events[0], base);
      RunKeeps(Next(s, events[0]), events[1..], t, base);
    }
  }

  /** Counters within their width, and no relay yet. */
  predicate Initial(s: System) {
    s.alive < TWO32 && s.ub < TWO64 && s.db < TWO64 && s.relays == []
  }

  lemma InitialHolds(s: System)
    requires Initial(s)
    ensures Inv(s, s)
  {
    assert Sum(s.relays, Held) == Sum(s.relays, Uploaded) == Sum(s.relays, Downloaded) == 0;
  }

  /**
   * In every interleaving: the gauge has grown by the number of relays counted and not yet
   * uncounted, the byte counters by what early data and finished copies reported, each within the
   * counter's width.
   */
  lemma Accounts(s: System, events: seq<Event>, t: System)
    requires Initial(s) && Run(s, events, t)
    ensures Shows(t.alive, s.alive, Sum(t.relays, Held), TWO32)
    ensures Shows(t.ub, s.ub, Sum(t.relays, Uploaded), TWO64)
    ensures Shows(t.db, s.db, Sum(t.relays, Downloaded), TWO64)
  {
    InitialHolds(s);
    RunKeeps(s, events, t, s);
  }

  lemma {:induction false} HeldAtMost(rs: seq<Relay>)
    ensures Sum(rs, Held) <= |rs|
    ensures (exists i :: 0 <= i < |rs| && Held(rs[i]) == 1) <==> Sum(rs, Held) > 0
  {
    if rs != [] {
      HeldAtMost(rs[1..]);
      if Sum(rs[1..], Held) > 0 {
        var j :| 0 <= j < |rs[1..]| && Held(rs[1..][j]) == 1;
        assert rs[j + 1] == rs[1..][j];
      } else {
        assert forall j :: 1 <= j < |rs| ==> rs[j] == rs[1..][j - 1];
      }
    }
  }

  /** While a relay is about to be uncounted the gauge is above zero, so the subtraction does not wrap. */
  lemma NeverUnderflows(s: System, events: seq<Event>, t: System, i: nat)
    requires Initial(s) && Run(s, events, t) && Enabled(t, Uncount(i)) && s.alive + |t.relays| < TWO32
    ensures t.alive > s.alive && Next(t, Uncount(i)).alive == t.alive - 1
  {
    Accounts(s, events, t);
    HeldAtMost(t.relays);
    assert Held(t.relays[i]) == 1;
    assert t.alive == s.alive + Sum(t.relays, Held);
  }

  /** Only datagram relays can be dropped without being uncounted, and no mixed one reports its copy. */
  predicate Sane(s: System) {
    forall i :: 0 <= i < |s.relays| ==> SaneRelay(s.relays[i])
  }

  predicate SaneRelay(r: Relay) {
    && (r.stage.Abandoned? ==> r.DatagramRelay?)
    && (r.stage.HalfReported? ==> r.StreamRelay? && !r.stage.half.Unreported?)
    && (r.MixedRelay? && CopyOf(r.stage).Some? ==> CopyOf(r.stage).value.Unreported?)
  }

  lemma {:induction false} OnlyDatagramsAbandoned(s: System, events: seq<Event>, t: System)
    requires Sane(s) && Run(s, events, t)
    ensures Sane(t)
    decreases |events|
  {
    if events != [] {
      var e := events[0];
      if !e.Open? {
        OneRelayChanges(s, e);
        assert SaneRelay(s.relays[e.i]);
        assert SaneRelay(Next(s, e).relays[e.i]);
      }
      OnlyDatagramsAbandoned(Next(s, e), events[1..], t);
    }
  }

  /** Bytes a relay really uploaded: its early data and what its ended copies moved. */
  function MovedUp(r: Relay): nat {
    match r
    case StreamRelay(ed, g) => (if EarlyDataSent(g) then ed else 0) + if CopyOf(g).Some? then CopyOf(g).value.up else 0
    case MixedRelay(g) => if CopyOf(g).Some? then CopyOf(g).value.up else 0
    case DatagramRelay(_, up, _) => if up.Finished? then up.n else 0
  }

  function MovedDown(r: Relay): nat {
    match r
    case DatagramRelay(_, _, down) => if down.Finished? then down.n else 0
    case _ => if CopyOf(r.stage).Some? then CopyOf(r.stage).value.down else 0
  }

  /** A copy that reports what it moved: no traced one whose unequal download ended first, nothing moved unreported. */
  predicate Fair(c: Copied) {
    match c
    case Both(_, _) => true
    case Traced(u, d, upFirst, _, _) => upFirst || u == d
    case Unreported(u, d) => u == 0 && d == 0
  }

  predicate FairRelay(r: Relay) {
    !r.stage.HalfReported? && (!r.DatagramRelay? && CopyOf(r.stage).Some? ==> Fair(CopyOf(r.stage).value))
  }

  /** In any run, a relay has added what it moved to both counters exactly when its copy is a fair one. */
  lemma CountedExactly(s: System, events: seq<Event>, t: System, r: Relay)
    requires Initial(s) && Run(s, events, t) && r in t.relays && !r.stage.HalfReported?
    ensures Uploaded(r) == MovedUp(r) && Downloaded(r) == MovedDown(r) <==> FairRelay(r)
  {
    OnlyDatagramsAbandoned(s, events, t);
  }

  lemma {:induction false} SameSums(rs: seq<Relay>, f: Relay -> nat, g: Relay -> nat)
    requires forall r :: r in rs ==> f(r) == g(r)
    ensures Sum(rs, f) == Sum(rs, g)
  {
    if rs != [] {
      assert rs[0] in rs && forall r :: r in rs[1..] ==> r in rs;
      SameSums(rs[1..], f, g);
    }
  }

  /** With fair copies only, the byte counters have grown by the bytes really moved. */
  lemma ShowsWhatMoved(s: System, events: seq<Event>, t: System)
    requires Initial(s) && Run(s, events, t) && forall r :: r in t.relays ==> FairRelay(r)
    ensures Shows(t.ub, s.ub, Sum(t.relays, MovedUp), TWO64) && Shows(t.db, s.db, Sum(t.relays, MovedDown), TWO64)
  {
    Accounts(s, events, t);
    forall r | r in t.relays ensures Uploaded(r) == MovedUp(r) && Downloaded(r) == MovedDown(r) {
      CountedExactly(s, events, t, r);
    }
    SameSums(t.relays, Uploaded, MovedUp);
    SameSums(t.relays, Downloaded, MovedDown);
  }

  function MovedBoth(r: Relay): nat {
    MovedUp(r) + MovedDown(r)
  }

  /** Bytes a relay moved and never counts: those of an unreported copy, and a download not yet added. */
  function Missed(r: Relay): nat {
    match r
    case DatagramRelay(_, _, _) => 0
    case _ =>
      match CopyOf(r.stage)
      case None => 0
      case Some(c) =>
        if c.Unreported? then c.up + c.down else if r.stage.HalfReported? then Reports(c).1 else 0
  }

  lemma {:induction false} SumsSplit(rs: seq<Relay>)
    requires forall r :: r in rs ==> SaneRelay(r)
    ensures Sum(rs, Uploaded) + Sum(rs, Downloaded) + Sum(rs, Missed) == Sum(rs, MovedBoth)
  {
    if rs != [] {
      assert rs[0] in rs && forall r :: r in rs[1..] ==> r in rs;
      SumsSplit(rs[1..]);
      CountsOrMisses(rs[0]);
    }
  }

  lemma CountsOrMisses(r: Relay)
    requires SaneRelay(r)
    ensures Uploaded(r) + Downloaded(r) + Missed(r) == MovedBoth(r)
  {
  }

  /**
   * Swapped or not, both counters together have grown by all bytes moved less those of unreported
   * copies, in every interleaving.
   */
  lemma TotalIsKept(s: System, events: seq<Event>, t: System)
    requires Initial(s) && Run(s, events, t)
    ensures Sum(t.relays, Missed) <= Sum(t.relays, MovedBoth)
    ensures Shows((t.ub + t.db) % TWO64, s.ub + s.db, Sum(t.relays, MovedBoth) - Sum(t.relays, Missed), TWO64)
  {
    Accounts(s, events, t);
    OnlyDatagramsAbandoned(s, events, t);
    SumsSplit(t.relays);
    BothShow(t.ub, t.db, s.ub, s.db, Sum(t.relays, Uploaded), Sum(t.relays, Downloaded));
  }

  lemma BothShow(ub: nat, db: nat, base0: nat, base1: nat, up: nat, down: nat)
    requires Shows(ub, base0, up, TWO64) && Shows(db, base1, down, TWO64)
    ensures Shows((ub + db) % TWO64, base0 + base1, up + down, TWO64)
  {
    AddMods(base0 + up, base1 + down);
  }

  lemma AddMods(x: nat, y: nat)
    ensures (x % TWO64 + y % TWO64) % TWO64 == (x + y) % TWO64
  {
    ModAdd(x, y % TWO64, TWO64);
    ModAdd(y, x, TWO64);
  }

  lemma RunCons(s: System, e: Event, rest: seq<Event>, t: System)
    requires Enabled(s, e) && Run(Next(s, e), rest, t)
    ensures Run(s, [e] + rest, t)
  {
    assert ([e] + rest)[1..] == rest;
  }

  /** The counters of `s` and so much more, and one stream relay. */
  function Alone(s: System, g: Stage, alive: nat, ub: nat, db: nat): System {
    System((s.alive + alive) % TWO32, s.ub + ub, s.db + db, [StreamRelay(0, g)])
  }

  lemma AloneOpens(s: System)
    requires Initial(s)
    ensures Enabled(s, Open(StreamRelay(0, Fresh))) && Next(s, Open(StreamRelay(0, Fresh))) == Alone(s, Fresh, 0, 0, 0)
    ensures var f := Alone(s, Fresh, 0, 0, 0);
            Enabled(f, EarlyData(0, true)) && Next(f, EarlyData(0, true)) == Alone(s, Ready, 0, 0, 0)
    ensures var f := Alone(s, Ready, 0, 0, 0); Enabled(f, Count(0)) && Next(f, Count(0)) == Alone(s, Copying, 1, 0, 0)
  {
    assert AddWrapped(s.ub, 0, TWO64) == s.ub;
  }

  lemma AloneCopies(s: System, u: nat, d: nat)
    requires Initial(s) && s.ub + d < TWO64 && s.db + u < TWO64
    ensures var c := Traced(u, d, false, false, false);
            Run(Alone(s, Copying, 1, 0, 0), [End(0, Some(c)), ReportDown(0)], Alone(s, Closing(Some(c)), 1, d, u))
  {
    var c := Traced(u, d, false, false, false);
    var half, t := Alone(s, HalfReported(c), 1, d, 0), Alone(s, Closing(Some(c)), 1, d, u);
    assert Next(half, ReportDown(0)) == t;
    RunCons(half, ReportDown(0), [], t);
    assert Next(Alone(s, Copying, 1, 0, 0), End(0, Some(c))) == half;
    RunCons(Alone(s, Copying, 1, 0, 0), End(0, Some(c)), [ReportDown(0)], t);
    assert [End(0, Some(c))] + [ReportDown(0)] == [End(0, Some(c)), ReportDown(0)];
  }

  /** The shortest run in which the counters are wrong: a traced copy whose download ends first. */
  lemma TracedCopySwaps(s: System, u: nat, d: nat)
    requires Initial(s) && s.ub + u + d < TWO64 && s.db + u + d < TWO64
    ensures (var events := [Open(StreamRelay(0, Fresh)), EarlyData(0, true), Count(0),
                            End(0, Some(Traced(u, d, false, false, false))), ReportDown(0)];
             Run(s, events, Alone(s, Closing(Some(Traced(u, d, false, false, false))), 1, d, u)))
  {
    var c := Traced(u, d, false, false, false);
    var e0, e1, e2, ends := Open(StreamRelay(0, Fresh)), EarlyData(0, true), Count(0), [End(0, Some(c)), ReportDown(0)];
    var s1, s2, s3 := Alone(s, Fresh, 0, 0, 0), Alone(s, Ready, 0, 0, 0), Alone(s, Copying, 1, 0, 0);
    var t := Alone(s, Closing(Some(c)), 1, d, u);
    AloneCopies(s, u, d);
    AloneOpens(s);
    RunCons(s2, e2, ends, t);
    RunCons(s1, e1, [e2] + ends, t);
    RunCons(s, e0, [e1] + ([e2] + ends), t);
    assert [e0] + ([e1] + ([e2] + ends)) == [e0, e1, e2, ends[0], ends[1]];
  }

  predicate Ended(r: Relay) {
    r.stage.Done? || r.stage.Abandoned?
  }

  /** The event drops a datagram relay while it is counted. */
  predicate DropsCounted(s: System, e: Event) {
    e.Cancel? && e.i < |s.relays| && s.relays[e.i].DatagramRelay? && s.relays[e.i].stage == Copying
  }

  /** How many events of the run do. */
  function Drops(s: System, events: seq<Event>): nat
    decreases |events|
  {
    if events == [] || !Enabled(s, events[0]) then 0
    else (if DropsCounted(s, events[0]) then 1 else 0) + Drops(Next(s, events[0]), events[1..])
  }

  function Lost(r: Relay): nat {
    if r.stage.Abandoned? then 1 else 0
  }

  lemma LostStep(s: System, e: Event)
    requires Enabled(s, e) && (e.Open? ==> e.relay.stage == Fresh)
    ensures Sum(Next(s, e).relays, Lost) == Sum(s.relays, Lost) + if DropsCounted(s, e) then 1 else 0
  {
    if e.Open? {
      SumSnoc(s.relays, e.relay, Lost);
    } else {
      OneRelayChanges(s, e);
      SumUpdate(s.relays, e.i, Next(s, e).relays[e.i], Lost);
    }
  }

  lemma {:induction false} LostAre(s: System, events: seq<Event>, t: System)
    requires Run(s, events, t)
    ensures Sum(t.relays, Lost) == Sum(s.relays, Lost) + Drops(s, events)
    decreases |events|
  {
    if events != [] {
      LostStep(s, events[0]);
      LostAre(Next(s, events[0]), events[1..], t);
    }
  }

  /**
   * When all relays have ended, on whatever path, the gauge stands above its start value by the
   * number of datagram relays dropped while they were counted, within its width; it is back at its
   * start value exactly when there were none.
   */
  lemma ReturnsToStart(s: System, events: seq<Event>, t: System)
    requires Initial(s) && Run(s, events, t) && (forall r :: r in t.relays ==> Ended(r))
    ensures Shows(t.alive, s.alive, Drops(s, events), TWO32)
    ensures |t.relays| < TWO32 ==> (t.alive == s.alive <==> Drops(s, events) == 0)
  {
    Accounts(s, events, t);
    SameSums(t.relays, Held, Lost);
    LostAre(s, events, t);
    HeldAtMost(t.relays);
  }

  /** The counters of `s`, the gauge so much higher, and one datagram relay. */
  function Sole(s: System, g: Stage, alive: nat): System {
    s.(alive := s.alive + alive, relays := [DatagramRelay(g, Running, Running)])
  }

  lemma SoleSteps(s: System)
    requires Initial(s) && s.alive + 1 < TWO32
    ensures var e := Open(DatagramRelay(Fresh, Running, Running)); Enabled(s, e) && Next(s, e) == Sole(s, Fresh, 0)
    ensures var e, r := EarlyData(0, true), Sole(s, Fresh, 0); Enabled(r, e) && Next(r, e) == Sole(s, Ready, 0)
    ensures var e, r := Count(0), Sole(s, Ready, 0); Enabled(r, e) && Next(r, e) == Sole(s, Copying, 1)
    ensures var e, r := Cancel(0, 0, 0), Sole(s, Copying, 1); Enabled(r, e) && Next(r, e) == Sole(s, Abandoned, 1)
  {
  }

  /** A run that leaves the gauge one too high: a datagram relay dropped while it is counted. */
  lemma DroppedStaysCounted(s: System)
    requires Initial(s) && s.alive + 1 < TWO32
    ensures (var open := Open(DatagramRelay(Fresh, Running, Running));
             Run(s, [open, EarlyData(0, true), Count(0), Cancel(0, 0, 0)], Sole(s, Abandoned, 1)))
  {
    SoleSteps(s);
    var e0, e1, e2, e3 := Open(DatagramRelay(Fresh, Running, Running)), EarlyData(0, true), Count(0), Cancel(0, 0, 0);
    var t := Sole(s, Abandoned, 1);
    RunCons(Sole(s, Copying, 1), e3, [], t);
    RunCons(Sole(s, Ready, 0), e2, [e3] + [], t);
    RunCons(Sole(s, Fresh, 0), e1, [e2] + ([e3] + []), t);
    RunCons(s, e0, [e1] + ([e2] + ([e3] + [])), t);
    assert [e0] + ([e1] + ([e2] + ([e3] + []))) == [e0, e1, e2, e3];
  }
}
