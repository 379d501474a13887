/** Folding a connection through a chain of maps, over a static or a selector-driven chain. */
module Fold {
  import opened Bytes

  type Ids = seq<nat>

  /** What kind of stream a map result carries. */
  datatype Stream = Conn | AddrConn | Generator | NoStream

  /** A map's result; addresses, buffers, data and errors are opaque numbers here. */
  datatype MapResult = MapResult(
    a: Option<nat>, b: Option<nat>, c: Stream, d: Option<nat>, e: Option<nat>, newId: Option<Ids>)

  datatype MapParams = MapParams(a: Option<nat>, b: Option<nat>, c: Stream, d: seq<Option<nat>>)

  /** A map: its name, its chain tag (empty when it has none) and what it does to a stream. */
  datatype Map = Map(name: nat, tag: string, run: (Ids, MapParams) -> MapResult)

  type Selector = (int, Option<seq<Option<nat>>>) -> Option<int>

  /** A chain being walked: a fixed list, or a list with a selector for the next index. */
  datatype Chain =
    | Static(maps: seq<Map>, pos: nat)
    | Finite(maps: seq<Map>, current: int, select: Selector)

  predicate WellFormed(it: Chain) {
    match it
    case Static(maps, pos) => pos <= |maps|
    case Finite(maps, current, _) => -1 <= current < |maps|
  }

  /** The next map; a selector's negative or too large index ends the chain, like no index. */
  function Next(it: Chain, data: Option<seq<Option<nat>>>): (r: (Option<Map>, Chain))
    requires WellFormed(it)
    ensures WellFormed(r.1)
  {
    match it
    case Static(maps, pos) =>
      if pos < |maps| then (Some(maps[pos]), Static(maps, pos + 1)) else (None, it)
    case Finite(maps, current, select) =>
      match select(current, data)
      case None => (None, it)
      case Some(i) =>
        if i < 0 || i >= |maps| then (None, it) else (Some(maps[i]), Finite(maps, i, select))
  }

  /** A static chain ignores the data, which is then not collected for it. */
  function NextFor(it: Chain, outputs: seq<Option<nat>>): (r: (Option<Map>, Chain))
    requires WellFormed(it)
    ensures WellFormed(r.1)
  {
    Next(it, if it.Static? then None else Some(outputs))
  }

  /** A fold under way; `trace` names the maps run so far. */
  datatype Folding = Folding(
    left: Chain, last: MapResult, outputs: seq<Option<nat>>, tag: string, trace: seq<nat>, stopped: bool)

  function Start(initial: MapResult, left: Chain, tag: string, trace: seq<nat>): Folding {
    Folding(left, initial, [initial.d], tag, trace, false)
  }

  /** The state after `m` has turned the last result into `r`. */
  function Absorb(f: Folding, left: Chain, m: Map, r: MapResult): Folding {
    Folding(
      left, r, f.outputs + [r.d],
      if f.tag == "" then m.tag else f.tag,
      f.trace + [m.name],
      r.c.NoStream? || r.c.Generator? || r.e.Some?)
  }

  function IdFor(last: MapResult, cid: Ids): Ids {
    match last.newId
    case Some(id) => id
    case None => cid
  }

  /** One round of the folding loop. */
  function Step(cid: Ids, f: Folding): Folding
    requires WellFormed(f.left) && !f.stopped
  {
    var (om, left) := NextFor(f.left, f.outputs);
    match om
    case None => f.(left := left, stopped := true)
    case Some(m) =>
      Absorb(f, left, m, m.run(IdFor(f.last, cid), MapParams(f.last.a, f.last.b, f.last.c, f.outputs)))
  }

  /** At most `n` rounds, stopping earlier when the loop stops. */
  function Steps(cid: Ids, f: Folding, n: nat): Folding
    requires WellFormed(f.left)
    decreases n
  {
    if n == 0 || f.stopped then f else Steps(cid, Step(cid, f), n - 1)
  }

  datatype FoldResult = FoldResult(
    a: Option<nat>, b: Option<nat>, c: Stream, d: seq<Option<nat>>, e: Option<nat>,
    id: Ids, tag: string, left: Chain, trace: seq<nat>)

  function Finish(cid: Ids, f: Folding): FoldResult {
    FoldResult(f.last.a, f.last.b, f.last.c, f.outputs, f.last.e, IdFor(f.last, cid), f.tag, f.left, f.trace)
  }

  function Names(maps: seq<Map>): (ns: seq<nat>)
    ensures |ns| == |maps|
  {
    seq(|maps|, i requires 0 <= i < |maps| => maps[i].name)
  }

  function Tags(maps: seq<Map>): (ts: seq<string>)
    ensures |ts| == |maps|
  {
    seq(|maps|, i requires 0 <= i < |maps| => maps[i].tag)
  }

  /** The data of each result, in order. */
  function Outputs(rs: seq<MapResult>): (ds: seq<Option<nat>>)
    ensures |ds| == |rs|
  {
    seq(|rs|, i requires 0 <= i < |rs| => rs[i].d)
  }

  /** `tag` is the first of `tags` that is not empty, or empty if all are. */
  ghost predicate IsFirstTag(tag: string, tags: seq<string>) {
    if tag == "" then forall i :: 0 <= i < |tags| ==> tags[i] == ""
    else exists j :: 0 <= j < |tags| && tags[j] == tag && forall i :: 0 <= i < j ==> tags[i] == ""
  }

  /** A result that a fold goes no further with. */
  predicate Ends(r: MapResult) {
    r.c == NoStream || r.c == Generator || r.e != None
  }

  /** `rs[k + 1]` is what the map `k` places behind `pos` makes of what `rs[..k + 1]` hold. */
  predicate Produced(cid: Ids, maps: seq<Map>, pos: nat, rs: seq<MapResult>, k: nat)
    requires k + 1 < |rs| && pos + k < |maps|
  {
    rs[k + 1] == maps[pos + k].run(
      if rs[k].newId.Some? then rs[k].newId.value else cid,
      MapParams(a := rs[k].a, b := rs[k].b, c := rs[k].c, d := Outputs(rs[..k + 1])))
  }

  /**
   * The results of a walk from `pos` on: `initial`, then those of the maps one after the other, of
   * which only the last can end the walk.
   */
  predicate Walk(cid: Ids, initial: MapResult, maps: seq<Map>, pos: nat, rs: seq<MapResult>) {
    && rs != [] && rs[0] == initial && pos + |rs| - 1 <= |maps|
    && (forall k :: 0 <= k < |rs| - 1 ==> Produced(cid, maps, pos, rs, k))
    && (forall k :: 1 <= k < |rs| - 1 ==> !Ends(rs[k]))
  }

  /** The result of a fold in terms of the results it went through, which are all there can be. */
  ghost predicate Describes(
    r: FoldResult, cid: Ids, maps: seq<Map>, pos: nat, rs: seq<MapResult>, tag: string, trace: seq<nat>)
    requires rs != [] && pos + |rs| - 1 <= |maps|
  {
    var last, ran := rs[|rs| - 1], maps[pos..pos + |rs| - 1];
    && r.a == last.a && r.b == last.b && r.c == last.c && r.e == last.e && r.d == Outputs(rs)
    && r.id == (if last.newId.Some? then last.newId.value else cid)
    && IsFirstTag(r.tag, [tag] + Tags(ran)) && r.trace == trace + Names(ran)
    && r.left == Static(maps, pos + |rs| - 1)
    && (pos + |rs| - 1 < |maps| ==> |rs| > 1 && Ends(last))
  }

  /** A fold under way after the results `rs`. */
  ghost predicate Follows(
    f: Folding, maps: seq<Map>, pos: nat, rs: seq<MapResult>, tag: string, trace: seq<nat>)
  {
    && rs != [] && pos + |rs| - 1 <= |maps|
    && f.left == Static(maps, pos + |rs| - 1) && f.last == rs[|rs| - 1] && f.outputs == Outputs(rs)
    && IsFirstTag(f.tag, [tag] + Tags(maps[pos..pos + |rs| - 1]))
    && f.trace == trace + Names(maps[pos..pos + |rs| - 1])
  }

  lemma FirstTagSnoc(tag: string, tags: seq<string>, next: string)
    requires IsFirstTag(tag, tags)
    ensures IsFirstTag(if tag == "" then next else tag, tags + [next])
  {
    var more := tags + [next];
    if tag != "" {
      var j :| 0 <= j < |tags| && tags[j] == tag && forall i :: 0 <= i < j ==> tags[i] == "";
      assert more[j] == tag && forall i :: 0 <= i < j ==> more[i] == "";
    } else if next != "" {
      assert more[|tags|] == next && forall i :: 0 <= i < |tags| ==> more[i] == "";
    }
  }

  lemma FirstTagAlone(tag: string)
    ensures IsFirstTag(tag, [tag])
  {
    if tag != "" {
      assert [tag][0] == tag;
    }
  }

  lemma RanSnoc(maps: seq<Map>, pos: nat, n: nat)
    requires pos + n < |maps|
    ensures Names(maps[pos..pos + n + 1]) == Names(maps[pos..pos + n]) + [maps[pos + n].name]
    ensures Tags(maps[pos..pos + n + 1]) == Tags(maps[pos..pos + n]) + [maps[pos + n].tag]
  {
  }

  /** One more result is absorbed as its map's. */
  lemma AbsorbFollows(
    f: Folding, maps: seq<Map>, pos: nat, rs: seq<MapResult>, tag: string, trace: seq<nat>, r: MapResult)
    requires Follows(f, maps, pos, rs, tag, trace) && pos + |rs| - 1 < |maps|
    ensures Follows(Absorb(f, Static(maps, pos + |rs|), maps[pos + |rs| - 1], r), maps, pos, rs + [r], tag, trace)
  {
    var n := |rs| - 1;
    RanSnoc(maps, pos, n);
    FirstTagSnoc(f.tag, [tag] + Tags(maps[pos..pos + n]), maps[pos + n].tag);
    assert [tag] + Tags(maps[pos..pos + n]) + [maps[pos + n].tag] == [tag] + Tags(maps[pos..pos + n + 1]);
    assert Outputs(rs + [r]) == Outputs(rs) + [r.d];
    assert trace + Names(maps[pos..pos + n]) + [maps[pos + n].name] == trace + Names(maps[pos..pos + n + 1]);
  }

  lemma WalkSnoc(cid: Ids, initial: MapResult, maps: seq<Map>, pos: nat, rs: seq<MapResult>, r: MapResult)
    requires Walk(cid, initial, maps, pos, rs) && pos + |rs| - 1 < |maps| && (|rs| > 1 ==> !Ends(rs[|rs| - 1]))
    requires Produced(cid, maps, pos, rs + [r], |rs| - 1)
    ensures Walk(cid, initial, maps, pos, rs + [r])
  {
    var more := rs + [r];
    forall k | 0 <= k < |more| - 1 ensures Produced(cid, maps, pos, more, k) {
      if k < |rs| - 1 {
        assert Produced(cid, maps, pos, rs, k);
        assert more[..k + 1] == rs[..k + 1];
      }
    }
  }

  lemma StepProduces(cid: Ids, f: Folding, maps: seq<Map>, pos: nat, rs: seq<MapResult>, tag: string, trace: seq<nat>)
    returns (r: MapResult)
    requires Follows(f, maps, pos, rs, tag, trace) && pos + |rs| - 1 < |maps| && !f.stopped
    ensures Produced(cid, maps, pos, rs + [r], |rs| - 1)
    ensures Step(cid, f) == Absorb(f, Static(maps, pos + |rs|), maps[pos + |rs| - 1], r)
  {
    r := Step(cid, f).last;
    assert (rs + [r])[..|rs|] == rs;
  }

  lemma {:induction false} StepsFollow(
    cid: Ids, initial: MapResult, f: Folding, maps: seq<Map>, pos: nat, rs: seq<MapResult>, tag: string,
    trace: seq<nat>, n: nat)
    returns (all: seq<MapResult>)
    requires Follows(f, maps, pos, rs, tag, trace) && Walk(cid, initial, maps, pos, rs)
    requires f.stopped <==> |rs| > 1 && Ends(rs[|rs| - 1])
    requires n > |maps| - (pos + |rs| - 1)
    ensures Walk(cid, initial, maps, pos, all) && Follows(Steps(cid, f, n), maps, pos, all, tag, trace)
    ensures pos + |all| - 1 < |maps| ==> |all| > 1 && Ends(all[|all| - 1])
    decreases n
  {
    all := rs;
    if !f.stopped {
      if pos + |rs| - 1 < |maps| {
        var r := StepProduces(cid, f, maps, pos, rs, tag, trace);
        AbsorbFollows(f, maps, pos, rs, tag, trace, r);
        WalkSnoc(cid, initial, maps, pos, rs, r);
        all := StepsFollow(cid, initial, Step(cid, f), maps, pos, rs + [r], tag, trace, n - 1);
      } else {
        assert Steps(cid, f, n) == Steps(cid, Step(cid, f), n - 1) == Step(cid, f);
      }
    }
  }

  /** What the loop's result is, from the results it went through. */
  lemma FoldIsDescribed(cid: Ids, initial: MapResult, maps: seq<Map>, pos: nat, tag: string, trace: seq<nat>)
    returns (rs: seq<MapResult>)
    requires pos <= |maps|
    ensures Walk(cid, initial, maps, pos, rs)
    ensures Describes(Finish(cid, Steps(cid, Start(initial, Static(maps, pos), tag, trace), |maps| - pos + 1)),
                      cid, maps, pos, rs, tag, trace)
  {
    var f := Start(initial, Static(maps, pos), tag, trace);
    FirstTagAlone(tag);
    assert [tag] + Tags(maps[pos..pos]) == [tag] && trace + Names(maps[pos..pos]) == trace;
    assert Outputs([initial]) == [initial.d];
    rs := StepsFollow(cid, initial, f, maps, pos, [initial], tag, trace, |maps| - pos + 1);
  }

  /** There is a list of the results of the maps run, one fed with the other, that the result sums up. */
  ghost predicate ComesOfWalk(
    r: FoldResult, cid: Ids, initial: MapResult, maps: seq<Map>, pos: nat, chainTag: string, traceSoFar: seq<nat>)
    requires pos <= |maps|
  {
    exists rs :: Walk(cid, initial, maps, pos, rs) && Describes(r, cid, maps, pos, rs, chainTag, traceSoFar)
  }

  lemma FoldComesOfWalk(cid: Ids, initial: MapResult, chain: Chain, chainTag: string, traceSoFar: seq<nat>)
    requires chain.Static? && WellFormed(chain)
    ensures var f := Start(initial, chain, chainTag, traceSoFar);
            ComesOfWalk(Finish(cid, Steps(cid, f, |chain.maps| - chain.pos + 1)), cid, initial, chain.maps, chain.pos,
                        chainTag, traceSoFar)
  {
    var rs := FoldIsDescribed(cid, initial, chain.maps, chain.pos, chainTag, traceSoFar);
  }

  /**
   * The fold over a static chain ends, at the latest when the chain does. Its result is that of
   * the last map run, with everybody's data, the last map's id, and the first tag there is.
   */
  method FoldStatic(cid: Ids, initial: MapResult, chain: Chain, chainTag: string, traceSoFar: seq<nat>)
    returns (r: FoldResult)
    requires chain.Static? && WellFormed(chain)
    ensures r == Finish(cid, Steps(cid, Start(initial, chain, chainTag, traceSoFar), |chain.maps| - chain.pos + 1))
    ensures ComesOfWalk(r, cid, initial, chain.maps, chain.pos, chainTag, traceSoFar)
  {
    FoldComesOfWalk(cid, initial, chain, chainTag, traceSoFar);
    var maps, last := chain, initial;
    var outputs, tag, trace := [last.d], chainTag, traceSoFar;
    ghost var all := Steps(cid, Start(initial, chain, chainTag, traceSoFar), |chain.maps| - chain.pos + 1);
    while true
      invariant maps.Static? && WellFormed(maps) && maps.maps == chain.maps
      invariant all == Steps(cid, Folding(maps, last, outputs, tag, trace, false), |maps.maps| - maps.pos + 1)
      decreases |maps.maps| - maps.pos
    {
      ghost var f := Folding(maps, last, outputs, tag, trace, false);
      ghost var n: nat := |maps.maps| - maps.pos + 1;
      assert Steps(cid, f, n) == Steps(cid, Step(cid, f), n - 1);
      var (adder, left) := NextFor(maps, outputs);
      maps := left;
      if adder == None {
        break;
      }
      var m := adder.value;
      last := m.run(IdFor(last, cid), MapParams(last.a, last.b, last.c, outputs));
      if tag == "" {
        tag := m.tag;
      }
      outputs := outputs + [last.d];
      trace := trace + [m.name];
      if last.c.NoStream? || last.c.Generator? {
        break;
      }
      if last.e.Some? {
        break;
      }
    }
    r := FoldResult(last.a, last.b, last.c, outputs, last.e, IdFor(last, cid), tag, maps, trace);
  }

  /**
   * The maps a static fold runs are the ones behind the starting position, one after the other;
   * a fold that stops early has an error, no stream, or a generator in its last result.
   */
  lemma {:induction false} StaticRunsInOrder(cid: Ids, f: Folding, n: nat)
    requires f.left.Static? && WellFormed(f.left) && !f.stopped
    requires n > |f.left.maps| - f.left.pos
    ensures var t := Steps(cid, f, n);
            && t.stopped && t.left.Static? && t.left.maps == f.left.maps
            && f.left.pos <= t.left.pos <= |f.left.maps|
            && t.trace == f.trace + Names(f.left.maps)[f.left.pos..t.left.pos]
            && |t.outputs| == |f.outputs| + (t.left.pos - f.left.pos)
            && (t.left.pos < |f.left.maps| ==> t.last.c.NoStream? || t.last.c.Generator? || t.last.e.Some?)
    decreases n
  {
    var g := Step(cid, f);
    if f.left.pos < |f.left.maps| {
      var names := Names(f.left.maps);
      assert g.trace == f.trace + [names[f.left.pos]];
      if g.stopped {
        assert Steps(cid, g, n - 1) == g;
        assert names[f.left.pos..f.left.pos + 1] == [names[f.left.pos]];
      } else {
        StaticRunsInOrder(cid, g, n - 1);
        var t := Steps(cid, g, n - 1);
        assert names[f.left.pos..t.left.pos] == [names[f.left.pos]] + names[f.left.pos + 1..t.left.pos];
      }
    } else {
      assert Steps(cid, g, n - 1) == g;
    }
  }

  /** The selector that always goes to the next index. */
  function Successor(): Selector {
    (i: int, data: Option<seq<Option<nat>>>) => Some(i + 1)
  }

  /** A selector-driven chain that stands where the static one stands. */
  ghost predicate SamePlace(s: Chain, f: Chain) {
    s.Static? && f.Finite? && s.maps == f.maps && s.pos <= |s.maps| && f.current == s.pos - 1
    && forall i, data :: f.select(i, data) == Some(i + 1)
  }

  ghost predicate SameFolding(s: Folding, f: Folding) {
    SamePlace(s.left, f.left) && s == f.(left := s.left)
  }

  lemma NextSame(s: Chain, f: Chain, outputs: seq<Option<nat>>)
    requires SamePlace(s, f)
    ensures NextFor(s, outputs).0 == NextFor(f, outputs).0
    ensures SamePlace(NextFor(s, outputs).1, NextFor(f, outputs).1)
  {
    assert f.select(f.current, Some(outputs)) == Some(f.current + 1);
  }

  /** Folding over either chain goes through the same states, for any number of rounds. */
  lemma {:induction false} FiniteRefinesStatic(cid: Ids, s: Folding, f: Folding, n: nat)
    requires SameFolding(s, f)
    ensures SameFolding(Steps(cid, s, n), Steps(cid, f, n))
    ensures Finish(cid, Steps(cid, s, n)) == Finish(cid, Steps(cid, f, n)).(left := Steps(cid, s, n).left)
    decreases n
  {
    if n > 0 && !s.stopped {
      NextSame(s.left, f.left, s.outputs);
      FiniteRefinesStatic(cid, Step(cid, s), Step(cid, f), n - 1);
    }
  }

  /** So a fold over the successor-driven chain is over by the time the static one is. */
  lemma FiniteEndsWithStatic(cid: Ids, initial: MapResult, maps: seq<Map>, tag: string, trace: seq<nat>)
    ensures var s := Steps(cid, Start(initial, Static(maps, 0), tag, trace), |maps| + 1);
            var f := Steps(cid, Start(initial, Finite(maps, -1, Successor()), tag, trace), |maps| + 1);
            f.stopped && SameFolding(s, f)
  {
    var s := Start(initial, Static(maps, 0), tag, trace);
    FiniteRefinesStatic(cid, s, s.(left := Finite(maps, -1, Successor())), |maps| + 1);
    StaticRunsInOrder(cid, s, |maps| + 1);
  }

  /** Where a walk over a finite chain stands after these places. */
  function PlaceAfter(current: int, places: seq<nat>): int {
    if places == [] then current else places[|places| - 1]
  }

  /** The next place is the one the selector names, from where the walk stands and all data so far. */
  predicate Chosen(select: Selector, maps: seq<Map>, current: int, rs: seq<MapResult>, places: seq<nat>, k: nat)
    requires k < |places| && k < |rs|
  {
    && places[k] < |maps|
    && select(PlaceAfter(current, places[..k]), Some(Outputs(rs[..k + 1]))) == Some(places[k])
  }

  predicate ProducedAt(cid: Ids, maps: seq<Map>, rs: seq<MapResult>, places: seq<nat>, k: nat)
    requires k + 1 < |rs| && k < |places| && places[k] < |maps|
  {
    rs[k + 1] == maps[places[k]].run(
      if rs[k].newId.Some? then rs[k].newId.value else cid,
      MapParams(a := rs[k].a, b := rs[k].b, c := rs[k].c, d := Outputs(rs[..k + 1])))
  }

  /** A walk over a chain by a selector: the places it went to and the results it went through. */
  predicate SelectedWalk(
    cid: Ids, initial: MapResult, maps: seq<Map>, current: int, select: Selector, rs: seq<MapResult>,
    places: seq<nat>)
  {
    && |rs| == |places| + 1 && rs[0] == initial
    && forall k :: 0 <= k < |places| ==>
         Chosen(select, maps, current, rs, places, k) && ProducedAt(cid, maps, rs, places, k)
  }

  /** The selector names no place in the chain. */
  predicate NoPlace(select: Selector, maps: seq<Map>, current: int, rs: seq<MapResult>) {
    match select(current, Some(Outputs(rs)))
    case None => true
    case Some(i) => i < 0 || i >= |maps|
  }

  ghost predicate FollowsSelected(
    f: Folding, maps: seq<Map>, current: int, select: Selector, rs: seq<MapResult>, places: seq<nat>)
  {
    && rs != [] && f.last == rs[|rs| - 1] && f.outputs == Outputs(rs)
    && f.left == Finite(maps, PlaceAfter(current, places), select)
  }

  lemma SelectedSnoc(
    cid: Ids, initial: MapResult, maps: seq<Map>, current: int, select: Selector, rs: seq<MapResult>,
    places: seq<nat>, r: MapResult, i: nat)
    requires SelectedWalk(cid, initial, maps, current, select, rs, places) && i < |maps|
    requires select(PlaceAfter(current, places), Some(Outputs(rs))) == Some(i)
    requires r == maps[i].run(IdFor(rs[|places|], cid),
                              MapParams(rs[|places|].a, rs[|places|].b, rs[|places|].c, Outputs(rs)))
    ensures SelectedWalk(cid, initial, maps, current, select, rs + [r], places + [i])
  {
    var more, further := rs + [r], places + [i];
    forall k | 0 <= k < |further|
      ensures Chosen(select, maps, current, more, further, k) && ProducedAt(cid, maps, more, further, k)
    {
      assert more[..k + 1] == rs[..k + 1] && further[..k] == places[..k];
      if k < |places| {
        assert Chosen(select, maps, current, rs, places, k) && ProducedAt(cid, maps, rs, places, k);
      } else {
        assert rs[..k + 1] == rs && places[..k] == places;
      }
    }
  }

  /**
   * With any selector: each round runs the map that the selector names, from the place before it
   * and all the data so far, and stays where it is when there is none; a fold is over when no place
   * is named or its last result ends it, and after `n` rounds otherwise has run `n` maps.
   */
  lemma {:induction false} SelectorLeads(
    cid: Ids, initial: MapResult, f: Folding, maps: seq<Map>, current: int, select: Selector, rs: seq<MapResult>,
    places: seq<nat>, n: nat)
    returns (all: seq<MapResult>, went: seq<nat>)
    requires -1 <= current < |maps| && WellFormed(f.left) && !f.stopped
    requires SelectedWalk(cid, initial, maps, current, select, rs, places)
    requires FollowsSelected(f, maps, current, select, rs, places)
    ensures SelectedWalk(cid, initial, maps, current, select, all, went)
    ensures var t := Steps(cid, f, n);
            && FollowsSelected(t, maps, current, select, all, went)
            && if t.stopped then
                 (|all| > |rs| && Ends(all[|all| - 1])) || NoPlace(select, maps, PlaceAfter(current, went), all)
               else |went| == |places| + n
    decreases n
  {
    all, went := rs, places;
    if n > 0 {
      var g := Step(cid, f);
      if !NoPlace(select, maps, PlaceAfter(current, places), rs) {
        var i: nat := select(PlaceAfter(current, places), Some(Outputs(rs))).value;
        SelectedSnoc(cid, initial, maps, current, select, rs, places, g.last, i);
        assert Outputs(rs + [g.last]) == Outputs(rs) + [g.last.d];
        if g.stopped {
          all, went := rs + [g.last], places + [i];
          assert Steps(cid, g, n - 1) == g;
        } else {
          all, went := SelectorLeads(
            cid, initial, g, maps, current, select, rs + [g.last], places + [i], n - 1);
        }
      } else {
        assert Steps(cid, g, n - 1) == g;
      }
    }
  }

  /** With any selector, the index of a finite chain stays minus one or a valid index. */
  lemma {:induction false} IndexStaysValid(cid: Ids, f: Folding, n: nat)
    requires f.left.Finite? && WellFormed(f.left)
    ensures var t := Steps(cid, f, n);
            t.left.Finite? && t.left.maps == f.left.maps && -1 <= t.left.current < |f.left.maps|
    decreases n
  {
    if n > 0 && !f.stopped {
      IndexStaysValid(cid, Step(cid, f), n - 1);
    }
  }

  class StaticIter {
    const maps: seq<Map>
    var pos: nat

    constructor (maps: seq<Map>)
      ensures Place() == Static(maps, 0)
    {
      this.maps, this.pos := maps, 0;
    }

    function Place(): Chain
      reads this
    {
      Static(maps, pos)
    }

    method NextWithData(data: Option<seq<Option<nat>>>) returns (m: Option<Map>)
      requires WellFormed(Place())
      modifies this
      ensures (m, Place()) == Next(old(Place()), data)
    {
      if pos == |maps| {
        return None;
      }
      m := Some(maps[pos]);
      pos := pos + 1;
    }
  }

  class FiniteIter {
    const mbVec: seq<Map>
    const selector: Selector
    var currentIndex: int

    constructor (mbVec: seq<Map>, selector: Selector)
      ensures Place() == Finite(mbVec, -1, selector)
    {
      this.mbVec, this.selector, this.currentIndex := mbVec, selector, -1;
    }

    function Place(): Chain
      reads this
    {
      Finite(mbVec, currentIndex, selector)
    }

    method NextWithData(data: Option<seq<Option<nat>>>) returns (m: Option<Map>)
      requires WellFormed(Place())
      modifies this
      ensures (m, Place()) == Next(old(Place()), data)
    {
      var oi := selector(currentIndex, data);
      match oi {
        case None => return None;
        case Some(i) =>
          if i < 0 {
            return None;
          }
          if i >= |mbVec| {
            return None;
          }
          currentIndex := i;
          return Some(mbVec[i]);
      }
    }
  }
}
