/** What a dealt result holds, in terms of the results that its stream was given on its way. */
module FoldDealt {
  import opened Bytes
  import opened Fold
  import opened FoldTree

  /** Results that node `i` is given by one event: the stream it starts with, or that of its next map. */
  function GivenNow(maps: seq<Map>, s: System, e: Event, i: nat): seq<MapResult>
    requires Enabled(s, e)
  {
    match e
    case Emit(_, info) => if i == |s.nodes| then [info] else []
    case Advance(j, r) =>
      var left := s.nodes[j].phase.f.left;
      if i == j && left.Static? && left.pos < |maps| then [r] else []
    case _ => []
  }

  /** Results that node `i` is given in a run. */
  function Given(maps: seq<Map>, s: System, events: seq<Event>, i: nat): seq<MapResult>
    decreases |events|
  {
    if events == [] || !Enabled(s, events[0]) then []
    else GivenNow(maps, s, events[0], i) + Given(maps, NextState(maps, s, events[0]), events[1..], i)
  }

  /** The tag is the first one among the tags of the maps run since the very first. */
  ghost predicate Tagged(maps: seq<Map>, n: Node) {
    match n.phase
    case Running(f, _) => f.left.Static? && 1 <= f.left.pos <= |maps| && IsFirstTag(f.tag, Tags(maps[..f.left.pos]))
    case Generating(pos, _, tag) => 1 <= pos <= |maps| && IsFirstTag(tag, Tags(maps[..pos]))
    case Dealt(r) => r.left.Static? && 1 <= r.left.pos <= |maps| && IsFirstTag(r.tag, Tags(maps[..r.left.pos]))
  }

  ghost predicate AllTagged(maps: seq<Map>, s: System) {
    forall i :: 0 <= i < |s.nodes| ==> Tagged(maps, s.nodes[i])
  }

  /** The node's stream is what the results `rs` make it; a stream keeps the id it came with. */
  predicate Holds(n: Node, rs: seq<MapResult>) {
    && rs != [] && (rs[0].newId.Some? ==> n.cid == rs[0].newId.value)
    && (forall k :: 1 <= k < |rs| ==> rs[k].newId == None)
    && match n.phase
       case Running(f, _) => f.last == rs[|rs| - 1] && f.outputs == Outputs(rs)
       case Generating(_, _, _) => true
       case Dealt(r) => Carries(r, rs, n.cid)
  }

  /** Address, buffer, stream and error are those of the last result, the data everybody's. */
  predicate Carries(r: FoldResult, rs: seq<MapResult>, cid: Ids)
    requires rs != []
  {
    var last := rs[|rs| - 1];
    r.a == last.a && r.b == last.b && r.c == last.c && r.e == last.e && r.d == Outputs(rs) && r.id == cid
  }

  lemma TagsSnoc(maps: seq<Map>, pos: nat)
    requires pos < |maps|
    ensures Tags(maps[..pos + 1]) == Tags(maps[..pos]) + [maps[pos].tag]
  {
  }

  lemma AdvanceTagged(maps: seq<Map>, n: Node, r: MapResult)
    requires Tagged(maps, n) && n.phase.Running?
    ensures Tagged(maps, n.(phase := Running(AdvanceFold(maps, n.phase.f, r), n.phase.direct)))
  {
    var f := n.phase.f;
    if f.left.pos < |maps| {
      TagsSnoc(maps, f.left.pos);
      FirstTagSnoc(f.tag, Tags(maps[..f.left.pos]), maps[f.left.pos].tag);
    }
  }

  lemma StepTagged(maps: seq<Map>, s: System, e: Event)
    requires AllTagged(maps, s) && Enabled(s, e)
    ensures AllTagged(maps, NextState(maps, s, e))
  {
    if e.Advance? {
      AdvanceTagged(maps, s.nodes[e.i], e.r);
    }
  }

  lemma AdvanceHolds(maps: seq<Map>, n: Node, rs: seq<MapResult>, r: MapResult)
    requires Holds(n, rs) && n.phase.Running? && r.newId == None
    ensures var f := n.phase.f;
            Holds(n.(phase := Running(AdvanceFold(maps, f, r), n.phase.direct)),
                  if f.left.Static? && f.left.pos < |maps| then rs + [r] else rs)
  {
    assert Outputs(rs + [r]) == Outputs(rs) + [r.d];
  }

  /** A settled node holds what it held; `n.cid` is the id the fold ended with. */
  lemma SettleHolds(maps: seq<Map>, s: System, i: nat, rs: seq<MapResult>)
    requires Enabled(s, Settle(i)) && Holds(s.nodes[i], rs)
    ensures Holds(NextState(maps, s, Settle(i)).nodes[i], rs)
  {
  }

  lemma StepHolds(maps: seq<Map>, s: System, e: Event, i: nat, had: seq<MapResult>)
    requires Enabled(s, e) && if i < |s.nodes| then Holds(s.nodes[i], had) else had == []
    ensures var t, has := NextState(maps, s, e), had + GivenNow(maps, s, e, i);
            if i < |t.nodes| then Holds(t.nodes[i], has) else has == []
  {
    assert had + [] == had;
    match e {
      case Emit(_, info) =>
        assert Outputs([info]) == [info.d];
        assert [] + [info] == [info];
      case Advance(j, r) =>
        if i == j {
          AdvanceHolds(maps, s.nodes[i], had, r);
        }
      case Settle(j) =>
        if i == j {
          SettleHolds(maps, s, i, had);
        }
      case TakeId =>
    }
  }

  lemma {:induction false} RunHolds(
    maps: seq<Map>, s: System, events: seq<Event>, t: System, i: nat, had: seq<MapResult>)
    requires AllTagged(maps, s) && Run(maps, s, events, t)
    requires if i < |s.nodes| then Holds(s.nodes[i], had) else had == []
    ensures AllTagged(maps, t)
    ensures var has := had + Given(maps, s, events, i);
            if i < |t.nodes| then Holds(t.nodes[i], has) else has == []
    decreases |events|
  {
    if events == [] {
      assert had + [] == had;
    } else {
      StepTagged(maps, s, events[0]);
      StepHolds(maps, s, events[0], i, had);
      var now := GivenNow(maps, s, events[0], i);
      RunHolds(maps, NextState(maps, s, events[0]), events[1..], t, i, had + now);
      var later := Given(maps, NextState(maps, s, events[0]), events[1..], i);
      assert had + now + later == had + (now + later);
    }
  }

  /** What node `i` is given from the first map on. */
  function GivenInAll(
    maps: seq<Map>, inCid: Ids, first: MapResult, lastId: nat, events: seq<Event>, i: nat): seq<MapResult>
    requires maps != []
  {
    var s := Init(maps, inCid, first, lastId);
    (if i < |s.nodes| then [first] else []) + Given(maps, s, events, i)
  }

  /**
   * In every interleaving a dealt result carries the address, buffer, stream and error of the last
   * result its stream was given, the data of all of them in order, and the id the stream came
   * with; its tag is the first there is among those of the maps run since the very first.
   */
  lemma DealtCarries(
    maps: seq<Map>, inCid: Ids, first: MapResult, lastId: nat, events: seq<Event>, t: System, i: nat)
    requires maps != [] && first.newId == None
    requires Run(maps, Init(maps, inCid, first, lastId), events, t) && i < |t.nodes|
    ensures var rs := GivenInAll(maps, inCid, first, lastId, events, i);
            && rs != [] && (rs[0].newId.Some? ==> t.nodes[i].cid == rs[0].newId.value)
            && match t.nodes[i].phase
               case Dealt(r) =>
                 && Carries(r, rs, t.nodes[i].cid)
                 && r.left.Static? && r.left.pos <= |maps| && IsFirstTag(r.tag, Tags(maps[..r.left.pos]))
               case Generating(pos, _, tag) => pos <= |maps| && IsFirstTag(tag, Tags(maps[..pos]))
               case Running(_, _) => true
  {
    var s := Init(maps, inCid, first, lastId);
    if s.nodes != [] {
      FirstTagAlone(maps[0].tag);
      assert Tags(maps[..1]) == [maps[0].tag] && Outputs([first]) == [first.d];
    }
    RunHolds(maps, s, events, t, i, if i < |s.nodes| then [first] else []);
  }

  /** Numbers that events take from the shared recorder. */
  function Taken(events: seq<Event>): nat {
    if events == [] then 0
    else (if events[0].TakeId? || (events[0].Emit? && events[0].info.newId == None) then 1 else 0) + Taken(events[1..])
  }

  lemma {:induction false} RunCut(maps: seq<Map>, s: System, a: seq<Event>, b: seq<Event>, t: System)
    returns (u: System)
    requires Run(maps, s, a + b, t)
    ensures Run(maps, s, a, u) && Run(maps, u, b, t)
    decreases |a|
  {
    u := s;
    if a == [] {
      assert a + b == b;
    } else {
      assert (a + b)[1..] == a[1..] + b;
      u := RunCut(maps, NextState(maps, s, a[0]), a[1..], b, t);
    }
  }

  lemma {:induction false} LastIdIs(maps: seq<Map>, s: System, events: seq<Event>, t: System)
    requires Run(maps, s, events, t)
    ensures t.lastId == s.lastId + Taken(events)
    decreases |events|
  {
    if events != [] {
      LastIdIs(maps, NextState(maps, s, events[0]), events[1..], t);
    }
  }

  /** The first stream: none after an error, else the inbound's own id, or one number more without a generator. */
  lemma RootId(maps: seq<Map>, inCid: Ids, first: MapResult, lastId: nat, events: seq<Event>, t: System)
    requires maps != [] && first.newId == None && Run(maps, Init(maps, inCid, first, lastId), events, t)
    ensures if first.e.Some? then t.nodes == [] && t.outbox == []
            else
              && t.nodes != [] && t.nodes[0].parent == None
              && t.nodes[0].cid == inCid + if first.c.Generator? then [] else [lastId + 1]
  {
    var s := Init(maps, inCid, first, lastId);
    InitInv(maps, inCid, first, lastId);
    RunIsLater(maps, inCid, s, events, t);
    assert inCid + [] == inCid;
    if first.e.Some? {
      NothingHappens(maps, s, events, t);
    }
  }

  lemma {:induction false} NothingHappens(maps: seq<Map>, s: System, events: seq<Event>, t: System)
    requires Run(maps, s, events, t) && s.nodes == [] && s.outbox == []
    ensures t.nodes == [] && t.outbox == []
    decreases |events|
  {
    if events != [] {
      NothingHappens(maps, NextState(maps, s, events[0]), events[1..], t);
    }
  }

  /** What holds just before an event of a run. */
  lemma BeforeEmission(maps: seq<Map>, inCid: Ids, first: MapResult, lastId: nat, events: seq<Event>, u: System)
    requires maps != [] && first.newId == None && Run(maps, Init(maps, inCid, first, lastId), events, u)
    ensures Inv(maps, inCid, u) && (first.e.Some? ==> u.nodes == [])
    ensures first.e == None ==>
      |u.nodes| == 1 + Emitted(events) && u.lastId == lastId + Taken(events) + if first.c.Generator? then 0 else 1
  {
    var s := Init(maps, inCid, first, lastId);
    InitInv(maps, inCid, first, lastId);
    RunKeeps(maps, inCid, s, events, u);
    RunIsLater(maps, inCid, s, events, u);
    LastIdIs(maps, s, events, u);
    if first.e.Some? {
      NothingHappens(maps, s, events, u);
    }
  }

  lemma StateBefore(
    maps: seq<Map>, inCid: Ids, first: MapResult, lastId: nat, before: seq<Event>, after: seq<Event>, t: System)
    returns (u: System)
    requires maps != [] && first.newId == None && Run(maps, Init(maps, inCid, first, lastId), before + after, t)
    ensures Inv(maps, inCid, u) && Run(maps, u, after, t)
    ensures u.nodes == []
            || (|u.nodes| == 1 + Emitted(before)
                && u.lastId == lastId + Taken(before) + if first.c.Generator? then 0 else 1)
  {
    u := RunCut(maps, Init(maps, inCid, first, lastId), before, after, t);
    BeforeEmission(maps, inCid, first, lastId, before, u);
  }

  lemma EmittedStays(maps: seq<Map>, inCid: Ids, u: System, g: nat, info: MapResult, after: seq<Event>, t: System)
    requires Inv(maps, inCid, u) && Run(maps, u, [Emit(g, info)] + after, t)
    ensures u.nodes != []
    ensures var i := |u.nodes|;
            && g < i < |t.nodes| && t.nodes[i].parent == Some(g)
            && t.nodes[i].cid == match info.newId
                                 case Some(id) => id
                                 case None => t.nodes[g].cid + [u.lastId + 1]
  {
    assert ([Emit(g, info)] + after)[1..] == after;
    var v := NextState(maps, u, Emit(g, info));
    StepKeeps(maps, inCid, u, Emit(g, info));
    RunIsLater(maps, inCid, v, after, t);
  }

  /**
   * In every interleaving, a stream emitted keeps for good the id it came with, or else the id of
   * its generator with the next number of the recorder, which no other inbound and no other stream
   * was given.
   */
  lemma EmittedIds(
    maps: seq<Map>, inCid: Ids, first: MapResult, lastId: nat, before: seq<Event>, g: nat, info: MapResult,
    after: seq<Event>, t: System)
    requires maps != [] && first.newId == None
    requires Run(maps, Init(maps, inCid, first, lastId), before + ([Emit(g, info)] + after), t)
    ensures var i, base := 1 + Emitted(before), lastId + if first.c.Generator? then 0 else 1;
            && g < i < |t.nodes| && t.nodes[i].parent == Some(g)
            && t.nodes[i].cid == match info.newId
                                 case Some(id) => id
                                 case None => t.nodes[g].cid + [base + Taken(before) + 1]
  {
    var u := StateBefore(maps, inCid, first, lastId, before, [Emit(g, info)] + after, t);
    EmittedStays(maps, inCid, u, g, info, after, t);
  }
}
