/**
 * All the tasks an inbound chain gives rise to: generators that emit streams, folds that carry
 * a stream through the remaining maps, and the results dealt, in any interleaving.
 */
module FoldTree {
  import opened Bytes
  import opened Fold

  /** `direct` marks the one fold that is started without a generator; it is always dealt. */
  datatype Phase =
    | Running(f: Folding, direct: bool)
    | Generating(pos: nat, trace: seq<nat>, tag: string)
    | Dealt(r: FoldResult)

  /** A stream and what became of it; `counted` says whether its last id came from the recorder. */
  datatype Node = Node(parent: Option<nat>, cid: Ids, counted: bool, phase: Phase)

  datatype System = System(nodes: seq<Node>, lastId: nat, outbox: seq<nat>)

  datatype Event =
    | Emit(g: nat, info: MapResult)     // generator `g` yields a stream, a fold is spawned for it
    | Advance(i: nat, r: MapResult)     // fold `i` runs its next map, with result `r`, or finds none
    | Settle(i: nat)                    // fold `i` is over: it is dealt or becomes a generator
    | TakeId                            // another inbound takes an id from the shared recorder

  const ID_LIMIT: nat := 0x1_0000_0000

  /** The state once the first map of the chain has been run, with result `first`. */
  function Init(maps: seq<Map>, inCid: Ids, first: MapResult, lastId: nat): System
    requires maps != []
  {
    var trace := [maps[0].name];
    if first.e.Some? then System([], lastId, [])
    else if first.c.Generator? then
      System([Node(None, inCid, false, Generating(1, trace, maps[0].tag))], lastId, [])
    else
      var f := Start(first, Static(maps, 1), maps[0].tag, trace);
      System([Node(None, inCid + [lastId + 1], true, Running(f, true))], lastId + 1, [])
  }

  predicate ChildOf(s: System, i: nat, g: nat) {
    i < |s.nodes| && s.nodes[i].parent == Some(g)
  }

  /** The id of a stream emitted by `g`: its own, or the generator's id with a fresh number. */
  function NewCid(s: System, g: nat, info: MapResult): Ids
    requires g < |s.nodes|
  {
    match info.newId
    case Some(id) => id
    case None => s.nodes[g].cid + [s.lastId + 1]
  }

  /**
   * What the environment keeps to: a generator names all its streams itself, extending its own
   * id by numbers it never repeats, or none; maps leave the id unset; the recorder does not wrap.
   */
  predicate Enabled(s: System, e: Event) {
    match e
    case Emit(g, info) =>
      && g < |s.nodes| && s.nodes[g].phase.Generating?
      && (info.newId == None ==>
            && s.lastId + 1 < ID_LIMIT
            && forall i :: 0 <= i < |s.nodes| && ChildOf(s, i, g) ==> s.nodes[i].counted)
      && (info.newId.Some? ==>
            var id := info.newId.value;
            |id| == |s.nodes[g].cid| + 1 && id[..|id| - 1] == s.nodes[g].cid
            && forall i :: 0 <= i < |s.nodes| && ChildOf(s, i, g) ==> !s.nodes[i].counted && s.nodes[i].cid != id)
    case Advance(i, r) =>
      i < |s.nodes| && s.nodes[i].phase.Running? && !s.nodes[i].phase.f.stopped && r.newId == None
    case Settle(i) =>
      i < |s.nodes| && s.nodes[i].phase.Running? && s.nodes[i].phase.f.stopped
    case TakeId => s.lastId + 1 < ID_LIMIT
  }

  function AdvanceFold(maps: seq<Map>, f: Folding, r: MapResult): Folding {
    if f.left.Static? && f.left.pos < |maps| then
      Absorb(f, Static(maps, f.left.pos + 1), maps[f.left.pos], r)
    else
      f.(stopped := true)
  }

  /** One event on a static chain. */
  function NextState(maps: seq<Map>, s: System, e: Event): System
    requires Enabled(s, e)
  {
    match e
    case Emit(g, info) =>
      var p := s.nodes[g].phase;
      var f := Start(info, Static(maps, p.pos), p.tag, p.trace);
      var n := Node(Some(g), NewCid(s, g, info), info.newId == None, Running(f, false));
      s.(nodes := s.nodes + [n], lastId := if info.newId == None then s.lastId + 1 else s.lastId)
    case Advance(i, r) =>
      var p := s.nodes[i].phase;
      s.(nodes := s.nodes[i := s.nodes[i].(phase := Running(AdvanceFold(maps, p.f, r), p.direct))])
    case Settle(i) =>
      var n := s.nodes[i];
      var f := n.phase.f;
      if f.last.c.Generator? && !n.phase.direct then
        var g := Generating(if f.left.Static? then f.left.pos else 0, f.trace, f.tag);
        s.(nodes := s.nodes[i := n.(cid := IdFor(f.last, n.cid), phase := g)])
      else
        s.(nodes := s.nodes[i := n.(phase := Dealt(Finish(n.cid, f)))], outbox := s.outbox + [i])
    case TakeId => s.(lastId := s.lastId + 1)
  }

  ghost predicate Run(maps: seq<Map>, s: System, events: seq<Event>, t: System)
    decreases |events|
  {
    if events == [] then s == t
    else Enabled(s, events[0]) && Run(maps, NextState(maps, s, events[0]), events[1..], t)
  }

  /** An advance is one round of the folding loop when the map's outcome is what the map computes. */
  lemma AdvanceIsStep(maps: seq<Map>, cid: Ids, f: Folding, r: MapResult)
    requires f.left.Static? && f.left.maps == maps && WellFormed(f.left) && !f.stopped
    requires f.left.pos < |maps| ==>
      r == maps[f.left.pos].run(IdFor(f.last, cid), MapParams(f.last.a, f.last.b, f.last.c, f.outputs))
    ensures AdvanceFold(maps, f, r) == Step(cid, f)
  {
  }

  /** The maps behind a position were all run, once each and in order. */
  predicate Walked(maps: seq<Map>, pos: nat, trace: seq<nat>) {
    1 <= pos <= |maps| && trace == Names(maps)[..pos]
  }

  ghost predicate PhaseOk(maps: seq<Map>, n: Node) {
    match n.phase
    case Running(f, direct) =>
      && f.left.Static? && f.left.maps == maps && Walked(maps, f.left.pos, f.trace)
      && IdFor(f.last, n.cid) == n.cid
      && (f.stopped && f.left.pos < |maps| ==> f.last.c.NoStream? || f.last.c.Generator? || f.last.e.Some?)
      && (direct <==> n.parent == None)
    case Generating(pos, trace, _) => Walked(maps, pos, trace)
    case Dealt(r) =>
      && r.left.Static? && r.left.maps == maps && Walked(maps, r.left.pos, r.trace)
      && r.id == n.cid
      && (r.left.pos < |maps| ==> r.c.NoStream? || r.e.Some? || (r.c.Generator? && n.parent == None))
      && (r.c.Generator? ==> n.parent == None)
  }

  /** A node's id extends its parent's by one number; the root's is the inbound's or extends it by one. */
  predicate LineageOk(s: System, inCid: Ids, i: nat)
    requires i < |s.nodes|
  {
    var n := s.nodes[i];
    match n.parent
    case Some(p) =>
      && p < i && s.nodes[p].phase.Generating?
      && |n.cid| == |s.nodes[p].cid| + 1 && n.cid[..|s.nodes[p].cid|] == s.nodes[p].cid
    case None =>
      && i == 0
      && if n.phase.Generating? then n.cid == inCid else |n.cid| == |inCid| + 1 && n.cid[..|inCid|] == inCid
  }

  predicate SiblingsOk(s: System, i: nat, j: nat)
    requires i < |s.nodes| && j < |s.nodes|
  {
    i != j && s.nodes[i].parent == s.nodes[j].parent && s.nodes[i].parent.Some? ==>
      s.nodes[i].counted == s.nodes[j].counted && s.nodes[i].cid != s.nodes[j].cid
  }

  predicate CountedOk(s: System, i: nat)
    requires i < |s.nodes|
  {
    var n := s.nodes[i];
    n.counted ==> n.cid != [] && n.cid[|n.cid| - 1] <= s.lastId
  }

  ghost predicate NodeOk(maps: seq<Map>, inCid: Ids, s: System, i: nat)
    requires i < |s.nodes|
  {
    PhaseOk(maps, s.nodes[i]) && LineageOk(s, inCid, i) && CountedOk(s, i)
  }

  /** The results sent are those of the dealt nodes, each sent once. */
  predicate OutboxOk(s: System) {
    && (forall k :: 0 <= k < |s.outbox| ==> s.outbox[k] < |s.nodes| && s.nodes[s.outbox[k]].phase.Dealt?)
    && (forall k, l :: 0 <= k < l < |s.outbox| ==> s.outbox[k] != s.outbox[l])
    && (forall i :: 0 <= i < |s.nodes| && s.nodes[i].phase.Dealt? ==> i in s.outbox)
  }

  ghost predicate Inv(maps: seq<Map>, inCid: Ids, s: System) {
    && maps != []
    && (forall i :: 0 <= i < |s.nodes| ==> NodeOk(maps, inCid, s, i))
    && (forall i, j :: 0 <= i < |s.nodes| && 0 <= j < |s.nodes| ==> SiblingsOk(s, i, j))
    && OutboxOk(s)
  }

  lemma InitInv(maps: seq<Map>, inCid: Ids, first: MapResult, lastId: nat)
    requires maps != [] && first.newId == None
    ensures Inv(maps, inCid, Init(maps, inCid, first, lastId))
  {
    assert Names(maps)[..1] == [maps[0].name];
  }

  lemma EmitKeeps(maps: seq<Map>, inCid: Ids, s: System, g: nat, info: MapResult)
    requires Inv(maps, inCid, s) && Enabled(s, Emit(g, info))
    ensures Inv(maps, inCid, NextState(maps, s, Emit(g, info)))
  {
    var t := NextState(maps, s, Emit(g, info));
    var m := |s.nodes|;
    assert NodeOk(maps, inCid, s, g);
    forall i | 0 <= i < |t.nodes| ensures NodeOk(maps, inCid, t, i) {
      if i < m {
        assert NodeOk(maps, inCid, s, i);
      }
    }
    forall i, j | 0 <= i < |t.nodes| && 0 <= j < |t.nodes| ensures SiblingsOk(t, i, j) {
      if i < m && j < m {
        assert SiblingsOk(s, i, j);
      } else if i < m && j == m && ChildOf(s, i, g) {
        FreshAmongSiblings(maps, inCid, s, g, info, i);
      } else if j < m && i == m && ChildOf(s, j, g) {
        FreshAmongSiblings(maps, inCid, s, g, info, j);
      }
    }
  }

  lemma FreshAmongSiblings(maps: seq<Map>, inCid: Ids, s: System, g: nat, info: MapResult, i: nat)
    requires Inv(maps, inCid, s) && Enabled(s, Emit(g, info))
    requires ChildOf(s, i, g)
    ensures s.nodes[i].cid != NewCid(s, g, info) && s.nodes[i].counted == (info.newId == None)
  {
    assert NodeOk(maps, inCid, s, i);
    if info.newId == None {
      var c := s.nodes[g].cid + [s.lastId + 1];
      assert c[|c| - 1] == s.lastId + 1;
    }
  }

  lemma AdvancePhase(maps: seq<Map>, n: Node, r: MapResult)
    requires PhaseOk(maps, n) && n.phase.Running? && !n.phase.f.stopped && r.newId == None
    ensures PhaseOk(maps, n.(phase := Running(AdvanceFold(maps, n.phase.f, r), n.phase.direct)))
  {
    var f := n.phase.f;
    if f.left.pos < |maps| {
      var names := Names(maps);
      assert names[..f.left.pos + 1] == names[..f.left.pos] + [maps[f.left.pos].name];
    }
  }

  /** Replacing a running node by itself in a later phase disturbs no other node. */
  lemma ReplaceKeeps(maps: seq<Map>, inCid: Ids, s: System, i: nat, n: Node, t: System)
    requires Inv(maps, inCid, s) && i < |s.nodes| && s.nodes[i].phase.Running?
    requires n == s.nodes[i].(phase := n.phase) && PhaseOk(maps, n)
    requires t == s.(nodes := s.nodes[i := n], outbox := t.outbox) && OutboxOk(t)
    requires n.phase.Generating? ==> n.parent.Some?
    ensures Inv(maps, inCid, t)
  {
    forall k | 0 <= k < |t.nodes| ensures NodeOk(maps, inCid, t, k) {
      assert NodeOk(maps, inCid, s, k);
    }
    forall k, l | 0 <= k < |t.nodes| && 0 <= l < |t.nodes| ensures SiblingsOk(t, k, l) {
      assert SiblingsOk(s, k, l);
    }
  }

  lemma SettleKeeps(maps: seq<Map>, inCid: Ids, s: System, i: nat)
    requires Inv(maps, inCid, s) && Enabled(s, Settle(i))
    ensures Inv(maps, inCid, NextState(maps, s, Settle(i)))
  {
    var t := NextState(maps, s, Settle(i));
    assert NodeOk(maps, inCid, s, i);
    SettleOutbox(maps, s, i);
    ReplaceKeeps(maps, inCid, s, i, t.nodes[i], t);
  }

  lemma SettleOutbox(maps: seq<Map>, s: System, i: nat)
    requires OutboxOk(s) && Enabled(s, Settle(i))
    ensures OutboxOk(NextState(maps, s, Settle(i)))
  {
    var t := NextState(maps, s, Settle(i));
    assert i !in s.outbox;
    forall k | 0 <= k < |t.nodes| && t.nodes[k].phase.Dealt? ensures k in t.outbox {
      if k != i {
        assert k in s.outbox;
      }
    }
  }

  lemma StepKeeps(maps: seq<Map>, inCid: Ids, s: System, e: Event)
    requires Inv(maps, inCid, s) && Enabled(s, e)
    ensures Inv(maps, inCid, NextState(maps, s, e))
  {
    var t := NextState(maps, s, e);
    match e {
      case Emit(g, info) => EmitKeeps(maps, inCid, s, g, info);
      case Advance(i, r) =>
        assert NodeOk(maps, inCid, s, i);
        AdvancePhase(maps, s.nodes[i], r);
        ReplaceKeeps(maps, inCid, s, i, t.nodes[i], t);
      case Settle(i) =>
        assert NodeOk(maps, inCid, s, i);
        SettleKeeps(maps, inCid, s, i);
      case TakeId =>
        forall k | 0 <= k < |t.nodes| ensures NodeOk(maps, inCid, t, k) {
          assert NodeOk(maps, inCid, s, k);
        }
        forall k, l | 0 <= k < |t.nodes| && 0 <= l < |t.nodes| ensures SiblingsOk(t, k, l) {
          assert SiblingsOk(s, k, l);
        }
    }
  }

  lemma {:induction false} RunKeeps(maps: seq<Map>, inCid: Ids, s: System, events: seq<Event>, t: System)
    requires Inv(maps, inCid, s) && Run(maps, s, events, t)
    ensures Inv(maps, inCid, t)
    decreases |events|
  {
    if events != [] {
      StepKeeps(maps, inCid, s, events[0]);
      RunKeeps(maps, inCid, NextState(maps, s, events[0]), events[1..], t);
    }
  }

  /** What the rest of a run leaves alone: a node keeps its place in the tree, and its fate once it has one. */
  ghost predicate Later(s: System, t: System) {
    && |s.nodes| <= |t.nodes| && s.lastId <= t.lastId
    && s.outbox <= t.outbox
    && forall i :: 0 <= i < |s.nodes| ==>
         && t.nodes[i].parent == s.nodes[i].parent && t.nodes[i].cid == s.nodes[i].cid
         && (!s.nodes[i].phase.Running? ==> t.nodes[i] == s.nodes[i])
  }

  function Emitted(events: seq<Event>): nat {
    if events == [] then 0 else (if events[0].Emit? then 1 else 0) + Emitted(events[1..])
  }

  /**
   * Every emitted stream is one new node, in every interleaving; a node that has been dealt or
   * has become a generator stays that, and no result sent is taken back or reordered.
   */
  lemma {:induction false} RunIsLater(maps: seq<Map>, inCid: Ids, s: System, events: seq<Event>, t: System)
    requires Inv(maps, inCid, s) && Run(maps, s, events, t)
    ensures Later(s, t) && |t.nodes| == |s.nodes| + Emitted(events)
    decreases |events|
  {
    if events != [] {
      var u := NextState(maps, s, events[0]);
      if events[0].Settle? {
        assert NodeOk(maps, inCid, s, events[0].i);
      }
      StepKeeps(maps, inCid, s, events[0]);
      RunIsLater(maps, inCid, u, events[1..], t);
    }
  }

  /** How many more rounds a fold can take. */
  function RoundsLeft(maps: seq<Map>, f: Folding): nat {
    if f.stopped || !f.left.Static? || f.left.pos > |maps| then 0 else |maps| - f.left.pos + 1
  }

  /** No fold gets stuck or goes on forever: each round brings it closer to being settled. */
  lemma FoldProceeds(maps: seq<Map>, inCid: Ids, s: System, i: nat, r: MapResult)
    requires Inv(maps, inCid, s) && i < |s.nodes| && s.nodes[i].phase.Running? && r.newId == None
    ensures s.nodes[i].phase.f.stopped ==>
      Enabled(s, Settle(i)) && !NextState(maps, s, Settle(i)).nodes[i].phase.Running?
    ensures !s.nodes[i].phase.f.stopped ==>
      && Enabled(s, Advance(i, r))
      && RoundsLeft(maps, NextState(maps, s, Advance(i, r)).nodes[i].phase.f) < RoundsLeft(maps, s.nodes[i].phase.f)
  {
    assert NodeOk(maps, inCid, s, i);
  }

  /** All reachable ids are different, dealt or not. */
  lemma {:induction false} IdsDistinct(maps: seq<Map>, inCid: Ids, s: System, i: nat, j: nat)
    requires Inv(maps, inCid, s) && i < |s.nodes| && j < |s.nodes| && i != j
    ensures s.nodes[i].cid != s.nodes[j].cid
    decreases i + j
  {
    assert NodeOk(maps, inCid, s, i) && NodeOk(maps, inCid, s, j);
    var n, m := s.nodes[i], s.nodes[j];
    if n.parent.Some? && m.parent.Some? {
      if n.parent == m.parent {
        assert SiblingsOk(s, i, j);
      } else {
        IdsDistinct(maps, inCid, s, n.parent.value, m.parent.value);
      }
    } else if n.parent.Some? {
      LongerThanRoot(maps, inCid, s, i);
    } else {
      LongerThanRoot(maps, inCid, s, j);
    }
  }

  /** How many generators a stream came through. */
  function Crossed(s: System, i: nat): nat
    requires i < |s.nodes|
    decreases i
  {
    match s.nodes[i].parent
    case Some(p) => if p < i then 1 + Crossed(s, p) else 0
    case None => 0
  }

  lemma {:induction false} LongerThanRoot(maps: seq<Map>, inCid: Ids, s: System, i: nat)
    requires Inv(maps, inCid, s) && i < |s.nodes|
    ensures |s.nodes[i].cid| >= |inCid| && s.nodes[i].cid[..|inCid|] == inCid
    ensures s.nodes[0].phase.Generating? ==> |s.nodes[i].cid| == |inCid| + Crossed(s, i)
    ensures s.nodes[i].parent.Some? ==> |s.nodes[i].cid| > |s.nodes[0].cid|
    decreases i
  {
    assert NodeOk(maps, inCid, s, i) && NodeOk(maps, inCid, s, 0);
    var n := s.nodes[i];
    if n.parent.Some? {
      var p := n.parent.value;
      LongerThanRoot(maps, inCid, s, p);
      assert n.cid[..|inCid|] == n.cid[..|s.nodes[p].cid|][..|inCid|];
      assert NodeOk(maps, inCid, s, p);
    }
  }

  /**
   * In every reachable state, whatever the scheduling, any two results dealt come from different
   * streams and carry different ids; a result's id strictly extends the inbound's, by one number
   * for each generator crossed when the inbound starts with a generator.
   */
  lemma DealtIds(maps: seq<Map>, inCid: Ids, first: MapResult, lastId: nat, events: seq<Event>, t: System)
    requires maps != [] && first.newId == None
    requires Run(maps, Init(maps, inCid, first, lastId), events, t)
    ensures forall k, l :: 0 <= k < l < |t.outbox| ==>
      && t.outbox[k] < |t.nodes| && t.outbox[l] < |t.nodes|
      && t.nodes[t.outbox[k]].phase.Dealt? && t.nodes[t.outbox[l]].phase.Dealt?
      && t.nodes[t.outbox[k]].phase.r.id != t.nodes[t.outbox[l]].phase.r.id
    ensures forall i :: 0 <= i < |t.nodes| && t.nodes[i].phase.Dealt? ==>
      var id := t.nodes[i].phase.r.id;
      && |id| > |inCid| && id[..|inCid|] == inCid
      && (t.nodes[0].phase.Generating? ==> |id| == |inCid| + Crossed(t, i))
  {
    InitInv(maps, inCid, first, lastId);
    RunKeeps(maps, inCid, Init(maps, inCid, first, lastId), events, t);
    forall k, l | 0 <= k < l < |t.outbox|
      ensures t.outbox[k] < |t.nodes| && t.outbox[l] < |t.nodes|
      ensures t.nodes[t.outbox[k]].phase.Dealt? && t.nodes[t.outbox[l]].phase.Dealt?
      ensures t.nodes[t.outbox[k]].phase.r.id != t.nodes[t.outbox[l]].phase.r.id
    {
      var i, j := t.outbox[k], t.outbox[l];
      assert NodeOk(maps, inCid, t, i) && NodeOk(maps, inCid, t, j);
      IdsDistinct(maps, inCid, t, i, j);
    }
    forall i | 0 <= i < |t.nodes| && t.nodes[i].phase.Dealt?
      ensures |t.nodes[i].phase.r.id| > |inCid| && t.nodes[i].phase.r.id[..|inCid|] == inCid
      ensures t.nodes[0].phase.Generating? ==> |t.nodes[i].phase.r.id| == |inCid| + Crossed(t, i)
    {
      assert NodeOk(maps, inCid, t, i) && NodeOk(maps, inCid, t, 0);
      LongerThanRoot(maps, inCid, t, i);
    }
  }

  /**
   * In every reachable state the maps run from the first one to any dealt result are a prefix of
   * the chain, and the whole chain unless an error, a vanished stream, or (only for a fold
   * started without a generator) a generator stopped it; a generator otherwise becomes a node
   * of its own over exactly the maps that are left.
   */
  lemma DealtTraces(maps: seq<Map>, inCid: Ids, first: MapResult, lastId: nat, events: seq<Event>, t: System, i: nat)
    requires maps != [] && first.newId == None
    requires Run(maps, Init(maps, inCid, first, lastId), events, t) && i < |t.nodes|
    ensures t.nodes[i].phase.Dealt? ==>
      var r := t.nodes[i].phase.r;
      && r.left.Static? && r.left.maps == maps && 1 <= r.left.pos <= |maps|
      && r.trace == Names(maps)[..r.left.pos]
      && (r.left.pos < |maps| ==> r.e.Some? || r.c.NoStream? || (r.c.Generator? && t.nodes[i].parent == None))
      && i in t.outbox
    ensures t.nodes[i].phase.Generating? ==>
      1 <= t.nodes[i].phase.pos <= |maps| && t.nodes[i].phase.trace == Names(maps)[..t.nodes[i].phase.pos]
  {
    InitInv(maps, inCid, first, lastId);
    RunKeeps(maps, inCid, Init(maps, inCid, first, lastId), events, t);
    assert NodeOk(maps, inCid, t, i);
  }

  predicate GeneratorDealt(t: System) {
    exists i :: 0 <= i < |t.nodes| && t.nodes[i].phase.Dealt? && t.nodes[i].phase.r.c.Generator?
  }

  /** Some run deals a generator as if it were a stream. */
  ghost predicate DealsGenerator(maps: seq<Map>, inCid: Ids, first: MapResult, lastId: nat)
    requires maps != []
  {
    exists events: seq<Event>, t: System ::
      Run(maps, Init(maps, inCid, first, lastId), events, t) && GeneratorDealt(t)
  }

  /** A run that does: the first map gives no generator, the second one does. */
  lemma GeneratorAfterStream(maps: seq<Map>, inCid: Ids, first: MapResult, lastId: nat, r: MapResult)
    requires |maps| >= 2 && first.e == None && !first.c.Generator? && r.c.Generator? && r.newId == None
    ensures DealsGenerator(maps, inCid, first, lastId)
  {
    var s := Init(maps, inCid, first, lastId);
    var u := NextState(maps, s, Advance(0, r));
    var t := NextState(maps, u, Settle(0));
    assert t.nodes[0].phase.r.c.Generator?;
    RunTwo(maps, s, Advance(0, r), Settle(0), u, t);
  }

  lemma RunTwo(maps: seq<Map>, s: System, a: Event, b: Event, u: System, t: System)
    requires Enabled(s, a) && u == NextState(maps, s, a) && Enabled(u, b) && t == NextState(maps, u, b)
    ensures Run(maps, s, [a, b], t)
  {
    assert [a, b][1..] == [b] && [b][1..] == [];
    assert Run(maps, t, [], t);
    assert Run(maps, u, [b], t);
  }

  /** From a state without streams none ever comes. */
  lemma {:induction false} NothingFromNothing(maps: seq<Map>, s: System, events: seq<Event>, t: System)
    requires s.nodes == [] && Run(maps, s, events, t)
    ensures t.nodes == []
    decreases |events|
  {
    if events != [] {
      NothingFromNothing(maps, NextState(maps, s, events[0]), events[1..], t);
    }
  }

  /** With no map left, the one fold started without a generator ends as it began. */
  ghost predicate AsBegun(maps: seq<Map>, s: System, c: Stream) {
    && |s.nodes| == 1
    && match s.nodes[0].phase
       case Running(f, direct) => direct && f.left == Static(maps, 1) && f.last.c == c
       case Generating(_, _, _) => false
       case Dealt(r) => r.c == c
  }

  lemma {:induction false} StaysAsBegun(maps: seq<Map>, s: System, events: seq<Event>, t: System, c: Stream)
    requires |maps| == 1 && AsBegun(maps, s, c) && Run(maps, s, events, t)
    ensures AsBegun(maps, t, c)
    decreases |events|
  {
    if events != [] {
      StaysAsBegun(maps, NextState(maps, s, events[0]), events[1..], t, c);
    }
  }

  /** Below a generator at the start no generator is ever dealt. */
  lemma GeneratorRootDealsNone(
    maps: seq<Map>, inCid: Ids, first: MapResult, lastId: nat, events: seq<Event>, t: System)
    requires maps != [] && first.newId == None && first.e == None && first.c.Generator?
    requires Run(maps, Init(maps, inCid, first, lastId), events, t)
    ensures !GeneratorDealt(t)
  {
    var s := Init(maps, inCid, first, lastId);
    InitInv(maps, inCid, first, lastId);
    RunKeeps(maps, inCid, s, events, t);
    RunIsLater(maps, inCid, s, events, t);
    assert t.nodes[0] == s.nodes[0];
    forall i | 0 <= i < |t.nodes| && t.nodes[i].phase.Dealt? ensures !t.nodes[i].phase.r.c.Generator? {
      assert NodeOk(maps, inCid, t, i);
    }
  }

  /**
   * A chain can deal a generator if and only if its first map gives neither a generator nor an
   * error and another map follows it.
   */
  lemma DealsGeneratorExactly(maps: seq<Map>, inCid: Ids, first: MapResult, lastId: nat)
    requires maps != [] && first.newId == None
    ensures DealsGenerator(maps, inCid, first, lastId) <==> first.e == None && !first.c.Generator? && |maps| >= 2
  {
    if first.e == None && !first.c.Generator? && |maps| >= 2 {
      GeneratorAfterStream(maps, inCid, first, lastId, MapResult(None, None, Generator, None, None, None));
    } else {
      forall events, t | Run(maps, Init(maps, inCid, first, lastId), events, t) ensures !GeneratorDealt(t) {
        NoGeneratorDealt(maps, inCid, first, lastId, events, t);
      }
    }
  }

  lemma NoGeneratorDealt(maps: seq<Map>, inCid: Ids, first: MapResult, lastId: nat, events: seq<Event>, t: System)
    requires maps != [] && first.newId == None && (first.e.Some? || first.c.Generator? || |maps| == 1)
    requires Run(maps, Init(maps, inCid, first, lastId), events, t)
    ensures !GeneratorDealt(t)
  {
    var s := Init(maps, inCid, first, lastId);
    if first.e.Some? {
      NothingFromNothing(maps, s, events, t);
    } else if first.c.Generator? {
      GeneratorRootDealsNone(maps, inCid, first, lastId, events, t);
    } else {
      StaysAsBegun(maps, s, events, t, first.c);
    }
  }
}
