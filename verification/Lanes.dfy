/** The swimlane of every step: its owner's, or that of a step that leads to it. */
module Lanes {
  import opened Basics
  import opened Workflow

  datatype Flow = Flow(source: string, target: string)

  predicate Drawn(e: Edge)
  {
    e.from != "" && e.to != "" && e.to != END
  }

  function EdgeFlows(edges: seq<Edge>): seq<Flow>
  {
    if edges == [] then []
    else
      var last := edges[|edges| - 1];
      EdgeFlows(edges[..|edges| - 1]) + if Drawn(last) then [Flow(last.from, last.to)] else []
  }

  function TargetFlows(id: string, ts: seq<string>): seq<Flow>
  {
    if ts == [] then []
    else
      var last := ts[|ts| - 1];
      TargetFlows(id, ts[..|ts| - 1]) + if last != "" && last != END then [Flow(id, last)] else []
  }

  function ArmFlows(nodes: seq<Step>): seq<Flow>
  {
    if nodes == [] then []
    else
      var last := nodes[|nodes| - 1];
      ArmFlows(nodes[..|nodes| - 1]) + if last.kind == Branch then TargetFlows(last.id, Arms(last)) else []
  }

  /** A plain edge between named steps, or a branch's arm. */
  ghost predicate Flows(g: Graph, s: string, t: string)
  {
    t != "" && t != END && ((s != "" && Edge(s, t) in g.edges) || ByArm(g.nodes, s, t))
  }

  ghost predicate Lists(flows: seq<Flow>, g: Graph)
  {
    forall s, t :: Flow(s, t) in flows <==> Flows(g, s, t)
  }

  lemma ArmFlowsLast(nodes: seq<Step>, i: nat)
    requires i < |nodes|
    ensures ArmFlows(nodes[..i + 1])
            == ArmFlows(nodes[..i]) + if nodes[i].kind == Branch then TargetFlows(nodes[i].id, Arms(nodes[i])) else []
  {
    assert nodes[..i + 1][..i] == nodes[..i];
  }

  method BranchFlows(n: Step, before: seq<Flow>) returns (flows: seq<Flow>)
    ensures flows == before + TargetFlows(n.id, Arms(n))
  {
    hide CaseTargets;
    flows := before;
    var cases := CaseTargets(n.cases);
    for k := 0 to |n.cases|
      invariant flows == before + TargetFlows(n.id, cases[..k])
    {
      assert cases[..k + 1][..k] == cases[..k];
      if n.cases[k].to != "" && n.cases[k].to != END {
        flows := flows + [Flow(n.id, n.cases[k].to)];
      }
    }
    assert cases[..|n.cases|] == cases;
    if n.default == "" {
      assert Arms(n) == cases;
    } else {
      assert Arms(n)[..|Arms(n)| - 1] == cases;
    }
    if n.default != "" && n.default != END {
      flows := flows + [Flow(n.id, n.default)];
    }
  }

  /** The edges as drawn: the plain ones in their order, then each branch's arms. */
  function AllFlows(g: Graph): seq<Flow>
  {
    EdgeFlows(g.edges) + ArmFlows(g.nodes)
  }

  method ProcessEdges(g: Graph) returns (flows: seq<Flow>)
    ensures flows == AllFlows(g) && Lists(flows, g)
  {
    flows := EdgeFlows(g.edges);
    ghost var plain := flows;
    for i := 0 to |g.nodes|
      invariant flows == plain + ArmFlows(g.nodes[..i])
    {
      ArmFlowsLast(g.nodes, i);
      Regroup(plain, ArmFlows(g.nodes[..i]), TargetFlows(g.nodes[i].id, Arms(g.nodes[i])));
      if g.nodes[i].kind != Branch {
        continue;
      }
      flows := BranchFlows(g.nodes[i], flows);
    }
    assert g.nodes[..|g.nodes|] == g.nodes;
    AllFlowsList(g);
  }

  lemma AllFlowsList(g: Graph)
    ensures Lists(AllFlows(g), g)
  {
    forall s, t ensures Flow(s, t) in AllFlows(g) <==> Flows(g, s, t) {
      EdgeFlowsMean(g.edges, Flow(s, t));
      ArmFlowsMean(g.nodes, Flow(s, t));
    }
  }

  lemma {:induction false} EdgeFlowsMean(edges: seq<Edge>, f: Flow)
    ensures f in EdgeFlows(edges) <==> Edge(f.source, f.target) in edges && Drawn(Edge(f.source, f.target))
  {
    if edges != [] {
      EdgeFlowsMean(edges[..|edges| - 1], f);
      assert edges == edges[..|edges| - 1] + [edges[|edges| - 1]];
    }
  }

  lemma {:induction false} TargetFlowsMean(id: string, ts: seq<string>, f: Flow)
    ensures f in TargetFlows(id, ts) <==> f.source == id && f.target in ts && f.target != "" && f.target != END
  {
    if ts != [] {
      TargetFlowsMean(id, ts[..|ts| - 1], f);
      assert ts == ts[..|ts| - 1] + [ts[|ts| - 1]];
    }
  }

  lemma {:induction false} ArmFlowsMean(nodes: seq<Step>, f: Flow)
    ensures f in ArmFlows(nodes) <==> ByArm(nodes, f.source, f.target) && f.target != "" && f.target != END
  {
    if nodes == [] {
      assert !ByArm(nodes, f.source, f.target);
    } else {
      ArmFlowsMean(nodes[..|nodes| - 1], f);
      TargetFlowsMean(nodes[|nodes| - 1].id, Arms(nodes[|nodes| - 1]), f);
      ArmsMean(nodes[|nodes| - 1], f.target);
      ByArmLast(nodes, f.source, f.target);
    }
  }

  // ---- the order of the flows ---------------------------------------------------

  lemma {:induction false} EdgeFlowsJoin(a: seq<Edge>, b: seq<Edge>)
    ensures EdgeFlows(a + b) == EdgeFlows(a) + EdgeFlows(b)
  {
    if b == [] {
      assert a + b == a;
    } else {
      assert (a + b)[..|a + b| - 1] == a + b[..|b| - 1];
      EdgeFlowsJoin(a, b[..|b| - 1]);
    }
  }

  lemma {:induction false} TargetFlowsJoin(id: string, a: seq<string>, b: seq<string>)
    ensures TargetFlows(id, a + b) == TargetFlows(id, a) + TargetFlows(id, b)
  {
    if b == [] {
      assert a + b == a;
    } else {
      assert (a + b)[..|a + b| - 1] == a + b[..|b| - 1];
      TargetFlowsJoin(id, a, b[..|b| - 1]);
    }
  }

  lemma {:induction false} ArmFlowsJoin(a: seq<Step>, b: seq<Step>)
    ensures ArmFlows(a + b) == ArmFlows(a) + ArmFlows(b)
  {
    if b == [] {
      assert a + b == a;
    } else {
      hide TargetFlows, Arms;
      assert (a + b)[..|a + b| - 1] == a + b[..|b| - 1];
      ArmFlowsJoin(a, b[..|b| - 1]);
    }
  }

  /** One flow for what goes from one named step to another that is not the end. */
  ghost function OneFlow(from: string, to: string): seq<Flow>
  {
    if to != "" && to != END then [Flow(from, to)] else []
  }

  /** The flows follow the edges, then the branches, and in a branch its cases, then its
      default. */
  lemma FlowsInOrder(g: Graph, es: seq<Edge>, e: Edge, fs: seq<Edge>, a: seq<Step>, n: Step, b: seq<Step>)
    requires g.edges == es + [e] + fs && g.nodes == a + [n] + b
    ensures AllFlows(g) == (EdgeFlows(es) + (if e.from != "" then OneFlow(e.from, e.to) else []) + EdgeFlows(fs))
                           + (ArmFlows(a) + ArmFlows([n]) + ArmFlows(b))
    ensures n.kind != Branch ==> ArmFlows([n]) == []
    ensures n.kind == Branch ==> ArmFlows([n]) == TargetFlows(n.id, CaseTargets(n.cases)) + OneFlow(n.id, n.default)
  {
    hide EdgeFlows, ArmFlows, TargetFlows, CaseTargets;
    EdgeFlowsJoin(es + [e], fs);
    EdgeFlowsJoin(es, [e]);
    OneEdgeFlow(e);
    ArmFlowsJoin(a + [n], b);
    ArmFlowsJoin(a, [n]);
    OneArmFlow(n);
  }

  lemma OneEdgeFlow(e: Edge)
    ensures EdgeFlows([e]) == if e.from != "" then OneFlow(e.from, e.to) else []
  {
    assert [e][..0] == [];
  }

  lemma OneArmFlow(n: Step)
    ensures ArmFlows([n])
            == if n.kind == Branch then TargetFlows(n.id, CaseTargets(n.cases)) + OneFlow(n.id, n.default) else []
  {
    hide TargetFlows, Arms, OneFlow;
    assert [n][..0] == [];
    ArmsFlow(n);
  }

  lemma ArmsFlow(n: Step)
    ensures TargetFlows(n.id, Arms(n)) == TargetFlows(n.id, CaseTargets(n.cases)) + OneFlow(n.id, n.default)
  {
    hide TargetFlows, CaseTargets;
    if n.default != "" {
      TargetFlowsJoin(n.id, CaseTargets(n.cases), [n.default]);
      OneTargetFlow(n.id, n.default);
    } else {
      assert Arms(n) == CaseTargets(n.cases);
    }
  }

  lemma OneTargetFlow(id: string, t: string)
    ensures TargetFlows(id, [t]) == OneFlow(id, t)
  {
    assert [t][..0] == [];
  }

  lemma CaseFlowsInOrder(id: string, cs: seq<Case>, c: Case, ds: seq<Case>)
    ensures TargetFlows(id, CaseTargets(cs + [c] + ds))
            == TargetFlows(id, CaseTargets(cs)) + OneFlow(id, c.to) + TargetFlows(id, CaseTargets(ds))
  {
    hide TargetFlows, CaseTargets, OneFlow;
    CaseTargetsInOrder(cs, c, ds);
    TargetFlowsJoin(id, CaseTargets(cs) + [c.to], CaseTargets(ds));
    TargetFlowsJoin(id, CaseTargets(cs), [c.to]);
    OneTargetFlow(id, c.to);
  }

  lemma CaseTargetsInOrder(cs: seq<Case>, c: Case, ds: seq<Case>)
    ensures CaseTargets(cs + [c] + ds) == CaseTargets(cs) + [c.to] + CaseTargets(ds)
  {
    hide CaseTargets;
  }

  // ---- lanes ------------------------------------------------------------------

  function NodeIds(nodes: seq<Step>): (ids: set<string>)
    ensures forall n :: n in nodes ==> n.id in ids
  {
    if nodes == [] then {} else NodeIds(nodes[..|nodes| - 1]) + {nodes[|nodes| - 1].id}
  }

  lemma {:induction false} NodeOf(nodes: seq<Step>, id: string) returns (i: nat)
    requires id in NodeIds(nodes)
    ensures i < |nodes| && nodes[i].id == id
  {
    if nodes[|nodes| - 1].id == id {
      i := |nodes| - 1;
    } else {
      i := NodeOf(nodes[..|nodes| - 1], id);
    }
  }

  /** The lanes owners give outright; a repeated id keeps its last step's. */
  function Owned<L>(nodes: seq<Step>, own: seq<Option<L>>): map<string, L>
    requires |own| == |nodes|
  {
    if nodes == [] then map[]
    else
      var n := |nodes| - 1;
      var before := Owned(nodes[..n], own[..n]);
      if own[n].Some? then before[nodes[n].id := own[n].value] else before
  }

  ghost predicate LastOwned<L>(nodes: seq<Step>, own: seq<Option<L>>, t: string, i: nat)
    requires |own| == |nodes|
  {
    i < |nodes| && nodes[i].id == t && own[i].Some?
    && forall j :: i < j < |nodes| && nodes[j].id == t ==> own[j].None?
  }

  /** A step has a lane outright exactly when some step of that id has an owner's. */
  lemma {:induction false} OwnedMeans<L>(nodes: seq<Step>, own: seq<Option<L>>, t: string)
    requires |own| == |nodes|
    ensures t in Owned(nodes, own) <==> exists i :: 0 <= i < |nodes| && nodes[i].id == t && own[i].Some?
  {
    if nodes != [] {
      var n := |nodes| - 1;
      OwnedMeans(nodes[..n], own[..n], t);
      assert forall i :: 0 <= i < n ==> nodes[..n][i] == nodes[i] && own[..n][i] == own[i];
    }
  }

  /** And then it has the last one's. */
  lemma {:induction false} OwnedLast<L>(nodes: seq<Step>, own: seq<Option<L>>, t: string, i: nat)
    requires |own| == |nodes| && LastOwned(nodes, own, t, i)
    ensures t in Owned(nodes, own) && Owned(nodes, own)[t] == own[i].value
  {
    var n := |nodes| - 1;
    if i < n {
      assert LastOwned(nodes[..n], own[..n], t, i);
      OwnedLast(nodes[..n], own[..n], t, i);
    }
  }

  lemma {:induction false} OwnedAreNodes<L>(nodes: seq<Step>, own: seq<Option<L>>)
    requires |own| == |nodes|
    ensures Owned(nodes, own).Keys <= NodeIds(nodes)
  {
    if nodes != [] {
      var n := |nodes| - 1;
      OwnedAreNodes(nodes[..n], own[..n]);
    }
  }

  /** One step of the workflow leads to another. */
  ghost predicate Feeds(g: Graph, s: string, t: string)
  {
    s in NodeIds(g.nodes) && t in NodeIds(g.nodes) && Flows(g, s, t)
  }

  ghost predicate Course(g: Graph, a: string, t: string, p: seq<string>)
  {
    p != [] && p[0] == a && p[|p| - 1] == t && forall i :: 0 <= i < |p| - 1 ==> Feeds(g, p[i], p[i + 1])
  }

  /** A path through the workflow's own steps. */
  ghost predicate LeadsTo(g: Graph, a: string, t: string)
  {
    exists p :: Course(g, a, t, p)
  }

  /** The lane is the own one of a step that leads there. */
  ghost predicate FromOwner<L>(g: Graph, own: map<string, L>, t: string, lane: L)
  {
    exists a :: a in own && own[a] == lane && LeadsTo(g, a, t)
  }

  ghost predicate Inherited<L>(g: Graph, own: map<string, L>, lane: map<string, L>)
  {
    && (forall t :: t in own ==> t in lane && lane[t] == own[t])
    && (forall t :: t in lane ==> t in NodeIds(g.nodes))
    && (forall t {:trigger FromOwner(g, own, t, lane[t])} :: t in lane ==> FromOwner(g, own, t, lane[t]))
  }

  /** No step without a lane has a step with one leading to it. */
  ghost predicate Settled<L>(g: Graph, lane: map<string, L>)
  {
    forall s, t :: s in lane && Feeds(g, s, t) ==> t in lane
  }

  lemma FeedPassesOn<L>(g: Graph, own: map<string, L>, s: string, t: string, lane: L)
    requires FromOwner(g, own, s, lane) && Feeds(g, s, t)
    ensures FromOwner(g, own, t, lane)
  {
    var a :| a in own && own[a] == lane && LeadsTo(g, a, s);
    var p :| Course(g, a, s, p);
    assert Course(g, a, t, p + [t]);
  }

  lemma GiveOne<L>(g: Graph, own: map<string, L>, lane: map<string, L>, t: string, v: L)
    requires Inherited(g, own, lane) && t !in lane
    requires t in NodeIds(g.nodes) && FromOwner(g, own, t, v)
    ensures Inherited(g, own, lane[t := v])
  {
  }

  lemma InheritOne<L>(g: Graph, own: map<string, L>, lane: map<string, L>, s: string, t: string)
    requires Inherited(g, own, lane) && s in lane && t !in lane && Feeds(g, s, t)
    ensures Inherited(g, own, lane[t := lane[s]])
  {
    assert FromOwner(g, own, s, lane[s]);
    FeedPassesOn(g, own, s, t, lane[s]);
    GiveOne(g, own, lane, t, lane[s]);
  }

  lemma {:induction false} SettledCarries<L>(g: Graph, lane: map<string, L>, a: string, t: string, p: seq<string>)
    requires Settled(g, lane) && a in lane && Course(g, a, t, p)
    ensures t in lane
    decreases |p|
  {
    var n := |p| - 1;
    if n > 0 {
      assert Feeds(g, p[n - 1], p[n - 1 + 1]);
      SettledCarries(g, lane, a, p[n - 1], p[..n]);
    }
  }

  /** The first flow into `t` whose source has a lane comes from `s`. */
  ghost predicate FirstFrom<L>(flows: seq<Flow>, t: string, lane: map<string, L>, s: string)
  {
    s in lane
    && exists i :: 0 <= i < |flows| && flows[i] == Flow(s, t)
                   && forall j :: 0 <= j < i && flows[j].target == t ==> flows[j].source !in lane
  }

  /** The first source of `t` that has a lane, as `find` over its incoming flows. */
  function FirstLaned<L>(flows: seq<Flow>, t: string, lane: map<string, L>): (r: Option<string>)
    ensures r.Some? ==> FirstFrom(flows, t, lane, r.value)
    ensures r.Some? ==> Flow(r.value, t) in flows && r.value in lane
    ensures r.None? ==> forall s :: Flow(s, t) in flows ==> s !in lane
  {
    if flows == [] then None
    else if flows[0].target == t && flows[0].source in lane then Some(flows[0].source)
    else
      var r := FirstLaned(flows[1..], t, lane);
      assert r.Some? ==> FirstFrom(flows, t, lane, r.value) by {
        if r.Some? { LaterFirst(flows, t, lane, r.value); }
      }
      r
  }

  lemma LaterFirst<L>(flows: seq<Flow>, t: string, lane: map<string, L>, s: string)
    requires flows != [] && !(flows[0].target == t && flows[0].source in lane) && FirstFrom(flows[1..], t, lane, s)
    ensures FirstFrom(flows, t, lane, s)
  {
    var i :| 0 <= i < |flows[1..]| && flows[1..][i] == Flow(s, t)
      && forall j :: 0 <= j < i && flows[1..][j].target == t ==> flows[1..][j].source !in lane;
    assert flows[i + 1] == Flow(s, t);
    assert forall j :: 0 < j <= i ==> flows[j] == flows[1..][j - 1];
  }

  /** What a step's turn in a pass does: a step without a lane takes that of its first
      source that has one, if that source has an id; nothing else changes. */
  ghost predicate Turn<L(!new)>(flows: seq<Flow>, t: string, was: map<string, L>, now: map<string, L>)
  {
    if t !in was && exists s :: s != "" && FirstFrom(flows, t, was, s) then
      exists s :: s != "" && FirstFrom(flows, t, was, s) && now == was[t := was[s]]
    else now == was
  }

  /** A pass: each step in turn, in the order of the nodes. */
  ghost predicate Passed<L(!new)>(g: Graph, flows: seq<Flow>, before: map<string, L>, after: map<string, L>)
  {
    exists turns: seq<map<string, L>> :: Turns(g, flows, turns, |g.nodes|) && turns[0] == before
                                        && turns[|g.nodes|] == after
  }

  ghost predicate Turns<L(!new)>(g: Graph, flows: seq<Flow>, turns: seq<map<string, L>>, k: nat)
    requires k <= |g.nodes|
  {
    |turns| == k + 1 && forall i :: 0 <= i < k ==> Turn(flows, g.nodes[i].id, turns[i], turns[i + 1])
  }

  lemma OneFirstFrom<L>(flows: seq<Flow>, t: string, lane: map<string, L>, r: string, s: string)
    requires FirstFrom(flows, t, lane, r) && FirstFrom(flows, t, lane, s)
    ensures r == s
  {
  }

  /** A turn has one outcome, so owners and order decide every lane. */
  lemma TurnIsOne<L(!new)>(flows: seq<Flow>, t: string, was: map<string, L>, now: map<string, L>, other: map<string, L>)
    requires Turn(flows, t, was, now) && Turn(flows, t, was, other)
    ensures now == other
  {
    if t !in was && exists s :: s != "" && FirstFrom(flows, t, was, s) {
      var r :| r != "" && FirstFrom(flows, t, was, r) && now == was[t := was[r]];
      var s :| s != "" && FirstFrom(flows, t, was, s) && other == was[t := was[s]];
      OneFirstFrom(flows, t, was, r, s);
    }
  }

  lemma TurnsOn<L(!new)>(g: Graph, flows: seq<Flow>, turns: seq<map<string, L>>, k: nat, now: map<string, L>)
    requires k < |g.nodes| && Turns(g, flows, turns, k) && Turn(flows, g.nodes[k].id, turns[k], now)
    ensures Turns(g, flows, turns + [now], k + 1)
  {
  }

  /** What the loop does at a step is its turn. */
  lemma TurnTaken<L(!new)>(flows: seq<Flow>, t: string, was: map<string, L>)
    ensures var from := FirstLaned(flows, t, was);
            Turn(flows, t, was, if t !in was && from.Some? && from.value != "" then was[t := was[from.value]] else was)
  {
    var from := FirstLaned(flows, t, was);
    if s :| s != "" && FirstFrom(flows, t, was, s) {
      OneFirstFrom(flows, t, was, s, from.value);
    }
  }

  /** Nothing to take a lane from: no source has one, or the first that has is a step
      without an id, which the code cannot tell from none. */
  predicate NoneNamed<L>(flows: seq<Flow>, t: string, lane: map<string, L>)
  {
    var from := FirstLaned(flows, t, lane);
    from.None? || from.value == ""
  }

  /** The nodes up to `k` were looked at in a pass that changed nothing. */
  ghost predicate Quiet<L>(g: Graph, lane: map<string, L>, k: nat)
    requires k <= |g.nodes|
  {
    forall i :: 0 <= i < k && g.nodes[i].id !in lane ==> NoneNamed(AllFlows(g), g.nodes[i].id, lane)
  }

  /** No step without a lane has anything to take one from. */
  ghost predicate Resolved<L>(g: Graph, lane: map<string, L>)
  {
    forall t :: t in NodeIds(g.nodes) && t !in lane ==> NoneNamed(AllFlows(g), t, lane)
  }

  lemma QuietPassResolves<L>(g: Graph, lane: map<string, L>)
    requires Quiet(g, lane, |g.nodes|)
    ensures Resolved(g, lane)
  {
    forall t | t in NodeIds(g.nodes) && t !in lane ensures NoneNamed(AllFlows(g), t, lane) {
      var i := NodeOf(g.nodes, t);
    }
  }

  /** Among steps that all have an id, resolved lanes are settled. */
  lemma ResolvedSettles<L>(g: Graph, own: map<string, L>, lane: map<string, L>)
    requires Inherited(g, own, lane) && Resolved(g, lane) && forall n :: n in g.nodes ==> n.id != ""
    ensures Settled(g, lane)
  {
    AllFlowsList(g);
    forall s, t | s in lane && Feeds(g, s, t) ensures t in lane {
      NobodyNamed(g, own, lane, s, t);
    }
  }

  lemma NobodyNamed<L>(g: Graph, own: map<string, L>, lane: map<string, L>, s: string, t: string)
    requires Inherited(g, own, lane) && (forall n :: n in g.nodes ==> n.id != "")
    requires s in lane && Flow(s, t) in AllFlows(g)
    ensures !NoneNamed(AllFlows(g), t, lane)
  {
    var from := FirstLaned(AllFlows(g), t, lane);
    NamedLanes(g, own, lane, from.value);
  }

  lemma {:induction false} FewerIdsThanNodes(nodes: seq<Step>)
    ensures |NodeIds(nodes)| <= |nodes|
  {
    if nodes != [] {
      var n := |nodes| - 1;
      FewerIdsThanNodes(nodes[..n]);
    }
  }

  /** Where a pass stands: what it started from, whether it changed anything yet. */
  ghost predicate Passing<L>(g: Graph, own: map<string, L>, before: map<string, L>,
                             lane: map<string, L>, changed: bool, i: nat)
    requires i <= |g.nodes|
  {
    && Inherited(g, own, lane)
    && (forall t :: t in before ==> t in lane && lane[t] == before[t])
    && (changed ==> before.Keys < lane.Keys)
    && (!changed ==> lane == before && Quiet(g, lane, i))
  }

  lemma PassKeeps<L>(g: Graph, flows: seq<Flow>, own: map<string, L>, before: map<string, L>,
                     lane: map<string, L>, changed: bool, i: nat)
    requires i < |g.nodes| && flows == AllFlows(g) && Passing(g, own, before, lane, changed, i)
    requires g.nodes[i].id in lane || NoneNamed(flows, g.nodes[i].id, lane)
    ensures Passing(g, own, before, lane, changed, i + 1)
  {
  }

  lemma PassGives<L>(g: Graph, flows: seq<Flow>, own: map<string, L>, before: map<string, L>,
                     lane: map<string, L>, changed: bool, i: nat, from: string)
    requires i < |g.nodes| && flows == AllFlows(g) && Passing(g, own, before, lane, changed, i)
    requires g.nodes[i].id !in lane && FirstLaned(flows, g.nodes[i].id, lane) == Some(from)
    ensures Passing(g, own, before, lane[g.nodes[i].id := lane[from]], true, i + 1)
  {
    AllFlowsList(g);
    var t := g.nodes[i].id;
    assert g.nodes[i] in g.nodes;
    assert Flows(g, from, t);
    InheritOne(g, own, lane, from, t);
    assert lane[t := lane[from]].Keys == lane.Keys + {t};
    assert t !in before.Keys;
  }

  /** One pass over the nodes. Every lane stays; it gives some step one, or changes nothing
      and then there is none to give. */
  method Pass<L(!new)>(g: Graph, flows: seq<Flow>, before: map<string, L>, ghost own: map<string, L>)
    returns (lane: map<string, L>, changed: bool)
    requires flows == AllFlows(g)
    requires Inherited(g, own, before)
    ensures Passing(g, own, before, lane, changed, |g.nodes|)
    ensures Passed(g, flows, before, lane)
  {
    hide Passing, Turn, FirstFrom, Inherited;
    lane, changed := before, false;
    ghost var turns := [lane];
    PassStarts(g, own, before);
    for i := 0 to |g.nodes|
      invariant Passing(g, own, before, lane, changed, i)
      invariant Turns(g, flows, turns, i) && turns[0] == before && turns[i] == lane
    {
      var n := g.nodes[i];
      var from := FirstLaned(flows, n.id, lane);
      TurnTaken(flows, n.id, lane);
      ghost var now := if n.id !in lane && from.Some? && from.value != "" then lane[n.id := lane[from.value]] else lane;
      TurnsOn(g, flows, turns, i, now);
      turns := turns + [now];
      if n.id in lane {
        PassKeeps(g, flows, own, before, lane, changed, i);
        continue;
      }
      if from.Some? && from.value != "" {
        PassGives(g, flows, own, before, lane, changed, i, from.value);
        lane, changed := lane[n.id := lane[from.value]], true;
      } else {
        PassKeeps(g, flows, own, before, lane, changed, i);
      }
    }
  }

  lemma PassStarts<L>(g: Graph, own: map<string, L>, before: map<string, L>)
    requires Inherited(g, own, before)
    ensures Passing(g, own, before, before, false, 0)
  {
  }

  lemma NamedLanes<L>(g: Graph, own: map<string, L>, lane: map<string, L>, s: string)
    requires forall n :: n in g.nodes ==> n.id != ""
    requires Inherited(g, own, lane) && s in lane
    ensures s != ""
  {
    var i := NodeOf(g.nodes, s);
  }

  lemma PassOutcome<L>(g: Graph, own: map<string, L>, before: map<string, L>, lane: map<string, L>, changed: bool)
    requires Passing(g, own, before, lane, changed, |g.nodes|)
    ensures Inherited(g, own, lane)
    ensures !changed ==> Resolved(g, lane)
    ensures changed ==> |NodeIds(g.nodes) - lane.Keys| < |NodeIds(g.nodes) - before.Keys|
  {
    if changed {
      Shrinks(NodeIds(g.nodes), before.Keys, lane.Keys);
    } else {
      QuietPassResolves(g, lane);
    }
  }

  /** The first lanes: each owned step's own. */
  method OwnLanes<L>(nodes: seq<Step>, own: seq<Option<L>>) returns (lane: map<string, L>)
    requires |own| == |nodes|
    ensures lane == Owned(nodes, own)
  {
    lane := map[];
    for i := 0 to |nodes|
      invariant lane == Owned(nodes[..i], own[..i])
    {
      assert nodes[..i + 1][..i] == nodes[..i] && own[..i + 1][..i] == own[..i];
      if own[i].Some? {
        lane := lane[nodes[i].id := own[i].value];
      }
    }
    assert nodes[..|nodes|] == nodes && own[..|own|] == own;
  }

  /** At most one pass a step is enough: no step is left that could take a lane. Where all
      steps have an id the lanes come out settled: a step has one exactly when an owned
      step leads to it, and then one such step's own. */
  method ProcessLanes<L(!new)>(g: Graph, own: seq<Option<L>>) returns (lane: map<string, L>)
    requires |own| == |g.nodes|
    ensures InPasses(g, AllFlows(g), Owned(g.nodes, own), lane)
    ensures Inherited(g, Owned(g.nodes, own), lane) && Resolved(g, lane)
    ensures (forall n :: n in g.nodes ==> n.id != "") ==> Settled(g, lane)
  {
    hide Passed, PassesTo;
    lane := OwnLanes(g.nodes, own);
    var flows := ProcessEdges(g);
    ghost var owned := lane;
    OwnedInherit(g, owned, own);
    FewerIdsThanNodes(g.nodes);
    CardinalityOfRest(NodeIds(g.nodes), lane.Keys);
    var pass, changed := 0, true;
    ghost var passes := [lane];
    PassesStart(g, flows, lane);
    while pass < |g.nodes|
      invariant 0 <= pass <= |g.nodes| && changed
      invariant PassesTo(g, flows, passes, owned, lane)
      invariant Inherited(g, owned, lane)
      invariant |NodeIds(g.nodes) - lane.Keys| + pass <= |g.nodes|
    {
      ghost var was := lane;
      lane, changed := Pass(g, flows, lane, owned);
      PassOutcome(g, owned, was, lane, changed);
      PassesMore(g, flows, passes, owned, was, lane);
      passes := passes + [lane];
      if !changed {
        break;
      }
      pass := pass + 1;
    }
    if changed { AllLanedResolves(g, lane); }
    if forall n :: n in g.nodes ==> n.id != "" { ResolvedSettles(g, owned, lane); }
  }

  ghost predicate PassesTo<L(!new)>(g: Graph, flows: seq<Flow>, passes: seq<map<string, L>>,
                                    first: map<string, L>, last: map<string, L>)
  {
    passes != [] && passes[0] == first && passes[|passes| - 1] == last
    && forall k :: 0 <= k < |passes| - 1 ==> Passed(g, flows, passes[k], passes[k + 1])
  }

  lemma PassesStart<L(!new)>(g: Graph, flows: seq<Flow>, lane: map<string, L>)
    ensures PassesTo(g, flows, [lane], lane, lane)
  {
  }

  lemma PassesMore<L(!new)>(g: Graph, flows: seq<Flow>, passes: seq<map<string, L>>,
                            first: map<string, L>, was: map<string, L>, now: map<string, L>)
    requires PassesTo(g, flows, passes, first, was) && Passed(g, flows, was, now)
    ensures PassesTo(g, flows, passes + [now], first, now)
  {
  }

  /** Passes one after the other lead from the owners' lanes to these. */
  ghost predicate InPasses<L(!new)>(g: Graph, flows: seq<Flow>, owned: map<string, L>, lane: map<string, L>)
  {
    exists passes: seq<map<string, L>> :: PassesTo(g, flows, passes, owned, lane)
  }

  lemma CardinalityOfRest(all: set<string>, some: set<string>)
    ensures |all - some| <= |all|
  {
  }

  /** What settled, inherited lanes amount to: a step has one exactly when an owned
      step leads to it. */
  lemma LanedExactly<L>(g: Graph, owned: map<string, L>, lane: map<string, L>, t: string)
    requires Inherited(g, owned, lane) && Settled(g, lane)
    ensures t in lane <==> exists a :: a in owned && LeadsTo(g, a, t)
  {
    if t in lane {
      assert FromOwner(g, owned, t, lane[t]);
    }
    if a :| a in owned && LeadsTo(g, a, t) {
      var p :| Course(g, a, t, p);
      SettledCarries(g, lane, a, t, p);
    }
  }

  lemma OwnedInherit<L>(g: Graph, owned: map<string, L>, own: seq<Option<L>>)
    requires |own| == |g.nodes| && owned == Owned(g.nodes, own)
    ensures Inherited(g, owned, owned)
  {
    OwnedAreNodes(g.nodes, own);
    forall t | t in owned ensures LeadsTo(g, t, t) {
      assert Course(g, t, t, [t]);
    }
  }

  lemma Shrinks(all: set<string>, small: set<string>, big: set<string>)
    requires small < big <= all
    ensures |all - big| < |all - small|
  {
    var x :| x in big && x !in small;
    assert all - big <= (all - small) - {x};
    SubsetCount(all - big, (all - small) - {x});
  }

  lemma AllLanedResolves<L>(g: Graph, lane: map<string, L>)
    requires |NodeIds(g.nodes) - lane.Keys| == 0
    ensures Resolved(g, lane)
  {
    assert NodeIds(g.nodes) - lane.Keys == {};
    forall t | t in NodeIds(g.nodes) ensures t in lane {
      assert t !in NodeIds(g.nodes) - lane.Keys;
    }
  }
}
