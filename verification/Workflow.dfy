/** A governed workflow's graph: its steps, the ways out of each, and what a path is. */
module Workflow {

  datatype Kind = Branch | Fork | Join | Human | Other

  datatype Case = Case(when: string, to: string)

  /** One step. An empty string is an absent field. */
  datatype Step = Step(id: string, kind: Kind, cases: seq<Case>, default: string,
                       person: string, role: string, owner: string)

  datatype Edge = Edge(from: string, to: string)

  datatype Graph = Graph(entry: string, nodes: seq<Step>, edges: seq<Edge>)

  const END := "END"

  /** Some step has this id. */
  ghost predicate IsStep(nodes: seq<Step>, id: string)
  {
    id != "" && exists n :: n in nodes && n.id == id
  }

  function Ids(nodes: seq<Step>): (r: seq<string>)
    ensures forall x :: x in r <==> x in Known(nodes)
  {
    if nodes == [] then []
    else
      var last := nodes[|nodes| - 1];
      Ids(nodes[..|nodes| - 1]) + if last.id != "" then [last.id] else []
  }

  function Known(nodes: seq<Step>): (r: set<string>)
    ensures forall id :: id in r <==> IsStep(nodes, id)
  {
    set n | n in nodes && n.id != "" :: n.id
  }

  function Entry(g: Graph): string
  {
    if g.entry != "" then g.entry
    else if Ids(g.nodes) != [] then Ids(g.nodes)[0]
    else ""
  }

  /** The first step that has an id. */
  ghost predicate FirstStep(nodes: seq<Step>, id: string)
  {
    id != "" && exists i :: 0 <= i < |nodes| && nodes[i].id == id && forall j :: 0 <= j < i ==> nodes[j].id == ""
  }

  lemma {:induction false} FirstId(nodes: seq<Step>)
    ensures if Ids(nodes) == [] then forall n :: n in nodes ==> n.id == "" else FirstStep(nodes, Ids(nodes)[0])
  {
    if nodes != [] {
      var n := |nodes| - 1;
      var init, last := nodes[..n], nodes[n];
      FirstId(init);
      assert nodes == init + [last];
      if Ids(init) == [] {
        assert Ids(nodes) == if last.id != "" then [last.id] else [];
      } else {
        assert Ids(nodes)[0] == Ids(init)[0];
        var i :| 0 <= i < |init| && init[i].id == Ids(init)[0] && forall j :: 0 <= j < i ==> init[j].id == "";
        assert nodes[i].id == Ids(init)[0];
      }
    }
  }

  /** A workflow starts where it says, or else at its first step with an id. */
  lemma EntryMeans(g: Graph)
    ensures g.entry != "" ==> Entry(g) == g.entry
    ensures g.entry == "" ==>
              if forall n :: n in g.nodes ==> n.id == "" then Entry(g) == "" else FirstStep(g.nodes, Entry(g))
  {
    FirstId(g.nodes);
    if Ids(g.nodes) != [] {
      assert Ids(g.nodes)[0] in Ids(g.nodes);
    }
  }

  /** The kind recorded for an id; a repeated id keeps its last step's. */
  function KindOf(nodes: seq<Step>, id: string): Kind
  {
    if nodes == [] then Other
    else if nodes[|nodes| - 1].id == id then nodes[|nodes| - 1].kind
    else KindOf(nodes[..|nodes| - 1], id)
  }

  lemma {:induction false} LastKind(nodes: seq<Step>, i: nat)
    requires i < |nodes| && forall j :: i < j < |nodes| ==> nodes[j].id != nodes[i].id
    ensures KindOf(nodes, nodes[i].id) == nodes[i].kind
  {
    var n := |nodes| - 1;
    if i < n {
      assert nodes[..n][i] == nodes[i];
      LastKind(nodes[..n], i);
    }
  }

  lemma {:induction false} NoKind(nodes: seq<Step>, id: string)
    requires forall n :: n in nodes ==> n.id != id
    ensures KindOf(nodes, id) == Other
  {
    if nodes != [] {
      assert nodes[|nodes| - 1] in nodes;
      NoKind(nodes[..|nodes| - 1], id);
    }
  }

  function CaseTargets(cases: seq<Case>): (r: seq<string>)
    ensures |r| == |cases| && forall i :: 0 <= i < |r| ==> r[i] == cases[i].to
  {
    if cases == [] then [] else [cases[0].to] + CaseTargets(cases[1..])
  }

  /** A branch's own ways out: its cases, then its default. */
  function Arms(n: Step): seq<string>
  {
    CaseTargets(n.cases) + if n.default != "" then [n.default] else []
  }

  predicate Dangling(known: set<string>, t: string)
  {
    t != "" && t != END && t !in known
  }

  function KeptTargets(ts: seq<string>, known: set<string>): seq<string>
  {
    if ts == [] then []
    else
      var last := ts[|ts| - 1];
      KeptTargets(ts[..|ts| - 1], known) + if Dangling(known, last) then [] else [last]
  }

  function EdgeOuts(edges: seq<Edge>, known: set<string>, s: string): seq<string>
  {
    if edges == [] then []
    else
      var last := edges[|edges| - 1];
      EdgeOuts(edges[..|edges| - 1], known, s)
      + if last.from == s && !Dangling(known, last.to) then [last.to] else []
  }

  function ArmOuts(nodes: seq<Step>, known: set<string>, s: string): seq<string>
  {
    if nodes == [] then []
    else
      var last := nodes[|nodes| - 1];
      ArmOuts(nodes[..|nodes| - 1], known, s)
      + if last.kind == Branch && last.id == s then KeptTargets(Arms(last), known) else []
  }

  /** Every way out of a step that does not dangle, in the order it is recorded. */
  function Outs(g: Graph, s: string): seq<string>
  {
    EdgeOuts(g.edges, Known(g.nodes), s) + ArmOuts(g.nodes, Known(g.nodes), s)
  }

  // ---- paths ----------------------------------------------------------------

  ghost predicate ByEdge(g: Graph, s: string, t: string)
  {
    Edge(s, t) in g.edges
  }

  /** The branch `s` has a case that goes to `t`, or goes there by default. */
  predicate ArmTo(n: Step, s: string, t: string)
  {
    n.kind == Branch && n.id == s && ((n.default != "" && t == n.default) || exists c :: c in n.cases && c.to == t)
  }

  lemma ArmsMean(n: Step, t: string)
    ensures t in Arms(n) <==> (n.default != "" && t == n.default) || exists c :: c in n.cases && c.to == t
  {
    var ts := CaseTargets(n.cases);
    if c :| c in n.cases && c.to == t {
      var i :| 0 <= i < |n.cases| && n.cases[i] == c;
      assert ts[i] == t;
    }
    if t in ts {
      var i :| 0 <= i < |ts| && ts[i] == t;
      assert n.cases[i] in n.cases;
    }
  }

  ghost predicate ByArm(nodes: seq<Step>, s: string, t: string)
  {
    exists n :: n in nodes && ArmTo(n, s, t)
  }

  /** One step leads to another by a plain edge, a branch case or a branch default. */
  ghost predicate Leads(g: Graph, s: string, t: string)
  {
    t != END && t in Known(g.nodes) && (ByEdge(g, s, t) || ByArm(g.nodes, s, t))
  }

  ghost predicate Path(g: Graph, p: seq<string>)
  {
    p != [] && forall i :: 0 <= i < |p| - 1 ==> Leads(g, p[i], p[i + 1])
  }

  ghost predicate Joins(g: Graph, a: string, b: string, p: seq<string>)
  {
    Path(g, p) && p[0] == a && p[|p| - 1] == b
  }

  ghost predicate Reachable(g: Graph, a: string, b: string)
  {
    exists p :: Joins(g, a, b, p)
  }

  /** A path of at least one edge out of a fork that meets no join on the way. */
  ghost predicate Trail(g: Graph, f: string, t: string, p: seq<string>)
  {
    Joins(g, f, t, p) && |p| >= 2
    && forall i :: 0 < i < |p| - 1 ==> KindOf(g.nodes, p[i]) != Join
  }

  ghost predicate LeadsFirst(g: Graph, f: string, t: string)
  {
    exists p :: Trail(g, f, t, p)
  }

  /** The first join on some path out of the fork. */
  ghost predicate MeetsAt(g: Graph, f: string, j: string)
  {
    KindOf(g.nodes, j) == Join && LeadsFirst(g, f, j)
  }

  lemma {:induction false} KeptMeans(ts: seq<string>, known: set<string>, t: string)
    ensures t in KeptTargets(ts, known) <==> t in ts && !Dangling(known, t)
  {
    if ts != [] {
      KeptMeans(ts[..|ts| - 1], known, t);
      assert ts == ts[..|ts| - 1] + [ts[|ts| - 1]];
    }
  }

  lemma {:induction false} EdgeOutsMeans(edges: seq<Edge>, known: set<string>, s: string, t: string)
    ensures t in EdgeOuts(edges, known, s) <==> Edge(s, t) in edges && !Dangling(known, t)
  {
    if edges != [] {
      EdgeOutsMeans(edges[..|edges| - 1], known, s, t);
      assert edges == edges[..|edges| - 1] + [edges[|edges| - 1]];
    }
  }

  lemma ByArmLast(nodes: seq<Step>, s: string, t: string)
    requires nodes != []
    ensures ByArm(nodes, s, t) <==> ByArm(nodes[..|nodes| - 1], s, t) || ArmTo(nodes[|nodes| - 1], s, t)
  {
  }

  lemma {:induction false} ArmOutsMeans(nodes: seq<Step>, known: set<string>, s: string, t: string)
    ensures t in ArmOuts(nodes, known, s) <==> !Dangling(known, t) && ByArm(nodes, s, t)
  {
    if nodes == [] {
      assert !ByArm(nodes, s, t);
    } else {
      var init, last := nodes[..|nodes| - 1], nodes[|nodes| - 1];
      ArmOutsMeans(init, known, s, t);
      KeptMeans(Arms(last), known, t);
      ArmsMean(last, t);
      ByArmLast(nodes, s, t);
    }
  }

  /** The recorded ways out are the edges, cases and defaults that lead somewhere. */
  lemma OutsAreLeads(g: Graph, s: string, t: string)
    ensures Leads(g, s, t) <==> t in Outs(g, s) && t != "" && t != END
  {
    EdgeOutsMeans(g.edges, Known(g.nodes), s, t);
    ArmOutsMeans(g.nodes, Known(g.nodes), s, t);
  }

  /** A branch leads to every step one of its cases or its default goes to; and elsewhere
      only if an edge or another branch of its id does. */
  lemma BranchLeads(g: Graph, n: Step, t: string)
    requires n in g.nodes && n.kind == Branch
    ensures IsStep(g.nodes, t) && t != END && (t == n.default || exists c :: c in n.cases && c.to == t) ==>
              Leads(g, n.id, t) && t in Outs(g, n.id)
    ensures Leads(g, n.id, t) && Edge(n.id, t) !in g.edges
            && (forall m :: m in g.nodes && m.kind == Branch && m.id == n.id ==> m == n) ==>
              IsStep(g.nodes, t) && t != END && (t == n.default || exists c :: c in n.cases && c.to == t)
  {
    hide Outs, IsStep;
    OutsAreLeads(g, n.id, t);
    StepIsNamed(g.nodes, t);
    assert ArmTo(n, n.id, t) ==> ByArm(g.nodes, n.id, t);
  }

  lemma StepIsNamed(nodes: seq<Step>, id: string)
    ensures IsStep(nodes, id) ==> id != ""
  {
  }

  lemma PathExtends(g: Graph, a: string, b: string, c: string)
    requires Reachable(g, a, b) && Leads(g, b, c)
    ensures Reachable(g, a, c)
  {
    var p :| Joins(g, a, b, p);
    assert Joins(g, a, c, p + [c]);
  }

  lemma TrailExtends(g: Graph, f: string, b: string, c: string)
    requires LeadsFirst(g, f, b) && KindOf(g.nodes, b) != Join && Leads(g, b, c)
    ensures LeadsFirst(g, f, c)
  {
    var p :| Trail(g, f, b, p);
    assert Trail(g, f, c, p + [c]);
  }

  lemma TrailStarts(g: Graph, f: string, t: string)
    requires Leads(g, f, t)
    ensures LeadsFirst(g, f, t)
  {
    assert Trail(g, f, t, [f, t]);
  }

  lemma TrailEndsKnown(g: Graph, f: string, t: string)
    requires LeadsFirst(g, f, t)
    ensures t in Known(g.nodes) && t != END
  {
    var p :| Trail(g, f, t, p);
    assert Leads(g, p[|p| - 2], p[|p| - 2 + 1]);
  }

  /** A set closed under the ways out of its members holds every path it starts. */
  lemma {:induction false} ClosedHoldsPath(g: Graph, closed: set<string>, p: seq<string>)
    requires Path(g, p) && p[0] in closed
    requires forall s, t :: s in closed && Leads(g, s, t) ==> t in closed
    ensures p[|p| - 1] in closed
  {
    var n := |p| - 1;
    if n > 0 {
      assert Leads(g, p[n - 1], p[n - 1 + 1]);
      ClosedHoldsPath(g, closed, p[..n]);
    }
  }

  /** The same for trails, when joins need not pass anything on. */
  lemma {:induction false} ClosedHoldsTrail(g: Graph, closed: set<string>, f: string, t: string, p: seq<string>)
    requires Trail(g, f, t, p)
    requires forall x :: Leads(g, f, x) ==> x in closed
    requires forall s, x :: s in closed && KindOf(g.nodes, s) != Join && Leads(g, s, x) ==> x in closed
    ensures t in closed
    decreases |p|
  {
    hide Leads, KindOf;
    var n := |p| - 1;
    assert Leads(g, p[n - 1], p[n - 1 + 1]);
    if n > 1 {
      var q := p[..n];
      assert forall i :: 0 <= i < n - 1 ==> Leads(g, p[i], p[i + 1]);
      assert Trail(g, f, p[n - 1], q);
      ClosedHoldsTrail(g, closed, f, p[n - 1], q);
    }
  }

  // ---- the ways out counted ----------------------------------------------------

  /** A target that is named, is not the end, and is no step. */
  ghost predicate Nowhere(nodes: seq<Step>, t: string)
  {
    t != "" && t != END && !IsStep(nodes, t)
  }

  ghost function EdgeSlots(edges: seq<Edge>, nodes: seq<Step>, s: string): set<int>
  {
    set i | 0 <= i < |edges| && edges[i].from == s && !Nowhere(nodes, edges[i].to)
  }

  ghost function CaseSlots(cases: seq<Case>, nodes: seq<Step>): set<int>
  {
    set k | 0 <= k < |cases| && !Nowhere(nodes, cases[k].to)
  }

  ghost predicate DefaultLeads(n: Step, nodes: seq<Step>)
  {
    n.default != "" && !Nowhere(nodes, n.default)
  }

  /** The cases and defaults of the branches called `s`, one by one. */
  ghost function ArmCount(some: seq<Step>, nodes: seq<Step>, s: string): nat
  {
    if some == [] then 0
    else
      var last := some[|some| - 1];
      ArmCount(some[..|some| - 1], nodes, s)
      + if last.kind != Branch || last.id != s then 0
        else |CaseSlots(last.cases, nodes)| + if DefaultLeads(last, nodes) then 1 else 0
  }

  /** How many ways out a step has: edges, cases and defaults that do not lead nowhere,
      each as often as it is there. */
  ghost function WayCount(g: Graph, s: string): nat
  {
    |EdgeSlots(g.edges, g.nodes, s)| + ArmCount(g.nodes, g.nodes, s)
  }

  lemma DanglingIsNowhere(nodes: seq<Step>, t: string)
    ensures Dangling(Known(nodes), t) <==> Nowhere(nodes, t)
  {
  }

  lemma {:induction false} EdgesCounted(edges: seq<Edge>, nodes: seq<Step>, s: string)
    ensures |EdgeOuts(edges, Known(nodes), s)| == |EdgeSlots(edges, nodes, s)|
  {
    hide Nowhere, Dangling, Known;
    if edges == [] {
      assert EdgeSlots(edges, nodes, s) == {};
    } else {
      hide EdgeSlots;
      var n := |edges| - 1;
      DanglingIsNowhere(nodes, edges[n].to);
      EdgesCounted(edges[..n], nodes, s);
      LastEdgeCounted(edges, nodes, s);
    }
  }

  lemma LastEdgeCounted(edges: seq<Edge>, nodes: seq<Step>, s: string)
    requires edges != []
    ensures var n := |edges| - 1;
            |EdgeSlots(edges, nodes, s)|
            == |EdgeSlots(edges[..n], nodes, s)| + if edges[n].from == s && !Nowhere(nodes, edges[n].to) then 1 else 0
  {
    hide Nowhere;
    var n := |edges| - 1;
    var slots := EdgeSlots(edges[..n], nodes, s);
    assert n !in slots;
    assert EdgeSlots(edges, nodes, s)
        == if edges[n].from == s && !Nowhere(nodes, edges[n].to) then slots + {n} else slots;
  }

  lemma LastCaseCounted(cases: seq<Case>, nodes: seq<Step>)
    requires cases != []
    ensures var n := |cases| - 1;
            |CaseSlots(cases, nodes)| == |CaseSlots(cases[..n], nodes)| + if Nowhere(nodes, cases[n].to) then 0 else 1
  {
    hide Nowhere;
    var n := |cases| - 1;
    var slots := CaseSlots(cases[..n], nodes);
    assert n !in slots;
    assert CaseSlots(cases, nodes) == if Nowhere(nodes, cases[n].to) then slots else slots + {n};
  }

  lemma {:induction false} CasesCounted(cases: seq<Case>, nodes: seq<Step>)
    ensures |KeptTargets(CaseTargets(cases), Known(nodes))| == |CaseSlots(cases, nodes)|
  {
    hide Nowhere, Dangling, Known, CaseTargets;
    if cases == [] {
      assert CaseSlots(cases, nodes) == {};
      assert CaseTargets(cases) == [];
    } else {
      hide CaseSlots, KeptTargets;
      var n := |cases| - 1;
      DanglingIsNowhere(nodes, cases[n].to);
      CasesCounted(cases[..n], nodes);
      LastCaseCounted(cases, nodes);
      LastCaseKept(cases, Known(nodes));
    }
  }

  lemma LastCaseKept(cases: seq<Case>, known: set<string>)
    requires cases != []
    ensures var n := |cases| - 1;
            KeptTargets(CaseTargets(cases), known)
            == KeptTargets(CaseTargets(cases[..n]), known) + if Dangling(known, cases[n].to) then [] else [cases[n].to]
  {
    hide CaseTargets, Dangling;
    assert CaseTargets(cases)[..|cases| - 1] == CaseTargets(cases[..|cases| - 1]);
  }

  lemma ArmsCounted(n: Step, nodes: seq<Step>)
    ensures |KeptTargets(Arms(n), Known(nodes))|
            == |CaseSlots(n.cases, nodes)| + if DefaultLeads(n, nodes) then 1 else 0
  {
    hide Nowhere, Dangling, Known, CaseTargets;
    DanglingIsNowhere(nodes, n.default);
    CasesCounted(n.cases, nodes);
    if n.default != "" {
      assert Arms(n)[..|Arms(n)| - 1] == CaseTargets(n.cases);
    } else {
      assert Arms(n) == CaseTargets(n.cases);
    }
  }

  lemma {:induction false} ArmOutsCounted(some: seq<Step>, nodes: seq<Step>, s: string)
    ensures |ArmOuts(some, Known(nodes), s)| == ArmCount(some, nodes, s)
  {
    if some != [] {
      hide Nowhere, Known, Arms;
      ArmOutsCounted(some[..|some| - 1], nodes, s);
      ArmsCounted(some[|some| - 1], nodes);
    }
  }

  /** Nothing is recorded twice or left out. */
  lemma WaysCounted(g: Graph, s: string)
    ensures |Outs(g, s)| == WayCount(g, s)
  {
    EdgesCounted(g.edges, g.nodes, s);
    ArmOutsCounted(g.nodes, g.nodes, s);
  }
}
