/** The checks the workflow editor makes on a graph: loops and worklists over graphs
    with legal cycles, each proved against paths. */
module GraphCheck {
  import opened Basics
  import opened Workflow

  type Ways = map<string, seq<string>>

  function OutOf(ways: Ways, s: string): seq<string>
  {
    if s in ways then ways[s] else []
  }

  ghost predicate Records(ways: Ways, g: Graph)
  {
    forall s :: OutOf(ways, s) == Outs(g, s)
  }

  datatype Issue =
    | NoSuchEntry(id: string)
    | DanglingEdge(id: string, to: string)
    | DanglingArm(id: string, to: string)
    | ManyWaysOut(id: string, ways: nat)
    | NeverJoins(id: string)
    | NothingToJoin(id: string)
    | NobodyApproves(id: string)
    | Unreached(id: string)

  // ---- what is reported, section by section ----------------------------------

  function EntryIssues(g: Graph): seq<Issue>
  {
    if Entry(g) != "" && Entry(g) !in Known(g.nodes) then [NoSuchEntry(Entry(g))] else []
  }

  function EdgeIssues(edges: seq<Edge>, known: set<string>): seq<Issue>
  {
    if edges == [] then []
    else
      var last := edges[|edges| - 1];
      EdgeIssues(edges[..|edges| - 1], known)
      + if Dangling(known, last.to) then [DanglingEdge(last.from, last.to)] else []
  }

  function TargetIssues(id: string, ts: seq<string>, known: set<string>): seq<Issue>
  {
    if ts == [] then []
    else
      var last := ts[|ts| - 1];
      TargetIssues(id, ts[..|ts| - 1], known) + if Dangling(known, last) then [DanglingArm(id, last)] else []
  }

  function ArmIssues(nodes: seq<Step>, known: set<string>): seq<Issue>
  {
    if nodes == [] then []
    else
      var last := nodes[|nodes| - 1];
      ArmIssues(nodes[..|nodes| - 1], known)
      + if last.kind == Branch then TargetIssues(last.id, Arms(last), known) else []
  }

  function WaysIssue(g: Graph, n: Step): seq<Issue>
  {
    if n.kind != Branch && n.kind != Fork && |Outs(g, n.id)| > 1 then [ManyWaysOut(n.id, |Outs(g, n.id)|)] else []
  }

  function WaysIssues(g: Graph, nodes: seq<Step>): seq<Issue>
  {
    if nodes == [] then []
    else WaysIssues(g, nodes[..|nodes| - 1]) + WaysIssue(g, nodes[|nodes| - 1])
  }

  ghost function ForkIssue(g: Graph, n: Step): seq<Issue>
  {
    if n.kind == Fork && !(exists j :: MeetsAt(g, n.id, j)) then [NeverJoins(n.id)] else []
  }

  ghost function ForkIssues(g: Graph, nodes: seq<Step>): seq<Issue>
  {
    if nodes == [] then []
    else ForkIssues(g, nodes[..|nodes| - 1]) + ForkIssue(g, nodes[|nodes| - 1])
  }

  /** Some fork among `nodes` has this join as the first on a path out of it. */
  ghost predicate Joined(g: Graph, nodes: seq<Step>, j: string)
  {
    exists f :: f in nodes && f.kind == Fork && MeetsAt(g, f.id, j)
  }

  ghost function JoinIssue(g: Graph, n: Step): seq<Issue>
  {
    (if n.kind == Join && !Joined(g, g.nodes, n.id) then [NothingToJoin(n.id)] else [])
    + if n.kind == Human && n.person == "" && n.role == "" && n.owner == "" then [NobodyApproves(n.id)] else []
  }

  ghost function JoinIssues(g: Graph, nodes: seq<Step>): seq<Issue>
  {
    if nodes == [] then []
    else JoinIssues(g, nodes[..|nodes| - 1]) + JoinIssue(g, nodes[|nodes| - 1])
  }

  ghost function ReachIssue(g: Graph, id: string): seq<Issue>
  {
    if Entry(g) != "" && Reachable(g, Entry(g), id) then [] else [Unreached(id)]
  }

  ghost function ReachIssues(g: Graph, ids: seq<string>): seq<Issue>
  {
    if ids == [] then []
    else ReachIssues(g, ids[..|ids| - 1]) + ReachIssue(g, ids[|ids| - 1])
  }

  ghost function Issues(g: Graph): seq<Issue>
  {
    EntryIssues(g) + EdgeIssues(g.edges, Known(g.nodes)) + ArmIssues(g.nodes, Known(g.nodes))
    + WaysIssues(g, g.nodes) + ForkIssues(g, g.nodes) + JoinIssues(g, g.nodes) + ReachIssues(g, Ids(g.nodes))
  }

  // ---- the loops ----------------------------------------------------------------

  function Add(ways: Ways, s: string, t: string): (r: Ways)
    ensures forall x :: OutOf(r, x) == if x == s then OutOf(ways, s) + [t] else OutOf(ways, x)
  {
    ways[s := OutOf(ways, s) + [t]]
  }

  ghost predicate EdgesIn(ways: Ways, edges: seq<Edge>, known: set<string>)
  {
    forall s :: OutOf(ways, s) == EdgeOuts(edges, known, s)
  }

  lemma EdgeStep(ways: Ways, edges: seq<Edge>, i: nat, known: set<string>)
    requires i < |edges| && EdgesIn(ways, edges[..i], known)
    ensures EdgesIn(if Dangling(known, edges[i].to) then ways else Add(ways, edges[i].from, edges[i].to),
                    edges[..i + 1], known)
    ensures EdgeIssues(edges[..i + 1], known) == EdgeIssues(edges[..i], known)
              + if Dangling(known, edges[i].to) then [DanglingEdge(edges[i].from, edges[i].to)] else []
  {
    assert edges[..i + 1][..i] == edges[..i];
    var e := edges[i];
    var ways' := if Dangling(known, e.to) then ways else Add(ways, e.from, e.to);
    forall s ensures OutOf(ways', s) == EdgeOuts(edges[..i + 1], known, s) {
      assert OutOf(ways, s) == EdgeOuts(edges[..i], known, s);
    }
  }

  method CollectEdges(edges: seq<Edge>, known: set<string>) returns (ways: Ways, issues: seq<Issue>)
    ensures EdgesIn(ways, edges, known)
    ensures issues == EdgeIssues(edges, known)
  {
    ways, issues := map[], [];
    for i := 0 to |edges|
      invariant EdgesIn(ways, edges[..i], known)
      invariant issues == EdgeIssues(edges[..i], known)
    {
      EdgeStep(ways, edges, i, known);
      var e := edges[i];
      if e.to != "" && e.to != END && e.to !in known {
        issues := issues + [DanglingEdge(e.from, e.to)];
        continue;
      }
      ways := Add(ways, e.from, e.to);
    }
    assert edges[..|edges|] == edges;
  }

  ghost predicate TargetsIn(ways: Ways, start: Ways, id: string, ts: seq<string>, known: set<string>)
  {
    forall s :: OutOf(ways, s) == OutOf(start, s) + if s == id then KeptTargets(ts, known) else []
  }

  lemma TargetStep(ways: Ways, start: Ways, id: string, ts: seq<string>, i: nat, known: set<string>)
    requires i < |ts| && TargetsIn(ways, start, id, ts[..i], known)
    ensures TargetsIn(if Dangling(known, ts[i]) then ways else Add(ways, id, ts[i]), start, id, ts[..i + 1], known)
    ensures TargetIssues(id, ts[..i + 1], known) == TargetIssues(id, ts[..i], known)
              + if Dangling(known, ts[i]) then [DanglingArm(id, ts[i])] else []
  {
    assert ts[..i + 1][..i] == ts[..i];
    var ways' := if Dangling(known, ts[i]) then ways else Add(ways, id, ts[i]);
    forall s
      ensures OutOf(ways', s) == OutOf(start, s) + if s == id then KeptTargets(ts[..i + 1], known) else []
    {
      assert OutOf(ways, s) == OutOf(start, s) + if s == id then KeptTargets(ts[..i], known) else [];
    }
  }

  method CollectTargets(id: string, targets: seq<string>, known: set<string>, start: Ways)
    returns (ways: Ways, issues: seq<Issue>)
    ensures TargetsIn(ways, start, id, targets, known)
    ensures issues == TargetIssues(id, targets, known)
  {
    ways, issues := start, [];
    for i := 0 to |targets|
      invariant TargetsIn(ways, start, id, targets[..i], known)
      invariant issues == TargetIssues(id, targets[..i], known)
    {
      TargetStep(ways, start, id, targets, i, known);
      var t := targets[i];
      if t != "" && t != END && t !in known {
        issues := issues + [DanglingArm(id, t)];
        continue;
      }
      ways := Add(ways, id, t);
    }
    assert targets[..|targets|] == targets;
  }

  ghost predicate ArmsIn(ways: Ways, start: Ways, nodes: seq<Step>, known: set<string>)
  {
    forall s :: OutOf(ways, s) == OutOf(start, s) + ArmOuts(nodes, known, s)
  }

  lemma ArmStep(ways: Ways, ways': Ways, start: Ways, nodes: seq<Step>, i: nat, known: set<string>)
    requires i < |nodes| && ArmsIn(ways, start, nodes[..i], known)
    requires if nodes[i].kind == Branch then TargetsIn(ways', ways, nodes[i].id, Arms(nodes[i]), known)
             else ways' == ways
    ensures ArmsIn(ways', start, nodes[..i + 1], known)
  {
    forall s ensures OutOf(ways', s) == OutOf(start, s) + ArmOuts(nodes[..i + 1], known, s) {
      ArmOutsLast(nodes, i, known, s);
      assert OutOf(ways, s) == OutOf(start, s) + ArmOuts(nodes[..i], known, s);
      if nodes[i].kind == Branch {
        var more := if s == nodes[i].id then KeptTargets(Arms(nodes[i]), known) else [];
        assert OutOf(ways', s) == OutOf(ways, s) + more;
        Regroup(OutOf(start, s), ArmOuts(nodes[..i], known, s), more);
      }
    }
  }

  lemma ArmOutsLast(nodes: seq<Step>, i: nat, known: set<string>, s: string)
    requires i < |nodes|
    ensures ArmOuts(nodes[..i + 1], known, s) == ArmOuts(nodes[..i], known, s)
              + if nodes[i].kind == Branch && nodes[i].id == s then KeptTargets(Arms(nodes[i]), known) else []
  {
    assert nodes[..i + 1][..i] == nodes[..i];
  }

  method CollectArms(nodes: seq<Step>, known: set<string>, start: Ways) returns (ways: Ways, issues: seq<Issue>)
    ensures ArmsIn(ways, start, nodes, known)
    ensures issues == ArmIssues(nodes, known)
  {
    ways, issues := start, [];
    for i := 0 to |nodes|
      invariant ArmsIn(ways, start, nodes[..i], known)
      invariant issues == ArmIssues(nodes[..i], known)
    {
      var n := nodes[i];
      assert nodes[..i + 1][..i] == nodes[..i];
      ghost var was := ways;
      if n.kind != Branch {
        ArmStep(was, ways, start, nodes, i, known);
        continue;
      }
      var more: seq<Issue>;
      ways, more := CollectTargets(n.id, Arms(n), known, ways);
      issues := issues + more;
      ArmStep(was, ways, start, nodes, i, known);
    }
    assert nodes[..|nodes|] == nodes;
  }

  method CheckWays(g: Graph, ways: Ways) returns (issues: seq<Issue>)
    requires Records(ways, g)
    ensures issues == WaysIssues(g, g.nodes)
  {
    hide Outs, OutOf, WaysIssues;
    issues := [];
    NoWaysIssues(g);
    for i := 0 to |g.nodes|
      invariant issues == WaysIssues(g, g.nodes[..i])
    {
      var n := g.nodes[i];
      WaysIssuesLast(g, i);
      if n.kind == Branch || n.kind == Fork {
        continue;
      }
      if |OutOf(ways, n.id)| > 1 {
        issues := issues + [ManyWaysOut(n.id, |OutOf(ways, n.id)|)];
      }
    }
    assert g.nodes[..|g.nodes|] == g.nodes;
  }

  lemma NoWaysIssues(g: Graph)
    ensures WaysIssues(g, []) == []
  {
  }

  lemma WaysIssuesLast(g: Graph, i: nat)
    requires i < |g.nodes|
    ensures WaysIssues(g, g.nodes[..i + 1]) == WaysIssues(g, g.nodes[..i]) + WaysIssue(g, g.nodes[i])
  {
    assert g.nodes[..i + 1][..i] == g.nodes[..i];
  }

  // The search from one fork. Seen and stacked steps lie on trails; what a seen step
  // that is no join leads to is seen or stacked.

  ghost predicate OnTrails(g: Graph, f: string, seen: set<string>, stack: seq<string>)
  {
    && (forall t :: t in seen ==> LeadsFirst(g, f, t))
    && (forall t :: t in stack && t != "" && t != END ==> LeadsFirst(g, f, t))
  }

  ghost predicate Spreads(g: Graph, f: string, seen: set<string>, stack: seq<string>)
  {
    && (forall t :: Leads(g, f, t) ==> t in seen || t in stack)
    && (forall s, t :: s in seen && KindOf(g.nodes, s) != Join && Leads(g, s, t) ==> t in seen || t in stack)
  }

  ghost predicate Searching(g: Graph, f: string, seen: set<string>, stack: seq<string>)
  {
    OnTrails(g, f, seen, stack) && Spreads(g, f, seen, stack)
  }

  ghost function JoinsIn(g: Graph, seen: set<string>): set<string>
  {
    set t | t in seen && KindOf(g.nodes, t) == Join
  }

  lemma SearchStarts(g: Graph, ways: Ways, f: string)
    requires Records(ways, g)
    ensures Searching(g, f, {}, OutOf(ways, f))
  {
    WaysAreLeads(g, ways, f);
    forall x | Leads(g, f, x) ensures LeadsFirst(g, f, x) {
      TrailStarts(g, f, x);
    }
  }

  lemma WaysAreLeads(g: Graph, ways: Ways, s: string)
    requires Records(ways, g)
    ensures forall x :: Leads(g, s, x) <==> x in OutOf(ways, s) && x != "" && x != END
  {
    forall x ensures Leads(g, s, x) <==> x in OutOf(ways, s) && x != "" && x != END {
      OutsAreLeads(g, s, x);
    }
  }

  lemma Popped(stack: seq<string>)
    requires stack != []
    ensures forall x :: x in stack <==> x in stack[..|stack| - 1] || x == stack[|stack| - 1]
  {
  }

  lemma SearchSkips(g: Graph, f: string, seen: set<string>, stack: seq<string>)
    requires stack != [] && Searching(g, f, seen, stack)
    requires var t := stack[|stack| - 1]; t == "" || t == END || t in seen
    ensures Searching(g, f, seen, stack[..|stack| - 1])
  {
  }

  lemma SearchTakes(g: Graph, ways: Ways, f: string, seen: set<string>, stack: seq<string>)
    requires stack != [] && Searching(g, f, seen, stack) && Records(ways, g)
    requires var t := stack[|stack| - 1]; t != "" && t != END
    ensures var t := stack[|stack| - 1];
            && t in Known(g.nodes)
            && JoinsIn(g, seen + {t}) == JoinsIn(g, seen) + (if KindOf(g.nodes, t) == Join then {t} else {})
            && Searching(g, f, seen + {t},
                         stack[..|stack| - 1] + if KindOf(g.nodes, t) == Join then [] else OutOf(ways, t))
  {
    var t := stack[|stack| - 1];
    Popped(stack);
    TrailEndsKnown(g, f, t);
    WaysAreLeads(g, ways, t);
    if KindOf(g.nodes, t) != Join {
      forall x | Leads(g, t, x) ensures LeadsFirst(g, f, x) {
        TrailExtends(g, f, t, x);
      }
    }
  }

  lemma SearchDone(g: Graph, f: string, seen: set<string>)
    requires Searching(g, f, seen, [])
    ensures forall t :: t in JoinsIn(g, seen) <==> MeetsAt(g, f, t)
  {
    forall t | LeadsFirst(g, f, t) ensures t in seen {
      var p :| Trail(g, f, t, p);
      ClosedHoldsTrail(g, seen, f, t, p);
    }
  }

  method FindJoins(g: Graph, ways: Ways, f: string, before: set<string>) returns (found: bool, joined: set<string>)
    requires Records(ways, g)
    ensures found <==> exists j :: MeetsAt(g, f, j)
    ensures forall j :: j in joined <==> j in before || MeetsAt(g, f, j)
  {
    hide Searching, MeetsAt, Records, OutOf, KindOf;
    var seen: set<string>, stack := {}, OutOf(ways, f);
    found, joined := false, before;
    SearchStarts(g, ways, f);
    while stack != []
      invariant Searching(g, f, seen, stack)
      invariant joined == before + JoinsIn(g, seen)
      invariant found <==> JoinsIn(g, seen) != {}
      decreases Known(g.nodes) - seen, |stack|
    {
      var t, rest := stack[|stack| - 1], stack[..|stack| - 1];
      if t == "" || t == END || t in seen {
        SearchSkips(g, f, seen, stack);
        stack := rest;
        continue;
      }
      SearchTakes(g, ways, f, seen, stack);
      seen := seen + {t};
      if KindOf(g.nodes, t) == Join {
        found := true;
        joined := joined + {t};
        stack := rest;
        assert rest + [] == rest;
        continue;
      }
      stack := rest + OutOf(ways, t);
    }
    SearchDone(g, f, seen);
  }

  lemma ForkIssuesLast(g: Graph, nodes: seq<Step>, i: nat)
    requires i < |nodes|
    ensures ForkIssues(g, nodes[..i + 1]) == ForkIssues(g, nodes[..i]) + ForkIssue(g, nodes[i])
    ensures forall j :: Joined(g, nodes[..i + 1], j) <==>
              Joined(g, nodes[..i], j) || (nodes[i].kind == Fork && MeetsAt(g, nodes[i].id, j))
  {
    assert nodes[..i + 1][..i] == nodes[..i];
    assert nodes[..i + 1] == nodes[..i] + [nodes[i]];
  }

  method CheckForks(g: Graph, ways: Ways) returns (issues: seq<Issue>, joined: set<string>)
    requires Records(ways, g)
    ensures issues == ForkIssues(g, g.nodes)
    ensures forall j :: j in joined <==> Joined(g, g.nodes, j)
  {
    issues, joined := [], {};
    for i := 0 to |g.nodes|
      invariant issues == ForkIssues(g, g.nodes[..i])
      invariant forall j :: j in joined <==> Joined(g, g.nodes[..i], j)
    {
      var n := g.nodes[i];
      ForkIssuesLast(g, g.nodes, i);
      if n.kind != Fork {
        continue;
      }
      var found: bool;
      found, joined := FindJoins(g, ways, n.id, joined);
      if !found {
        issues := issues + [NeverJoins(n.id)];
      }
    }
    assert g.nodes[..|g.nodes|] == g.nodes;
  }

  method CheckJoins(g: Graph, joined: set<string>) returns (issues: seq<Issue>)
    requires forall j :: j in joined <==> Joined(g, g.nodes, j)
    ensures issues == JoinIssues(g, g.nodes)
  {
    issues := [];
    for i := 0 to |g.nodes|
      invariant issues == JoinIssues(g, g.nodes[..i])
    {
      var n := g.nodes[i];
      assert g.nodes[..i + 1][..i] == g.nodes[..i];
      if n.kind == Join && n.id !in joined {
        issues := issues + [NothingToJoin(n.id)];
      }
      if n.kind == Human && n.person == "" && n.role == "" && n.owner == "" {
        issues := issues + [NobodyApproves(n.id)];
      }
    }
    assert g.nodes[..|g.nodes|] == g.nodes;
  }

  // Reachability marks a step when it is stacked, so all that a seen step leads to is
  // seen, except for the steps still on the stack.

  ghost predicate Walking(g: Graph, entry: string, seen: set<string>, stack: seq<string>)
  {
    && (forall t :: t in seen ==> Reachable(g, entry, t))
    && (forall t :: t in stack ==> t in seen)
    && (forall s, t :: s in seen && s !in stack && Leads(g, s, t) ==> t in seen)
  }

  /** Part-way through the ways out of `s`: the first `k` are seen. */
  ghost predicate Expanding(g: Graph, entry: string, seen: set<string>, stack: seq<string>,
                            s: string, outs: seq<string>, k: nat)
    requires k <= |outs|
  {
    && s in seen
    && (forall t :: t in seen ==> Reachable(g, entry, t))
    && (forall t :: t in stack ==> t in seen)
    && (forall x, t :: x in seen && x != s && x !in stack && Leads(g, x, t) ==> t in seen)
    && (forall t :: t in outs[..k] && t != "" && t != END ==> t in seen)
  }

  lemma ExpandStarts(g: Graph, entry: string, seen: set<string>, stack: seq<string>, outs: seq<string>)
    requires stack != [] && Walking(g, entry, seen, stack)
    ensures Expanding(g, entry, seen, stack[..|stack| - 1], stack[|stack| - 1], outs, 0)
  {
  }

  lemma ExpandStep(g: Graph, ways: Ways, entry: string, seen: set<string>, stack: seq<string>, s: string, k: nat)
    requires Records(ways, g) && k < |OutOf(ways, s)|
    requires Expanding(g, entry, seen, stack, s, OutOf(ways, s), k)
    ensures var t := OutOf(ways, s)[k];
            if t != "" && t != END && t !in seen then
              t in Known(g.nodes)
              && Expanding(g, entry, seen + {t}, stack + [t], s, OutOf(ways, s), k + 1)
            else Expanding(g, entry, seen, stack, s, OutOf(ways, s), k + 1)
  {
    var outs := OutOf(ways, s);
    var t := outs[k];
    assert forall x :: x in outs[..k + 1] <==> x in outs[..k] || x == t by {
      assert outs[..k + 1] == outs[..k] + [t];
    }
    if t != "" && t != END {
      OutsAreLeads(g, s, t);
      PathExtends(g, entry, s, t);
    }
  }

  lemma ExpandDone(g: Graph, ways: Ways, entry: string, seen: set<string>, stack: seq<string>, s: string)
    requires Records(ways, g)
    requires Expanding(g, entry, seen, stack, s, OutOf(ways, s), |OutOf(ways, s)|)
    ensures Walking(g, entry, seen, stack)
  {
    var outs := OutOf(ways, s);
    assert outs[..|outs|] == outs;
    WaysAreLeads(g, ways, s);
  }

  lemma WalkDone(g: Graph, entry: string, seen: set<string>)
    requires entry in seen && Walking(g, entry, seen, [])
    ensures forall t :: t in seen <==> Reachable(g, entry, t)
  {
    forall t | Reachable(g, entry, t) ensures t in seen {
      var p :| Joins(g, entry, t, p);
      ClosedHoldsPath(g, seen, p);
    }
  }

  method ReachFrom(g: Graph, ways: Ways, entry: string) returns (seen: set<string>)
    requires Records(ways, g)
    ensures forall t :: t in seen <==> entry != "" && Reachable(g, entry, t)
  {
    if entry == "" {
      return {};
    }
    seen := {entry};
    var stack := [entry];
    assert Joins(g, entry, entry, [entry]);
    while stack != []
      invariant entry in seen && Walking(g, entry, seen, stack)
      decreases Known(g.nodes) - seen, |stack|
    {
      var s := stack[|stack| - 1];
      var outs := OutOf(ways, s);
      ExpandStarts(g, entry, seen, stack, outs);
      ghost var seen0, stack0 := seen, stack;
      stack := stack[..|stack| - 1];
      for k := 0 to |outs|
        invariant entry in seen && Expanding(g, entry, seen, stack, s, outs, k)
        invariant seen0 <= seen && (seen == seen0 ==> |stack| < |stack0|)
        invariant seen != seen0 ==> Known(g.nodes) - seen < Known(g.nodes) - seen0
      {
        var t := outs[k];
        ExpandStep(g, ways, entry, seen, stack, s, k);
        if t != "" && t != END && t !in seen {
          seen := seen + {t};
          stack := stack + [t];
        }
      }
      ExpandDone(g, ways, entry, seen, stack, s);
    }
    WalkDone(g, entry, seen);
  }

  method CheckReach(g: Graph, seen: set<string>) returns (issues: seq<Issue>)
    requires forall t :: t in seen <==> Entry(g) != "" && Reachable(g, Entry(g), t)
    ensures issues == ReachIssues(g, Ids(g.nodes))
  {
    issues := [];
    var ids := Ids(g.nodes);
    for i := 0 to |ids|
      invariant issues == ReachIssues(g, ids[..i])
    {
      assert ids[..i + 1][..i] == ids[..i];
      if ids[i] !in seen {
        issues := issues + [Unreached(ids[i])];
      }
    }
    assert ids[..|ids|] == ids;
  }

  /** The whole check, on any graph, loops included: each finding is there exactly
      when its reason is, in the order the sections are made. */
  method GraphIssues(g: Graph) returns (issues: seq<Issue>)
    ensures issues == Issues(g)
  {
    var known := Known(g.nodes);
    var entry := Entry(g);
    issues := [];
    if entry != "" && entry !in known {
      issues := [NoSuchEntry(entry)];
    }
    var ways, found := CollectEdges(g.edges, known);
    issues := issues + found;
    ways, found := CollectArms(g.nodes, known, ways);
    issues := issues + found;
    found := CheckWays(g, ways);
    issues := issues + found;
    var joined: set<string>;
    found, joined := CheckForks(g, ways);
    issues := issues + found;
    found := CheckJoins(g, joined);
    issues := issues + found;
    var seen := ReachFrom(g, ways, entry);
    found := CheckReach(g, seen);
    issues := issues + found;
  }
}
