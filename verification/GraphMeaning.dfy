/** What the graph check's findings mean: each is there exactly when it is warranted,
    and none are exactly when the graph is sound. */
module GraphMeaning {
  import opened Workflow
  import opened GraphCheck

  /** A step of this id and kind is among the nodes. */
  ghost predicate Has(nodes: seq<Step>, id: string, kind: Kind)
  {
    exists n :: n in nodes && n.id == id && n.kind == kind
  }

  ghost predicate Unnamed(n: Step)
  {
    n.kind == Human && n.person == "" && n.role == "" && n.owner == ""
  }

  ghost predicate Warranted(g: Graph, issue: Issue)
  {
    match issue
    case NoSuchEntry(id) => id == Entry(g) && id != "" && !IsStep(g.nodes, id)
    case DanglingEdge(id, to) => Edge(id, to) in g.edges && Nowhere(g.nodes, to)
    case DanglingArm(id, to) => ByArm(g.nodes, id, to) && Nowhere(g.nodes, to)
    case ManyWaysOut(id, ways) => ways == WayCount(g, id) > 1
                                  && exists n :: n in g.nodes && n.id == id && n.kind != Branch && n.kind != Fork
    case NeverJoins(id) => Has(g.nodes, id, Fork) && !exists j :: MeetsAt(g, id, j)
    case NothingToJoin(id) => Has(g.nodes, id, Join) && !exists f :: Has(g.nodes, f, Fork) && MeetsAt(g, f, id)
    case NobodyApproves(id) => exists n :: n in g.nodes && n.id == id && Unnamed(n)
    case Unreached(id) => IsStep(g.nodes, id) && !Reachable(g, Entry(g), id)
  }

  lemma {:induction false} EdgeIssuesMean(edges: seq<Edge>, known: set<string>, x: Issue)
    ensures x in EdgeIssues(edges, known) <==>
              x.DanglingEdge? && Edge(x.id, x.to) in edges && Dangling(known, x.to)
  {
    if edges != [] {
      EdgeIssuesMean(edges[..|edges| - 1], known, x);
      assert edges == edges[..|edges| - 1] + [edges[|edges| - 1]];
    }
  }

  lemma {:induction false} TargetIssuesMean(id: string, ts: seq<string>, known: set<string>, x: Issue)
    ensures x in TargetIssues(id, ts, known) <==>
              x.DanglingArm? && x.id == id && x.to in ts && Dangling(known, x.to)
  {
    if ts != [] {
      TargetIssuesMean(id, ts[..|ts| - 1], known, x);
      assert ts == ts[..|ts| - 1] + [ts[|ts| - 1]];
    }
  }

  lemma {:induction false} ArmIssuesMean(nodes: seq<Step>, known: set<string>, x: Issue)
    ensures x in ArmIssues(nodes, known) <==>
              x.DanglingArm? && ByArm(nodes, x.id, x.to) && Dangling(known, x.to)
  {
    if nodes == [] {
      assert x.DanglingArm? ==> !ByArm(nodes, x.id, x.to);
    } else {
      var init, last := nodes[..|nodes| - 1], nodes[|nodes| - 1];
      hide Arms, ByArm;
      ArmIssuesMean(init, known, x);
      TargetIssuesMean(last.id, Arms(last), known, x);
      if x.DanglingArm? {
        ByArmLast(nodes, x.id, x.to);
        ArmsMean(last, x.to);
      }
    }
  }

  /** `x in` a section is `x in` what one of the steps contributes. */
  lemma Last<T>(nodes: seq<T>)
    requires nodes != []
    ensures forall n :: n in nodes <==> n in nodes[..|nodes| - 1] || n == nodes[|nodes| - 1]
  {
  }

  lemma {:induction false} WaysIssuesMean(g: Graph, nodes: seq<Step>, x: Issue)
    ensures x in WaysIssues(g, nodes) <==> exists n :: n in nodes && x in WaysIssue(g, n)
  {
    if nodes != [] {
      Last(nodes);
      WaysIssuesMean(g, nodes[..|nodes| - 1], x);
    }
  }

  lemma {:induction false} ForkIssuesMean(g: Graph, nodes: seq<Step>, x: Issue)
    ensures x in ForkIssues(g, nodes) <==> exists n :: n in nodes && x in ForkIssue(g, n)
  {
    if nodes != [] {
      Last(nodes);
      ForkIssuesMean(g, nodes[..|nodes| - 1], x);
    }
  }

  lemma {:induction false} JoinIssuesMean(g: Graph, nodes: seq<Step>, x: Issue)
    ensures x in JoinIssues(g, nodes) <==> exists n :: n in nodes && x in JoinIssue(g, n)
  {
    if nodes != [] {
      Last(nodes);
      JoinIssuesMean(g, nodes[..|nodes| - 1], x);
    }
  }

  lemma {:induction false} ReachIssuesMean(g: Graph, ids: seq<string>, x: Issue)
    ensures x in ReachIssues(g, ids) <==> exists id :: id in ids && x in ReachIssue(g, id)
  {
    if ids != [] {
      Last(ids);
      ReachIssuesMean(g, ids[..|ids| - 1], x);
    }
  }

  lemma EntryNamed(g: Graph)
    requires Known(g.nodes) != {}
    ensures Entry(g) != ""
  {
    var id :| id in Known(g.nodes);
    assert id in Ids(g.nodes);
    assert Ids(g.nodes)[0] in Ids(g.nodes);
  }

  lemma ReachSection(g: Graph, x: Issue)
    ensures x in ReachIssues(g, Ids(g.nodes)) <==> x.Unreached? && Warranted(g, x)
  {
    hide Reachable, ReachIssues, Entry;
    ReachIssuesMean(g, Ids(g.nodes), x);
    if Known(g.nodes) != {} { EntryNamed(g); }
  }

  lemma WaysSection(g: Graph, x: Issue)
    ensures x in WaysIssues(g, g.nodes) <==> x.ManyWaysOut? && Warranted(g, x)
  {
    hide Outs, WayCount;
    WaysCounted(g, x.id);
    WaysIssuesMean(g, g.nodes, x);
    if x in WaysIssues(g, g.nodes) {
      var n :| n in g.nodes && x in WaysIssue(g, n);
    }
    if x.ManyWaysOut? && Warranted(g, x) {
      var n :| n in g.nodes && n.id == x.id && n.kind != Branch && n.kind != Fork;
      assert x in WaysIssue(g, n);
    }
  }

  lemma ForkSection(g: Graph, x: Issue)
    ensures x in ForkIssues(g, g.nodes) <==> x.NeverJoins? && Warranted(g, x)
  {
    ForkIssuesMean(g, g.nodes, x);
    if x.NeverJoins? && Warranted(g, x) {
      var n :| n in g.nodes && n.id == x.id && n.kind == Fork;
      assert x in ForkIssue(g, n);
    }
  }

  lemma JoinedMeans(g: Graph, j: string)
    ensures Joined(g, g.nodes, j) <==> exists f :: Has(g.nodes, f, Fork) && MeetsAt(g, f, j)
  {
  }

  lemma JoinSection(g: Graph, x: Issue)
    ensures x in JoinIssues(g, g.nodes) <==> (x.NothingToJoin? || x.NobodyApproves?) && Warranted(g, x)
  {
    JoinIssuesMean(g, g.nodes, x);
    JoinedMeans(g, x.id);
    if x in JoinIssues(g, g.nodes) {
      var n :| n in g.nodes && x in JoinIssue(g, n);
      assert x.id == n.id;
      if x.NothingToJoin? { assert n.kind == Join; } else { assert Unnamed(n); }
    }
  }

  /** A finding is made exactly when it is warranted, on any graph. */
  lemma IssueIsWarranted(g: Graph, x: Issue)
    ensures x in Issues(g) <==> Warranted(g, x)
  {
    EdgeIssuesMean(g.edges, Known(g.nodes), x);
    ArmIssuesMean(g.nodes, Known(g.nodes), x);
    WaysSection(g, x);
    ForkSection(g, x);
    JoinSection(g, x);
    ReachSection(g, x);
  }

  /** Only branches and forks have several ways out; a fork reaches some join, and a
      join is the first on some path out of a fork; a person's step names somebody.
      A fork need only have one such path: not all of its branches have to meet. */
  ghost predicate SoundStep(g: Graph, n: Step)
  {
    && (n.kind != Branch && n.kind != Fork ==> WayCount(g, n.id) <= 1)
    && (n.kind == Fork ==> exists j :: MeetsAt(g, n.id, j))
    && (n.kind == Join ==> exists f :: Has(g.nodes, f, Fork) && MeetsAt(g, f, n.id))
    && !Unnamed(n)
    && (n.kind == Branch ==> !Nowhere(g.nodes, n.default) && forall c :: c in n.cases ==> !Nowhere(g.nodes, c.to))
  }

  /** What an empty list of findings promises. */
  ghost predicate Sound(g: Graph)
  {
    && (Entry(g) == "" || IsStep(g.nodes, Entry(g)))
    && (forall e :: e in g.edges ==> !Nowhere(g.nodes, e.to))
    && (forall n :: n in g.nodes ==> SoundStep(g, n))
    && (forall id :: IsStep(g.nodes, id) ==> Reachable(g, Entry(g), id))
  }

  lemma SoundMeansNothingWarranted(g: Graph, x: Issue)
    requires Sound(g)
    ensures !Warranted(g, x)
  {
  }

  lemma EmptyIsNotNowhere(nodes: seq<Step>)
    ensures !Nowhere(nodes, "")
  {
  }

  lemma UnwarrantedStep(g: Graph, n: Step)
    requires n in g.nodes && forall x :: !Warranted(g, x)
    ensures SoundStep(g, n)
  {
    hide WayCount, MeetsAt, Nowhere;
    assert !Warranted(g, ManyWaysOut(n.id, WayCount(g, n.id)));
    assert !Warranted(g, NeverJoins(n.id));
    assert !Warranted(g, NothingToJoin(n.id));
    assert !Warranted(g, NobodyApproves(n.id));
    assert n.kind == Fork ==> Has(g.nodes, n.id, Fork);
    assert n.kind == Join ==> Has(g.nodes, n.id, Join);
    forall t | ArmTo(n, n.id, t) ensures !Nowhere(g.nodes, t) {
      assert !Warranted(g, DanglingArm(n.id, t));
    }
    if n.kind == Branch && n.default == "" { assert !Nowhere(g.nodes, n.default) by { EmptyIsNotNowhere(g.nodes); } }
    forall c | n.kind == Branch && c in n.cases ensures !Nowhere(g.nodes, c.to) {
      assert ArmTo(n, n.id, c.to);
    }
  }

  lemma NothingWarrantedMeansSound(g: Graph)
    requires forall x :: !Warranted(g, x)
    ensures Sound(g)
  {
    forall e | e in g.edges ensures !Nowhere(g.nodes, e.to) {
      assert !Warranted(g, DanglingEdge(e.from, e.to));
      assert e == Edge(e.from, e.to);
    }
    forall n | n in g.nodes ensures SoundStep(g, n) { UnwarrantedStep(g, n); }
    forall id | IsStep(g.nodes, id) ensures Reachable(g, Entry(g), id) {
      assert !Warranted(g, Unreached(id));
    }
    assert !Warranted(g, NoSuchEntry(Entry(g)));
  }

  lemma EmptyMeans(issues: seq<Issue>)
    ensures issues == [] <==> forall x :: x !in issues
  {
    assert issues != [] ==> issues[0] in issues;
  }

  /** The check finds nothing exactly when the graph is sound. */
  lemma NoIssuesMeansSound(g: Graph, issues: seq<Issue>)
    requires issues == Issues(g)
    ensures issues == [] <==> Sound(g)
  {
    EmptyMeans(issues);
    forall x ensures x in issues <==> Warranted(g, x) { IssueIsWarranted(g, x); }
    if forall x :: !Warranted(g, x) {
      NothingWarrantedMeansSound(g);
    }
    if Sound(g) {
      forall x ensures !Warranted(g, x) { SoundMeansNothingWarranted(g, x); }
    }
  }

  // ---- the order of the findings -------------------------------------------------------------

  function Section(x: Issue): nat
  {
    match x
    case NoSuchEntry(_) => 0
    case DanglingEdge(_, _) => 1
    case DanglingArm(_, _) => 2
    case ManyWaysOut(_, _) => 3
    case NeverJoins(_) => 4
    case NothingToJoin(_) => 5
    case NobodyApproves(_) => 5
    case Unreached(_) => 6
  }

  ghost predicate AllIn(issues: seq<Issue>, section: nat)
  {
    forall x :: x in issues ==> Section(x) == section
  }

  lemma SectionOf(g: Graph, x: Issue)
    ensures (x in EntryIssues(g) ==> Section(x) == 0) && (x in EdgeIssues(g.edges, Known(g.nodes)) ==> Section(x) == 1)
    ensures (x in ArmIssues(g.nodes, Known(g.nodes)) ==> Section(x) == 2)
            && (x in WaysIssues(g, g.nodes) ==> Section(x) == 3)
    ensures (x in ForkIssues(g, g.nodes) ==> Section(x) == 4) && (x in JoinIssues(g, g.nodes) ==> Section(x) == 5)
    ensures x in ReachIssues(g, Ids(g.nodes)) ==> Section(x) == 6
  {
    hide EdgeIssues, ArmIssues, WaysIssues, ForkIssues, JoinIssues, ReachIssues, Warranted, Entry;
    EdgeIssuesMean(g.edges, Known(g.nodes), x);
    ArmIssuesMean(g.nodes, Known(g.nodes), x);
    WaysSection(g, x);
    ForkSection(g, x);
    JoinSection(g, x);
    ReachSection(g, x);
  }

  lemma AllInSections(g: Graph)
    ensures AllIn(EntryIssues(g), 0) && AllIn(EdgeIssues(g.edges, Known(g.nodes)), 1)
    ensures AllIn(ArmIssues(g.nodes, Known(g.nodes)), 2) && AllIn(WaysIssues(g, g.nodes), 3)
    ensures AllIn(ForkIssues(g, g.nodes), 4) && AllIn(JoinIssues(g, g.nodes), 5)
    ensures AllIn(ReachIssues(g, Ids(g.nodes)), 6)
  {
    hide EntryIssues, EdgeIssues, ArmIssues, WaysIssues, ForkIssues, JoinIssues, ReachIssues, Section, Ids, Known;
    forall x | x in EntryIssues(g) ensures Section(x) == 0 { SectionOf(g, x); }
    forall x | x in EdgeIssues(g.edges, Known(g.nodes)) ensures Section(x) == 1 { SectionOf(g, x); }
    forall x | x in ArmIssues(g.nodes, Known(g.nodes)) ensures Section(x) == 2 { SectionOf(g, x); }
    forall x | x in WaysIssues(g, g.nodes) ensures Section(x) == 3 { SectionOf(g, x); }
    forall x | x in ForkIssues(g, g.nodes) ensures Section(x) == 4 { SectionOf(g, x); }
    forall x | x in JoinIssues(g, g.nodes) ensures Section(x) == 5 { SectionOf(g, x); }
    forall x | x in ReachIssues(g, Ids(g.nodes)) ensures Section(x) == 6 { SectionOf(g, x); }
  }

  ghost predicate InSections(issues: seq<Issue>)
  {
    forall i, j :: 0 <= i < j < |issues| ==> Section(issues[i]) <= Section(issues[j])
  }

  lemma SectionAppended(issues: seq<Issue>, more: seq<Issue>, section: nat)
    requires InSections(issues) && (forall x :: x in issues ==> Section(x) < section) && AllIn(more, section)
    ensures InSections(issues + more) && forall x :: x in issues + more ==> Section(x) < section + 1
  {
  }

  /** The findings come section by section. */
  lemma IssuesInSections(g: Graph)
    ensures InSections(Issues(g))
  {
    hide EntryIssues, EdgeIssues, ArmIssues, WaysIssues, ForkIssues, JoinIssues, ReachIssues, Known, Ids;
    AllInSections(g);
    var known := Known(g.nodes);
    var i0 := EntryIssues(g);
    var i1 := i0 + EdgeIssues(g.edges, known);
    var i2 := i1 + ArmIssues(g.nodes, known);
    var i3 := i2 + WaysIssues(g, g.nodes);
    var i4 := i3 + ForkIssues(g, g.nodes);
    var i5 := i4 + JoinIssues(g, g.nodes);
    hide AllIn, InSections, Section;
    InOneSection(i0, 0);
    SectionAppended(i0, EdgeIssues(g.edges, known), 1);
    SectionAppended(i1, ArmIssues(g.nodes, known), 2);
    SectionAppended(i2, WaysIssues(g, g.nodes), 3);
    SectionAppended(i3, ForkIssues(g, g.nodes), 4);
    SectionAppended(i4, JoinIssues(g, g.nodes), 5);
    SectionAppended(i5, ReachIssues(g, Ids(g.nodes)), 6);
  }

  lemma InOneSection(issues: seq<Issue>, section: nat)
    requires AllIn(issues, section)
    ensures InSections(issues) && forall x :: x in issues ==> Section(x) < section + 1
  {
  }

  lemma {:induction false} EdgeIssuesJoin(a: seq<Edge>, b: seq<Edge>, known: set<string>)
    ensures EdgeIssues(a + b, known) == EdgeIssues(a, known) + EdgeIssues(b, known)
  {
    if b == [] {
      assert a + b == a;
    } else {
      assert (a + b)[..|a + b| - 1] == a + b[..|b| - 1];
      EdgeIssuesJoin(a, b[..|b| - 1], known);
    }
  }

  lemma {:induction false} TargetIssuesJoin(id: string, a: seq<string>, b: seq<string>, known: set<string>)
    ensures TargetIssues(id, a + b, known) == TargetIssues(id, a, known) + TargetIssues(id, b, known)
  {
    if b == [] {
      assert a + b == a;
    } else {
      assert (a + b)[..|a + b| - 1] == a + b[..|b| - 1];
      TargetIssuesJoin(id, a, b[..|b| - 1], known);
    }
  }

  lemma {:induction false} ArmIssuesJoin(a: seq<Step>, b: seq<Step>, known: set<string>)
    ensures ArmIssues(a + b, known) == ArmIssues(a, known) + ArmIssues(b, known)
  {
    if b == [] {
      assert a + b == a;
    } else {
      hide Arms, TargetIssues;
      assert (a + b)[..|a + b| - 1] == a + b[..|b| - 1];
      ArmIssuesJoin(a, b[..|b| - 1], known);
    }
  }

  lemma {:induction false} WaysIssuesJoin(g: Graph, a: seq<Step>, b: seq<Step>)
    ensures WaysIssues(g, a + b) == WaysIssues(g, a) + WaysIssues(g, b)
  {
    if b == [] {
      assert a + b == a;
    } else {
      hide WaysIssue;
      assert (a + b)[..|a + b| - 1] == a + b[..|b| - 1];
      WaysIssuesJoin(g, a, b[..|b| - 1]);
    }
  }

  lemma {:induction false} ForkIssuesJoin(g: Graph, a: seq<Step>, b: seq<Step>)
    ensures ForkIssues(g, a + b) == ForkIssues(g, a) + ForkIssues(g, b)
  {
    if b == [] {
      assert a + b == a;
    } else {
      hide ForkIssue;
      assert (a + b)[..|a + b| - 1] == a + b[..|b| - 1];
      ForkIssuesJoin(g, a, b[..|b| - 1]);
    }
  }

  lemma {:induction false} JoinIssuesJoin(g: Graph, a: seq<Step>, b: seq<Step>)
    ensures JoinIssues(g, a + b) == JoinIssues(g, a) + JoinIssues(g, b)
  {
    if b == [] {
      assert a + b == a;
    } else {
      hide JoinIssue;
      assert (a + b)[..|a + b| - 1] == a + b[..|b| - 1];
      JoinIssuesJoin(g, a, b[..|b| - 1]);
    }
  }

  lemma {:induction false} ReachIssuesJoin(g: Graph, a: seq<string>, b: seq<string>)
    ensures ReachIssues(g, a + b) == ReachIssues(g, a) + ReachIssues(g, b)
  {
    if b == [] {
      assert a + b == a;
    } else {
      hide ReachIssue;
      assert (a + b)[..|a + b| - 1] == a + b[..|b| - 1];
      ReachIssuesJoin(g, a, b[..|b| - 1]);
    }
  }

  lemma {:induction false} IdsJoin(a: seq<Step>, b: seq<Step>)
    ensures Ids(a + b) == Ids(a) + Ids(b)
  {
    if b == [] {
      assert a + b == a;
    } else {
      assert (a + b)[..|a + b| - 1] == a + b[..|b| - 1];
      IdsJoin(a, b[..|b| - 1]);
    }
  }

  /** Within a section they follow the edges, the steps, and a branch's arms; each edge,
      arm and step gives at most one. */
  lemma SectionsInOrder(g: Graph, a: seq<Step>, b: seq<Step>, es: seq<Edge>, fs: seq<Edge>, n: Step, e: Edge, t: string)
    requires g.nodes == a + b && g.edges == es + fs
    ensures var known := Known(g.nodes);
            && EdgeIssues(g.edges, known) == EdgeIssues(es, known) + EdgeIssues(fs, known)
            && ArmIssues(g.nodes, known) == ArmIssues(a, known) + ArmIssues(b, known)
            && ReachIssues(g, Ids(g.nodes)) == ReachIssues(g, Ids(a)) + ReachIssues(g, Ids(b))
    ensures WaysIssues(g, g.nodes) == WaysIssues(g, a) + WaysIssues(g, b)
    ensures ForkIssues(g, g.nodes) == ForkIssues(g, a) + ForkIssues(g, b)
    ensures JoinIssues(g, g.nodes) == JoinIssues(g, a) + JoinIssues(g, b)
    ensures |EntryIssues(g)| <= 1 && |Ids([n])| <= 1 && |ReachIssues(g, [t])| <= 1
    ensures |EdgeIssues([e], Known(g.nodes))| <= 1 && |TargetIssues(n.id, [t], Known(g.nodes))| <= 1
    ensures |WaysIssues(g, [n])| <= 1 && |ForkIssues(g, [n])| <= 1 && |JoinIssues(g, [n])| <= 1
  {
    hide Known, Reachable, MeetsAt, Outs, Joined;
    EdgeIssuesJoin(es, fs, Known(g.nodes));
    ArmIssuesJoin(a, b, Known(g.nodes));
    IdsJoin(a, b);
    ReachIssuesJoin(g, Ids(a), Ids(b));
    WaysIssuesJoin(g, a, b);
    ForkIssuesJoin(g, a, b);
    JoinIssuesJoin(g, a, b);
    assert [n][..0] == [] && [e][..0] == [] && [t][..0] == [];
  }

  /** A branch's arms: its cases in order, then its default. */
  lemma ArmsInOrder(n: Step)
    ensures |Arms(n)| == |n.cases| + if n.default != "" then 1 else 0
    ensures forall i :: 0 <= i < |n.cases| ==> Arms(n)[i] == n.cases[i].to
    ensures n.default != "" ==> Arms(n)[|n.cases|] == n.default
    ensures forall known :: ArmIssues([n], known) == if n.kind == Branch then TargetIssues(n.id, Arms(n), known) else []
  {
    assert [n][..0] == [];
  }

  // ---- a branch that never joins -------------------------------------------------------------

  function Plain(id: string, kind: Kind): Step
  {
    Step(id, kind, [], "", "", "", "")
  }

  /** A fork straight to a join, and to a step after which the workflow ends. */
  const ONE_JOINS := Graph("fork", [Plain("fork", Fork), Plain("side", Other), Plain("join", Join)],
                           [Edge("fork", "side"), Edge("fork", "join"), Edge("side", END)])

  lemma OneJoinsIds()
    ensures Known(ONE_JOINS.nodes) == {"fork", "side", "join"} && Entry(ONE_JOINS) == "fork"
    ensures forall id :: IsStep(ONE_JOINS.nodes, id) <==> id == "fork" || id == "side" || id == "join"
    ensures KindOf(ONE_JOINS.nodes, "join") == Join && KindOf(ONE_JOINS.nodes, "side") == Other
  {
    var nodes := ONE_JOINS.nodes;
    assert nodes == [nodes[0], nodes[1], nodes[2]];
    assert nodes[..2] == [nodes[0], nodes[1]];
  }

  lemma OneJoinsLeads(s: string, t: string)
    ensures Leads(ONE_JOINS, s, t) <==> s == "fork" && (t == "side" || t == "join")
  {
    OneJoinsIds();
    hide IsStep, Known, KindOf, Entry;
    assert !ByArm(ONE_JOINS.nodes, s, t) by { assert forall n :: n in ONE_JOINS.nodes ==> n.kind != Branch; }
  }

  lemma OneJoinsOuts()
    ensures |Outs(ONE_JOINS, "side")| <= 1 && |Outs(ONE_JOINS, "join")| <= 1
  {
    hide Known, KindOf, ArmOuts, EdgeOuts;
    var es, known := ONE_JOINS.edges, Known(ONE_JOINS.nodes);
    NoArms(ONE_JOINS.nodes, known, "side");
    NoArms(ONE_JOINS.nodes, known, "join");
    LastEdge(es[..2], es[2], known, "side");
    assert es == es[..2] + [es[2]];
    NoEdges(es, known, "join");
  }

  lemma LastEdge(edges: seq<Edge>, last: Edge, known: set<string>, s: string)
    requires forall e :: e in edges ==> e.from != s
    ensures |EdgeOuts(edges + [last], known, s)| <= 1
  {
    NoEdges(edges, known, s);
    assert (edges + [last])[..|edges|] == edges;
  }

  lemma {:induction false} NoEdges(edges: seq<Edge>, known: set<string>, s: string)
    requires forall e :: e in edges ==> e.from != s
    ensures EdgeOuts(edges, known, s) == []
  {
    if edges != [] {
      assert edges[|edges| - 1] in edges;
      NoEdges(edges[..|edges| - 1], known, s);
    }
  }

  lemma {:induction false} NoArms(nodes: seq<Step>, known: set<string>, s: string)
    requires forall n :: n in nodes ==> n.kind != Branch
    ensures ArmOuts(nodes, known, s) == []
  {
    if nodes != [] {
      assert nodes[|nodes| - 1] in nodes;
      NoArms(nodes[..|nodes| - 1], known, s);
    }
  }

  lemma OneJoinsMeets()
    ensures MeetsAt(ONE_JOINS, "fork", "join")
  {
    hide KindOf, Leads;
    OneJoinsIds();
    OneJoinsLeads("fork", "join");
    TrailStarts(ONE_JOINS, "fork", "join");
  }

  lemma OneJoinsReached(id: string)
    requires id == "fork" || id == "side" || id == "join"
    ensures Reachable(ONE_JOINS, "fork", id)
  {
    hide Leads;
    OneJoinsLeads("fork", id);
    if id == "fork" {
      assert Joins(ONE_JOINS, "fork", id, ["fork"]);
    } else {
      assert Joins(ONE_JOINS, "fork", id, ["fork", id]);
    }
  }

  lemma OneJoinsStep(n: Step)
    requires n in ONE_JOINS.nodes
    ensures SoundStep(ONE_JOINS, n)
  {
    hide Outs, WayCount, MeetsAt, Nowhere;
    OneJoinsMeets();
    assert n == Plain("fork", Fork) || n == Plain("side", Other) || n == Plain("join", Join);
    if n.kind != Fork {
      OneJoinsOuts();
      WaysCounted(ONE_JOINS, n.id);
    }
    assert Plain("fork", Fork) in ONE_JOINS.nodes;
    assert Has(ONE_JOINS.nodes, "fork", Fork);
  }

  lemma OneJoinsSound()
    ensures Sound(ONE_JOINS)
  {
    hide SoundStep, Entry, Known, KindOf, Reachable, IsStep;
    var g := ONE_JOINS;
    OneJoinsIds();
    forall n | n in g.nodes ensures SoundStep(g, n) { OneJoinsStep(n); }
    forall id | IsStep(g.nodes, id) ensures Reachable(g, Entry(g), id) { OneJoinsReached(id); }
  }

  /** The check finds nothing, though from one way out of the fork no join is reached. */
  lemma OneBranchNeverJoins()
    ensures Issues(ONE_JOINS) == []
    ensures Leads(ONE_JOINS, "fork", "side")
    ensures forall j :: Reachable(ONE_JOINS, "side", j) ==> KindOf(ONE_JOINS.nodes, j) != Join
  {
    hide Leads, KindOf, Sound, Issues;
    OneJoinsIds();
    OneJoinsSound();
    NoIssuesMeansSound(ONE_JOINS, Issues(ONE_JOINS));
    forall s, t ensures Leads(ONE_JOINS, s, t) <==> s == "fork" && (t == "side" || t == "join") {
      OneJoinsLeads(s, t);
    }
    forall j | Reachable(ONE_JOINS, "side", j) ensures KindOf(ONE_JOINS.nodes, j) != Join {
      var p :| Joins(ONE_JOINS, "side", j, p);
      ClosedHoldsPath(ONE_JOINS, {"side"}, p);
    }
  }
}
