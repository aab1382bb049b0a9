/** Where agents run: one placement for each sandbox, at the nearest team above that
    declares one. */
module Placements {
  import opened Basics
  import opened Staffing
  import opened OrgTree
  import opened Lex

  /** An agent runs in a sandbox under a unit. */
  datatype Use = Use(unit: string, environment: string, agent: string)

  datatype Placement = Placement(id: string, unit: string, environment: string, agents: seq<string>)

  function Key(u: Use): string
  {
    u.unit + "--" + u.environment
  }

  // ---- the walk ------------------------------------------------------------------------

  function EnvironmentUses(unit: string, agent: string, envs: seq<string>): seq<Use>
  {
    if envs == [] then []
    else EnvironmentUses(unit, agent, envs[..|envs| - 1])
         + if envs[|envs| - 1] != "" then [Use(unit, envs[|envs| - 1], agent)] else []
  }

  function MemberUses(unit: string, members: seq<Agent>): seq<Use>
  {
    if members == [] then []
    else MemberUses(unit, members[..|members| - 1])
         + EnvironmentUses(unit, members[|members| - 1].id, members[|members| - 1].environments)
  }

  function UnitOf(t: Tree, inherited: string): string
  {
    if t.placement then t.post.id else inherited
  }

  function Uses(t: Tree, inherited: string): seq<Use>
    decreases t, 0
  {
    MemberUses(UnitOf(t, inherited), t.post.staff.members) + UsesIn(t.teams, UnitOf(t, inherited))
  }

  function UsesIn(ts: seq<Tree>, unit: string): seq<Use>
    decreases ts, 1
  {
    if ts == [] then [] else Uses(ts[0], unit) + UsesIn(ts[1..], unit)
  }

  /** One more agent in the placement with the use's key, made if there is none. */
  function Put(gs: seq<Placement>, u: Use): seq<Placement>
  {
    if gs == [] then [Placement(Key(u), u.unit, u.environment, [u.agent])]
    else if gs[0].id == Key(u) then [gs[0].(agents := gs[0].agents + [u.agent])] + gs[1..]
    else [gs[0]] + Put(gs[1..], u)
  }

  function Collect(gs: seq<Placement>, us: seq<Use>): seq<Placement>
  {
    if us == [] then gs else Put(Collect(gs, us[..|us| - 1]), us[|us| - 1])
  }

  lemma {:induction false} CollectConcat(gs: seq<Placement>, a: seq<Use>, b: seq<Use>)
    ensures Collect(gs, a + b) == Collect(Collect(gs, a), b)
  {
    if b == [] {
      assert a + b == a;
    } else {
      assert (a + b)[..|a + b| - 1] == a + b[..|b| - 1];
      CollectConcat(gs, a, b[..|b| - 1]);
    }
  }

  lemma CollectOne(gs: seq<Placement>, us: seq<Use>, u: Use)
    ensures Collect(gs, us + [u]) == Put(Collect(gs, us), u)
  {
  }

  class Collector {
    var groups: seq<Placement>

    constructor ()
      ensures groups == []
    {
      groups := [];
    }

    method Agent(unit: string, a: Agent)
      modifies this
      ensures groups == Collect(old(groups), EnvironmentUses(unit, a.id, a.environments))
    {
      ghost var was := groups;
      for i := 0 to |a.environments|
        invariant groups == Collect(was, EnvironmentUses(unit, a.id, a.environments[..i]))
      {
        assert a.environments[..i + 1][..i] == a.environments[..i];
        ghost var done := EnvironmentUses(unit, a.id, a.environments[..i]);
        if a.environments[i] == "" {
          assert EnvironmentUses(unit, a.id, a.environments[..i + 1]) == done;
          continue;
        }
        var u := Use(unit, a.environments[i], a.id);
        CollectOne(was, done, u);
        groups := Put(groups, u);
      }
      assert a.environments[..|a.environments|] == a.environments;
    }

    method Walk(t: Tree, inherited: string)
      modifies this
      ensures groups == Collect(old(groups), Uses(t, inherited))
      decreases t
    {
      ghost var was := groups;
      var unit := if t.placement then t.post.id else inherited;
      var members := t.post.staff.members;
      for i := 0 to |members|
        invariant groups == Collect(was, MemberUses(unit, members[..i]))
      {
        assert members[..i + 1][..i] == members[..i];
        CollectConcat(was, MemberUses(unit, members[..i]),
                      EnvironmentUses(unit, members[i].id, members[i].environments));
        Agent(unit, members[i]);
      }
      assert members[..|members|] == members;
      ghost var here := groups;
      for i := 0 to |t.teams|
        invariant Collect(groups, UsesIn(t.teams[i..], unit)) == Collect(here, UsesIn(t.teams, unit))
      {
        assert t.teams[i..][1..] == t.teams[i + 1..];
        CollectConcat(groups, Uses(t.teams[i], unit), UsesIn(t.teams[i + 1..], unit));
        Walk(t.teams[i], unit);
      }
      CollectConcat(was, MemberUses(unit, members), UsesIn(t.teams, unit));
    }
  }

  // ---- what is collected -----------------------------------------------------------------

  function AgentsAt(us: seq<Use>, key: string): seq<string>
  {
    if us == [] then []
    else AgentsAt(us[..|us| - 1], key) + if Key(us[|us| - 1]) == key then [us[|us| - 1].agent] else []
  }

  /** Distinct keys, and each placement holds the agents of its key's uses, in order. */
  ghost predicate Gathers(gs: seq<Placement>, us: seq<Use>)
  {
    && (forall i, j :: 0 <= i < j < |gs| ==> gs[i].id != gs[j].id)
    && (forall i :: 0 <= i < |gs| ==> Holds(gs[i], us))
    && (forall u :: u in us ==> exists i :: 0 <= i < |gs| && gs[i].id == Key(u))
  }

  /** It is the placement of some use. */
  ghost predicate IsPlaceOf(g: Placement, us: seq<Use>)
  {
    exists u :: u in us && Key(u) == g.id && g.unit == u.unit && g.environment == u.environment
  }

  /** Its agents are those of its key's uses, in the order they came. */
  ghost predicate Holds(g: Placement, us: seq<Use>)
  {
    IsPlaceOf(g, us) && g.agents == AgentsAt(us, g.id)
  }

  lemma {:induction false} PutAt(gs: seq<Placement>, u: Use)
    requires forall i, j :: 0 <= i < j < |gs| ==> gs[i].id != gs[j].id
    ensures var r := Put(gs, u);
            && |gs| <= |r| <= |gs| + 1
            && (forall i :: 0 <= i < |gs| ==>
                  r[i] == if gs[i].id == Key(u) then gs[i].(agents := gs[i].agents + [u.agent]) else gs[i])
            && (|r| == |gs| <==> exists i :: 0 <= i < |gs| && gs[i].id == Key(u))
            && (|r| > |gs| ==> r[|gs|] == Placement(Key(u), u.unit, u.environment, [u.agent]))
  {
    hide Key;
    if gs != [] {
      if gs[0].id != Key(u) {
        assert forall i :: 0 <= i < |gs[1..]| ==> gs[1..][i] == gs[i + 1];
        PutAt(gs[1..], u);
        var rest := Put(gs[1..], u);
        assert Put(gs, u) == [gs[0]] + rest;
        assert forall i :: 1 <= i < |gs| ==> Put(gs, u)[i] == rest[i - 1] && gs[i] == gs[1..][i - 1];
      } else {
        assert forall i :: 1 <= i < |gs| ==> Put(gs, u)[i] == gs[i];
      }
    }
  }

  lemma {:induction false} NobodyAt(us: seq<Use>, key: string)
    requires forall u :: u in us ==> Key(u) != key
    ensures AgentsAt(us, key) == []
  {
    if us != [] {
      assert us[|us| - 1] in us;
      NobodyAt(us[..|us| - 1], key);
    }
  }

  lemma HoldsMore(g: Placement, us: seq<Use>, u: Use)
    requires Holds(g, us)
    ensures Holds(if g.id == Key(u) then g.(agents := g.agents + [u.agent]) else g, us + [u])
  {
    assert (us + [u])[..|us|] == us;
  }

  lemma HoldsFirst(us: seq<Use>, u: Use)
    requires forall v :: v in us ==> Key(v) != Key(u)
    ensures Holds(Placement(Key(u), u.unit, u.environment, [u.agent]), us + [u])
  {
    NobodyAt(us, Key(u));
    assert (us + [u])[..|us|] == us;
    assert AgentsAt(us + [u], Key(u)) == [u.agent];
    assert u in us + [u];
  }

  lemma PutGathers(gs: seq<Placement>, us: seq<Use>, u: Use)
    requires Gathers(gs, us)
    ensures Gathers(Put(gs, u), us + [u])
  {
    hide IsPlaceOf, Key, Put, AgentsAt;
    var r := Put(gs, u);
    PutAt(gs, u);
    if |r| > |gs| { HoldsFirst(us, u); }
    forall i | 0 <= i < |r| ensures Holds(r[i], us + [u]) {
      if i < |gs| { HoldsMore(gs[i], us, u); }
    }
    forall v | v in us + [u] ensures exists i :: 0 <= i < |r| && r[i].id == Key(v) {
      if v in us {
        var i :| 0 <= i < |gs| && gs[i].id == Key(v);
        assert r[i].id == Key(v);
      } else if |r| > |gs| {
        assert r[|gs|].id == Key(v);
      } else {
        var i :| 0 <= i < |gs| && gs[i].id == Key(u);
        assert r[i].id == Key(v);
      }
    }
  }

  lemma NothingGathered()
    ensures Gathers([], [])
  {
  }

  lemma {:induction false} CollectGathers(us: seq<Use>)
    ensures Gathers(Collect([], us), us)
  {
    hide Gathers, Put;
    NothingGathered();
    if us != [] {
      var n := |us| - 1;
      CollectGathers(us[..n]);
      PutGathers(Collect([], us[..n]), us[..n], us[n]);
      assert us == us[..n] + [us[n]];
    }
  }

  // ---- sorting ------------------------------------------------------------------------------

  predicate InOrder(s: seq<string>)
  {
    forall i, j :: 0 <= i < j < |s| ==> !Less(s[j], s[i])
  }

  function Insert(x: string, s: seq<string>): (r: seq<string>)
    ensures multiset(r) == multiset(s) + multiset{x}
  {
    if s == [] then [x]
    else if Less(s[0], x) then
      assert s == [s[0]] + s[1..];
      [s[0]] + Insert(x, s[1..])
    else [x] + s
  }

  function SortTexts(s: seq<string>): (r: seq<string>)
    ensures multiset(r) == multiset(s)
  {
    if s == [] then [] else
      assert s == [s[0]] + s[1..];
      Insert(s[0], SortTexts(s[1..]))
  }

  lemma NotLessTransitive(a: string, b: string, c: string)
    requires !Less(b, a) && !Less(c, b)
    ensures !Less(c, a)
  {
    LessTotal(a, b);
    if Less(c, a) && Less(a, b) { LessTransitive(c, a, b); }
  }

  lemma {:induction false} InsertInOrder(x: string, s: seq<string>)
    requires InOrder(s)
    ensures InOrder(Insert(x, s))
  {
    if s != [] {
      var r := Insert(x, s);
      if Less(s[0], x) {
        var rest := Insert(x, s[1..]);
        InsertInOrder(x, s[1..]);
        forall j | 0 <= j < |rest| ensures !Less(rest[j], s[0]) {
          assert rest[j] in multiset(rest);
          if rest[j] == x {
            LessAsymmetric(s[0], x);
          } else {
            assert rest[j] in s[1..];
          }
        }
      } else {
        forall j | 0 <= j < |s| ensures !Less(s[j], x) {
          if j > 0 { NotLessTransitive(x, s[0], s[j]); }
        }
      }
    }
  }

  lemma {:induction false} SortedInOrder(s: seq<string>)
    ensures InOrder(SortTexts(s))
  {
    if s != [] {
      SortedInOrder(s[1..]);
      InsertInOrder(s[0], SortTexts(s[1..]));
    }
  }

  function WithSortedAgents(gs: seq<Placement>): (r: seq<Placement>)
    ensures |r| == |gs| && forall i :: 0 <= i < |gs| ==> r[i] == gs[i].(agents := SortTexts(gs[i].agents))
  {
    seq(|gs|, i requires 0 <= i < |gs| => gs[i].(agents := SortTexts(gs[i].agents)))
  }

  function InsertById(g: Placement, s: seq<Placement>): (r: seq<Placement>)
    ensures |r| == |s| + 1 && forall x :: x in r <==> x == g || x in s
  {
    if s == [] then [g]
    else if Less(s[0].id, g.id) then
      assert s == [s[0]] + s[1..];
      [s[0]] + InsertById(g, s[1..])
    else [g] + s
  }

  function SortById(s: seq<Placement>): (r: seq<Placement>)
    ensures |r| == |s| && forall x :: x in r <==> x in s
  {
    if s == [] then [] else
      assert s == [s[0]] + s[1..];
      InsertById(s[0], SortById(s[1..]))
  }

  predicate AscendingById(s: seq<Placement>)
  {
    forall i, j :: 0 <= i < j < |s| ==> Less(s[i].id, s[j].id)
  }

  lemma {:induction false} InsertByIdAscends(g: Placement, s: seq<Placement>)
    requires AscendingById(s) && forall x :: x in s ==> x.id != g.id
    ensures AscendingById(InsertById(g, s))
  {
    if s != [] {
      LessTotal(s[0].id, g.id);
      if Less(s[0].id, g.id) {
        var rest := InsertById(g, s[1..]);
        InsertByIdAscends(g, s[1..]);
        forall j | 0 <= j < |rest| ensures Less(s[0].id, rest[j].id) {
          assert rest[j] in rest;
        }
      } else {
        forall j | 0 <= j < |s| ensures Less(g.id, s[j].id) {
          if j > 0 { LessTransitive(g.id, s[0].id, s[j].id); }
        }
      }
    }
  }

  lemma {:induction false} SortByIdAscends(s: seq<Placement>)
    requires forall i, j :: 0 <= i < j < |s| ==> s[i].id != s[j].id
    ensures AscendingById(SortById(s))
  {
    if s != [] {
      SortByIdAscends(s[1..]);
      forall x | x in SortById(s[1..]) ensures x.id != s[0].id {
        assert x in s[1..];
      }
      InsertByIdAscends(s[0], SortById(s[1..]));
    }
  }

  ghost predicate InOrderFor(g: Placement, us: seq<Use>)
  {
    g.agents != [] && InOrder(g.agents) && IsPlaceOf(g, us) && g.agents == SortTexts(AgentsAt(us, g.id))
  }

  /** Placements in order of their ids, none twice and none empty: each has the agents of
      its key's uses, sorted, and every use has its key's placement. */
  ghost predicate Places(ps: seq<Placement>, us: seq<Use>)
  {
    && AscendingById(ps)
    && (forall g :: g in ps ==> InOrderFor(g, us))
    && (forall u :: u in us ==> exists g :: g in ps && g.id == Key(u))
  }

  lemma {:induction false} SomebodyAt(us: seq<Use>, u: Use)
    requires u in us
    ensures AgentsAt(us, Key(u)) != []
  {
    if us[|us| - 1] != u { SomebodyAt(us[..|us| - 1], u); }
  }

  lemma HoldsSorted(g: Placement, us: seq<Use>)
    requires Holds(g, us)
    ensures InOrderFor(g.(agents := SortTexts(g.agents)), us)
  {
    SortedInOrder(g.agents);
    var u :| u in us && Key(u) == g.id && g.unit == u.unit && g.environment == u.environment;
    SomebodyAt(us, u);
    assert |multiset(SortTexts(g.agents))| == |multiset(AgentsAt(us, g.id))|;
  }

  lemma SortedPlaces(gs: seq<Placement>, us: seq<Use>)
    requires Gathers(gs, us)
    ensures Places(SortById(WithSortedAgents(gs)), us)
  {
    hide InOrderFor, IsPlaceOf, Key, SortTexts, SortById, AscendingById, AgentsAt;
    var ws := WithSortedAgents(gs);
    var ps := SortById(ws);
    forall i | 0 <= i < |ws| ensures InOrderFor(ws[i], us) {
      HoldsSorted(gs[i], us);
    }
    SortByIdAscends(ws);
    forall u | u in us ensures exists g :: g in ps && g.id == Key(u) {
      var i :| 0 <= i < |gs| && gs[i].id == Key(u);
      assert ws[i] in ps;
    }
  }

  // ---- the posture shown with a placement ------------------------------------------------

  /** A class of sandboxes and its network posture; an absent one is the empty text. */
  datatype Sandbox = Sandbox(id: string, network: string)

  datatype Region = Region(place: Placement, network: string)

  function Shown(network: string): string
  {
    if network == "" then "none" else network
  }

  /** The table of postures; a repeated id keeps its last class's. */
  function Postures(classes: seq<Sandbox>): map<string, string>
  {
    if classes == [] then map[]
    else Postures(classes[..|classes| - 1])[classes[|classes| - 1].id := Shown(classes[|classes| - 1].network)]
  }

  function Posture(classes: seq<Sandbox>, id: string): string
  {
    if id in Postures(classes) then Shown(Postures(classes)[id]) else "none"
  }

  ghost predicate IsLast(classes: seq<Sandbox>, i: int, id: string)
  {
    0 <= i < |classes| && classes[i].id == id && forall j :: i < j < |classes| ==> classes[j].id != id
  }

  lemma PostureLast(classes: seq<Sandbox>, id: string)
    requires classes != []
    ensures var n := |classes| - 1;
            Posture(classes, id)
            == if classes[n].id != id then Posture(classes[..n], id)
               else if classes[n].network == "" then "none" else classes[n].network
  {
  }

  /** The posture is that of the last class of the id, and none if there is no class. */
  lemma {:induction false} PostureMeans(classes: seq<Sandbox>, id: string)
    ensures forall i :: IsLast(classes, i, id) ==>
              Posture(classes, id) == if classes[i].network == "" then "none" else classes[i].network
    ensures (forall c :: c in classes ==> c.id != id) ==> Posture(classes, id) == "none"
    ensures (exists c :: c in classes && c.id == id) ==> exists i :: IsLast(classes, i, id)
  {
    if classes == [] {
      assert Posture(classes, id) == "none";
    } else {
      hide Posture, Shown;
      var n := |classes| - 1;
      var init, last := classes[..n], classes[n];
      PostureLast(classes, id);
      PostureMeans(init, id);
      assert classes == init + [last];
      if last.id == id {
        assert IsLast(classes, n, id);
      } else {
        assert forall i :: IsLast(init, i, id) <==> IsLast(classes, i, id);
      }
    }
  }

  function WithPostures(ps: seq<Placement>, classes: seq<Sandbox>): (r: seq<Region>)
    ensures Placed(r) == ps
    ensures forall g :: g in r ==> g.network == Posture(classes, g.place.environment)
  {
    if ps == [] then []
    else
      assert ps == [ps[0]] + ps[1..];
      [Region(ps[0], Posture(classes, ps[0].environment))] + WithPostures(ps[1..], classes)
  }

  function Placed(regions: seq<Region>): (r: seq<Placement>)
    ensures |r| == |regions| && forall i :: 0 <= i < |r| ==> r[i] == regions[i].place
  {
    seq(|regions|, i requires 0 <= i < |regions| => regions[i].place)
  }

  method DerivedPlacements(root: Tree, classes: seq<Sandbox>) returns (regions: seq<Region>)
    ensures Places(Placed(regions), Uses(root, root.post.id))
    ensures forall g :: g in regions ==> g.network == Posture(classes, g.place.environment)
  {
    var members := new Collector();
    members.Walk(root, root.post.id);
    CollectGathers(Uses(root, root.post.id));
    SortedPlaces(members.groups, Uses(root, root.post.id));
    regions := WithPostures(SortById(WithSortedAgents(members.groups)), classes);
  }

  // ---- which unit a use names ------------------------------------------------------------

  datatype Found = Nowhere | Team(tree: Tree)

  /** The team reached by taking the child of each number in turn. */
  function TeamAt(t: Tree, path: seq<nat>): Found
  {
    if path == [] then Team(t)
    else if path[0] < |t.teams| then TeamAt(t.teams[path[0]], path[1..])
    else Nowhere
  }

  /** The teams from the top down to it. */
  function Chain(t: Tree, path: seq<nat>): seq<Tree>
  {
    if path == [] || path[0] >= |t.teams| then [t] else [t] + Chain(t.teams[path[0]], path[1..])
  }

  /** From the bottom up: the first that declares a placement, or the default. */
  function Nearest(chain: seq<Tree>, default: string): string
  {
    if chain == [] then default
    else if chain[|chain| - 1].placement then chain[|chain| - 1].post.id
    else Nearest(chain[..|chain| - 1], default)
  }

  lemma {:induction false} NearestBelow(t: Tree, rest: seq<Tree>, default: string)
    ensures Nearest([t] + rest, default) == Nearest(rest, UnitOf(t, default))
  {
    var chain := [t] + rest;
    if rest == [] {
      assert chain == [t] && chain[..0] == [];
    } else {
      assert chain[..|chain| - 1] == [t] + rest[..|rest| - 1];
      assert chain[|chain| - 1] == rest[|rest| - 1];
      NearestBelow(t, rest[..|rest| - 1], default);
    }
  }

  /** An agent of the team at a place lists the sandbox there. */
  ghost predicate Runs(t: Tree, path: seq<nat>, environment: string, agent: string)
  {
    TeamAt(t, path).Team? && environment != ""
    && exists m :: m in TeamAt(t, path).tree.post.staff.members && m.id == agent && environment in m.environments
  }

  ghost predicate UseAt(t: Tree, path: seq<nat>, inherited: string, u: Use)
  {
    Runs(t, path, u.environment, u.agent) && u.unit == Nearest(Chain(t, path), inherited)
  }

  lemma {:induction false} EnvironmentUsesMean(unit: string, agent: string, envs: seq<string>, u: Use)
    ensures u in EnvironmentUses(unit, agent, envs) <==>
              u.unit == unit && u.agent == agent && u.environment in envs && u.environment != ""
  {
    if envs != [] {
      EnvironmentUsesMean(unit, agent, envs[..|envs| - 1], u);
      assert envs == envs[..|envs| - 1] + [envs[|envs| - 1]];
    }
  }

  lemma {:induction false} MemberUsesMean(unit: string, members: seq<Agent>, u: Use)
    ensures u in MemberUses(unit, members) <==>
              u.unit == unit && u.environment != ""
              && exists m :: m in members && m.id == u.agent && u.environment in m.environments
  {
    if members != [] {
      var n := |members| - 1;
      MemberUsesMean(unit, members[..n], u);
      EnvironmentUsesMean(unit, members[n].id, members[n].environments, u);
      assert members == members[..n] + [members[n]];
    }
  }

  lemma {:induction false} UsesInMean(ts: seq<Tree>, unit: string, u: Use)
    ensures u in UsesIn(ts, unit) <==> exists i :: 0 <= i < |ts| && u in Uses(ts[i], unit)
    decreases ts
  {
    hide Uses;
    if ts != [] {
      UsesInMean(ts[1..], unit, u);
      assert forall i :: 0 <= i < |ts| - 1 ==> ts[1..][i] == ts[i + 1];
      if i :| 0 <= i < |ts| && u in Uses(ts[i], unit) {
        if i > 0 { assert ts[1..][i - 1] == ts[i]; }
      }
    }
  }

  /** The uses are exactly the sandboxes agents list, each under the nearest team above,
      or their own, that declares a placement. */
  lemma {:induction false} UsesMean(t: Tree, inherited: string, u: Use)
    ensures u in Uses(t, inherited) <==> exists path :: UseAt(t, path, inherited, u)
    decreases t
  {
    hide MemberUses, UsesIn, UseAt;
    var unit := UnitOf(t, inherited);
    MemberUsesMean(unit, t.post.staff.members, u);
    UsesInMean(t.teams, unit, u);
    forall i: nat | i < |t.teams|
      ensures u in Uses(t.teams[i], unit) <==> exists path :: UseAt(t.teams[i], path, unit, u)
    {
      UsesMean(t.teams[i], unit, u);
    }
    UseHere(t, inherited, u);
    if i: nat, path: seq<nat> :| i < |t.teams| && UseAt(t.teams[i], path, unit, u) {
      UseBelow(t, inherited, u, i, path);
      assert UseAt(t, [i] + path, inherited, u);
    }
    if path :| UseAt(t, path, inherited, u) {
      if path != [] {
        assert path == [path[0]] + path[1..];
        UseBelow(t, inherited, u, path[0], path[1..]);
      }
    }
  }

  lemma UseHere(t: Tree, inherited: string, u: Use)
    ensures UseAt(t, [], inherited, u) <==> u in MemberUses(UnitOf(t, inherited), t.post.staff.members)
  {
    MemberUsesMean(UnitOf(t, inherited), t.post.staff.members, u);
    NearestBelow(t, [], inherited);
    assert [t] + [] == [t];
  }

  lemma UseBelow(t: Tree, inherited: string, u: Use, i: nat, path: seq<nat>)
    ensures UseAt(t, [i] + path, inherited, u) <==>
              i < |t.teams| && UseAt(t.teams[i], path, UnitOf(t, inherited), u)
  {
    assert ([i] + path)[1..] == path;
    if i < |t.teams| {
      NearestBelow(t, Chain(t.teams[i], path), inherited);
    }
  }

  // ---- one placement for each sandbox -------------------------------------------------------

  /** How often a pairing of agent and sandbox occurs: among uses, and among seats. */
  function Times(us: seq<Use>, agent: string, environment: string): nat
  {
    if us == [] then 0
    else Times(us[..|us| - 1], agent, environment)
         + if us[|us| - 1].agent == agent && us[|us| - 1].environment == environment then 1 else 0
  }

  function Listings(envs: seq<string>, environment: string): nat
  {
    if envs == [] then 0
    else Listings(envs[..|envs| - 1], environment) + if envs[|envs| - 1] == environment then 1 else 0
  }

  function MemberListings(members: seq<Agent>, agent: string, environment: string): nat
  {
    if members == [] then 0
    else
      var last := members[|members| - 1];
      MemberListings(members[..|members| - 1], agent, environment)
      + if last.id == agent then Listings(last.environments, environment) else 0
  }

  function SeatListings(ps: seq<Post>, agent: string, environment: string): nat
  {
    if ps == [] then 0
    else MemberListings(ps[0].staff.members, agent, environment) + SeatListings(ps[1..], agent, environment)
  }

  lemma {:induction false} TimesConcat(a: seq<Use>, b: seq<Use>, agent: string, environment: string)
    ensures Times(a + b, agent, environment) == Times(a, agent, environment) + Times(b, agent, environment)
  {
    if b == [] {
      assert a + b == a;
    } else {
      assert (a + b)[..|a + b| - 1] == a + b[..|b| - 1];
      TimesConcat(a, b[..|b| - 1], agent, environment);
    }
  }

  lemma {:induction false} SeatsConcat(a: seq<Post>, b: seq<Post>, agent: string, environment: string)
    ensures SeatListings(a + b, agent, environment)
            == SeatListings(a, agent, environment) + SeatListings(b, agent, environment)
  {
    if a == [] {
      assert a + b == b;
    } else {
      assert (a + b)[1..] == a[1..] + b;
      SeatsConcat(a[1..], b, agent, environment);
    }
  }

  lemma {:induction false} TimesOfEnvironments(unit: string, id: string, envs: seq<string>,
                                               agent: string, environment: string)
    requires environment != ""
    ensures Times(EnvironmentUses(unit, id, envs), agent, environment)
            == if id == agent then Listings(envs, environment) else 0
  {
    if envs != [] {
      var n := |envs| - 1;
      TimesOfEnvironments(unit, id, envs[..n], agent, environment);
      if envs[n] != "" {
        OneMoreTime(EnvironmentUses(unit, id, envs[..n]), Use(unit, envs[n], id), agent, environment);
      } else {
        assert EnvironmentUses(unit, id, envs) == EnvironmentUses(unit, id, envs[..n]);
      }
    }
  }

  lemma OneMoreTime(us: seq<Use>, u: Use, agent: string, environment: string)
    ensures Times(us + [u], agent, environment)
            == Times(us, agent, environment) + if u.agent == agent && u.environment == environment then 1 else 0
  {
  }

  lemma {:induction false} TimesOfMembers(unit: string, members: seq<Agent>, agent: string, environment: string)
    requires environment != ""
    ensures Times(MemberUses(unit, members), agent, environment) == MemberListings(members, agent, environment)
  {
    if members != [] {
      var n := |members| - 1;
      TimesOfMembers(unit, members[..n], agent, environment);
      TimesOfEnvironments(unit, members[n].id, members[n].environments, agent, environment);
      TimesConcat(MemberUses(unit, members[..n]),
                  EnvironmentUses(unit, members[n].id, members[n].environments), agent, environment);
    }
  }

  /** A pairing is used as often as it is listed, whatever the units. */
  lemma {:induction false} TimesOfUses(t: Tree, inherited: string, agent: string, environment: string)
    requires environment != ""
    ensures Times(Uses(t, inherited), agent, environment) == SeatListings(Roster(t), agent, environment)
    decreases t, 0
  {
    var unit := UnitOf(t, inherited);
    TimesOfMembers(unit, t.post.staff.members, agent, environment);
    TimesOfUsesIn(t.teams, unit, agent, environment);
    TimesConcat(MemberUses(unit, t.post.staff.members), UsesIn(t.teams, unit), agent, environment);
    SeatsConcat([t.post], RosterIn(t.teams), agent, environment);
    assert [t.post][1..] == [];
  }

  lemma {:induction false} TimesOfUsesIn(ts: seq<Tree>, unit: string, agent: string, environment: string)
    requires environment != ""
    ensures Times(UsesIn(ts, unit), agent, environment) == SeatListings(RosterIn(ts), agent, environment)
    decreases ts, 1
  {
    if ts != [] {
      TimesOfUses(ts[0], unit, agent, environment);
      TimesOfUsesIn(ts[1..], unit, agent, environment);
      TimesConcat(Uses(ts[0], unit), UsesIn(ts[1..], unit), agent, environment);
      SeatsConcat(Roster(ts[0]), RosterIn(ts[1..]), agent, environment);
    }
  }

  ghost predicate NoneRepeats(ps: seq<Post>)
  {
    forall i, m :: 0 <= i < |ps| && m in ps[i].staff.members ==> Distinct(m.environments)
  }

  lemma {:induction false} ListedOnce(envs: seq<string>, environment: string)
    requires Distinct(envs)
    ensures Listings(envs, environment) == if environment in envs then 1 else 0
  {
    if envs != [] {
      var n := |envs| - 1;
      ListedOnce(envs[..n], environment);
      assert envs == envs[..n] + [envs[n]];
    }
  }

  lemma {:induction false} SeatedOnce(members: seq<Agent>, agent: string, environment: string)
    requires DistinctMembers(members) && forall m :: m in members ==> Distinct(m.environments)
    ensures MemberListings(members, agent, environment) <= if Sits(agent, members) then 1 else 0
  {
    if members != [] {
      hide Distinct, Listings;
      var n := |members| - 1;
      var init, last := members[..n], members[n];
      assert forall m :: m in init ==> m in members;
      assert last in members;
      SeatedOnce(init, agent, environment);
      ListedOnce(last.environments, environment);
      if i :| 0 <= i < |init| && init[i].id == agent { assert members[i].id == agent; }
    }
  }

  lemma {:induction false} SeatListedOnce(ps: seq<Post>, agent: string, environment: string)
    requires Good(ps) && NoneRepeats(ps)
    ensures SeatListings(ps, agent, environment) <= 1
    ensures (forall i :: 0 <= i < |ps| ==> !Sits(agent, ps[i].staff.members)) ==>
              SeatListings(ps, agent, environment) == 0
  {
    if ps != [] {
      var rest := ps[1..];
      assert forall i :: 0 <= i < |rest| ==> rest[i] == ps[i + 1];
      SeatedOnce(ps[0].staff.members, agent, environment);
      SeatListedOnce(rest, agent, environment);
    }
  }

  lemma {:induction false} UsedTwice(us: seq<Use>, u: Use, v: Use)
    requires u in us
    ensures Times(us, u.agent, u.environment) >= 1
    ensures v in us && u != v && u.agent == v.agent && u.environment == v.environment ==>
              Times(us, u.agent, u.environment) >= 2
  {
    var n := |us| - 1;
    var last := us[n];
    assert us == us[..n] + [last];
    if u in us[..n] {
      UsedTwice(us[..n], u, v);
    } else if v in us[..n] {
      UsedTwice(us[..n], v, u);
    }
  }

  /** Different units and sandboxes make different ids. */
  ghost predicate Unambiguous(us: seq<Use>)
  {
    forall u, v :: u in us && v in us && Key(u) == Key(v) ==> u.unit == v.unit && u.environment == v.environment
  }

  lemma {:induction false} AgentsAtMeans(us: seq<Use>, key: string, agent: string)
    ensures agent in AgentsAt(us, key) <==> exists u :: u in us && Key(u) == key && u.agent == agent
  {
    if us != [] {
      var n := |us| - 1;
      AgentsAtMeans(us[..n], key, agent);
      assert us == us[..n] + [us[n]];
    }
  }

  lemma {:induction false} AgentsAtMost(us: seq<Use>, key: string, agent: string, environment: string)
    requires forall u :: u in us && Key(u) == key ==> u.environment == environment
    ensures multiset(AgentsAt(us, key))[agent] <= Times(us, agent, environment)
  {
    if us != [] {
      var n := |us| - 1;
      assert us == us[..n] + [us[n]];
      AgentsAtMost(us[..n], key, agent, environment);
    }
  }

  /** The agents come in the order of the uses, as often as they are there. */
  lemma {:induction false} AgentsAtInOrder(a: seq<Use>, b: seq<Use>, key: string)
    ensures AgentsAt(a + b, key) == AgentsAt(a, key) + AgentsAt(b, key)
  {
    hide Key;
    if b == [] {
      assert a + b == a;
    } else {
      assert (a + b)[..|a + b| - 1] == a + b[..|b| - 1];
      AgentsAtInOrder(a, b[..|b| - 1], key);
    }
  }

  lemma OneAgentAt(u: Use, key: string)
    ensures AgentsAt([u], key) == if u.unit + "--" + u.environment == key then [u.agent] else []
  {
    assert [u][..0] == [];
  }

  lemma HeldBy(g: Placement, us: seq<Use>, agent: string)
    requires InOrderFor(g, us)
    ensures agent in g.agents <==> exists u :: u in us && Key(u) == g.id && u.agent == agent
  {
    AgentsAtMeans(us, g.id, agent);
    assert agent in g.agents <==> agent in multiset(g.agents);
    assert agent in AgentsAt(us, g.id) <==> agent in multiset(AgentsAt(us, g.id));
  }

  lemma UsedOnce(root: Tree, inherited: string, u: Use)
    requires Good(Roster(root)) && NoneRepeats(Roster(root)) && u in Uses(root, inherited)
    ensures Times(Uses(root, inherited), u.agent, u.environment) <= 1
  {
    UsesMean(root, inherited, u);
    hide Uses, Good, NoneRepeats, Roster, SeatListings, Times;
    TimesOfUses(root, inherited, u.agent, u.environment);
    SeatListedOnce(Roster(root), u.agent, u.environment);
  }

  ghost predicate InOnePlacement(ps: seq<Placement>, u: Use)
  {
    && (exists g :: g in ps && g.unit == u.unit && g.environment == u.environment && multiset(g.agents)[u.agent] == 1)
    && (forall g :: g in ps && g.environment == u.environment && u.agent in g.agents ==> g.id == Key(u))
  }

  lemma OnePlacement(ps: seq<Placement>, us: seq<Use>, u: Use)
    requires Places(ps, us) && Unambiguous(us) && u in us
    requires Times(us, u.agent, u.environment) <= 1
    ensures InOnePlacement(ps, u)
  {
    hide AscendingById, InOrderFor, Key, Unambiguous, Times;
    var g :| g in ps && g.id == Key(u);
    HeldOnce(us, g, u);
    forall h | h in ps && h.environment == u.environment && u.agent in h.agents ensures h.id == Key(u) {
      OtherIsSame(us, h, u);
    }
  }

  /** An agent is in exactly one placement for each distinct sandbox it lists, once: the
      one of that sandbox at its nearest unit. */
  lemma OnePlacementPerSandbox(root: Tree, ps: seq<Placement>, u: Use)
    requires Good(Roster(root)) && NoneRepeats(Roster(root))
    requires var us := Uses(root, root.post.id); Places(ps, us) && Unambiguous(us) && u in us
    ensures InOnePlacement(ps, u)
  {
    hide Uses, Good, NoneRepeats, Places, Unambiguous, Times, InOnePlacement;
    UsedOnce(root, root.post.id, u);
    OnePlacement(ps, Uses(root, root.post.id), u);
  }

  lemma HeldOnce(us: seq<Use>, g: Placement, u: Use)
    requires InOrderFor(g, us) && Unambiguous(us) && u in us && g.id == Key(u)
    requires Times(us, u.agent, u.environment) <= 1
    ensures g.unit == u.unit && g.environment == u.environment && multiset(g.agents)[u.agent] == 1
  {
    AgentsAtMost(us, Key(u), u.agent, u.environment);
    HeldBy(g, us, u.agent);
    assert u.agent in g.agents;
    assert multiset(g.agents)[u.agent] >= 1;
  }

  lemma OtherIsSame(us: seq<Use>, h: Placement, u: Use)
    requires InOrderFor(h, us) && Unambiguous(us) && u in us
    requires h.environment == u.environment && u.agent in h.agents
    requires Times(us, u.agent, u.environment) <= 1
    ensures h.id == Key(u)
  {
    HeldBy(h, us, u.agent);
    var v :| v in us && Key(v) == h.id && v.agent == u.agent;
    UsedTwice(us, u, v);
  }

  lemma PlaceId(g: Placement, us: seq<Use>)
    requires IsPlaceOf(g, us)
    ensures g.id == g.unit + "--" + g.environment
  {
  }

  /** A placement in the list is the one of its unit and sandbox. */
  lemma FoundByParts(ps: seq<Placement>, us: seq<Use>, u: Use)
    requires Places(ps, us) && InOnePlacement(ps, u)
    ensures exists g :: g in ps && g.id == Key(u) && g.unit == u.unit && g.environment == u.environment
  {
    hide AscendingById, InOrder, SortTexts, AgentsAt;
    var g :| g in ps && g.unit == u.unit && g.environment == u.environment && multiset(g.agents)[u.agent] == 1;
    PlaceId(g, us);
    assert g.id == Key(u);
  }

  lemma OneOfAnId(ps: seq<Placement>, g: Placement, h: Placement)
    requires AscendingById(ps) && g in ps && h in ps && g.id == h.id
    ensures g == h
  {
    var i :| 0 <= i < |ps| && ps[i] == g;
    var j :| 0 <= j < |ps| && ps[j] == h;
    if i != j { LessAsymmetric(ps[if i < j then i else j].id, ps[if i < j then j else i].id); }
  }

  /** That holds of every use exactly when no two units and sandboxes share an id. */
  lemma OnePlacementExactly(root: Tree, ps: seq<Placement>)
    requires Good(Roster(root)) && NoneRepeats(Roster(root)) && Places(ps, Uses(root, root.post.id))
    ensures (forall u :: u in Uses(root, root.post.id) ==> InOnePlacement(ps, u)) <==>
              Unambiguous(Uses(root, root.post.id))
  {
    hide Uses, Good, NoneRepeats, InOnePlacement, AscendingById, InOrderFor, Key;
    var us := Uses(root, root.post.id);
    if Unambiguous(us) {
      forall u | u in us ensures InOnePlacement(ps, u) { OnePlacementPerSandbox(root, ps, u); }
    }
    if forall u :: u in us ==> InOnePlacement(ps, u) {
      forall u, v | u in us && v in us && Key(u) == Key(v) ensures u.unit == v.unit && u.environment == v.environment {
        FoundByParts(ps, us, u);
        FoundByParts(ps, us, v);
        var g :| g in ps && g.id == Key(u) && g.unit == u.unit && g.environment == u.environment;
        var h :| h in ps && h.id == Key(v) && h.unit == v.unit && h.environment == v.environment;
        OneOfAnId(ps, g, h);
      }
    }
  }

  const BELOW := Tree(Post("a--b", Staff("", [Agent("y", ["c"])])), true, [])

  const HYPHENS := Tree(Post("a", Staff("", [Agent("x", ["b--c"])])), true, [BELOW])

  lemma HyphensRoster()
    ensures Roster(HYPHENS) == [HYPHENS.post, BELOW.post]
  {
    LeafRoster(BELOW);
  }

  lemma HyphensUses()
    ensures Use("a", "b--c", "x") in Uses(HYPHENS, "a") && Use("a--b", "c", "y") in Uses(HYPHENS, "a")
  {
    hide Uses;
    var u, v := Use("a", "b--c", "x"), Use("a--b", "c", "y");
    assert HYPHENS.post.staff.members == [Agent("x", ["b--c"])] && BELOW.post.staff.members == [Agent("y", ["c"])];
    assert Agent("x", ["b--c"]) in HYPHENS.post.staff.members && "b--c" in Agent("x", ["b--c"]).environments;
    assert Agent("y", ["c"]) in BELOW.post.staff.members && "c" in Agent("y", ["c"]).environments;
    MemberUsesMean("a", HYPHENS.post.staff.members, u);
    UseHere(HYPHENS, "a", u);
    MemberUsesMean("a--b", BELOW.post.staff.members, v);
    UseHere(BELOW, "a", v);
    UseBelow(HYPHENS, "a", v, 0, []);
    UsesMean(HYPHENS, "a", u);
    UsesMean(HYPHENS, "a", v);
  }

  /** Hyphens in ids: the sandbox `b--c` of the team `a` and the sandbox `c` of the team
      `a--b` share one placement. */
  lemma HyphensAreAmbiguous()
    ensures Good(Roster(HYPHENS)) && NoneRepeats(Roster(HYPHENS))
    ensures !Unambiguous(Uses(HYPHENS, HYPHENS.post.id))
  {
    HyphensRoster();
    HyphensUses();
    hide Uses, Roster;
    assert Key(Use("a", "b--c", "x")) == "a--b--c" == Key(Use("a--b", "c", "y"));
  }
}
