/** The document's organisation as a tree of teams: creations in the one are changes of
    the other, and every run of creations keeps leaders and seats good. */
module OrgDocument {
  import opened Basics
  import opened Documents
  import opened Renaming
  import opened Creations
  import opened CreationRuns
  import opened FreshIds
  import OrgTree
  import Staffing

  function TextOf(j: Json): string
  {
    if j.Str? then j.s else ""
  }

  function NameOf(j: Json): string
  {
    TextOf(Part(j, "id"))
  }

  /** A sandbox by its id, or as an override that names it. */
  function SandboxOf(j: Json): string
  {
    if j.Str? then j.s else TextOf(Part(j, "environment"))
  }

  function SandboxesOf(list: seq<Json>): seq<string>
  {
    seq(|list|, i requires 0 <= i < |list| => SandboxOf(list[i]))
  }

  function AgentOf(j: Json): Staffing.Agent
  {
    Staffing.Agent(NameOf(j), SandboxesOf(Listed(j, "environments")))
  }

  function AgentsOf(list: seq<Json>): (r: seq<Staffing.Agent>)
    ensures |r| == |list| && forall i :: 0 <= i < |r| ==> r[i] == AgentOf(list[i])
  {
    seq(|list|, i requires 0 <= i < |list| => AgentOf(list[i]))
  }

  /** A team without the teams below it. */
  function PostOf(team: Json): Staffing.Post
  {
    Staffing.Post(NameOf(team), Staffing.Staff(TextOf(Part(team, "leader")), AgentsOf(Listed(team, "members"))))
  }

  function TreeOf(team: Json): OrgTree.Tree
    decreases team, 0
  {
    OrgTree.Tree(PostOf(team), !Falsy(Part(team, "placement")),
                 match Get(team, "teams") case Some(Arr(ts)) => TreesOf(ts) case _ => [])
  }

  function TreesOf(ts: seq<Json>): (r: seq<OrgTree.Tree>)
    ensures |r| == |ts|
    decreases ts, 1
  {
    if ts == [] then [] else [TreeOf(ts[0])] + TreesOf(ts[1..])
  }

  /** The parts of a team that its tree is made of. */
  const TREE_KEYS := {"id", "leader", "members", "placement", "teams"}

  lemma TreeMeans(team: Json)
    ensures TreeOf(team) == OrgTree.Tree(PostOf(team), !Falsy(Part(team, "placement")), TreesOf(Listed(team, "teams")))
  {
  }

  lemma {:induction false} TreesConcat(a: seq<Json>, b: seq<Json>)
    ensures TreesOf(a + b) == TreesOf(a) + TreesOf(b)
  {
    hide TreeOf;
    if a == [] {
      assert a + b == b;
    } else {
      assert (a + b)[1..] == a[1..] + b;
      TreesConcat(a[1..], b);
    }
  }

  lemma WithSame(j: Json, key: string, v: Json, other: string)
    requires j.Obj? && other != key
    ensures Part(With(j, key, v), other) == Part(j, other) && Listed(With(j, key, v), other) == Listed(j, other)
  {
    WithHolds(j, key, v, other);
  }

  lemma WithList(j: Json, key: string, items: seq<Json>)
    requires j.Obj?
    ensures Listed(With(j, key, Arr(items)), key) == items
  {
    SetFieldGets(j.fields, key, Arr(items));
  }

  // ---- a first team, another team, an agent --------------------------------------------------

  /** The organisation is drawn, if it has a name. */
  function Drawn(org: Json, laid: set<string>): bool
  {
    NameOf(org) in laid
  }

  lemma UnusedAgrees(spec: Json, laid: set<string>)
    ensures Creations.Unused(spec, laid)
            <==> OrgTree.Unused(TreeOf(Organization(spec)), Drawn(Organization(spec), laid))
  {
    TreeMeans(Organization(spec));
  }

  lemma TreeOfMerged(org: Json, id: string)
    requires org.Obj?
    ensures TreeOf(Merged(org, id))
            == OrgTree.Tree(Staffing.Post(id, Staffing.Staff("", [])), TreeOf(org).placement, [])
  {
    hide SetAll, TreesOf, TreeOf, GetField;
    var over := TeamFields(id);
    TeamFieldsAre(id);
    TeamFieldsEach(id);
    SetAllGets(org.fields, over, 0);
    SetAllGets(org.fields, over, 2);
    SetAllGets(org.fields, over, 3);
    SetAllGets(org.fields, over, 4);
    SetAllElsewhere(org.fields, over, "placement");
    TreeMeans(org);
    TreeMeans(Merged(org, id));
    TreesOfNone();
  }

  lemma TreesOfNone()
    ensures TreesOf([]) == []
  {
  }

  lemma TeamFieldsEach(id: string)
    ensures var over := TeamFields(id);
            && |over| == 5 && over[0] == Field("id", Str(id)) && over[1] == Field("name", Str(id))
            && over[2] == Field("leader", Str(""))
            && over[3] == Field("members", Arr([])) && over[4] == Field("teams", Arr([]))
            && forall f :: f in over ==> f.key != "placement"
  {
  }

  lemma {:induction false} SetAllElsewhere(fields: seq<Field>, over: seq<Field>, key: string)
    requires forall f :: f in over ==> f.key != key
    ensures GetField(SetAll(fields, over), key) == GetField(fields, key)
    decreases |over|
  {
    hide SetField, GetField;
    if over != [] {
      var n := |over| - 1;
      assert over[n] in over && forall f :: f in over[..n] ==> f in over;
      SetAllElsewhere(fields, over[..n], key);
      SetFieldElsewhere(SetAll(fields, over[..n]), over[n].key, over[n].value, key);
    }
  }

  lemma {:induction false} EachGets(over: seq<Field>, i: nat)
    requires DistinctKeys(over) && i < |over|
    ensures GetField(over, over[i].key) == Some(over[i].value)
  {
    if i > 0 {
      assert over[i].key != over[0].key && over[1..][i - 1] == over[i];
      EachGets(over[1..], i - 1);
    }
  }

  lemma {:induction false} NoneGets(over: seq<Field>, key: string)
    requires forall f :: f in over ==> f.key != key
    ensures GetField(over, key) == None
  {
    if over != [] { NoneGets(over[1..], key); }
  }

  lemma TreeOfTeam(id: string)
    ensures TreeOf(Obj(TeamFields(id))) == OrgTree.Tree(Staffing.Post(id, Staffing.Staff("", [])), false, [])
  {
    hide TreesOf, TreeOf, GetField, TeamFields;
    var over := TeamFields(id);
    TeamFieldsAre(id);
    TeamFieldsEach(id);
    EachGets(over, 0);
    EachGets(over, 2);
    EachGets(over, 3);
    EachGets(over, 4);
    NoneGets(over, "placement");
    TreeMeans(Obj(over));
    TreesOfNone();
  }

  lemma TreeOfPushedTeam(org: Json, team: Json)
    requires org.Obj?
    ensures TreeOf(Push(org, "teams", team)) == TreeOf(org).(teams := TreeOf(org).teams + [TreeOf(team)])
  {
    hide With, TreesOf, TreeOf;
    var more := Listed(org, "teams") + [team];
    var now := With(org, "teams", Arr(more));
    WithSame(org, "teams", Arr(more), "id");
    WithSame(org, "teams", Arr(more), "leader");
    WithSame(org, "teams", Arr(more), "members");
    WithSame(org, "teams", Arr(more), "placement");
    WithList(org, "teams", more);
    TreeMeans(org);
    TreeMeans(now);
    TreesConcat(Listed(org, "teams"), [team]);
    OneTree(team);
  }

  lemma OneTree(team: Json)
    ensures TreesOf([team]) == [TreeOf(team)]
  {
    hide TreeOf;
  }

  lemma OrganizationSet(spec: Json, org: Json)
    requires spec.Obj?
    ensures Organization(With(spec, "organization", org)) == org
  {
    WithHolds(spec, "organization", org, "id");
  }

  /** A team added to the document is the team added to its tree. */
  lemma AddTeamAgrees(spec: Json, laid: set<string>, id: string, seed: seq<Field>)
    requires spec.Obj? && AddTo(spec, laid, TeamPlace, id, seed).Some?
    ensures var org := Organization(spec);
            TreeOf(Organization(AddTo(spec, laid, TeamPlace, id, seed).value))
            == OrgTree.AddTeam(TreeOf(org), id, Drawn(org, laid))
  {
    hide With, Push, Merged, TeamFields, TreeOf, Creations.Unused, OrgTree.Unused, Drawn;
    var org := Organization(spec);
    UnusedAgrees(spec, laid);
    if Creations.Unused(spec, laid) {
      TreeOfMerged(OrEmpty(org), id);
      OrganizationSet(spec, Merged(OrEmpty(org), id));
      EmptyHasNoPlacement(org);
    } else {
      TreeOfTeam(id);
      TreeOfPushedTeam(org, Obj(TeamFields(id)));
      OrganizationSet(spec, Push(org, "teams", Obj(TeamFields(id))));
    }
  }

  lemma EmptyHasNoPlacement(org: Json)
    ensures TreeOf(OrEmpty(org)).placement == TreeOf(org).placement
  {
  }

  /** The organisation's leader is a text, or there is none. */
  predicate LeaderIsText(org: Json)
  {
    Part(org, "leader").Str? || Falsy(Part(org, "leader"))
  }

  lemma PostOfPushedAgent(org: Json, agent: Json)
    requires org.Obj?
    ensures var more := Push(org, "members", agent);
            && PostOf(more) == PostOf(org).(staff := Staffing.Joined(PostOf(org).staff, AgentOf(agent)))
            && TreeOf(more) == TreeOf(org).(post := PostOf(more))
            && Part(more, "leader") == Part(org, "leader")
  {
    hide With, TreesOf, TreeOf;
    var more := Listed(org, "members") + [agent];
    WithSame(org, "members", Arr(more), "id");
    WithSame(org, "members", Arr(more), "leader");
    WithSame(org, "members", Arr(more), "teams");
    WithSame(org, "members", Arr(more), "placement");
    WithList(org, "members", more);
    TreeMeans(org);
    TreeMeans(With(org, "members", Arr(more)));
  }

  lemma TreeOfLed(org: Json, id: string)
    requires org.Obj?
    ensures TreeOf(With(org, "leader", Str(id)))
            == TreeOf(org).(post := PostOf(org).(staff := PostOf(org).staff.(leader := id)))
  {
    hide With, TreesOf, TreeOf;
    WithSame(org, "leader", Str(id), "id");
    WithSame(org, "leader", Str(id), "members");
    WithSame(org, "leader", Str(id), "teams");
    WithSame(org, "leader", Str(id), "placement");
    WithHolds(org, "leader", Str(id), "id");
    TreeMeans(org);
    TreeMeans(With(org, "leader", Str(id)));
  }

  lemma AgentOfItem(id: string, seed: seq<Field>)
    requires Listed(Obj(seed), "environments") == []
    ensures AgentOf(Item(id, seed)) == Staffing.Agent(id, [])
  {
    assert ([Field("id", Str(id))] + seed)[1..] == seed;
    assert GetField([Field("id", Str(id))] + seed, "environments") == GetField(seed, "environments");
  }

  lemma TreeOfWithAgent(org: Json, agent: Json, id: string)
    requires org.Obj? && LeaderIsText(org) && AgentOf(agent) == Staffing.Agent(id, [])
    ensures TreeOf(WithAgent(org, agent, id)) == OrgTree.Apply(TreeOf(org), OrgTree.NewAgent(id))
  {
    hide With, Push, TreesOf, AgentOf;
    var more := Push(org, "members", agent);
    PostOfPushedAgent(org, agent);
    TreeMeans(org);
    TreeMeans(more);
    if Falsy(Part(more, "leader")) { TreeOfLed(more, id); }
  }

  /** An agent added to the document is the agent added to its tree. */
  lemma AddAgentAgrees(spec: Json, laid: set<string>, id: string, seed: seq<Field>)
    requires spec.Obj? && AddTo(spec, laid, AgentPlace, id, seed).Some?
    requires LeaderIsText(Organization(spec)) && Listed(Obj(seed), "environments") == []
    ensures TreeOf(Organization(AddTo(spec, laid, AgentPlace, id, seed).value))
            == OrgTree.Apply(TreeOf(Organization(spec)), OrgTree.NewAgent(id))
  {
    hide With, Push, TreeOf, WithAgent, Item, OrgTree.Apply;
    var org := Organization(spec);
    AgentOfItem(id, seed);
    TreeOfWithAgent(org, Item(id, seed), id);
    OrganizationSet(spec, WithAgent(org, Item(id, seed), id));
  }

  // ---- everything else leaves the tree -------------------------------------------------------

  /** Setting any other part of the organisation. */
  lemma OtherPartKeepsTree(org: Json, key: string, v: Json)
    requires org.Obj? && key !in TREE_KEYS
    ensures TreeOf(With(org, key, v)) == TreeOf(org) && Part(With(org, key, v), "leader") == Part(org, "leader")
  {
    hide With, TreesOf, TreeOf;
    WithSame(org, key, v, "id");
    WithSame(org, key, v, "leader");
    WithSame(org, key, v, "members");
    WithSame(org, key, v, "teams");
    WithSame(org, key, v, "placement");
    TreeMeans(org);
    TreeMeans(With(org, key, v));
  }

  lemma SubagentKeepsAgent(agent: Json, item: Json)
    requires agent.Obj?
    ensures AgentOf(Push(agent, "subagents", item)) == AgentOf(agent)
  {
    hide With;
    WithSame(agent, "subagents", Arr(Listed(agent, "subagents") + [item]), "id");
    WithSame(agent, "subagents", Arr(Listed(agent, "subagents") + [item]), "environments");
  }

  lemma SameAgentsKeepTree(team: Json, members: seq<Json>)
    requires team.Obj? && AgentsOf(members) == AgentsOf(Listed(team, "members"))
    ensures TreeOf(With(team, "members", Arr(members))) == TreeOf(team)
  {
    hide With, TreesOf, TreeOf, AgentsOf;
    WithSame(team, "members", Arr(members), "id");
    WithSame(team, "members", Arr(members), "leader");
    WithSame(team, "members", Arr(members), "teams");
    WithSame(team, "members", Arr(members), "placement");
    WithList(team, "members", members);
    TreeMeans(team);
    TreeMeans(With(team, "members", Arr(members)));
  }

  lemma SameTeamsKeepTree(team: Json, ts: seq<Json>)
    requires team.Obj? && TreesOf(ts) == TreesOf(Listed(team, "teams"))
    ensures TreeOf(With(team, "teams", Arr(ts))) == TreeOf(team)
  {
    hide With, TreesOf, TreeOf, AgentsOf;
    WithSame(team, "teams", Arr(ts), "id");
    WithSame(team, "teams", Arr(ts), "leader");
    WithSame(team, "teams", Arr(ts), "members");
    WithSame(team, "teams", Arr(ts), "placement");
    WithList(team, "teams", ts);
    TreeMeans(team);
    TreeMeans(With(team, "teams", Arr(ts)));
  }

  lemma {:induction false} SubagentKeepsTree(team: Json, item: Json)
    requires WithSubagent(team, item).Some?
    ensures TreeOf(WithSubagent(team, item).value) == TreeOf(team)
    decreases team
  {
    hide TreeOf, With, Push, AgentOf;
    var members, ts := Listed(team, "members"), Listed(team, "teams");
    if members != [] {
      var more := [Push(members[0], "subagents", item)] + members[1..];
      SubagentKeepsAgent(members[0], item);
      assert AgentsOf(more) == AgentsOf(members);
      SameAgentsKeepTree(team, more);
    } else {
      SubagentKeepsTrees(ts, item, team);
      SameTeamsKeepTree(team, WithSubagentIn(ts, item, team).value);
    }
  }

  lemma {:induction false} SubagentKeepsTrees(ts: seq<Json>, item: Json, top: Json)
    requires Below(ts, top) && WithSubagentIn(ts, item, top).Some?
    ensures TreesOf(WithSubagentIn(ts, item, top).value) == TreesOf(ts)
    decreases top, |ts|
  {
    hide TreeOf, WithSubagent;
    if Under(Teams(ts[0]), "members") != [] {
      var t := WithSubagent(ts[0], item).value;
      SubagentKeepsTree(ts[0], item);
      assert ([t] + ts[1..])[1..] == ts[1..];
    } else {
      var rest := WithSubagentIn(ts[1..], item, top).value;
      SubagentKeepsTrees(ts[1..], item, top);
      assert ([ts[0]] + rest)[1..] == rest;
    }
  }

  // ---- a fresh id is no team's and no agent's ------------------------------------------------

  lemma PartDeclares(j: Json, key: string)
    ensures forall x :: x in Ids(Part(j, key)) ==> x in Ids(j)
  {
    hide Ids, IdsOfFields;
    if j.Obj? {
      WithoutDeclares(j.fields, key);
      IdsOfObject(j);
      assert Part(Obj(j.fields), key) == Part(j, key);
    } else {
      FalsyDeclaresNothing(Null);
    }
  }

  lemma {:induction false} EachDeclares(list: seq<Json>, i: nat)
    requires i < |list|
    ensures forall x :: x in Ids(list[i]) ==> x in IdsIn(list)
  {
    hide Ids;
    if i > 0 { EachDeclares(list[1..], i - 1); }
  }

  lemma NameDeclared(j: Json)
    requires NameOf(j) != ""
    ensures NameOf(j) in Ids(j)
  {
  }

  /** No team of this id, and no agent. */
  ghost predicate Absent(ps: seq<Staffing.Post>, id: string)
  {
    forall i :: 0 <= i < |ps| ==> ps[i].id != id && !Staffing.Sits(id, ps[i].staff.members)
  }

  lemma PostFresh(team: Json, id: string)
    requires id != "" && id !in Ids(team)
    ensures Absent([PostOf(team)], id)
  {
    hide Ids;
    var members := Listed(team, "members");
    if NameOf(team) == id { NameDeclared(team); }
    forall i | 0 <= i < |members| ensures NameOf(members[i]) != id {
      PartDeclares(team, "members");
      IdsOfArr(members);
      EachDeclares(members, i);
      if NameOf(members[i]) == id { NameDeclared(members[i]); }
    }
  }

  lemma {:induction false} TreeFresh(team: Json, id: string)
    requires id != "" && id !in Ids(team)
    ensures Absent(OrgTree.Roster(TreeOf(team)), id)
    decreases team, 0
  {
    hide Ids, TreeOf, PostOf;
    PostFresh(team, id);
    TreeMeans(team);
    match Get(team, "teams")
    case Some(Arr(ts)) =>
      PartDeclares(team, "teams");
      IdsOfArr(ts);
      TreesFresh(ts, id);
    case _ => TreesOfNone();
  }

  lemma {:induction false} TreesFresh(ts: seq<Json>, id: string)
    requires id != "" && id !in IdsIn(ts)
    ensures Absent(OrgTree.RosterIn(TreesOf(ts)), id)
    decreases ts, 1
  {
    hide Ids, TreeOf, OrgTree.Roster;
    if ts != [] {
      TreeFresh(ts[0], id);
      TreesFresh(ts[1..], id);
      assert ([TreeOf(ts[0])] + TreesOf(ts[1..]))[1..] == TreesOf(ts[1..]);
    }
  }

  // ---- runs ------------------------------------------------------------------------------------

  /** Leaders are members or empty, each team is there once, each agent in one seat. */
  ghost predicate Staffed(spec: Json)
  {
    LeaderIsText(Organization(spec)) && Staffing.Good(OrgTree.Roster(TreeOf(Organization(spec))))
  }

  /** A new agent lists no sandbox yet, and no list is a part of the tree. */
  predicate Proper(place: Place, seed: seq<Field>)
  {
    match place
    case AgentPlace => Listed(Obj(seed), "environments") == []
    case ListPlace(false, part, list) => (if part == "" then list else part) != "organization"
    case ListPlace(true, part, list) => (if part == "" then list else part) !in TREE_KEYS
    case _ => true
  }

  lemma FreshInTree(spec: Json, id: string)
    requires spec.Obj? && id != "" && id !in Ids(spec)
    ensures Absent(OrgTree.Roster(TreeOf(Organization(spec))), id)
  {
    PartDeclares(spec, "organization");
    TreeFresh(Organization(spec), id);
  }

  lemma TeamKeepsStaffed(spec: Json, laid: set<string>, id: string, seed: seq<Field>)
    requires spec.Obj? && Staffed(spec) && AddTo(spec, laid, TeamPlace, id, seed).Some?
    requires id != "" && id !in Ids(spec)
    ensures Staffed(AddTo(spec, laid, TeamPlace, id, seed).value)
  {
    hide AddTo, TreeOf, OrgTree.Roster, Ids, OrgTree.AddTeam, Staffing.Good, LeaderIsText;
    var org := Organization(spec);
    var t, drawn := TreeOf(org), Drawn(org, laid);
    AddTeamAgrees(spec, laid, id, seed);
    FreshInTree(spec, id);
    assert OrgTree.Apply(t, OrgTree.NewTeam(id, drawn)) == OrgTree.AddTeam(t, id, drawn);
    OrgTree.ApplyKeepsGood(t, OrgTree.NewTeam(id, drawn));
    TeamKeepsLeader(spec, laid, id, seed);
  }

  lemma TeamKeepsLeader(spec: Json, laid: set<string>, id: string, seed: seq<Field>)
    requires spec.Obj? && LeaderIsText(Organization(spec)) && AddTo(spec, laid, TeamPlace, id, seed).Some?
    ensures LeaderIsText(Organization(AddTo(spec, laid, TeamPlace, id, seed).value))
  {
    hide With, SetAll, TeamFields, Creations.Unused;
    var org := Organization(spec);
    if Creations.Unused(spec, laid) {
      TeamFieldsAre(id);
      TeamFieldsEach(id);
      SetAllGets(OrEmpty(org).fields, TeamFields(id), 2);
      OrganizationSet(spec, Merged(OrEmpty(org), id));
    } else {
      WithSame(org, "teams", Arr(Listed(org, "teams") + [Obj(TeamFields(id))]), "leader");
      OrganizationSet(spec, Push(org, "teams", Obj(TeamFields(id))));
    }
  }

  lemma AgentKeepsStaffed(spec: Json, laid: set<string>, id: string, seed: seq<Field>)
    requires spec.Obj? && Staffed(spec) && AddTo(spec, laid, AgentPlace, id, seed).Some?
    requires id != "" && id !in Ids(spec) && Proper(AgentPlace, seed)
    ensures Staffed(AddTo(spec, laid, AgentPlace, id, seed).value)
  {
    hide AddTo, TreeOf, OrgTree.Roster, Ids, OrgTree.Apply, Staffing.Good, LeaderIsText;
    var t := TreeOf(Organization(spec));
    AddAgentAgrees(spec, laid, id, seed);
    FreshInTree(spec, id);
    OrgTree.ApplyKeepsGood(t, OrgTree.NewAgent(id));
    AgentKeepsLeader(spec, laid, id, seed);
  }

  lemma AgentKeepsLeader(spec: Json, laid: set<string>, id: string, seed: seq<Field>)
    requires spec.Obj? && LeaderIsText(Organization(spec)) && AddTo(spec, laid, AgentPlace, id, seed).Some?
    ensures LeaderIsText(Organization(AddTo(spec, laid, AgentPlace, id, seed).value))
  {
    hide With, Item, WithAgent, LeaderIsText;
    var org := Organization(spec);
    WithAgentKeepsLeader(org, Item(id, seed), id);
    OrganizationSet(spec, WithAgent(org, Item(id, seed), id));
  }

  lemma WithAgentKeepsLeader(org: Json, agent: Json, id: string)
    requires org.Obj? && LeaderIsText(org)
    ensures LeaderIsText(WithAgent(org, agent, id))
  {
    hide With;
    var more := Listed(org, "members") + [agent];
    WithSame(org, "members", Arr(more), "leader");
    WithHolds(Push(org, "members", agent), "leader", Str(id), "id");
  }

  lemma SubagentKeepsStaffed(spec: Json, laid: set<string>, id: string, seed: seq<Field>)
    requires spec.Obj? && Staffed(spec) && AddTo(spec, laid, SubagentPlace, id, seed).Some?
    ensures Staffed(AddTo(spec, laid, SubagentPlace, id, seed).value)
  {
    hide With, TreeOf, OrgTree.Roster, Staffing.Good, WithSubagent, Item, Organization;
    var org, item := Organization(spec), Item(id, seed);
    SubagentKeepsTree(org, item);
    SubagentKeepsLeader(org, item);
    OrganizationSet(spec, WithSubagent(org, item).value);
  }

  lemma SubagentKeepsLeader(team: Json, item: Json)
    requires WithSubagent(team, item).Some?
    ensures Part(WithSubagent(team, item).value, "leader") == Part(team, "leader")
  {
    hide With, WithSubagentIn, Push;
    var members, ts := Listed(team, "members"), Listed(team, "teams");
    if members != [] {
      WithHolds(team, "members", Arr([Push(members[0], "subagents", item)] + members[1..]), "leader");
    } else {
      WithHolds(team, "teams", Arr(WithSubagentIn(ts, item, team).value), "leader");
    }
  }

  lemma ListingKeepsTree(org: Json, part: string, list: string, item: Json)
    requires Listing(org, part, list, item).Some? && (if part == "" then list else part) !in TREE_KEYS
    ensures TreeOf(Listing(org, part, list, item).value) == TreeOf(org)
    ensures Part(Listing(org, part, list, item).value, "leader") == Part(org, "leader")
  {
    hide With, TreeOf;
    if part == "" {
      OtherPartKeepsTree(org, list, Arr(Listed(org, list) + [item]));
    } else {
      OtherPartKeepsTree(org, part, Push(OrEmpty(Part(org, part)), list, item));
    }
  }

  lemma ListingElsewhere(spec: Json, part: string, list: string, item: Json)
    requires Listing(spec, part, list, item).Some? && (if part == "" then list else part) != "organization"
    ensures Organization(Listing(spec, part, list, item).value) == Organization(spec)
  {
    hide With;
    if part == "" {
      WithSame(spec, list, Arr(Listed(spec, list) + [item]), "organization");
    } else {
      WithSame(spec, part, Push(OrEmpty(Part(spec, part)), list, item), "organization");
    }
  }

  /** An organisation made up for the list is good too. */
  lemma RootIsGood()
    ensures var root := Obj([Field("id", Str("root")), Field("name", Str("root"))]);
            LeaderIsText(root) && Staffing.Good(OrgTree.Roster(TreeOf(root)))
  {
    var root := Obj([Field("id", Str("root")), Field("name", Str("root"))]);
    TreeMeans(root);
    OrgTree.LeafRoster(TreeOf(root));
  }

  lemma ListKeepsStaffed(spec: Json, laid: set<string>, place: Place, id: string, seed: seq<Field>)
    requires spec.Obj? && Staffed(spec) && place.ListPlace? && Proper(place, seed)
    requires AddTo(spec, laid, place, id, seed).Some?
    ensures Staffed(AddTo(spec, laid, place, id, seed).value)
  {
    hide With, TreeOf, OrgTree.Roster, Staffing.Good, Listing, Item;
    var item := Item(id, seed);
    match place
    case ListPlace(false, part, list) => ListingElsewhere(spec, part, list, item);
    case ListPlace(true, part, list) =>
      var was := OrganizationOrRoot(spec);
      RootIsGood();
      ListingKeepsTree(was, part, list, item);
      OrganizationSet(spec, Listing(was, part, list, item).value);
  }

  /** Whatever is created under a fresh id. */
  lemma CreationKeepsStaffed(spec: Json, laid: set<string>, place: Place, id: string, seed: seq<Field>)
    requires spec.Obj? && Staffed(spec) && AddTo(spec, laid, place, id, seed).Some?
    requires id != "" && id !in Ids(spec) && Proper(place, seed)
    ensures Staffed(AddTo(spec, laid, place, id, seed).value)
  {
    hide Staffed, Ids, Proper;
    match place
    case NotePlace =>
    case TeamPlace => TeamKeepsStaffed(spec, laid, id, seed);
    case AgentPlace => AgentKeepsStaffed(spec, laid, id, seed);
    case SubagentPlace => SubagentKeepsStaffed(spec, laid, id, seed);
    case ListPlace(_, _, _) => ListKeepsStaffed(spec, laid, place, id, seed);
  }

  function Result(steps: seq<Step>, spec: Json, nodes: map<string, Json>, ids: seq<string>): Json
    requires Created(steps, spec, nodes, ids)
    decreases |steps|
  {
    if steps == [] then spec
    else
      var s := steps[0];
      Result(steps[1..], AddTo(spec, nodes.Keys, s.place, ids[0], s.seed).value, nodes[ids[0] := s.node], ids[1..])
  }

  /** And so does every run of creations, each under the next id of its kind. */
  lemma {:induction false} RunKeepsStaffed(steps: seq<Step>, spec: Json, nodes: map<string, Json>, ids: seq<string>)
    requires Created(steps, spec, nodes, ids) && Staffed(spec)
    requires forall s :: s in steps ==> Proper(s.place, s.seed)
    ensures Staffed(Result(steps, spec, nodes, ids))
    decreases |steps|
  {
    hide AddTo, Declared, IsNext, Staffed, Proper;
    if steps != [] {
      var s, id := steps[0], ids[0];
      NextIsFree(s.base, spec, nodes, id);
      NextIsNamed(s.base, Declared(spec, nodes), id);
      CreationKeepsStaffed(spec, nodes.Keys, s.place, id, s.seed);
      RunKeepsStaffed(steps[1..], AddTo(spec, nodes.Keys, s.place, id, s.seed).value, nodes[id := s.node], ids[1..]);
    }
  }

  lemma NextIsNamed(base: string, taken: set<string>, id: string)
    requires IsNext(base, taken, id)
    ensures id != ""
  {
  }

  // ---- what is put where -----------------------------------------------------------------------

  /** A new component has its id and what its kind starts with. */
  lemma ItemOnFields(id: string, seed: seq<Field>, key: string)
    ensures Get(Item(id, seed), "id") == Some(Str(id))
    ensures key != "id" ==> Get(Item(id, seed), key) == GetField(seed, key)
  {
    assert ([Field("id", Str(id))] + seed)[1..] == seed;
  }

  lemma PushOnFields(j: Json, key: string, item: Json, other: string)
    requires j.Obj?
    ensures Listed(Push(j, key, item), key) == Listed(j, key) + [item]
    ensures other != key ==> Get(Push(j, key, item), other) == Get(j, other)
  {
    hide With;
    WithList(j, key, Listed(j, key) + [item]);
    WithHolds(j, key, Arr(Listed(j, key) + [item]), other);
  }

  /** A new agent comes last among the top team's members; but for a leader where there was
      none nothing else of it changes. */
  lemma AgentOnFields(org: Json, agent: Json, id: string, key: string)
    requires org.Obj?
    ensures var r := WithAgent(org, agent, id);
            && Listed(r, "members") == Listed(org, "members") + [agent]
            && Part(r, "leader") == (if Falsy(Part(org, "leader")) then Str(id) else Part(org, "leader"))
            && (key != "members" && key != "leader" ==> Get(r, key) == Get(org, key))
  {
    hide Push, With, Falsy;
    var more := Push(org, "members", agent);
    PushOnFields(org, "members", agent, key);
    PushOnFields(org, "members", agent, "leader");
    WithHolds(more, "leader", Str(id), key);
    WithSame(more, "leader", Str(id), "members");
  }

  /** A component of a listed kind comes last in the list of its holder, or of a part of it,
      and nothing else of the holder changes. */
  lemma ListingOnFields(holder: Json, part: string, list: string, item: Json, key: string)
    requires Listing(holder, part, list, item).Some?
    ensures var r := Listing(holder, part, list, item).value;
            && (part == "" ==> Listed(r, list) == Listed(holder, list) + [item])
            && (part != "" ==> Listed(Part(r, part), list) == Listed(Part(holder, part), list) + [item])
            && (key != (if part == "" then list else part) ==> Get(r, key) == Get(holder, key))
  {
    hide Push, With;
    if part == "" {
      PushOnFields(holder, list, item, key);
    } else {
      var was := OrEmpty(Part(holder, part));
      PushOnFields(was, list, item, key);
      WithHolds(holder, part, Push(was, list, item), key);
    }
  }

  lemma {:induction false} TopIsNoMatter(ts: seq<Json>, a: Json, b: Json)
    requires Below(ts, a) && Below(ts, b)
    ensures TeamsIn(ts, a) == TeamsIn(ts, b)
    decreases |ts|
  {
    if ts != [] { TopIsNoMatter(ts[1..], a, b); }
  }

  lemma {:induction false} UnderJoin(a: seq<Json>, b: seq<Json>, key: string)
    ensures Under(a + b, key) == Under(a, key) + Under(b, key)
  {
    if a == [] {
      assert a + b == b;
    } else {
      assert (a + b)[1..] == a[1..] + b;
      UnderJoin(a[1..], b, key);
    }
  }

  /** The members of a team and of those below it. */
  function Crew(team: Json): seq<Json>
  {
    Under(Teams(team), "members")
  }

  lemma CrewOfTeam(team: Json)
    requires team.Obj?
    ensures Crew(team) == Listed(team, "members") + Under(TeamsIn(Listed(team, "teams"), team), "members")
  {
    UnderJoin([team], TeamsIn(Listed(team, "teams"), team), "members");
    assert Under([team], "members") == Listed(team, "members") + Under([], "members");
  }

  ghost predicate FirstGets(was: seq<Json>, now: seq<Json>, item: Json)
  {
    was != [] && was[0].Obj? && now == [Push(was[0], "subagents", item)] + was[1..]
  }

  lemma SubagentHere(team: Json, item: Json)
    requires team.Obj?
    requires var members := Listed(team, "members"); members != [] && members[0].Obj?
    ensures var members := Listed(team, "members");
            var more := [Push(members[0], "subagents", item)] + members[1..];
            FirstGets(Crew(team), Crew(With(team, "members", Arr(more))), item)
  {
    hide Teams, TeamsIn, Under, Push, With, Crew, Listed;
    var members, ts := Listed(team, "members"), Listed(team, "teams");
    var more := [Push(members[0], "subagents", item)] + members[1..];
    var r := With(team, "members", Arr(more));
    CrewOfTeam(team);
    CrewOfTeam(r);
    WithList(team, "members", more);
    WithSame(team, "members", Arr(more), "teams");
    TopIsNoMatter(ts, team, r);
    FirstThen(members, more, Under(TeamsIn(ts, team), "members"), item);
  }

  lemma SubagentBelow(team: Json, more: seq<Json>, item: Json)
    requires team.Obj? && Listed(team, "members") == []
    requires FirstGets(Under(TeamsIn(Listed(team, "teams"), team), "members"),
                       Under(TeamsIn(more, Arr(more)), "members"), item)
    ensures FirstGets(Crew(team), Crew(With(team, "teams", Arr(more))), item)
  {
    hide Teams, TeamsIn, Under, Push, With, Crew, Listed, FirstGets;
    var r := With(team, "teams", Arr(more));
    CrewOfTeam(team);
    CrewOfTeam(r);
    WithList(team, "teams", more);
    WithSame(team, "teams", Arr(more), "members");
    TopIsNoMatter(more, r, Arr(more));
    assert Crew(team) == Under(TeamsIn(Listed(team, "teams"), team), "members");
    assert Crew(r) == Under(TeamsIn(more, Arr(more)), "members");
  }

  /** A sub-agent is put with the first agent of the organisation, in the order of its
      teams, and every other agent stays as it was. */
  lemma {:induction false} SubagentOnFields(team: Json, item: Json)
    requires WithSubagent(team, item).Some?
    ensures FirstGets(Crew(team), Crew(WithSubagent(team, item).value), item)
    decreases team
  {
    hide Teams, TeamsIn, Under, Push, With, Crew, FirstGets, Get;
    if Listed(team, "members") != [] {
      SubagentHere(team, item);
    } else {
      SubagentOnFieldsIn(Listed(team, "teams"), item, team);
      SubagentBelow(team, WithSubagentIn(Listed(team, "teams"), item, team).value, item);
    }
  }

  lemma FirstThen(was: seq<Json>, now: seq<Json>, rest: seq<Json>, item: Json)
    requires FirstGets(was, now, item)
    ensures FirstGets(was + rest, now + rest, item)
  {
    assert (was + rest)[1..] == was[1..] + rest;
  }

  lemma HeadGets(ts: seq<Json>, top: Json, t: Json, item: Json)
    requires Below(ts, top) && ts != [] && FirstGets(Crew(ts[0]), Crew(t), item)
    ensures var more := [t] + ts[1..];
            FirstGets(Under(TeamsIn(ts, top), "members"), Under(TeamsIn(more, Arr(more)), "members"), item)
  {
    hide Teams, Under, Push;
    var more := [t] + ts[1..];
    assert more[1..] == ts[1..];
    UnderJoin(Teams(ts[0]), TeamsIn(ts[1..], top), "members");
    UnderJoin(Teams(t), TeamsIn(more[1..], Arr(more)), "members");
    TopIsNoMatter(ts[1..], top, Arr(more));
    FirstThen(Crew(ts[0]), Crew(t), Under(TeamsIn(ts[1..], top), "members"), item);
  }

  lemma TailGets(ts: seq<Json>, top: Json, rest: seq<Json>, item: Json)
    requires Below(ts, top) && ts != [] && Under(Teams(ts[0]), "members") == []
    requires FirstGets(Under(TeamsIn(ts[1..], top), "members"), Under(TeamsIn(rest, Arr(rest)), "members"), item)
    ensures var more := [ts[0]] + rest;
            FirstGets(Under(TeamsIn(ts, top), "members"), Under(TeamsIn(more, Arr(more)), "members"), item)
  {
    hide Teams, Under, Push, FirstGets;
    var more := [ts[0]] + rest;
    assert more[1..] == rest;
    UnderJoin(Teams(ts[0]), TeamsIn(ts[1..], top), "members");
    UnderJoin(Teams(ts[0]), TeamsIn(more[1..], Arr(more)), "members");
    TopIsNoMatter(rest, Arr(rest), Arr(more));
    assert Under(TeamsIn(ts, top), "members") == Under(TeamsIn(ts[1..], top), "members");
    assert Under(TeamsIn(more, Arr(more)), "members") == Under(TeamsIn(rest, Arr(rest)), "members");
  }

  lemma {:induction false} SubagentOnFieldsIn(ts: seq<Json>, item: Json, top: Json)
    requires Below(ts, top) && WithSubagentIn(ts, item, top).Some?
    ensures var more := WithSubagentIn(ts, item, top).value;
            FirstGets(Under(TeamsIn(ts, top), "members"), Under(TeamsIn(more, Arr(more)), "members"), item)
    decreases top, |ts|
  {
    hide Teams, TeamsIn, Under, Push, With, WithSubagent, FirstGets;
    if Under(Teams(ts[0]), "members") != [] {
      SubagentOnFields(ts[0], item);
      HeadGets(ts, top, WithSubagent(ts[0], item).value, item);
    } else {
      SubagentOnFieldsIn(ts[1..], item, top);
      TailGets(ts, top, WithSubagentIn(ts[1..], item, top).value, item);
    }
  }

  /** The list a component of a listed kind stands in: the holder's, or a part of it's. */
  function ListIn(holder: Json, part: string, list: string): seq<Json>
  {
    Listed(if part == "" then holder else Part(holder, part), list)
  }

  /** Where each kind of component comes: a note nowhere, a team after the others below the
      organisation, an agent after its members, a sub-agent with its first agent, and the
      rest at the end of their list, of the document or of the organisation. */
  lemma AddedOnFields(spec: Json, laid: set<string>, place: Place, id: string, seed: seq<Field>)
    requires spec.Obj? && AddTo(spec, laid, place, id, seed).Some?
    requires place.TeamPlace? ==> !Creations.Unused(spec, laid)
    ensures var r, item := AddTo(spec, laid, place, id, seed).value, Item(id, seed);
            var org, now := Organization(spec), Organization(r);
            && (place.NotePlace? ==> r == spec)
            && (place.TeamPlace? ==> Listed(now, "teams") == Listed(org, "teams") + [Obj(TeamFields(id))])
            && (place.AgentPlace? ==> Listed(now, "members") == Listed(org, "members") + [item])
            && (place.SubagentPlace? ==> FirstGets(Crew(org), Crew(now), item))
            && (place.ListPlace? && !place.ofOrganization ==>
                  ListIn(r, place.part, place.list) == ListIn(spec, place.part, place.list) + [item])
            && (place.ListPlace? && place.ofOrganization ==>
                  ListIn(now, place.part, place.list)
                  == ListIn(OrganizationOrRoot(spec), place.part, place.list) + [item])
  {
    hide With, Push, WithAgent, WithSubagent, Listing, Item, TeamFields, Crew, FirstGets, Organization, Listed, Get;
    var org, item := Organization(spec), Item(id, seed);
    match place
    case NotePlace =>
    case TeamPlace =>
      PushOnFields(org, "teams", Obj(TeamFields(id)), "id");
      OrganizationSet(spec, Push(org, "teams", Obj(TeamFields(id))));
    case AgentPlace =>
      AgentOnFields(org, item, id, "id");
      OrganizationSet(spec, WithAgent(org, item, id));
    case SubagentPlace =>
      SubagentOnFields(org, item);
      OrganizationSet(spec, WithSubagent(org, item).value);
    case ListPlace(false, part, list) =>
      ListingOnFields(spec, part, list, item, "id");
    case ListPlace(true, part, list) =>
      ListingOnFields(OrganizationOrRoot(spec), part, list, item, "id");
      OrganizationSet(spec, Listing(OrganizationOrRoot(spec), part, list, item).value);
  }
}
