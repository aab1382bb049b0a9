/** The marketplace catalog: publishing, rating and installing over a document store
    that lists the most recently written first. */
module Marketplace {
  import opened Basics

  datatype Kind = AgentKind | SkillKind | PluginKind | WorkflowKind | TemplateKind | SessionKind

  datatype Visibility = Public | Protected | Private

  datatype Entry = Entry(id: string, kind: Kind, ref: string, visibility: Visibility, groups: seq<string>,
                         installs: nat, ratingSum: real, ratingCount: nat)

  datatype Tool = Tool(name: string, spec: string)

  datatype Agent = Agent(id: string, groups: seq<string>, orgUnit: string, manager: string, published: bool,
                         skills: seq<string>, plugins: seq<string>, workflows: seq<string>,
                         sandboxes: seq<string>, tools: seq<Tool>, reports: seq<string>)

  datatype Plugin = Plugin(skills: seq<string>, tools: seq<Tool>)

  /** How many rows of a kind a lookup by reference reads. */
  const LOOKUP_LIMIT := 2000

  // ---- the store -----------------------------------------------------------------------

  function Get(entries: seq<Entry>, id: string): Option<Entry>
  {
    if entries == [] then None
    else if entries[0].id == id then Some(entries[0])
    else Get(entries[1..], id)
  }

  function Dropped(entries: seq<Entry>, id: string): (r: seq<Entry>)
    ensures forall e :: e in r <==> e in entries && e.id != id
  {
    if entries == [] then []
    else (if entries[0].id == id then [] else [entries[0]]) + Dropped(entries[1..], id)
  }

  /** Written last, so listed first. */
  function Put(entries: seq<Entry>, e: Entry): (r: seq<Entry>)
    ensures r != [] && r[0] == e && forall f :: f in r[1..] <==> f in entries && f.id != e.id
  {
    [e] + Dropped(entries, e.id)
  }

  /** The others stay in their order. */
  lemma {:induction false} DroppedInOrder(a: seq<Entry>, b: seq<Entry>, id: string)
    ensures Dropped(a + b, id) == Dropped(a, id) + Dropped(b, id)
  {
    if a == [] {
      assert a + b == b;
    } else {
      assert (a + b)[1..] == a[1..] + b;
      DroppedInOrder(a[1..], b, id);
    }
  }

  function OfKind(entries: seq<Entry>, kind: Kind): (r: seq<Entry>)
    ensures forall e :: e in r <==> e in entries && e.kind == kind
  {
    if entries == [] then []
    else (if entries[0].kind == kind then [entries[0]] else []) + OfKind(entries[1..], kind)
  }

  lemma {:induction false} OfKindInOrder(a: seq<Entry>, b: seq<Entry>, kind: Kind)
    ensures OfKind(a + b, kind) == OfKind(a, kind) + OfKind(b, kind)
  {
    if a == [] {
      assert a + b == b;
    } else {
      assert (a + b)[1..] == a[1..] + b;
      OfKindInOrder(a[1..], b, kind);
    }
  }

  function Listing(entries: seq<Entry>, kind: Kind, limit: nat): (r: seq<Entry>)
    ensures r <= OfKind(entries, kind) && |r| <= limit && (|r| < limit ==> r == OfKind(entries, kind))
  {
    var rows := OfKind(entries, kind);
    if limit < |rows| then rows[..limit] else rows
  }

  function WithRef(rows: seq<Entry>, ref: string): (r: Option<Entry>)
    ensures r.Some? ==> exists i :: 0 <= i < |rows| && rows[i] == r.value && r.value.ref == ref
                                    && forall j :: 0 <= j < i ==> rows[j].ref != ref
    ensures r.None? ==> forall e :: e in rows ==> e.ref != ref
  {
    if rows == [] then None
    else if rows[0].ref == ref then Some(rows[0])
    else
      assert forall i :: 0 < i < |rows| ==> rows[i] == rows[1..][i - 1];
      WithRef(rows[1..], ref)
  }

  function EntryFor(entries: seq<Entry>, kind: Kind, ref: string): Option<Entry>
  {
    WithRef(Listing(entries, kind, LOOKUP_LIMIT), ref)
  }

  // ---- what every run keeps --------------------------------------------------------------

  ghost predicate OneId(entries: seq<Entry>)
  {
    forall i, j :: 0 <= i < j < |entries| ==> entries[i].id != entries[j].id
  }

  ghost predicate OneListing(entries: seq<Entry>)
  {
    forall e, f :: e in entries && f in entries && e.kind == f.kind && e.ref == f.ref ==> e == f
  }

  predicate Rated(e: Entry)
  {
    e.ratingCount as real <= e.ratingSum <= 5.0 * e.ratingCount as real
  }

  function TotalInstalls(entries: seq<Entry>): nat
  {
    if entries == [] then 0 else entries[0].installs + TotalInstalls(entries[1..])
  }

  lemma {:induction false} DroppedKeepsOneId(entries: seq<Entry>, id: string)
    requires OneId(entries)
    ensures OneId(Dropped(entries, id))
  {
    if entries != [] {
      DroppedKeepsOneId(entries[1..], id);
      var rest := Dropped(entries[1..], id);
      forall j | 0 <= j < |rest| ensures rest[j].id != entries[0].id {
        assert rest[j] in entries[1..];
      }
    }
  }

  lemma PutKeepsOneId(entries: seq<Entry>, e: Entry)
    requires OneId(entries)
    ensures OneId(Put(entries, e))
  {
    DroppedKeepsOneId(entries, e.id);
    forall j | 0 <= j < |Dropped(entries, e.id)| ensures Dropped(entries, e.id)[j].id != e.id {
      assert Dropped(entries, e.id)[j] in Dropped(entries, e.id);
    }
  }

  lemma {:induction false} GetMeans(entries: seq<Entry>, id: string)
    ensures Get(entries, id).Some? ==> Get(entries, id).value in entries && Get(entries, id).value.id == id
    ensures Get(entries, id).None? ==> forall e :: e in entries ==> e.id != id
  {
    if entries != [] { GetMeans(entries[1..], id); }
  }

  lemma {:induction false} DroppedAbsent(entries: seq<Entry>, id: string)
    requires forall e :: e in entries ==> e.id != id
    ensures Dropped(entries, id) == entries
  {
    if entries != [] {
      DroppedAbsent(entries[1..], id);
      assert entries == [entries[0]] + entries[1..];
    }
  }

  lemma HeadDropped(head: Entry, tail: seq<Entry>)
    ensures Dropped([head] + tail, head.id) == Dropped(tail, head.id)
    ensures TotalInstalls([head] + tail) == head.installs + TotalInstalls(tail)
  {
  }

  /** Rewriting an entry moves its installs with it. */
  lemma {:induction false} DroppedInstalls(entries: seq<Entry>, e: Entry)
    requires OneId(entries) && e in entries
    ensures TotalInstalls(entries) == TotalInstalls(Dropped(entries, e.id)) + e.installs
  {
    var head, tail := entries[0], entries[1..];
    assert entries == [head] + tail;
    if head.id == e.id {
      var i :| 0 <= i < |entries| && entries[i] == e;
      assert i == 0;
      DroppedAbsent(tail, e.id);
      HeadDropped(head, tail);
    } else {
      DroppedInstalls(tail, e);
      assert Dropped(entries, e.id) == [head] + Dropped(tail, e.id);
    }
  }

  lemma PutInstalls(entries: seq<Entry>, e: Entry)
    requires OneId(entries)
    ensures TotalInstalls(Put(entries, e))
            == TotalInstalls(entries) + e.installs
               - match Get(entries, e.id) case None => 0 case Some(was) => was.installs
  {
    GetMeans(entries, e.id);
    match Get(entries, e.id)
    case None => DroppedAbsent(entries, e.id);
    case Some(was) => DroppedInstalls(entries, was);
  }

  // ---- publishing --------------------------------------------------------------------------

  datatype Outcome = Done | NeedsGroups | NoSuchObject | NoSuchEntry | NoSuchAgent | NotEntitled
                   | NoSource | NotInstallable | BadRating

  function Published(entries: seq<Entry>, kind: Kind, ref: string, visibility: Visibility,
                     groups: seq<string>, newId: string): Entry
  {
    match EntryFor(entries, kind, ref)
    case Some(e) => e.(visibility := visibility, groups := groups)
    case None => Entry(newId, kind, ref, visibility, groups, 0, 0.0, 0)
  }

  /** What publishing writes: a listed object's entry as it was but for who may see it, or
      a new entry nobody has installed or rated. */
  lemma PublishedOnFields(entries: seq<Entry>, kind: Kind, ref: string, visibility: Visibility,
                          groups: seq<string>, newId: string)
    ensures var e := Published(entries, kind, ref, visibility, groups, newId);
            && e.kind == kind && e.ref == ref && e.visibility == visibility && e.groups == groups
            && (EntryFor(entries, kind, ref).None? ==>
                  e.id == newId && e.installs == e.ratingCount == 0 && e.ratingSum == 0.0)
            && (EntryFor(entries, kind, ref).Some? ==>
                  exists was :: was in entries && was.kind == kind && was.ref == ref && e.id == was.id
                    && e.installs == was.installs && e.ratingSum == was.ratingSum && e.ratingCount == was.ratingCount)
  {
  }

  /** Some entry already lists this object. */
  ghost predicate Listed(entries: seq<Entry>, kind: Kind, ref: string)
  {
    exists e :: e in entries && e.kind == kind && e.ref == ref
  }

  lemma {:induction false} OfKindLength(entries: seq<Entry>, kind: Kind)
    ensures |OfKind(entries, kind)| <= |entries|
  {
    if entries != [] { OfKindLength(entries[1..], kind); }
  }

  /** While a kind's listings fit one lookup, an object that is listed is found. */
  lemma FoundWithinLimit(entries: seq<Entry>, kind: Kind, ref: string)
    requires |OfKind(entries, kind)| <= 2000
    ensures Listed(entries, kind, ref) <==> EntryFor(entries, kind, ref).Some?
  {
  }

  /** Publishing leaves at most one entry for each object exactly when the lookup finds
      the object's entry if there is one. */
  lemma PublishKeepsOneListingExactly(entries: seq<Entry>, kind: Kind, ref: string, visibility: Visibility,
                                      groups: seq<string>, newId: string)
    requires OneId(entries) && OneListing(entries) && forall e :: e in entries ==> e.id != newId
    ensures OneListing(Put(entries, Published(entries, kind, ref, visibility, groups, newId)))
            <==> (Listed(entries, kind, ref) ==> EntryFor(entries, kind, ref).Some?)
  {
    hide Published, Put, EntryFor;
    PublishedOnFields(entries, kind, ref, visibility, groups, newId);
  }

  // ---- installing ---------------------------------------------------------------------------

  function AppendUnique(items: seq<string>, value: string): (r: seq<string>)
    ensures items <= r && |r| <= |items| + 1 && forall v :: v in r <==> v in items || v == value
  {
    if value in items then items else items + [value]
  }

  function AppendAll(items: seq<string>, values: seq<string>): (r: seq<string>)
    ensures items <= r
  {
    if values == [] then items else AppendUnique(AppendAll(items, values[..|values| - 1]), values[|values| - 1])
  }

  predicate HasTool(tools: seq<Tool>, name: string)
  {
    exists i :: 0 <= i < |tools| && tools[i].name == name
  }

  function AddTools(tools: seq<Tool>, more: seq<Tool>): (r: seq<Tool>)
    ensures tools <= r
  {
    if more == [] then tools
    else
      var before, t := AddTools(tools, more[..|more| - 1]), more[|more| - 1];
      if HasTool(before, t.name) then before else before + [t]
  }

  lemma {:induction false} AppendAllInTurn(items: seq<string>, a: seq<string>, b: seq<string>)
    ensures AppendAll(items, a + b) == AppendAll(AppendAll(items, a), b)
    ensures forall v :: AppendAll(items, [v]) == if v in items then items else items + [v]
  {
    if b == [] {
      assert a + b == a;
    } else {
      assert (a + b)[..|a + b| - 1] == a + b[..|b| - 1];
      AppendAllInTurn(items, a, b[..|b| - 1]);
    }
  }

  lemma {:induction false} AddToolsInTurn(tools: seq<Tool>, a: seq<Tool>, b: seq<Tool>)
    ensures AddTools(tools, a + b) == AddTools(AddTools(tools, a), b)
  {
    if b == [] {
      assert a + b == a;
    } else {
      hide HasTool;
      assert (a + b)[..|a + b| - 1] == a + b[..|b| - 1];
      AddToolsInTurn(tools, a, b[..|b| - 1]);
    }
  }

  lemma AddOneTool(tools: seq<Tool>, t: Tool)
    ensures AddTools(tools, [t]) == if exists u :: u in tools && u.name == t.name then tools else tools + [t]
  {
    assert [t][..0] == [] && AddTools(tools, []) == tools;
    assert HasTool(tools, t.name) <==> exists u :: u in tools && u.name == t.name;
  }

  /** What an install attaches to the agent itself. */
  function Attached(a: Agent, kind: Kind, ref: string, plugins: map<string, Plugin>, clone: string): Agent
  {
    match kind
    case SkillKind => a.(skills := AppendUnique(a.skills, ref))
    case PluginKind =>
      var b := a.(plugins := AppendUnique(a.plugins, ref));
      if ref in plugins then
        b.(skills := AppendAll(b.skills, plugins[ref].skills), tools := AddTools(b.tools, plugins[ref].tools))
      else b
    case WorkflowKind => a.(workflows := AppendUnique(a.workflows, ref))
    case TemplateKind => a.(sandboxes := [ref] + a.sandboxes)
    case AgentKind => a.(reports := AppendUnique(a.reports, clone))
    case SessionKind => a
  }

  lemma {:induction false} AppendAllHas(items: seq<string>, values: seq<string>)
    ensures forall v :: v in AppendAll(items, values) <==> v in items || v in values
  {
    if values != [] {
      var n := |values| - 1;
      AppendAllHas(items, values[..n]);
      assert values == values[..n] + [values[n]];
    }
  }

  lemma {:induction false} AppendAllPresent(items: seq<string>, values: seq<string>)
    requires forall v :: v in values ==> v in items
    ensures AppendAll(items, values) == items
  {
    if values != [] {
      var n := |values| - 1;
      assert values[n] in values && forall v :: v in values[..n] ==> v in values;
      AppendAllPresent(items, values[..n]);
    }
  }

  lemma {:induction false} AddToolsHas(tools: seq<Tool>, more: seq<Tool>, name: string)
    ensures HasTool(AddTools(tools, more), name) <==> HasTool(tools, name) || HasTool(more, name)
  {
    if more != [] {
      var n := |more| - 1;
      var before, t := AddTools(tools, more[..n]), more[n];
      AddToolsHas(tools, more[..n], name);
      if HasTool(more, name) {
        var i :| 0 <= i < |more| && more[i].name == name;
        if i < n { assert more[..n][i].name == name; }
      }
      if i :| 0 <= i < n && more[..n][i].name == name { assert more[i].name == name; }
      if !HasTool(before, t.name) {
        assert (before + [t])[|before|] == t;
        if i :| 0 <= i < |before| && before[i].name == name { assert (before + [t])[i].name == name; }
        if i :| 0 <= i < |before + [t]| && (before + [t])[i].name == name {
          if i < |before| { assert before[i].name == name; }
        }
      }
    }
  }

  lemma {:induction false} AddToolsPresent(tools: seq<Tool>, more: seq<Tool>)
    requires forall i :: 0 <= i < |more| ==> HasTool(tools, more[i].name)
    ensures AddTools(tools, more) == tools
  {
    if more != [] {
      var n := |more| - 1;
      AddToolsPresent(tools, more[..n]);
    }
  }

  /** Installing a skill, plugin or workflow again leaves the agent as it was. */
  lemma ReinstallChangesNothing(a: Agent, kind: Kind, ref: string, plugins: map<string, Plugin>, clone: string)
    requires kind != TemplateKind
    ensures var once := Attached(a, kind, ref, plugins, clone);
            Attached(once, kind, ref, plugins, clone) == once
  {
    if kind == PluginKind && ref in plugins {
      var p := plugins[ref];
      var once := Attached(a, kind, ref, plugins, clone);
      AppendAllHas(a.skills, p.skills);
      AppendAllPresent(once.skills, p.skills);
      forall i | 0 <= i < |p.tools| ensures HasTool(once.tools, p.tools[i].name) {
        AddToolsHas(a.tools, p.tools, p.tools[i].name);
      }
      AddToolsPresent(once.tools, p.tools);
    }
  }

  predicate NoToolTwice(tools: seq<Tool>)
  {
    forall i, j :: 0 <= i < j < |tools| ==> tools[i].name != tools[j].name
  }

  predicate TidyLists(a: Agent)
  {
    Distinct(a.skills) && Distinct(a.plugins) && Distinct(a.workflows) && Distinct(a.reports) && NoToolTwice(a.tools)
  }

  lemma {:induction false} AppendAllTidy(items: seq<string>, values: seq<string>)
    requires Distinct(items)
    ensures Distinct(AppendAll(items, values))
  {
    if values != [] { AppendAllTidy(items, values[..|values| - 1]); }
  }

  lemma {:induction false} AddToolsTidy(tools: seq<Tool>, more: seq<Tool>)
    requires NoToolTwice(tools)
    ensures NoToolTwice(AddTools(tools, more))
  {
    if more != [] { AddToolsTidy(tools, more[..|more| - 1]); }
  }

  predicate AllTidy(agents: map<string, Agent>)
  {
    forall k :: k in agents ==> TidyLists(agents[k])
  }

  /** Lists without repetitions stay so. */
  lemma AttachedTidy(a: Agent, kind: Kind, ref: string, plugins: map<string, Plugin>, clone: string)
    requires TidyLists(a)
    ensures TidyLists(Attached(a, kind, ref, plugins, clone))
  {
    if kind == PluginKind && ref in plugins {
      AppendAllTidy(a.skills, plugins[ref].skills);
      AddToolsTidy(a.tools, plugins[ref].tools);
    }
  }

  /** The last so many characters, or all there are. */
  function Tail(s: string, n: nat): (r: string)
    ensures |r| <= n && |r| <= |s| && r == s[|s| - |r|..] && (|r| < n ==> r == s)
  {
    if n < |s| then s[|s| - n..] else s
  }

  function CloneId(ref: string, target: string): string
  {
    "agt_" + Tail(ref, 8) + "_" + Tail(target, 6)
  }

  predicate Entitled(e: Entry, a: Agent)
  {
    e.visibility != Protected || exists g :: g in e.groups && g in a.groups
  }

  // ---- the catalog as it runs -----------------------------------------------------------------

  /** What every operation keeps. */
  ghost predicate Sane(entries: seq<Entry>)
  {
    OneId(entries) && forall e :: e in entries ==> Rated(e)
  }

  lemma PutKeepsSane(entries: seq<Entry>, e: Entry)
    requires Sane(entries) && Rated(e)
    ensures Sane(Put(entries, e))
  {
    PutKeepsOneId(entries, e);
  }

  class Catalog {
    var entries: seq<Entry>
    var agents: map<string, Agent>
    const plugins: map<string, Plugin>
    const others: set<(Kind, string)>

    ghost predicate Valid()
      reads this
    {
      Sane(entries)
    }

    constructor (agents: map<string, Agent>, plugins: map<string, Plugin>, others: set<(Kind, string)>)
      ensures Valid() && entries == [] && this.agents == agents
      ensures this.plugins == plugins && this.others == others
    {
      entries, this.agents, this.plugins, this.others := [], agents, plugins, others;
    }

    predicate Stored(kind: Kind, ref: string)
      reads this
    {
      match kind
      case AgentKind => ref in agents
      case PluginKind => ref in plugins
      case _ => (kind, ref) in others
    }

    /** Lists an object, or its listing again; nothing is written when refused. */
    method Publish(kind: Kind, ref: string, visibility: Visibility, groups: seq<string>, newId: string)
      returns (r: Outcome)
      requires Valid() && forall e :: e in entries ==> e.id != newId
      modifies this
      ensures Valid()
      ensures r == if visibility == Protected && groups == [] then NeedsGroups
                   else if kind == AgentKind && ref !in old(agents) then NoSuchObject
                   else if kind == PluginKind && ref !in plugins then NoSuchObject
                   else if kind != AgentKind && kind != PluginKind && (kind, ref) !in others then NoSuchObject
                   else Done
      ensures r != Done ==> unchanged(this)
      ensures r == Done ==>
                && entries == Put(old(entries), Published(old(entries), kind, ref, visibility, groups, newId))
                && TotalInstalls(entries) == TotalInstalls(old(entries))
                && agents == if kind == AgentKind then old(agents)[ref := old(agents)[ref].(published := true)]
                             else old(agents)
    {
      if visibility == Protected && groups == [] {
        return NeedsGroups;
      }
      if !Stored(kind, ref) {
        return NoSuchObject;
      }
      var entry := Published(entries, kind, ref, visibility, groups, newId);
      PublishedFits(entries, kind, ref, visibility, groups, newId);
      PutKeepsSane(entries, entry);
      PutInstalls(entries, entry);
      entries := Put(entries, entry);
      if kind == AgentKind {
        agents := agents[ref := agents[ref].(published := true)];
      }
      return Done;
    }

    method Rate(id: string, stars: real) returns (r: Outcome)
      requires Valid()
      modifies `entries
      ensures Valid()
      ensures r == if !(1.0 <= stars <= 5.0) then BadRating
                   else if Get(old(entries), id).None? then NoSuchEntry else Done
      ensures r != Done ==> entries == old(entries)
      ensures r == Done ==>
                var e := Get(old(entries), id).value;
                && entries == Put(old(entries), e.(ratingSum := e.ratingSum + stars, ratingCount := e.ratingCount + 1))
                && TotalInstalls(entries) == TotalInstalls(old(entries))
    {
      hide Put, Get, OneId, TotalInstalls;
      if !(1.0 <= stars <= 5.0) {
        return BadRating;
      }
      GetMeans(entries, id);
      match Get(entries, id) {
        case None =>
          return NoSuchEntry;
        case Some(e) =>
          var entry := e.(ratingSum := e.ratingSum + stars, ratingCount := e.ratingCount + 1);
          PutKeepsSane(entries, entry);
          PutInstalls(entries, entry);
          entries := Put(entries, entry);
          return Done;
      }
    }

    /** Every skill and tool of a plugin, each once. */
    method AttachPlugin(a: Agent, ref: string) returns (b: Agent)
      ensures b == Attached(a, PluginKind, ref, plugins, "")
    {
      b := a.(plugins := AppendUnique(a.plugins, ref));
      if ref in plugins {
        var p := plugins[ref];
        var skills, tools := b.skills, b.tools;
        for i := 0 to |p.skills|
          invariant skills == AppendAll(a.skills, p.skills[..i])
        {
          assert p.skills[..i + 1][..i] == p.skills[..i];
          skills := AppendUnique(skills, p.skills[i]);
        }
        for i := 0 to |p.tools|
          invariant tools == AddTools(a.tools, p.tools[..i])
        {
          assert p.tools[..i + 1][..i] == p.tools[..i];
          if !HasTool(tools, p.tools[i].name) {
            tools := tools + [p.tools[i]];
          }
        }
        assert p.skills[..|p.skills|] == p.skills && p.tools[..|p.tools|] == p.tools;
        b := b.(skills := skills, tools := tools);
      }
    }

    /** Attaches the item to the target agent; hiring an agent writes the copy first. */
    method Attach(e: Entry, target: string) returns (r: Outcome)
      requires target in agents
      modifies `agents
      ensures r == if e.kind == AgentKind && e.ref !in old(agents) then NoSource
                   else if e.kind == SessionKind then NotInstallable else Done
      ensures r != Done ==> agents == old(agents)
      ensures r == Done ==> agents == Installed(old(agents), e, target, plugins)
    {
      var agent, clone := agents[target], CloneId(e.ref, target);
      var attached := agent;
      match e.kind {
        case PluginKind =>
          attached := AttachPlugin(agent, e.ref);
        case AgentKind =>
          if e.ref !in agents {
            return NoSource;
          }
          var copy := agents[e.ref].(id := clone, manager := target, orgUnit := agent.orgUnit, published := false);
          agents := agents[clone := copy];
          attached := Attached(agent, AgentKind, e.ref, plugins, clone);
        case SessionKind =>
          return NotInstallable;
        case _ =>
          attached := Attached(agent, e.kind, e.ref, plugins, clone);
      }
      agents := agents[target := attached];
      return Done;
    }

    /** Refused, it writes nothing. Done, it writes the agent and counts one more install
        of that entry. */
    method Install(id: string, target: string) returns (r: Outcome)
      requires Valid()
      modifies this
      ensures Valid()
      ensures r == InstallOutcome(old(entries), old(agents), id, target)
      ensures r != Done ==> unchanged(this)
      ensures r == Done ==>
                var e := Get(old(entries), id).value;
                && entries == Put(old(entries), e.(installs := e.installs + 1))
                && TotalInstalls(entries) == TotalInstalls(old(entries)) + 1
                && agents == Installed(old(agents), e, target, plugins)
    {
      hide Put, Get, Installed, Sane, TotalInstalls, Entitled;
      if Get(entries, id).None? {
        return NoSuchEntry;
      }
      var entry := Get(entries, id).value;
      if target !in agents {
        return NoSuchAgent;
      }
      if !Entitled(entry, agents[target]) {
        return NotEntitled;
      }
      r := Attach(entry, target);
      if r != Done {
        return r;
      }
      InstallCounts(entries, id);
      entries := Put(entries, entry.(installs := entry.installs + 1));
    }
  }

  lemma InstallCounts(entries: seq<Entry>, id: string)
    requires Sane(entries) && Get(entries, id).Some?
    ensures var e := Get(entries, id).value;
            var now := Put(entries, e.(installs := e.installs + 1));
            Sane(now) && TotalInstalls(now) == TotalInstalls(entries) + 1
  {
    GetMeans(entries, id);
    var e := Get(entries, id).value;
    PutKeepsSane(entries, e.(installs := e.installs + 1));
    PutInstalls(entries, e.(installs := e.installs + 1));
  }

  lemma PublishedFits(entries: seq<Entry>, kind: Kind, ref: string, visibility: Visibility,
                      groups: seq<string>, newId: string)
    requires Sane(entries) && forall e :: e in entries ==> e.id != newId
    ensures var e := Published(entries, kind, ref, visibility, groups, newId);
            && Rated(e)
            && e.installs == match Get(entries, e.id) case None => 0 case Some(was) => was.installs
  {
    var found := EntryFor(entries, kind, ref);
    GetMeans(entries, newId);
    if found.Some? {
      assert found.value in OfKind(entries, kind);
      GetMeans(entries, found.value.id);
      SameEntry(entries, found.value, Get(entries, found.value.id).value);
    }
  }

  lemma SameEntry(entries: seq<Entry>, e: Entry, f: Entry)
    requires OneId(entries) && e in entries && f in entries && e.id == f.id
    ensures e == f
  {
  }

  function InstallOutcome(entries: seq<Entry>, agents: map<string, Agent>, id: string, target: string): Outcome
  {
    match Get(entries, id)
    case None => NoSuchEntry
    case Some(e) =>
      if target !in agents then NoSuchAgent
      else if !Entitled(e, agents[target]) then NotEntitled
      else if e.kind == AgentKind && e.ref !in agents then NoSource
      else if e.kind == SessionKind then NotInstallable
      else Done
  }

  /** The agents after an install: the target's own record is written last. */
  function Installed(agents: map<string, Agent>, e: Entry, target: string, plugins: map<string, Plugin>)
    : map<string, Agent>
    requires target in agents && (e.kind == AgentKind ==> e.ref in agents)
  {
    var clone := CloneId(e.ref, target);
    var hired := if e.kind == AgentKind then
                   agents[clone := agents[e.ref].(id := clone, manager := target,
                                                  orgUnit := agents[target].orgUnit, published := false)]
                 else agents;
    hired[target := Attached(agents[target], e.kind, e.ref, plugins, clone)]
  }

  /** Who may install, and what keeps an install from going through, on the entry's and the
      agent's own fields. */
  lemma OutcomeOnFields(entries: seq<Entry>, agents: map<string, Agent>, e: Entry, target: string)
    requires OneId(entries) && e in entries && target in agents
    ensures var r, a := InstallOutcome(entries, agents, e.id, target), agents[target];
            var shared := exists g :: g in e.groups && g in a.groups;
            && (r == NotEntitled <==> e.visibility == Protected && !shared)
            && (r == NoSource <==> (e.visibility == Protected ==> shared) && e.kind == AgentKind && e.ref !in agents)
            && (r == NotInstallable <==> (e.visibility == Protected ==> shared) && e.kind == SessionKind)
            && (r == Done <==> (e.visibility == Protected ==> shared) && e.kind != SessionKind
                               && (e.kind == AgentKind ==> e.ref in agents))
  {
    GetMeans(entries, e.id);
    SameEntry(entries, e, Get(entries, e.id).value);
  }

  lemma NoOutcomeWithout(entries: seq<Entry>, agents: map<string, Agent>, id: string, target: string)
    ensures InstallOutcome(entries, agents, id, target) == NoSuchEntry <==> forall e :: e in entries ==> e.id != id
    ensures InstallOutcome(entries, agents, id, target) == NoSuchAgent
            <==> (exists e :: e in entries && e.id == id) && target !in agents
  {
    GetMeans(entries, id);
  }

  /** The record had this item, or it was put at its end; nothing else changed. */
  ghost predicate Gained(was: seq<string>, now: seq<string>, item: string)
  {
    now == if item in was then was else was + [item]
  }

  /** What an install makes of the target's record, kind by kind: the one list the item goes
      to, and for a plugin its skills and tools too. */
  lemma InstalledOnFields(agents: map<string, Agent>, e: Entry, target: string, plugins: map<string, Plugin>)
    requires target in agents && (e.kind == AgentKind ==> e.ref in agents)
    ensures var a, b := agents[target], Installed(agents, e, target, plugins)[target];
            && (e.kind == SkillKind ==> Gained(a.skills, b.skills, e.ref) && b == a.(skills := b.skills))
            && (e.kind == WorkflowKind ==> Gained(a.workflows, b.workflows, e.ref) && b == a.(workflows := b.workflows))
            && (e.kind == TemplateKind ==> b.sandboxes == [e.ref] + a.sandboxes && b == a.(sandboxes := b.sandboxes))
            && (e.kind == AgentKind ==>
                  Gained(a.reports, b.reports, CloneId(e.ref, target)) && b == a.(reports := b.reports))
            && (e.kind == PluginKind ==>
                  Gained(a.plugins, b.plugins, e.ref)
                  && b == a.(plugins := b.plugins, skills := b.skills, tools := b.tools)
                  && (e.ref !in plugins ==> b.skills == a.skills && b.tools == a.tools))
    ensures e.kind == PluginKind && e.ref in plugins ==>
              var a, b, p := agents[target], Installed(agents, e, target, plugins)[target], plugins[e.ref];
              && b.skills == AppendAll(a.skills, p.skills) && b.tools == AddTools(a.tools, p.tools)
              && (forall s :: s in b.skills <==> s in a.skills || s in p.skills)
              && (forall n :: HasTool(b.tools, n) <==> HasTool(a.tools, n) || HasTool(p.tools, n))
  {
    hide CloneId;
    if e.kind == PluginKind && e.ref in plugins {
      var a, p := agents[target], plugins[e.ref];
      AppendAllHas(a.skills, p.skills);
      forall n ensures HasTool(AddTools(a.tools, p.tools), n) <==> HasTool(a.tools, n) || HasTool(p.tools, n) {
        AddToolsHas(a.tools, p.tools, n);
      }
    }
  }

  /** A hired copy: the source's record under the target as its manager and in its unit, not
      published, with an id cut from the last 8 and the last 6 characters of theirs. */
  lemma HiredOnFields(agents: map<string, Agent>, e: Entry, target: string, plugins: map<string, Plugin>)
    requires target in agents && e.kind == AgentKind && e.ref in agents && |e.ref| >= 8 && |target| >= 6
    requires CloneId(e.ref, target) != target
    ensures var id := "agt_" + e.ref[|e.ref| - 8..] + "_" + target[|target| - 6..];
            var hired := Installed(agents, e, target, plugins);
            && hired.Keys == agents.Keys + {id} && hired[id].id == id && hired[id].manager == target
            && hired[id].orgUnit == agents[target].orgUnit && !hired[id].published
            && hired[id].skills == agents[e.ref].skills && hired[id].tools == agents[e.ref].tools
  {
  }

  /** An install leaves every agent but its target as it was, exactly when it hires
      nobody or the hired copy's id was free, or its own target's, or nothing changes. */
  lemma InstallKeepsOthersExactly(agents: map<string, Agent>, e: Entry, target: string, plugins: map<string, Plugin>)
    requires target in agents && (e.kind == AgentKind ==> e.ref in agents)
    ensures var clone := CloneId(e.ref, target);
            (forall k :: k in agents && k != target ==> Installed(agents, e, target, plugins)[k] == agents[k])
            <==> e.kind != AgentKind || clone !in agents || clone == target
                 || agents[clone] == agents[e.ref].(id := clone, manager := target,
                                                   orgUnit := agents[target].orgUnit, published := false)
  {
  }

  lemma AttachedAllTidy(agents: map<string, Agent>, e: Entry, target: string, plugins: map<string, Plugin>)
    requires target in agents && (e.kind == AgentKind ==> e.ref in agents) && AllTidy(agents)
    ensures AllTidy(Installed(agents, e, target, plugins))
  {
    AttachedTidy(agents[target], e.kind, e.ref, plugins, CloneId(e.ref, target));
  }

  /** A skill, plugin or workflow installed again changes no agent. */
  lemma ReinstallChangesNobody(agents: map<string, Agent>, e: Entry, target: string, plugins: map<string, Plugin>)
    requires target in agents && e.kind != TemplateKind && e.kind != AgentKind
    ensures var once := Installed(agents, e, target, plugins);
            Installed(once, e, target, plugins) == once
  {
    ReinstallChangesNothing(agents[target], e.kind, e.ref, plugins, CloneId(e.ref, target));
  }

  /** Hiring the same agent again puts the copy back as it was first hired, whatever was
      made of it since. */
  lemma HiringAgainRestoresTheCopy(agents: map<string, Agent>, e: Entry, target: string, plugins: map<string, Plugin>,
                                   edited: Agent)
    requires target in agents && e.kind == AgentKind && e.ref in agents && e.ref != target
    requires var clone := CloneId(e.ref, target); clone != target && clone != e.ref
    ensures var clone, hired := CloneId(e.ref, target), Installed(agents, e, target, plugins);
            Installed(hired[clone := edited], e, target, plugins)[clone] == hired[clone]
  {
    hide CloneId;
  }

  const SCOUT := Agent("scout", [], "field", "", true, ["read"], [], [], [], [], [])

  const BOSS := Agent("boss", [], "office", "", false, [], [], [], [], [], [])

  const SCOUT_LISTING := Entry("listing", AgentKind, "scout", Public, [], 0, 0.0, 0)

  /** So an edit to a hired copy, here a second skill, is lost when it is hired again. */
  lemma HiringAgainLosesTheEdit()
    ensures var agents, clone := map["scout" := SCOUT, "boss" := BOSS], CloneId("scout", "boss");
            var hired := Installed(agents, SCOUT_LISTING, "boss", map[]);
            var edited := hired[clone := hired[clone].(skills := ["read", "write"])];
            && InstallOutcome([SCOUT_LISTING], edited, "listing", "boss") == Done
            && Installed(edited, SCOUT_LISTING, "boss", map[])[clone] != edited[clone]
  {
    hide CloneId;
    var agents, clone := map["scout" := SCOUT, "boss" := BOSS], CloneId("scout", "boss");
    CloneIdLong("scout", "boss");
    var hired := Installed(agents, SCOUT_LISTING, "boss", map[]);
    HiringAgainRestoresTheCopy(agents, SCOUT_LISTING, "boss", map[], hired[clone].(skills := ["read", "write"]));
    assert hired[clone].skills == ["read"];
  }

  lemma CloneIdLong(ref: string, target: string)
    requires |ref| <= 8 && |target| <= 6
    ensures |CloneId(ref, target)| > |ref| && |CloneId(ref, target)| > |target|
  {
  }
}
