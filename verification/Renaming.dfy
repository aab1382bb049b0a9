/** Renaming a component: what is refused, what is rewritten, and what every lookup
    finds afterwards. */
module Renaming {
  import opened Basics
  import opened Documents
  import Text

  // ---- ids ---------------------------------------------------------------------------

  function GetField(fields: seq<Field>, key: string): (r: Option<Json>)
    ensures r.Some? ==> exists f :: f in fields && f.value == r.value
  {
    if fields == [] then None
    else if fields[0].key == key then
      assert fields[0] in fields;
      Some(fields[0].value)
    else
      var r := GetField(fields[1..], key);
      assert forall f :: f in fields[1..] ==> f in fields;
      r
  }

  /** The value of the first field of that key, if there is one. */
  lemma {:induction false} GetFieldMeans(fields: seq<Field>, key: string)
    ensures GetField(fields, key).Some? ==>
              exists i :: 0 <= i < |fields| && fields[i] == Field(key, GetField(fields, key).value)
                          && forall j :: 0 <= j < i ==> fields[j].key != key
    ensures GetField(fields, key).None? ==> forall f :: f in fields ==> f.key != key
  {
    if fields != [] && fields[0].key != key {
      var rest := fields[1..];
      GetFieldMeans(rest, key);
      assert fields == [fields[0]] + rest;
      if GetField(fields, key).Some? {
        var i :| 0 <= i < |rest| && rest[i] == Field(key, GetField(rest, key).value)
                 && forall j :: 0 <= j < i ==> rest[j].key != key;
        assert fields[i + 1] == rest[i];
        assert forall j :: 0 < j <= i ==> fields[j] == rest[j - 1];
      }
    } else if fields != [] {
      assert fields[0] == Field(key, fields[0].value);
    }
  }

  function Get(j: Json, key: string): (r: Option<Json>)
    ensures r.Some? ==> r.value < j && r.value in Children(j)
  {
    if j.Obj? then
      var r := GetField(j.fields, key);
      assert r.Some? ==> r.value < j && r.value in Children(j) by {
        if r.Some? {
          var f :| f in j.fields && f.value == r.value;
          var i :| 0 <= i < |j.fields| && j.fields[i] == f;
          assert Children(j)[i] == r.value;
        }
      }
      r
    else None
  }

  /** A component's id: the text under `id` of an object. */
  function IdOf(j: Json): Option<string>
  {
    match Get(j, "id")
    case Some(Str(s)) => Some(s)
    case _ => None
  }

  /** Every id declared anywhere in a value, outermost first. */
  function Ids(j: Json): seq<string>
    decreases j, 0
  {
    (if IdOf(j).Some? then [IdOf(j).value] else [])
    + match j
      case Arr(items) => IdsIn(items)
      case Obj(fields) => IdsOfFields(fields)
      case _ => []
  }

  function IdsIn(items: seq<Json>): seq<string>
    decreases items, 1
  {
    if items == [] then [] else Ids(items[0]) + IdsIn(items[1..])
  }

  function IdsOfFields(fields: seq<Field>): seq<string>
    decreases fields, 1
  {
    if fields == [] then [] else Ids(fields[0].value) + IdsOfFields(fields[1..])
  }

  function Renamed(s: string, was: string, id: string): string
  {
    if s == was then id else s
  }

  function RenamedAll(ss: seq<string>, was: string, id: string): (r: seq<string>)
    ensures |r| == |ss| && forall i :: 0 <= i < |ss| ==> r[i] == Renamed(ss[i], was, id)
  {
    seq(|ss|, i requires 0 <= i < |ss| => Renamed(ss[i], was, id))
  }

  lemma {:induction false} GetFieldRewritten(fields: seq<Field>, key: string, was: string, id: string)
    ensures GetField(RewriteFields(fields, was, id), key)
            == match GetField(fields, key) case None => None case Some(v) => Some(RewriteValue(v, was, id))
  {
    if fields != [] { GetFieldRewritten(fields[1..], key, was, id); }
  }

  lemma GetRewritten(j: Json, key: string, was: string, id: string)
    ensures Get(RewriteValue(j, was, id), key)
            == match Get(j, key) case None => None case Some(v) => Some(RewriteValue(v, was, id))
  {
    if j.Obj? { GetFieldRewritten(j.fields, key, was, id); }
  }

  lemma IdOfRewritten(j: Json, was: string, id: string)
    ensures IdOf(RewriteValue(j, was, id))
            == match IdOf(j) case None => None case Some(s) => Some(Renamed(s, was, id))
  {
    GetRewritten(j, "id", was, id);
  }

  lemma RenamedConcat(a: seq<string>, b: seq<string>, was: string, id: string)
    ensures RenamedAll(a + b, was, id) == RenamedAll(a, was, id) + RenamedAll(b, was, id)
  {
  }

  /** Renaming renames in the list of declared ids and nothing else: as many as before,
      each where it was. */
  lemma {:induction false} IdsRewritten(v: Json, was: string, id: string)
    ensures Ids(RewriteValue(v, was, id)) == RenamedAll(Ids(v), was, id)
    decreases v, 0
  {
    hide IdOf, RenamedAll;
    IdOfRewritten(v, was, id);
    var own := if IdOf(v).Some? then [IdOf(v).value] else [];
    match v
    case Arr(items) =>
      IdsInRewritten(items, was, id);
      RenamedConcat(own, IdsIn(items), was, id);
    case Obj(fields) =>
      IdsOfFieldsRewritten(fields, was, id);
      RenamedConcat(own, IdsOfFields(fields), was, id);
    case _ =>
  }

  lemma {:induction false} IdsInRewritten(items: seq<Json>, was: string, id: string)
    ensures IdsIn(RewriteItems(items, was, id)) == RenamedAll(IdsIn(items), was, id)
    decreases items, 1
  {
    if items != [] {
      IdsRewritten(items[0], was, id);
      IdsInRewritten(items[1..], was, id);
      RenamedConcat(Ids(items[0]), IdsIn(items[1..]), was, id);
    }
  }

  lemma {:induction false} IdsOfFieldsRewritten(fields: seq<Field>, was: string, id: string)
    ensures IdsOfFields(RewriteFields(fields, was, id)) == RenamedAll(IdsOfFields(fields), was, id)
    decreases fields, 1
  {
    if fields != [] {
      IdsRewritten(fields[0].value, was, id);
      IdsOfFieldsRewritten(fields[1..], was, id);
      RenamedConcat(Ids(fields[0].value), IdsOfFields(fields[1..]), was, id);
    }
  }

  /** Distinct ids stay distinct under a fresh name. */
  lemma RenamingKeepsDistinct(ids: seq<string>, was: string, id: string)
    requires id !in ids
    ensures Distinct(ids) <==> Distinct(RenamedAll(ids, was, id))
    ensures was != id ==> was !in RenamedAll(ids, was, id)
    ensures id in RenamedAll(ids, was, id) <==> was in ids
  {
  }

  // ---- lookups -----------------------------------------------------------------------

  ghost predicate Below(cs: seq<Json>, top: Json)
  {
    forall i :: 0 <= i < |cs| ==> cs[i] < top
  }

  /** The list under a key; anything but a list is an empty one. */
  function Listed(j: Json, key: string): (r: seq<Json>)
    ensures Below(r, j)
  {
    match Get(j, key)
    case Some(Arr(items)) =>
      assert forall i :: 0 <= i < |items| ==> items[i] < Arr(items);
      items
    case _ => []
  }

  /** A team and the teams below it, each before its own. */
  function Teams(v: Json): seq<Json>
    decreases v
  {
    if v.Obj? then [v] + TeamsIn(Listed(v, "teams"), v) else []
  }

  function TeamsIn(ts: seq<Json>, ghost top: Json): seq<Json>
    requires Below(ts, top)
    decreases top, |ts|
  {
    if ts == [] then [] else Teams(ts[0]) + TeamsIn(ts[1..], top)
  }

  /** Everything listed under a key of each of some components, in order. */
  function Under(cs: seq<Json>, key: string): seq<Json>
  {
    if cs == [] then [] else Listed(cs[0], key) + Under(cs[1..], key)
  }

  function Find(cs: seq<Json>, id: string): (r: Option<Json>)
    ensures r.Some? ==> r.value in cs && IdOf(r.value) == Some(id)
    ensures r.None? ==> forall c :: c in cs ==> IdOf(c) != Some(id)
  {
    if cs == [] then None else if IdOf(cs[0]) == Some(id) then Some(cs[0]) else Find(cs[1..], id)
  }

  function Part(j: Json, key: string): Json
  {
    match Get(j, key) case Some(v) => v case None => Null
  }

  function Organization(spec: Json): Json
  {
    Part(spec, "organization")
  }

  /** The kinds a component is looked up by; most are lists of the organisation's. */
  datatype Kind = Team | Agent | Subagent | MemoryNamespace | Evaluation | Collected(collection: string)

  /** Where a component of a kind is looked for. */
  function Candidates(spec: Json, kind: Kind): seq<Json>
  {
    var teams := Teams(Organization(spec));
    match kind
    case Team => teams
    case Agent => Under(teams, "members")
    case Subagent => Under(Under(teams, "members"), "subagents")
    case MemoryNamespace => Listed(Part(Organization(spec), "memory"), "namespaces")
    case Evaluation => Listed(Part(spec, "lifecycle"), "evaluations")
    case Collected(collection) => Listed(Organization(spec), collection)
  }

  function FindComponent(spec: Json, kind: Kind, id: string): Option<Json>
  {
    Find(Candidates(spec, kind), id)
  }

  /** A step is looked for in the workflow the open diagram's root names. */
  function FindStep(spec: Json, root: string, id: string): Option<Json>
  {
    StepOf(Find(Listed(Organization(spec), "workflows"), root), id)
  }

  function StepOf(workflow: Option<Json>, id: string): Option<Json>
  {
    match workflow
    case None => None
    case Some(w) =>
      match Get(w, "graph")
      case None => None
      case Some(graph) => Find(Listed(graph, "nodes"), id)
  }

  function RewriteAll(cs: seq<Json>, was: string, id: string): (r: seq<Json>)
    ensures |r| == |cs| && forall i :: 0 <= i < |cs| ==> r[i] == RewriteValue(cs[i], was, id)
  {
    seq(|cs|, i requires 0 <= i < |cs| => RewriteValue(cs[i], was, id))
  }

  function RewriteFound(r: Option<Json>, was: string, id: string): Option<Json>
  {
    match r case None => None case Some(v) => Some(RewriteValue(v, was, id))
  }

  lemma ListedRewritten(j: Json, key: string, was: string, id: string)
    ensures Listed(RewriteValue(j, was, id), key) == RewriteAll(Listed(j, key), was, id)
  {
    GetRewritten(j, key, was, id);
  }

  lemma RewriteAllConcat(a: seq<Json>, b: seq<Json>, was: string, id: string)
    ensures RewriteAll(a + b, was, id) == RewriteAll(a, was, id) + RewriteAll(b, was, id)
  {
  }

  lemma {:induction false} TeamsRewritten(v: Json, was: string, id: string)
    ensures Teams(RewriteValue(v, was, id)) == RewriteAll(Teams(v), was, id)
    decreases v
  {
    if v.Obj? {
      ListedRewritten(v, "teams", was, id);
      var ts := Listed(v, "teams");
      TeamsInRewritten(ts, v, RewriteValue(v, was, id), was, id);
      RewriteAllConcat([v], TeamsIn(ts, v), was, id);
      assert RewriteAll([v], was, id) == [RewriteValue(v, was, id)];
    }
  }

  lemma {:induction false} TeamsInRewritten(ts: seq<Json>, top: Json, top': Json, was: string, id: string)
    requires Below(ts, top)
    requires Below(RewriteAll(ts, was, id), top')
    ensures TeamsIn(RewriteAll(ts, was, id), top') == RewriteAll(TeamsIn(ts, top), was, id)
    decreases top, |ts|
  {
    if ts != [] {
      var r := RewriteAll(ts, was, id);
      assert r[1..] == RewriteAll(ts[1..], was, id);
      TeamsRewritten(ts[0], was, id);
      TeamsInRewritten(ts[1..], top, top', was, id);
      RewriteAllConcat(Teams(ts[0]), TeamsIn(ts[1..], top), was, id);
    }
  }

  lemma {:induction false} UnderRewritten(cs: seq<Json>, key: string, was: string, id: string)
    ensures Under(RewriteAll(cs, was, id), key) == RewriteAll(Under(cs, key), was, id)
  {
    if cs != [] {
      ListedRewritten(cs[0], key, was, id);
      UnderRewritten(cs[1..], key, was, id);
      assert RewriteAll(cs, was, id)[1..] == RewriteAll(cs[1..], was, id);
      RewriteAllConcat(Listed(cs[0], key), Under(cs[1..], key), was, id);
    }
  }

  lemma PartRewritten(j: Json, key: string, was: string, id: string)
    ensures Part(RewriteValue(j, was, id), key) == RewriteValue(Part(j, key), was, id)
  {
    GetRewritten(j, key, was, id);
  }

  lemma OrganizationRewritten(spec: Json, was: string, id: string)
    requires spec.Obj?
    ensures Organization(Rewrite(spec, was, id)) == RewriteValue(Organization(spec), was, id)
  {
    PartRewritten(spec, "organization", was, id);
  }

  lemma CandidatesRewritten(spec: Json, kind: Kind, was: string, id: string)
    requires spec.Obj?
    ensures Candidates(Rewrite(spec, was, id), kind) == RewriteAll(Candidates(spec, kind), was, id)
  {
    RewriteIsValue(spec, was, id);
    hide Organization, Part, Teams, Under, Listed, RewriteAll, RewriteValue, Rewrite;
    var org := Organization(spec);
    OrganizationRewritten(spec, was, id);
    match kind
    case MemoryNamespace =>
      PartRewritten(org, "memory", was, id);
      ListedRewritten(Part(org, "memory"), "namespaces", was, id);
    case Evaluation =>
      PartRewritten(spec, "lifecycle", was, id);
      ListedRewritten(Part(spec, "lifecycle"), "evaluations", was, id);
    case Collected(collection) =>
      ListedRewritten(org, collection, was, id);
    case _ =>
      TeamsRewritten(org, was, id);
      UnderRewritten(Teams(org), "members", was, id);
      UnderRewritten(Under(Teams(org), "members"), "subagents", was, id);
  }

  /** No component in the list has the id. */
  ghost predicate Free(cs: seq<Json>, id: string)
  {
    forall c :: c in cs ==> IdOf(c) != Some(id)
  }

  lemma {:induction false} FindRewritten(cs: seq<Json>, was: string, id: string, x: string)
    requires Free(cs, id) && was != id && x != id
    ensures Find(RewriteAll(cs, was, id), Renamed(x, was, id)) == RewriteFound(Find(cs, x), was, id)
    ensures Find(RewriteAll(cs, was, id), was) == None
  {
    if cs != [] {
      assert cs[0] in cs;
      IdOfRewritten(cs[0], was, id);
      assert RewriteAll(cs, was, id)[1..] == RewriteAll(cs[1..], was, id);
      FindRewritten(cs[1..], was, id, x);
    }
  }

  // ---- a candidate's id is a declared one -------------------------------------------------

  /** Inside a document, at any depth, or the document itself. */
  ghost predicate Inside(v: Json, j: Json)
  {
    exists path :: At(j, path) == Some(v)
  }

  lemma {:induction false} InsideDeclared(v: Json, j: Json, path: seq<nat>)
    requires At(j, path) == Some(v) && IdOf(v).Some?
    ensures IdOf(v).value in Ids(j)
    decreases |path|
  {
    if path != [] {
      var c := Children(j)[path[0]];
      InsideDeclared(v, c, path[1..]);
      match j
      case Arr(items) => ItemDeclared(items, path[0], IdOf(v).value);
      case Obj(fields) => FieldDeclared(fields, path[0], IdOf(v).value);
    }
  }

  lemma {:induction false} ItemDeclared(items: seq<Json>, i: nat, id: string)
    requires i < |items| && id in Ids(items[i])
    ensures id in IdsIn(items)
  {
    hide Ids;
    if i > 0 {
      assert items[1..][i - 1] == items[i];
      ItemDeclared(items[1..], i - 1, id);
    }
  }

  lemma {:induction false} FieldDeclared(fields: seq<Field>, i: nat, id: string)
    requires i < |fields| && id in Ids(fields[i].value)
    ensures id in IdsOfFields(fields)
  {
    hide Ids;
    if i > 0 {
      assert fields[1..][i - 1] == fields[i];
      FieldDeclared(fields[1..], i - 1, id);
    }
  }

  lemma {:induction false} AtThen(j: Json, p: seq<nat>, q: seq<nat>)
    requires At(j, p).Some?
    ensures At(j, p + q) == At(At(j, p).value, q)
    decreases |p|
  {
    if p == [] {
      assert p + q == q;
    } else {
      assert (p + q)[0] == p[0] && (p + q)[1..] == p[1..] + q;
      AtThen(Children(j)[p[0]], p[1..], q);
    }
  }

  lemma InsideChild(c: Json, v: Json, j: Json)
    requires Inside(v, j) && c in Children(v)
    ensures Inside(c, j)
  {
    var p :| At(j, p) == Some(v);
    var i: nat :| i < |Children(v)| && Children(v)[i] == c;
    AtThen(j, p, [i]);
    assert [i][1..] == [];
    assert At(v, [i]) == Some(c);
  }

  ghost predicate AllInside(cs: seq<Json>, j: Json)
  {
    forall c :: c in cs ==> Inside(c, j)
  }

  lemma ListedInside(v: Json, key: string, j: Json)
    requires Inside(v, j)
    ensures AllInside(Listed(v, key), j)
  {
    if Get(v, key).Some? && Get(v, key).value.Arr? {
      var list := Get(v, key).value;
      InsideChild(list, v, j);
      forall x | x in Listed(v, key) ensures Inside(x, j) { InsideChild(x, list, j); }
    }
  }

  lemma {:induction false} TeamsInside(v: Json, j: Json)
    requires Inside(v, j)
    ensures AllInside(Teams(v), j)
    decreases v
  {
    if v.Obj? {
      ListedInside(v, "teams", j);
      TeamsInInside(Listed(v, "teams"), v, j);
    }
  }

  lemma {:induction false} TeamsInInside(ts: seq<Json>, top: Json, j: Json)
    requires Below(ts, top) && AllInside(ts, j)
    ensures AllInside(TeamsIn(ts, top), j)
    decreases top, |ts|
  {
    if ts != [] {
      TeamsInside(ts[0], j);
      TeamsInInside(ts[1..], top, j);
    }
  }

  lemma {:induction false} UnderInside(cs: seq<Json>, key: string, j: Json)
    requires AllInside(cs, j)
    ensures AllInside(Under(cs, key), j)
  {
    if cs != [] {
      ListedInside(cs[0], key, j);
      UnderInside(cs[1..], key, j);
    }
  }

  /** What is listed in a part of something inside is inside. */
  lemma PartListedInside(v: Json, part: string, key: string, j: Json)
    requires Inside(v, j)
    ensures AllInside(Listed(Part(v, part), key), j)
  {
    if Get(v, part).Some? {
      InsideChild(Part(v, part), v, j);
      ListedInside(Part(v, part), key, j);
    }
  }

  lemma CandidatesInside(spec: Json, kind: Kind)
    ensures AllInside(Candidates(spec, kind), spec)
  {
    assert At(spec, []) == Some(spec);
    var org := Organization(spec);
    if kind.Evaluation? {
      PartListedInside(spec, "lifecycle", "evaluations", spec);
    } else if Get(spec, "organization").Some? {
      InsideChild(org, spec, spec);
      match kind
      case MemoryNamespace => PartListedInside(org, "memory", "namespaces", spec);
      case Collected(collection) => ListedInside(org, collection, spec);
      case _ =>
        TeamsInside(org, spec);
        UnderInside(Teams(org), "members", spec);
        UnderInside(Under(Teams(org), "members"), "subagents", spec);
    }
  }

  lemma InsideIsFree(cs: seq<Json>, spec: Json, id: string)
    requires AllInside(cs, spec) && id !in Ids(spec)
    ensures Free(cs, id)
  {
    forall c | c in cs ensures IdOf(c) != Some(id) {
      if IdOf(c).Some? {
        var p :| At(spec, p) == Some(c);
        InsideDeclared(c, spec, p);
      }
    }
  }

  /** Lookup commutes with renaming to a fresh id: asking for the renamed id finds the
      rewritten component that the id found before, in every kind's place in the document;
      the old id finds nothing. */
  lemma FindCommutes(spec: Json, kind: Kind, was: string, id: string, x: string)
    requires spec.Obj? && id !in Ids(spec) && was != id && x != id
    ensures FindComponent(Rewrite(spec, was, id), kind, Renamed(x, was, id))
            == RewriteFound(FindComponent(spec, kind, x), was, id)
    ensures FindComponent(Rewrite(spec, was, id), kind, was) == None
  {
    CandidatesRewritten(spec, kind, was, id);
    CandidatesInside(spec, kind);
    InsideIsFree(Candidates(spec, kind), spec, id);
    FindRewritten(Candidates(spec, kind), was, id, x);
  }

  lemma StepListInside(spec: Json, root: string, graph: Json)
    requires var w := Find(Listed(Organization(spec), "workflows"), root);
             w.Some? && Get(w.value, "graph") == Some(graph)
    ensures AllInside(Listed(graph, "nodes"), spec)
  {
    hide Find, Listed, Inside, Organization;
    var list := Listed(Organization(spec), "workflows");
    var w := Find(list, root).value;
    FoundIsListed(list, root);
    CandidatesInside(spec, Collected("workflows"));
    InsideChild(graph, w, spec);
    ListedInside(graph, "nodes", spec);
  }

  lemma {:induction false} FoundIsListed(cs: seq<Json>, id: string)
    requires Find(cs, id).Some?
    ensures Find(cs, id).value in cs
  {
    if IdOf(cs[0]) != Some(id) { FoundIsListed(cs[1..], id); }
  }

  lemma WorkflowsRewritten(spec: Json, was: string, id: string)
    requires spec.Obj? && id !in Ids(spec)
    ensures var list := Listed(Organization(spec), "workflows");
            Listed(Organization(Rewrite(spec, was, id)), "workflows") == RewriteAll(list, was, id) && Free(list, id)
  {
    hide Ids, Rewrite, IdOf, Organization;
    CandidatesRewritten(spec, Collected("workflows"), was, id);
    CandidatesInside(spec, Collected("workflows"));
    InsideIsFree(Listed(Organization(spec), "workflows"), spec, id);
  }

  lemma NodesOfWorkflow(spec: Json, was: string, id: string, root: string, x: string, w: Json)
    requires spec.Obj? && id !in Ids(spec) && was != id && x != id
    requires Find(Listed(Organization(spec), "workflows"), root) == Some(w)
    ensures StepOf(Some(RewriteValue(w, was, id)), Renamed(x, was, id)) == RewriteFound(StepOf(Some(w), x), was, id)
  {
    hide Ids, Rewrite, IdOf, Organization;
    GetRewritten(w, "graph", was, id);
    var graph := Get(w, "graph");
    if graph.Some? {
      StepListInside(spec, root, graph.value);
      InsideIsFree(Listed(graph.value, "nodes"), spec, id);
      ListedRewritten(graph.value, "nodes", was, id);
      FindRewritten(Listed(graph.value, "nodes"), was, id, x);
    }
  }

  lemma StepCommutes(spec: Json, was: string, id: string, root: string, x: string)
    requires spec.Obj? && id !in Ids(spec) && was != id && x != id && root != id
    ensures FindStep(Rewrite(spec, was, id), Renamed(root, was, id), Renamed(x, was, id))
            == RewriteFound(FindStep(spec, root, x), was, id)
  {
    hide Ids, Rewrite, IdOf, Organization;
    WorkflowsRewritten(spec, was, id);
    var list := Listed(Organization(spec), "workflows");
    FindRewritten(list, was, id, root);
    if Find(list, root).Some? {
      NodesOfWorkflow(spec, was, id, root, x, Find(list, root).value);
    }
  }

  /** The open diagram keeps naming its workflow by the id it had, so on a process
      diagram a step is still found exactly when it is not that workflow that was
      renamed. */
  lemma StepStillFoundExactly(spec: Json, was: string, id: string, root: string, x: string)
    requires spec.Obj? && id !in Ids(spec) && was != id && x != id && root != id
    ensures FindStep(Rewrite(spec, was, id), root, Renamed(x, was, id))
            == RewriteFound(FindStep(spec, root, x), was, id)
            <==> root != was || FindStep(spec, root, x) == None
  {
    if root == was {
      hide Ids, Rewrite, IdOf, Organization;
      WorkflowsRewritten(spec, was, id);
      FindRewritten(Listed(Organization(spec), "workflows"), was, id, x);
    } else {
      StepCommutes(spec, was, id, root, x);
    }
  }

  // ---- where things are found ----------------------------------------------------------

  /** The team reached by taking the team of each number below in turn. */
  ghost predicate TeamBelow(v: Json, path: seq<nat>, t: Json)
    decreases |path|
  {
    if path == [] then v.Obj? && t == v
    else v.Obj? && path[0] < |Listed(v, "teams")| && TeamBelow(Listed(v, "teams")[path[0]], path[1..], t)
  }

  /** It is the team, or one somewhere below it. */
  ghost predicate IsTeamBelow(v: Json, t: Json)
  {
    exists path :: TeamBelow(v, path, t)
  }

  lemma {:induction false} TeamListed(v: Json, path: seq<nat>, t: Json)
    requires TeamBelow(v, path, t)
    ensures t in Teams(v)
    decreases |path|
  {
    if path != [] {
      var ts := Listed(v, "teams");
      TeamListed(ts[path[0]], path[1..], t);
      TeamListedIn(ts, v, path[0], t);
    }
  }

  lemma {:induction false} TeamListedIn(ts: seq<Json>, top: Json, i: nat, t: Json)
    requires Below(ts, top) && i < |ts| && t in Teams(ts[i])
    ensures t in TeamsIn(ts, top)
    decreases |ts|
  {
    hide Teams;
    if i > 0 { TeamListedIn(ts[1..], top, i - 1, t); }
  }

  lemma {:induction false} TeamPlace(v: Json, t: Json) returns (path: seq<nat>)
    requires t in Teams(v)
    ensures TeamBelow(v, path, t)
    decreases v
  {
    hide TeamBelow, TeamsIn, Listed;
    TeamHere(v, t);
    if t == v {
      path := [];
    } else {
      var ts := Listed(v, "teams");
      var i: nat;
      i, path := TeamPlaceIn(ts, v, t);
      TeamFurtherBelow(v, i, path, t);
      path := [i] + path;
    }
  }

  lemma {:induction false} TeamPlaceIn(ts: seq<Json>, top: Json, t: Json) returns (i: nat, path: seq<nat>)
    requires Below(ts, top) && t in TeamsIn(ts, top)
    ensures i < |ts| && TeamBelow(ts[i], path, t)
    decreases top, |ts|
  {
    hide Teams, TeamBelow;
    if t in Teams(ts[0]) {
      path := TeamPlace(ts[0], t);
      i := 0;
    } else {
      i, path := TeamPlaceIn(ts[1..], top, t);
      i := i + 1;
    }
  }

  /** The teams are those below the organisation, itself included. */
  lemma TeamsMean(v: Json, t: Json)
    ensures t in Teams(v) <==> IsTeamBelow(v, t)
  {
    hide Teams, TeamBelow;
    if t in Teams(v) { var path := TeamPlace(v, t); }
    if path :| TeamBelow(v, path, t) { TeamListed(v, path, t); }
  }

  lemma TeamHere(v: Json, t: Json)
    ensures TeamBelow(v, [], t) <==> v.Obj? && t == v
    ensures forall path :: TeamBelow(v, path, t) ==> v.Obj?
  {
  }

  lemma TeamFurtherBelow(v: Json, i: nat, path: seq<nat>, t: Json)
    requires v.Obj?
    ensures TeamBelow(v, [i] + path, t) <==> i < |Listed(v, "teams")| && TeamBelow(Listed(v, "teams")[i], path, t)
  {
    assert ([i] + path)[1..] == path;
  }

  lemma {:induction false} UnderMeans(cs: seq<Json>, key: string, x: Json)
    ensures x in Under(cs, key) <==> exists c :: c in cs && x in Listed(c, key)
  {
    if cs != [] {
      UnderMeans(cs[1..], key, x);
      assert cs == [cs[0]] + cs[1..];
    }
  }

  /** It is in the list that stands under the key. */
  ghost predicate StandsUnder(holder: Json, key: string, x: Json)
  {
    exists items :: Get(holder, key) == Some(Arr(items)) && x in items
  }

  lemma ListedMeans(holder: Json, key: string, x: Json)
    ensures x in Listed(holder, key) <==> StandsUnder(holder, key, x)
  {
  }

  ghost predicate StandsAsAgent(spec: Json, x: Json)
  {
    exists t :: IsTeamBelow(Organization(spec), t) && StandsUnder(t, "members", x)
  }

  /** Where a component of each kind stands in the document. */
  ghost predicate StandsAs(spec: Json, kind: Kind, x: Json)
  {
    var org := Organization(spec);
    match kind
    case Team => IsTeamBelow(org, x)
    case Agent => StandsAsAgent(spec, x)
    case Subagent => exists a :: StandsAsAgent(spec, a) && StandsUnder(a, "subagents", x)
    case MemoryNamespace => StandsUnder(Part(org, "memory"), "namespaces", x)
    case Evaluation => StandsUnder(Part(spec, "lifecycle"), "evaluations", x)
    case Collected(collection) => StandsUnder(org, collection, x)
  }

  lemma AgentsStand(spec: Json, x: Json)
    ensures x in Under(Teams(Organization(spec)), "members") <==> StandsAsAgent(spec, x)
  {
    hide Teams, Under, StandsUnder, Listed;
    var teams := Teams(Organization(spec));
    UnderMeans(teams, "members", x);
    forall t ensures t in teams <==> IsTeamBelow(Organization(spec), t) {
      TeamsMean(Organization(spec), t);
    }
    forall t ensures x in Listed(t, "members") <==> StandsUnder(t, "members", x) { ListedMeans(t, "members", x); }
  }

  lemma SubagentsStand(spec: Json, x: Json)
    ensures x in Under(Under(Teams(Organization(spec)), "members"), "subagents") <==> StandsAs(spec, Subagent, x)
  {
    hide Teams, Under, StandsUnder, Listed;
    var agents := Under(Teams(Organization(spec)), "members");
    UnderMeans(agents, "subagents", x);
    forall a ensures a in agents <==> StandsAsAgent(spec, a) { AgentsStand(spec, a); }
    forall a ensures x in Listed(a, "subagents") <==> StandsUnder(a, "subagents", x) { ListedMeans(a, "subagents", x); }
  }

  lemma CandidatesStand(spec: Json, kind: Kind, x: Json)
    ensures x in Candidates(spec, kind) <==> StandsAs(spec, kind, x)
  {
    hide Teams, Under, Listed, Organization, Part;
    var org := Organization(spec);
    match kind
    case Team => TeamsMean(org, x);
    case Agent => AgentsStand(spec, x);
    case Subagent => SubagentsStand(spec, x);
    case MemoryNamespace => ListedMeans(Part(org, "memory"), "namespaces", x);
    case Evaluation => ListedMeans(Part(spec, "lifecycle"), "evaluations", x);
    case Collected(collection) => ListedMeans(org, collection, x);
  }

  /** A lookup finds a component of the kind and id that stands in its place, if there is
      one. */
  lemma FoundExactly(spec: Json, kind: Kind, id: string)
    ensures FindComponent(spec, kind, id).Some? <==> exists x :: StandsAs(spec, kind, x) && IdOf(x) == Some(id)
    ensures FindComponent(spec, kind, id).Some? ==>
              StandsAs(spec, kind, FindComponent(spec, kind, id).value)
              && IdOf(FindComponent(spec, kind, id).value) == Some(id)
  {
    hide Candidates, StandsAs, Find, IdOf;
    FindMeans(Candidates(spec, kind), id);
    forall x ensures x in Candidates(spec, kind) <==> StandsAs(spec, kind, x) { CandidatesStand(spec, kind, x); }
  }

  lemma FindMeans(cs: seq<Json>, id: string)
    ensures Find(cs, id).Some? <==> exists c :: c in cs && IdOf(c) == Some(id)
    ensures Find(cs, id).Some? ==> Find(cs, id).value in cs && IdOf(Find(cs, id).value) == Some(id)
  {
  }

  /** A step is found among the nodes of a workflow of the root's id. */
  lemma StepFoundMeans(spec: Json, root: string, id: string)
    ensures FindStep(spec, root, id).Some? ==>
              exists w, graph :: StandsUnder(Organization(spec), "workflows", w) && IdOf(w) == Some(root)
                && Get(w, "graph") == Some(graph) && StandsUnder(graph, "nodes", FindStep(spec, root, id).value)
                && IdOf(FindStep(spec, root, id).value) == Some(id)
  {
    hide Organization;
    var list := Listed(Organization(spec), "workflows");
    var w := Find(list, root);
    if w.Some? {
      ListedMeans(Organization(spec), "workflows", w.value);
      var graph := Get(w.value, "graph");
      if graph.Some? && Find(Listed(graph.value, "nodes"), id).Some? {
        ListedMeans(graph.value, "nodes", Find(Listed(graph.value, "nodes"), id).value);
      }
    }
  }

  // ---- which ids are declared ------------------------------------------------------------

  /** The text stands under `id` of an object somewhere in the value, itself included. */
  ghost predicate DeclaredAt(j: Json, path: seq<nat>, id: string)
  {
    At(j, path).Some? && Get(At(j, path).value, "id") == Some(Str(id))
  }

  /** The declared ids are the texts that stand so. */
  lemma IdsMean(j: Json, id: string)
    ensures id in Ids(j) <==> exists path :: DeclaredAt(j, path, id)
  {
    hide Ids;
    if path :| DeclaredAt(j, path, id) {
      InsideDeclared(At(j, path).value, j, path);
    }
    if id in Ids(j) {
      var path := IdPlace(j, id);
      assert DeclaredAt(j, path, id);
    }
  }

  lemma {:induction false} IdPlace(j: Json, id: string) returns (path: seq<nat>)
    requires id in Ids(j)
    ensures DeclaredAt(j, path, id)
    decreases j, 0
  {
    hide DeclaredAt, IdOf;
    DeclaredHere(j, id);
    if IdOf(j) == Some(id) {
      path := [];
    } else {
      var i: nat;
      match j {
        case Arr(items) => i, path := ItemPlace(items, id);
        case Obj(fields) => i, path := FieldPlace(fields, id);
      }
      DeclaredBelow(j, i, path, id);
      path := [i] + path;
    }
  }

  lemma DeclaredHere(j: Json, id: string)
    ensures DeclaredAt(j, [], id) <==> IdOf(j) == Some(id)
  {
  }

  lemma DeclaredBelow(j: Json, i: nat, path: seq<nat>, id: string)
    requires i < |Children(j)| && DeclaredAt(Children(j)[i], path, id)
    ensures DeclaredAt(j, [i] + path, id)
  {
    assert ([i] + path)[1..] == path;
  }

  lemma {:induction false} ItemPlace(items: seq<Json>, id: string) returns (i: nat, path: seq<nat>)
    requires id in IdsIn(items)
    ensures i < |items| && DeclaredAt(items[i], path, id)
    decreases items, 1
  {
    hide DeclaredAt, Ids;
    if id in Ids(items[0]) {
      path := IdPlace(items[0], id);
      i := 0;
    } else {
      i, path := ItemPlace(items[1..], id);
      i := i + 1;
    }
  }

  lemma {:induction false} FieldPlace(fields: seq<Field>, id: string) returns (i: nat, path: seq<nat>)
    requires id in IdsOfFields(fields)
    ensures i < |fields| && DeclaredAt(fields[i].value, path, id)
    decreases fields, 1
  {
    hide DeclaredAt, Ids;
    if id in Ids(fields[0].value) {
      path := IdPlace(fields[0].value, id);
      i := 0;
    } else {
      i, path := FieldPlace(fields[1..], id);
      i := i + 1;
    }
  }

  // ---- the operation -----------------------------------------------------------------

  predicate Letter(c: char)
  {
    'A' <= c <= 'Z' || 'a' <= c <= 'z' || c == '_'
  }

  /** A letter or underscore, then letters, digits, underscores, dots and hyphens. */
  predicate Usable(id: string)
  {
    id != "" && Letter(id[0])
    && forall i :: 1 <= i < |id| ==> Letter(id[i]) || '0' <= id[i] <= '9' || id[i] == '.' || id[i] == '-'
  }

  /** What is refused: nothing, a first character that is no letter and no underscore, or
      one further on that is neither and no digit, dot or hyphen. */
  lemma UnusableExactly(id: string)
    ensures !Usable(id) <==>
              || id == ""
              || !('A' <= id[0] <= 'Z' || 'a' <= id[0] <= 'z' || id[0] == '_')
              || exists i :: 1 <= i < |id| && id[i] != '_' && id[i] != '.' && id[i] != '-'
                             && !('A' <= id[i] <= 'Z') && !('a' <= id[i] <= 'z') && !('0' <= id[i] <= '9')
  {
  }

  function SetField(fields: seq<Field>, key: string, v: Json): seq<Field>
  {
    if fields == [] then [Field(key, v)]
    else if fields[0].key == key then [Field(key, v)] + fields[1..]
    else [fields[0]] + SetField(fields[1..], key, v)
  }

  function WithId(node: Json, id: string): Json
  {
    Obj(SetField(if node.Obj? then node.fields else [], "id", Str(id)))
  }

  lemma {:induction false} SetFieldGets(fields: seq<Field>, key: string, v: Json)
    ensures GetField(SetField(fields, key, v), key) == Some(v)
  {
    if fields != [] && fields[0].key != key {
      SetFieldGets(fields[1..], key, v);
      assert SetField(fields, key, v)[1..] == SetField(fields[1..], key, v);
    }
  }

  lemma {:induction false} SetFieldElsewhere(fields: seq<Field>, key: string, v: Json, other: string)
    requires other != key
    ensures GetField(SetField(fields, key, v), other) == GetField(fields, other)
  {
    if fields != [] && fields[0].key != key {
      SetFieldElsewhere(fields[1..], key, v, other);
      assert SetField(fields, key, v)[1..] == SetField(fields[1..], key, v);
    }
  }

  /** The node with the new id; its place, size, note and whatever else it holds stay. */
  lemma WithIdKeepsTheRest(node: Json, id: string, key: string)
    requires key != "id"
    ensures Get(WithId(node, id), "id") == Some(Str(id)) && Get(WithId(node, id), key) == Get(node, key)
  {
    var fields := if node.Obj? then node.fields else [];
    SetFieldGets(fields, "id", Str(id));
    SetFieldElsewhere(fields, "id", Str(id), key);
  }

  function RenamedNodes(nodes: map<string, Json>, was: string, id: string): map<string, Json>
  {
    if was in nodes then (nodes - {was})[id := WithId(nodes[was], id)] else nodes
  }

  /** The open diagram keeps as many nodes; the renamed one carries its new id, and the
      others are as they were. */
  lemma NodesRenamed(nodes: map<string, Json>, was: string, id: string)
    requires id !in nodes && was != id
    ensures var r := RenamedNodes(nodes, was, id);
            && |r| == |nodes|
            && r.Keys == nodes.Keys - {was} + (if was in nodes then {id} else {})
            && (was in nodes ==> IdOf(r[id]) == Some(id)
                                 && forall key :: key != "id" ==> Get(r[id], key) == Get(nodes[was], key))
            && (forall k :: k in nodes && k != was ==> r[k] == nodes[k])
  {
    var r := RenamedNodes(nodes, was, id);
    if was in nodes {
      assert r.Keys == (nodes.Keys - {was}) + {id};
      assert |r.Keys| == |nodes.Keys|;
      forall key | key != "id" ensures Get(r[id], key) == Get(nodes[was], key) {
        WithIdKeepsTheRest(nodes[was], id, key);
      }
      WithIdKeepsTheRest(nodes[was], id, "kind");
    }
  }

  function Declared(spec: Json, nodes: map<string, Json>): set<string>
  {
    nodes.Keys + Elements(Ids(spec))
  }

  datatype Outcome = Empty | Same | Unusable | Taken | Done

  datatype Selection = Selection(kind: string, id: string)

  class Designer {
    var spec: Json
    var nodes: map<string, Json>
    var selected: Option<Selection>

    constructor (spec: Json, nodes: map<string, Json>)
      ensures this.spec == spec && this.nodes == nodes && selected == None
    {
      this.spec, this.nodes, selected := spec, nodes, None;
    }

    /** Refused, with nothing changed, unless the trimmed id is usable and free. */
    method RenameComponent(kind: string, oldId: string, newId: string) returns (r: Outcome)
      modifies this
      ensures var id := Text.Trim(newId);
              r == if id == "" then Empty else if id == oldId then Same else if !Usable(id) then Unusable
                   else if id in Declared(old(spec), old(nodes)) then Taken else Done
      ensures r != Done ==> unchanged(this)
      ensures r == Done ==>
                var id := Text.Trim(newId);
                && spec == Rewrite(old(spec), oldId, id)
                && nodes == RenamedNodes(old(nodes), oldId, id)
                && selected == if old(selected).Some? && old(selected).value.id == oldId
                               then Some(Selection(kind, id)) else old(selected)
    {
      hide Text.Trim, Rewrite, Ids, Usable, WithId;
      var id := Text.Trim(newId);
      if id == "" {
        return Empty;
      }
      if id == oldId {
        return Same;
      }
      if !Usable(id) {
        return Unusable;
      }
      if id in Declared(spec, nodes) {
        return Taken;
      }
      spec := Rewrite(spec, oldId, id);
      if oldId in nodes {
        var node := nodes[oldId];
        assert nodes[id := WithId(node, id)] - {oldId} == RenamedNodes(nodes, oldId, id);
        nodes := nodes[id := WithId(node, id)];
        nodes := nodes - {oldId};
      }
      if selected.Some? && selected.value.id == oldId {
        selected := Some(Selection(kind, id));
      }
      return Done;
    }
  }

  // ---- a rename that loses the steps -----------------------------------------------------

  const FIRST_STEP := Obj([Field("id", Str("first"))])

  const FLOW := Obj([Field("id", Str("flow")), Field("graph", Obj([Field("nodes", Arr([FIRST_STEP]))]))])

  const ONE_FLOW := Obj([Field("organization", Obj([Field("workflows", Arr([FLOW]))]))])

  lemma OneFlowParts()
    ensures Listed(Organization(ONE_FLOW), "workflows") == [FLOW] && Find([FLOW], "flow") == Some(FLOW)
    ensures StepOf(Some(FLOW), "first") == Some(FIRST_STEP)
  {
    assert IdOf(FLOW) == Some("flow") && IdOf(FIRST_STEP) == Some("first");
    assert GetField(FLOW.fields[1..], "graph").Some?;
  }

  lemma IdsOfPart(key: string, v: Json)
    requires key != "id"
    ensures Ids(Obj([Field(key, v)])) == Ids(v)
  {
    assert GetField([Field(key, v)], "id") == None;
    assert IdsOfFields([Field(key, v)]) == Ids(v) + IdsOfFields([]);
  }

  lemma IdsOfList(v: Json)
    ensures Ids(Arr([v])) == Ids(v)
  {
    assert IdsIn([v]) == Ids(v) + IdsIn([]);
  }

  lemma IdsOfNamed(id: string, rest: seq<Field>)
    ensures Ids(Obj([Field("id", Str(id))] + rest)) == [id] + IdsOfFields(rest)
  {
    hide GetField, IdOf;
    var fields := [Field("id", Str(id))] + rest;
    assert fields[1..] == rest;
    IdOfNamed(id, rest);
    TextDeclaresNothing(id);
    assert IdsOfFields(fields) == Ids(Str(id)) + IdsOfFields(rest);
  }

  lemma IdOfNamed(id: string, rest: seq<Field>)
    ensures IdOf(Obj([Field("id", Str(id))] + rest)) == Some(id)
  {
  }

  lemma TextDeclaresNothing(s: string)
    ensures Ids(Str(s)) == []
  {
  }

  lemma OneFlowDeclares()
    ensures Ids(ONE_FLOW) == ["flow", "first"]
  {
    hide Ids, IdsIn, IdsOfFields;
    var nodes := Obj([Field("nodes", Arr([FIRST_STEP]))]);
    StepDeclares();
    IdsOfList(FIRST_STEP);
    IdsOfPart("nodes", Arr([FIRST_STEP]));
    FlowDeclares(nodes);
    IdsOfList(FLOW);
    IdsOfPart("workflows", Arr([FLOW]));
    IdsOfPart("organization", Obj([Field("workflows", Arr([FLOW]))]));
  }

  lemma StepDeclares()
    ensures Ids(FIRST_STEP) == ["first"]
  {
    IdsOfNamed("first", []);
    assert [Field("id", Str("first"))] + [] == [Field("id", Str("first"))];
  }

  lemma FlowDeclares(graph: Json)
    ensures Ids(Obj([Field("id", Str("flow")), Field("graph", graph)])) == ["flow"] + Ids(graph)
  {
    IdsOfNamed("flow", [Field("graph", graph)]);
    assert IdsOfFields([Field("graph", graph)]) == Ids(graph) + IdsOfFields([]);
  }

  /** The open process canvas draws `flow`, which has a step; the rename goes through, and
      the canvas finds no step any more. */
  lemma RenamedFlowLosesItsStep()
    ensures Usable("flow2") && "flow2" !in Declared(ONE_FLOW, map[])
    ensures FindStep(ONE_FLOW, "flow", "first") == Some(FIRST_STEP)
    ensures FindStep(Rewrite(ONE_FLOW, "flow", "flow2"), "flow", "first") == None
  {
    hide Ids, Rewrite, Usable;
    OneFlowDeclares();
    OneFlowParts();
    UsableName();
    WorkflowsRewritten(ONE_FLOW, "flow", "flow2");
    FindRewritten([FLOW], "flow", "flow2", "flow");
  }

  lemma UsableName()
    ensures Usable("flow2")
  {
  }

  function InPlaceOf(s: set<string>, was: string, id: string): set<string>
  {
    if was in s then s - {was} + {id} else s
  }

  lemma UnionInPlace(a: set<string>, b: set<string>, was: string, id: string)
    requires id !in a + b && was != id
    ensures InPlaceOf(a, was, id) + InPlaceOf(b, was, id) == InPlaceOf(a + b, was, id)
  {
  }

  lemma SpecDeclares(spec: Json, was: string, id: string)
    requires spec.Obj? && was != id && id !in Ids(spec)
    ensures Elements(Ids(Rewrite(spec, was, id))) == InPlaceOf(Elements(Ids(spec)), was, id)
    ensures Distinct(Ids(spec)) <==> Distinct(Ids(Rewrite(spec, was, id)))
  {
    hide Ids, Rewrite, Distinct;
    RewriteIsValue(spec, was, id);
    IdsRewritten(spec, was, id);
    RenamingKeepsDistinct(Ids(spec), was, id);
    RenamedSet(Ids(spec), was, id);
  }

  /** After a rename that went through, the declared ids are those before with the new
      one in the old one's place; distinct ids are still distinct. */
  lemma RenameDeclares(spec: Json, nodes: map<string, Json>, was: string, id: string)
    requires spec.Obj? && was != id && id !in Declared(spec, nodes)
    ensures Declared(Rewrite(spec, was, id), RenamedNodes(nodes, was, id)) == InPlaceOf(Declared(spec, nodes), was, id)
    ensures Distinct(Ids(spec)) <==> Distinct(Ids(Rewrite(spec, was, id)))
  {
    hide Ids, Rewrite, RenamedNodes, Distinct, InPlaceOf, Elements;
    SpecDeclares(spec, was, id);
    KeysInPlace(nodes, was, id);
    UnionInPlace(nodes.Keys, Elements(Ids(spec)), was, id);
  }

  lemma KeysInPlace(nodes: map<string, Json>, was: string, id: string)
    requires id !in nodes && was != id
    ensures RenamedNodes(nodes, was, id).Keys == InPlaceOf(nodes.Keys, was, id)
  {
    NodesRenamed(nodes, was, id);
  }

  lemma RewriteIsValue(spec: Json, was: string, id: string)
    requires spec.Obj?
    ensures RewriteValue(spec, was, id) == Rewrite(spec, was, id)
  {
  }

  lemma RenamedSet(ids: seq<string>, was: string, id: string)
    requires was != id
    ensures Elements(RenamedAll(ids, was, id)) == InPlaceOf(Elements(ids), was, id)
  {
    var r := RenamedAll(ids, was, id);
    forall s ensures s in r <==> (s in ids && s != was) || (s == id && was in ids) {
      if s in ids && s != was {
        var i :| 0 <= i < |ids| && ids[i] == s;
        assert r[i] == s;
      }
      if was in ids {
        var i :| 0 <= i < |ids| && ids[i] == was;
        assert r[i] == id;
      }
    }
  }
}
