/** Creating components: where the document takes a new one, and which ids are declared
    in it then. */
module Creations {
  import opened Basics
  import opened Documents
  import opened Renaming

  // ---- setting and pushing ---------------------------------------------------------------

  function With(j: Json, key: string, v: Json): (r: Json)
    requires j.Obj?
    ensures r.Obj?
  {
    Obj(SetField(j.fields, key, v))
  }

  /** One object's fields with another's written over them, one by one. */
  function SetAll(fields: seq<Field>, over: seq<Field>): seq<Field>
  {
    if over == [] then fields
    else
      var last := over[|over| - 1];
      SetField(SetAll(fields, over[..|over| - 1]), last.key, last.value)
  }

  /** What a missing value may be: absent, null, false, zero or the empty text. */
  predicate Falsy(j: Json)
  {
    j == Null || j == Bool(false) || j == Num(0) || j == Str("")
  }

  /** A list, or nothing yet. */
  predicate Pushable(j: Json, key: string)
  {
    j.Obj? && (Part(j, key).Arr? || Falsy(Part(j, key)))
  }

  function Push(j: Json, key: string, item: Json): Json
    requires j.Obj?
  {
    With(j, key, Arr(Listed(j, key) + [item]))
  }

  /** Every id declared in the one is declared in the other. */
  ghost predicate Keeps(j: Json, j': Json)
  {
    forall x :: x in Ids(j) ==> x in Ids(j')
  }

  /** What a field held must be kept by what it holds now; the other fields stay. */
  lemma {:induction false} SetFieldDeclares(fields: seq<Field>, key: string, v: Json)
    requires forall x :: x in Ids(Part(Obj(fields), key)) ==> x in Ids(v)
    ensures forall x :: x in IdsOfFields(fields) ==> x in IdsOfFields(SetField(fields, key, v))
    ensures forall x :: x in Ids(v) ==> x in IdsOfFields(SetField(fields, key, v))
  {
    hide Ids;
    var r := SetField(fields, key, v);
    if fields == [] {
      assert r == [Field(key, v)] && r[1..] == [];
    } else if fields[0].key == key {
      assert r[1..] == fields[1..];
    } else {
      assert Part(Obj(fields), key) == Part(Obj(fields[1..]), key);
      SetFieldDeclares(fields[1..], key, v);
      assert r[1..] == SetField(fields[1..], key, v);
    }
  }

  lemma WithKeeps(j: Json, key: string, v: Json)
    requires j.Obj? && key != "id" && Keeps(Part(j, key), v)
    ensures Keeps(j, With(j, key, v)) && Keeps(v, With(j, key, v))
  {
    SetFieldDeclares(j.fields, key, v);
    SetFieldElsewhere(j.fields, key, v, "id");
  }

  lemma {:induction false} IdsInConcat(a: seq<Json>, b: seq<Json>)
    ensures IdsIn(a + b) == IdsIn(a) + IdsIn(b)
  {
    if a == [] {
      assert a + b == b;
    } else {
      assert (a + b)[1..] == a[1..] + b;
      IdsInConcat(a[1..], b);
    }
  }

  lemma PushKeeps(j: Json, key: string, item: Json)
    requires Pushable(j, key) && key != "id"
    ensures Keeps(j, Push(j, key, item)) && Keeps(item, Push(j, key, item))
  {
    hide With;
    ListKeeps(Part(j, key), Listed(j, key), item);
    WithKeeps(j, key, Arr(Listed(j, key) + [item]));
    KeepsThrough(item, Arr(Listed(j, key) + [item]), Push(j, key, item));
  }

  lemma ListKeeps(was: Json, list: seq<Json>, item: Json)
    requires if was.Arr? then list == was.items else Falsy(was) && list == []
    ensures Keeps(was, Arr(list + [item])) && Keeps(item, Arr(list + [item]))
  {
    IdsOfLonger(list, item);
    if was.Arr? { IdsOfArr(list); } else { FalsyDeclaresNothing(was); }
    hide Ids, IdsIn;
  }

  lemma IdsOfArr(list: seq<Json>)
    ensures Ids(Arr(list)) == IdsIn(list)
  {
  }

  lemma IdsOfLonger(list: seq<Json>, item: Json)
    ensures Ids(Arr(list + [item])) == IdsIn(list) + Ids(item)
  {
    hide Ids, IdsIn;
    IdsInConcat(list, [item]);
    IdsOfArr(list + [item]);
    IdsOfArr([item]);
    IdsOfList(item);
  }

  lemma FalsyDeclaresNothing(j: Json)
    requires Falsy(j)
    ensures Ids(j) == []
  {
  }

  // ---- where a new component goes ------------------------------------------------------------

  /** Beside the document; the organisation or a team of it; an agent of its top team; a
      sub-agent of its first agent; or a list of the organisation or of the document, or of
      a part of either. */
  datatype Place =
    | NotePlace
    | TeamPlace
    | AgentPlace
    | SubagentPlace
    | ListPlace(ofOrganization: bool, part: string, list: string)

  function Item(id: string, seed: seq<Field>): Json
  {
    Obj([Field("id", Str(id))] + seed)
  }

  function OrEmpty(j: Json): Json
  {
    if Falsy(j) then Obj([]) else j
  }

  /** Nothing was put in the organisation yet: it has no id, or it holds no member and no
      team and is not laid out. */
  predicate Unused(spec: Json, laid: set<string>)
  {
    var org := Organization(spec);
    || IdOf(org) == None || IdOf(org) == Some("")
    || (Listed(org, "members") == [] && Listed(org, "teams") == [] && IdOf(org).value !in laid)
  }

  function TeamFields(id: string): seq<Field>
  {
    [Field("id", Str(id)), Field("name", Str(id)), Field("leader", Str("")), Field("members", Arr([])),
     Field("teams", Arr([]))]
  }

  /** The organisation with a first team's own fields written over it. */
  function Merged(org: Json, id: string): (r: Json)
    requires org.Obj?
    ensures r.Obj?
  {
    Obj(SetAll(org.fields, TeamFields(id)))
  }

  function WithAgent(org: Json, agent: Json, id: string): Json
    requires org.Obj?
  {
    var more := Push(org, "members", agent);
    if Falsy(Part(more, "leader")) then With(more, "leader", Str(id)) else more
  }

  /** The item is pushed on the first agent's sub-agents: of this team, or else of the
      first team below that has any agent. */
  function WithSubagent(team: Json, item: Json): (r: Option<Json>)
    ensures r.Some? ==> r.value.Obj?
    decreases team
  {
    var members := Listed(team, "members");
    if !team.Obj? then None
    else if members != [] then
      if Pushable(members[0], "subagents") then
        Some(With(team, "members", Arr([Push(members[0], "subagents", item)] + members[1..])))
      else None
    else
      match WithSubagentIn(Listed(team, "teams"), item, team)
      case None => None
      case Some(ts) => Some(With(team, "teams", Arr(ts)))
  }

  function WithSubagentIn(ts: seq<Json>, item: Json, ghost top: Json): Option<seq<Json>>
    requires Below(ts, top)
    decreases top, |ts|
  {
    if ts == [] then None
    else if Under(Teams(ts[0]), "members") != [] then
      match WithSubagent(ts[0], item)
      case None => None
      case Some(t) => Some([t] + ts[1..])
    else
      match WithSubagentIn(ts[1..], item, top)
      case None => None
      case Some(rest) => Some([ts[0]] + rest)
  }

  /** The holder with the item pushed on its list, or on a part's list. */
  function Listing(holder: Json, part: string, list: string, item: Json): (r: Option<Json>)
    ensures r.Some? ==> r.value.Obj?
  {
    if part == "" then if Pushable(holder, list) then Some(Push(holder, list, item)) else None
    else if holder.Obj? && Pushable(OrEmpty(Part(holder, part)), list) then
      Some(With(holder, part, Push(OrEmpty(Part(holder, part)), list, item)))
    else None
  }

  function OrganizationOrRoot(spec: Json): Json
  {
    if Falsy(Organization(spec)) then Obj([Field("id", Str("root")), Field("name", Str("root"))])
    else Organization(spec)
  }

  function InOrganization(spec: Json, org: Option<Json>): Option<Json>
    requires spec.Obj?
  {
    match org case None => None case Some(v) => Some(With(spec, "organization", v))
  }

  /** The document with the new component in it; none when there is no place for it. */
  function AddTo(spec: Json, laid: set<string>, place: Place, id: string, seed: seq<Field>): Option<Json>
    requires spec.Obj?
  {
    var org, item := Organization(spec), Item(id, seed);
    match place
    case NotePlace => Some(spec)
    case TeamPlace =>
      if Unused(spec, laid) then
        if OrEmpty(org).Obj? then Some(With(spec, "organization", Merged(OrEmpty(org), id))) else None
      else if Pushable(org, "teams") then
        Some(With(spec, "organization", Push(org, "teams", Obj(TeamFields(id)))))
      else None
    case AgentPlace =>
      if Pushable(org, "members") then Some(With(spec, "organization", WithAgent(org, item, id))) else None
    case SubagentPlace => InOrganization(spec, WithSubagent(org, item))
    case ListPlace(false, part, list) => Listing(spec, part, list, item)
    case ListPlace(true, part, list) => InOrganization(spec, Listing(OrganizationOrRoot(spec), part, list, item))
  }

  // ---- a created component is declared ---------------------------------------------------

  lemma ItemDeclares(id: string, seed: seq<Field>)
    ensures id in Ids(Item(id, seed))
  {
    IdsOfNamed(id, seed);
  }

  lemma TeamDeclares(id: string)
    ensures Ids(Obj(TeamFields(id))) == [id]
  {
    hide Ids, IdsOfFields;
    var rest := TeamFields(id)[1..];
    IdsOfNamed(id, rest);
    BlankDeclaresNothing(rest);
    assert TeamFields(id) == [Field("id", Str(id))] + rest;
  }

  lemma {:induction false} BlankDeclaresNothing(fields: seq<Field>)
    requires forall f :: f in fields ==> f.value.Str? || f.value == Arr([])
    ensures IdsOfFields(fields) == []
  {
    if fields != [] {
      assert fields[0] in fields && Ids(fields[0].value) == [];
      BlankDeclaresNothing(fields[1..]);
    }
  }

  lemma KeepsThrough(a: Json, b: Json, c: Json)
    requires Keeps(a, b) && Keeps(b, c)
    ensures Keeps(a, c)
  {
  }

  lemma ListingKeeps(holder: Json, part: string, list: string, item: Json)
    requires part != "id" && list != "id" && Listing(holder, part, list, item).Some?
    ensures var r := Listing(holder, part, list, item).value; Keeps(holder, r) && Keeps(item, r)
  {
    if part == "" {
      PushKeeps(holder, list, item);
    } else {
      hide Keeps, Push, With;
      var was := OrEmpty(Part(holder, part));
      var now := Push(was, list, item);
      PushKeeps(was, list, item);
      KeepsOrEmpty(Part(holder, part), now);
      WithKeeps(holder, part, now);
      KeepsThrough(item, now, With(holder, part, now));
    }
  }

  lemma KeepsOrEmpty(j: Json, now: Json)
    requires Keeps(OrEmpty(j), now)
    ensures Keeps(j, now)
  {
    if Falsy(j) { FalsyDeclaresNothing(j); }
  }

  lemma AgentKeeps(org: Json, agent: Json, id: string)
    requires Pushable(org, "members")
    ensures Keeps(org, WithAgent(org, agent, id)) && Keeps(agent, WithAgent(org, agent, id))
  {
    var more := Push(org, "members", agent);
    PushKeeps(org, "members", agent);
    if Falsy(Part(more, "leader")) {
      FalsyDeclaresNothing(Part(more, "leader"));
      WithKeeps(more, "leader", Str(id));
    }
  }

  lemma {:induction false} SubagentKeeps(team: Json, item: Json)
    requires WithSubagent(team, item).Some?
    ensures Keeps(team, WithSubagent(team, item).value) && Keeps(item, WithSubagent(team, item).value)
    decreases team
  {
    var members := Listed(team, "members");
    if members != [] {
      var more := [Push(members[0], "subagents", item)] + members[1..];
      PushKeeps(members[0], "subagents", item);
      FirstKeeps(members, Push(members[0], "subagents", item), item);
      WithKeeps(team, "members", Arr(more));
      KeepsThrough(item, Arr(more), With(team, "members", Arr(more)));
    } else {
      var ts := Listed(team, "teams");
      SubagentKeepsIn(ts, item, team);
      var more := WithSubagentIn(ts, item, team).value;
      WithKeeps(team, "teams", Arr(more));
      KeepsThrough(item, Arr(more), With(team, "teams", Arr(more)));
    }
  }

  lemma {:induction false} SubagentKeepsIn(ts: seq<Json>, item: Json, top: Json)
    requires Below(ts, top) && WithSubagentIn(ts, item, top).Some?
    ensures ts != [] && Keeps(Arr(ts), Arr(WithSubagentIn(ts, item, top).value))
    ensures Keeps(item, Arr(WithSubagentIn(ts, item, top).value))
    decreases top, |ts|
  {
    if Under(Teams(ts[0]), "members") != [] {
      SubagentKeeps(ts[0], item);
      FirstKeeps(ts, WithSubagent(ts[0], item).value, item);
    } else {
      SubagentKeepsIn(ts[1..], item, top);
      RestKeeps(ts, WithSubagentIn(ts[1..], item, top).value, item);
    }
  }

  lemma FirstKeeps(list: seq<Json>, first: Json, item: Json)
    requires list != [] && Keeps(list[0], first) && Keeps(item, first)
    ensures Keeps(Arr(list), Arr([first] + list[1..])) && Keeps(item, Arr([first] + list[1..]))
  {
    assert ([first] + list[1..])[1..] == list[1..];
    IdsOfArr(list);
    IdsOfArr([first] + list[1..]);
  }

  lemma RestKeeps(list: seq<Json>, rest: seq<Json>, item: Json)
    requires list != [] && Keeps(Arr(list[1..]), Arr(rest)) && Keeps(item, Arr(rest))
    ensures Keeps(Arr(list), Arr([list[0]] + rest)) && Keeps(item, Arr([list[0]] + rest))
  {
    assert ([list[0]] + rest)[1..] == rest;
    IdsOfArr(list);
    IdsOfArr(list[1..]);
    IdsOfArr(rest);
    IdsOfArr([list[0]] + rest);
  }

  /** Setting the organisation keeps everything else, and what the organisation keeps. */
  lemma OrganizationKeeps(spec: Json, org: Json, item: Json)
    requires spec.Obj? && Keeps(Organization(spec), org) && Keeps(item, org)
    ensures Keeps(spec, With(spec, "organization", org)) && Keeps(item, With(spec, "organization", org))
  {
    WithKeeps(spec, "organization", org);
  }

  /** Whatever is created, other than a first team that becomes the organisation, every id
      declared before still is, and so is the new one unless it is a note's. */
  lemma AddKeeps(spec: Json, laid: set<string>, place: Place, id: string, seed: seq<Field>)
    requires spec.Obj? && AddTo(spec, laid, place, id, seed).Some?
    requires place.TeamPlace? ==> !Unused(spec, laid)
    requires place.ListPlace? ==> place.part != "id" && place.list != "id"
    ensures var r := AddTo(spec, laid, place, id, seed).value;
            r.Obj? && Keeps(spec, r) && (!place.NotePlace? ==> id in Ids(r))
  {
    hide With, Push, Organization, Item, Ids, WithAgent, WithSubagent, Listing, TeamFields;
    var org, item := Organization(spec), Item(id, seed);
    ItemDeclares(id, seed);
    match place
    case NotePlace =>
    case TeamPlace =>
      var team := Obj(TeamFields(id));
      TeamDeclares(id);
      PushKeeps(org, "teams", team);
      OrganizationKeeps(spec, Push(org, "teams", team), team);
    case AgentPlace =>
      AgentKeeps(org, item, id);
      OrganizationKeeps(spec, WithAgent(org, item, id), item);
    case SubagentPlace =>
      SubagentKeeps(org, item);
      OrganizationKeeps(spec, WithSubagent(org, item).value, item);
    case ListPlace(false, part, list) =>
      ListingKeeps(spec, part, list, item);
    case ListPlace(true, part, list) =>
      var was := OrganizationOrRoot(spec);
      ListingKeeps(was, part, list, item);
      var now := Listing(was, part, list, item).value;
      if Falsy(org) { FalsyDeclaresNothing(org); }
      OrganizationKeeps(spec, now, item);
  }
}
