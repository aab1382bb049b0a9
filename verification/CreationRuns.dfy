/** Runs of creations: no id is handed out twice, and when one that was declared before
    the run is handed out. Only a first team, which takes the organisation's place, ever
    frees a declared id. */
module CreationRuns {
  import opened Basics
  import opened Creations
  import opened Documents
  import opened FreshIds
  import opened Renaming

  // ---- what a first team leaves declared -------------------------------------------------------

  /** The fields but for the first of a key, which setting that key replaces. */
  function Without(fields: seq<Field>, key: string): seq<Field>
  {
    if fields == [] then []
    else if fields[0].key == key then fields[1..]
    else [fields[0]] + Without(fields[1..], key)
  }

  /** And but for those of each of some fields written over them. */
  function Uncovered(fields: seq<Field>, over: seq<Field>): seq<Field>
    decreases |over|
  {
    if over == [] then fields
    else Uncovered(Without(fields, over[|over| - 1].key), over[..|over| - 1])
  }

  lemma {:induction false} SetFieldDeclaresExactly(fields: seq<Field>, key: string, v: Json)
    ensures forall x :: x in IdsOfFields(SetField(fields, key, v)) <==>
              x in IdsOfFields(Without(fields, key)) || x in Ids(v)
  {
    hide Ids;
    var r := SetField(fields, key, v);
    if fields == [] {
      assert r == [Field(key, v)] && r[1..] == [];
    } else if fields[0].key == key {
      assert r[1..] == fields[1..];
    } else {
      SetFieldDeclaresExactly(fields[1..], key, v);
      assert r[1..] == SetField(fields[1..], key, v);
      assert Without(fields, key)[1..] == Without(fields[1..], key);
    }
  }

  lemma {:induction false} WithoutSet(fields: seq<Field>, key: string, v: Json, other: string)
    requires other != key
    ensures Without(SetField(fields, key, v), other) == SetField(Without(fields, other), key, v)
  {
    if fields != [] {
      WithoutSet(fields[1..], key, v, other);
      var r := SetField(fields, key, v);
      assert r[1..] == if fields[0].key == key then fields[1..] else SetField(fields[1..], key, v);
      if fields[0].key != other {
        assert Without(fields, other) == [fields[0]] + Without(fields[1..], other);
        assert Without(fields, other)[1..] == Without(fields[1..], other);
      }
    }
  }

  ghost predicate DistinctKeys(over: seq<Field>)
  {
    forall i, j :: 0 <= i < j < |over| ==> over[i].key != over[j].key
  }

  lemma {:induction false} WithoutSetAll(fields: seq<Field>, over: seq<Field>, other: string)
    requires forall f :: f in over ==> f.key != other
    ensures Without(SetAll(fields, over), other) == SetAll(Without(fields, other), over)
  {
    if over != [] {
      var n := |over| - 1;
      assert over[n] in over && forall f :: f in over[..n] ==> f in over;
      WithoutSetAll(fields, over[..n], other);
      WithoutSet(SetAll(fields, over[..n]), over[n].key, over[n].value, other);
    }
  }

  /** Writing some fields over others leaves exactly the ids of the fields not covered and
      of those written. */
  lemma {:induction false} SetAllDeclaresExactly(fields: seq<Field>, over: seq<Field>)
    requires DistinctKeys(over)
    ensures forall x :: x in IdsOfFields(SetAll(fields, over)) <==>
              x in IdsOfFields(Uncovered(fields, over)) || x in IdsOfFields(over)
    decreases |over|
  {
    if over != [] {
      var n := |over| - 1;
      SetAllDeclaresExactly(Without(fields, over[n].key), over[..n]);
      SetOneMoreDeclares(fields, over[..n], over[n]);
      assert over == over[..n] + [over[n]];
    }
  }

  lemma SetOneMoreDeclares(fields: seq<Field>, over: seq<Field>, last: Field)
    requires forall f :: f in over ==> f.key != last.key
    ensures forall x :: x in IdsOfFields(SetAll(fields, over + [last])) <==>
              x in IdsOfFields(SetAll(Without(fields, last.key), over)) || x in Ids(last.value)
    ensures Uncovered(fields, over + [last]) == Uncovered(Without(fields, last.key), over)
    ensures IdsOfFields(over + [last]) == IdsOfFields(over) + Ids(last.value)
  {
    hide Ids, SetField, Without, IdsOfFields;
    assert (over + [last])[..|over|] == over;
    SetFieldDeclaresExactly(SetAll(fields, over), last.key, last.value);
    WithoutSetAll(fields, over, last.key);
    IdsOfFieldsConcat(over, [last]);
    IdsOfOneField(last);
  }

  lemma IdsOfOneField(f: Field)
    ensures IdsOfFields([f]) == Ids(f.value)
  {
    hide Ids;
    assert IdsOfFields([f]) == Ids(f.value) + IdsOfFields([f][1..]);
  }

  lemma {:induction false} IdsOfFieldsConcat(a: seq<Field>, b: seq<Field>)
    ensures IdsOfFields(a + b) == IdsOfFields(a) + IdsOfFields(b)
  {
    if a == [] {
      assert a + b == b;
    } else {
      hide Ids;
      assert (a + b)[1..] == a[1..] + b;
      IdsOfFieldsConcat(a[1..], b);
    }
  }

  lemma {:induction false} SetAllGets(fields: seq<Field>, over: seq<Field>, i: nat)
    requires DistinctKeys(over) && i < |over|
    ensures GetField(SetAll(fields, over), over[i].key) == Some(over[i].value)
    decreases |over|
  {
    hide GetField, SetField;
    var n := |over| - 1;
    var before := SetAll(fields, over[..n]);
    SetFieldGets(before, over[n].key, over[n].value);
    if i < n {
      SetAllGets(fields, over[..n], i);
      SetFieldElsewhere(before, over[n].key, over[n].value, over[i].key);
    }
  }

  /** The ids declared outside what a first team overwrites: its own, and what the
      organisation has under `name`, `leader`, `members` and `teams`. */
  function Outside(spec: Json): set<string>
    requires spec.Obj?
  {
    var org := OrEmpty(Organization(spec));
    (if IdOf(spec).Some? then {IdOf(spec).value} else {})
    + Elements(IdsOfFields(Without(spec.fields, "organization")))
    + if org.Obj? then Elements(IdsOfFields(Uncovered(org.fields, TeamFields("")))) else {}
  }

  /** After a first team the document declares exactly those ids and the team's. */
  lemma FirstTeamDeclaresExactly(spec: Json, laid: set<string>, id: string, seed: seq<Field>)
    requires spec.Obj? && Unused(spec, laid) && AddTo(spec, laid, TeamPlace, id, seed).Some?
    ensures var r := AddTo(spec, laid, TeamPlace, id, seed).value;
            r.Obj? && forall x :: x in Ids(r) <==> x == id || x in Outside(spec)
  {
    var org := OrEmpty(Organization(spec));
    var merged := Merged(org, id);
    MergedDeclaresExactly(org, id);
    SetFieldDeclaresExactly(spec.fields, "organization", merged);
    SetFieldElsewhere(spec.fields, "organization", merged, "id");
    hide Merged, Uncovered, Without, OrEmpty;
    assert IdOf(With(spec, "organization", merged)) == IdOf(spec);
  }

  lemma MergedDeclaresExactly(org: Json, id: string)
    requires org.Obj?
    ensures IdOf(Merged(org, id)) == Some(id)
    ensures forall x :: x in Ids(Merged(org, id)) <==>
              x == id || x in IdsOfFields(Uncovered(org.fields, TeamFields("")))
  {
    hide SetAll, Uncovered, TeamFields, Ids, IdsOfFields;
    var over := TeamFields(id);
    TeamFieldsAre(id);
    SetAllDeclaresExactly(org.fields, over);
    BlankDeclaresNothing(over);
    SetAllGets(org.fields, over, 0);
    SameCover(org.fields, over, TeamFields(""));
    IdsOfObject(Merged(org, id));
  }

  lemma TeamFieldsAre(id: string)
    ensures var over, blank := TeamFields(id), TeamFields("");
            && DistinctKeys(over) && |over| == |blank| == 5 && over[0] == Field("id", Str(id))
            && (forall i :: 0 <= i < 5 ==> over[i].key == blank[i].key)
            && forall f :: f in over ==> f.value.Str? || f.value == Arr([])
  {
  }

  lemma {:induction false} SameCover(fields: seq<Field>, a: seq<Field>, b: seq<Field>)
    requires |a| == |b| && forall i :: 0 <= i < |a| ==> a[i].key == b[i].key
    ensures Uncovered(fields, a) == Uncovered(fields, b)
    decreases |a|
  {
    if a != [] {
      var n := |a| - 1;
      SameCover(Without(fields, a[n].key), a[..n], b[..n]);
    }
  }

  lemma {:induction false} WithoutDeclares(fields: seq<Field>, key: string)
    ensures forall x :: x in IdsOfFields(fields) <==>
              x in IdsOfFields(Without(fields, key)) || x in Ids(Part(Obj(fields), key))
  {
    if fields != [] {
      if fields[0].key == key {
        assert Part(Obj(fields), key) == fields[0].value;
      } else {
        WithoutDeclares(fields[1..], key);
        assert Part(Obj(fields), key) == Part(Obj(fields[1..]), key);
        assert Without(fields, key)[1..] == Without(fields[1..], key);
      }
    }
  }

  lemma {:induction false} WithoutGets(fields: seq<Field>, key: string, other: string)
    requires other != key
    ensures GetField(Without(fields, key), other) == GetField(fields, other)
  {
    if fields != [] && fields[0].key != key {
      WithoutGets(fields[1..], key, other);
      assert Without(fields, key)[1..] == Without(fields[1..], key);
    }
  }

  /** Nothing is lost under fields that declare nothing. */
  lemma {:induction false} UncoveredDeclares(fields: seq<Field>, over: seq<Field>)
    requires DistinctKeys(over)
    requires forall i :: 0 <= i < |over| ==> Ids(Part(Obj(fields), over[i].key)) == []
    ensures forall x :: x in IdsOfFields(Uncovered(fields, over)) <==> x in IdsOfFields(fields)
    decreases |over|
  {
    if over != [] {
      var n := |over| - 1;
      var less := Without(fields, over[n].key);
      WithoutDeclares(fields, over[n].key);
      forall i | 0 <= i < n ensures Ids(Part(Obj(less), over[..n][i].key)) == [] {
        WithoutGets(fields, over[n].key, over[i].key);
      }
      UncoveredDeclares(less, over[..n]);
    }
  }

  /** A first team keeps every declared id exactly when each is declared outside. */
  lemma FirstTeamKeepsExactly(spec: Json, laid: set<string>, id: string, seed: seq<Field>)
    requires spec.Obj? && Unused(spec, laid) && AddTo(spec, laid, TeamPlace, id, seed).Some? && id !in Ids(spec)
    ensures Keeps(spec, AddTo(spec, laid, TeamPlace, id, seed).value) <==>
            forall x :: x in Ids(spec) ==> x in Outside(spec)
  {
    FirstTeamDeclaresExactly(spec, laid, id, seed);
  }

  /** The organisation declares nothing but its own id under what a first team overwrites. */
  ghost predicate OnlyItsName(spec: Json)
  {
    forall i :: 0 <= i < |TeamFields("")| ==> Ids(Part(OrEmpty(Organization(spec)), TeamFields("")[i].key)) == []
  }

  /** Then only that id can go, and it stays exactly when it is declared elsewhere too. */
  lemma OnlyItsNameGoesExactly(spec: Json, laid: set<string>, id: string, seed: seq<Field>)
    requires spec.Obj? && Unused(spec, laid) && AddTo(spec, laid, TeamPlace, id, seed).Some? && id !in Ids(spec)
    requires OnlyItsName(spec)
    ensures var own := IdOf(Organization(spec));
            Keeps(spec, AddTo(spec, laid, TeamPlace, id, seed).value) <==> own.None? || own.value in Outside(spec)
  {
    FirstTeamKeepsExactly(spec, laid, id, seed);
    DeclaredOutsideOrName(spec);
    if IdOf(Organization(spec)).Some? { NameIsDeclared(spec); }
  }

  lemma NameIsDeclared(spec: Json)
    requires spec.Obj? && IdOf(Organization(spec)).Some?
    ensures IdOf(Organization(spec)).value in Ids(spec)
  {
    WithoutDeclares(spec.fields, "organization");
  }

  lemma DeclaredOutsideOrName(spec: Json)
    requires spec.Obj? && OrEmpty(Organization(spec)).Obj? && OnlyItsName(spec)
    ensures forall x :: x in Ids(spec) ==> x in Outside(spec) || IdOf(Organization(spec)) == Some(x)
  {
    hide Uncovered, Without, Ids, IdsOfFields, TeamFields, IdOf;
    var org := OrEmpty(Organization(spec));
    TeamFieldsAre("");
    IdsOfObject(spec);
    WithoutDeclares(spec.fields, "organization");
    UncoveredDeclares(org.fields, TeamFields(""));
    if Falsy(Organization(spec)) {
      FalsyDeclaresNothing(Organization(spec));
    } else {
      IdsOfObject(org);
    }
  }

  lemma IdsOfObject(j: Json)
    requires j.Obj?
    ensures forall x :: x in Ids(j) <==> IdOf(j) == Some(x) || x in IdsOfFields(j.fields)
  {
  }

  // ---- runs of creations ---------------------------------------------------------------------

  /** A component of a kind, put in its place, with its node on the open diagram. */
  datatype Step = Step(base: string, place: Place, seed: seq<Field>, node: Json)

  /** A run of creations, each given the next id of its kind. */
  ghost predicate Created(steps: seq<Step>, spec: Json, nodes: map<string, Json>, ids: seq<string>)
    decreases |steps|
  {
    |steps| == |ids| && spec.Obj?
    && (steps != [] ==>
          var s, id := steps[0], ids[0];
          && IsNext(s.base, Declared(spec, nodes), id)
          && AddTo(spec, nodes.Keys, s.place, id, s.seed).Some?
          && Created(steps[1..], AddTo(spec, nodes.Keys, s.place, id, s.seed).value, nodes[id := s.node], ids[1..]))
  }

  /** No id is handed out twice, nor one laid out on the open diagram before. */
  lemma {:induction false} NeverHandedOutTwice(steps: seq<Step>, spec: Json, nodes: map<string, Json>, ids: seq<string>)
    requires Created(steps, spec, nodes, ids)
    ensures forall i :: 0 <= i < |ids| ==> ids[i] !in nodes
    ensures forall i, j :: 0 <= i < j < |ids| ==> ids[i] != ids[j]
    decreases |steps|
  {
    if steps != [] {
      hide AddTo, Declared, IsNext;
      var s, id := steps[0], ids[0];
      NextIsFree(s.base, spec, nodes, id);
      NeverHandedOutTwice(steps[1..], AddTo(spec, nodes.Keys, s.place, id, s.seed).value, nodes[id := s.node],
                          ids[1..]);
    }
  }

  lemma NextIsFree(base: string, spec: Json, nodes: map<string, Json>, id: string)
    requires IsNext(base, Declared(spec, nodes), id)
    ensures id !in nodes && id !in Ids(spec) && id !in Declared(spec, nodes)
  {
  }

  /** The ids a creation leaves undeclared: with a first team, what the document declares
      neither outside nor on the diagram; otherwise none. */
  function Freed(spec: Json, nodes: map<string, Json>, place: Place): set<string>
    requires spec.Obj?
  {
    if place.TeamPlace? && Unused(spec, nodes.Keys) then Elements(Ids(spec)) - Outside(spec) - nodes.Keys else {}
  }

  /** The lists of a document are not called `id`. */
  predicate Named(place: Place)
  {
    place.ListPlace? ==> place.part != "id" && place.list != "id"
  }

  lemma StepFreesExactly(spec: Json, nodes: map<string, Json>, s: Step, id: string)
    requires spec.Obj? && Named(s.place) && id !in Declared(spec, nodes)
    requires AddTo(spec, nodes.Keys, s.place, id, s.seed).Some?
    ensures var more := AddTo(spec, nodes.Keys, s.place, id, s.seed).value;
            more.Obj? && forall x :: x in Declared(spec, nodes) ==>
              (x in Declared(more, nodes[id := s.node]) <==> x !in Freed(spec, nodes, s.place))
  {
    if s.place.TeamPlace? && Unused(spec, nodes.Keys) {
      FirstTeamDeclaresExactly(spec, nodes.Keys, id, s.seed);
    } else {
      AddKeeps(spec, nodes.Keys, s.place, id, s.seed);
    }
    hide AddTo, Outside, Unused, Ids;
  }

  /** Of some ids declared before the run, none that a step frees is handed out after it. */
  ghost predicate NoneReturns(steps: seq<Step>, spec: Json, nodes: map<string, Json>, ids: seq<string>,
                              before: set<string>)
    requires Created(steps, spec, nodes, ids)
    decreases |steps|
  {
    steps != [] ==>
      var s, id, freed := steps[0], ids[0], before * Freed(spec, nodes, steps[0].place);
      && (forall i :: 1 <= i < |ids| ==> ids[i] !in freed)
      && NoneReturns(steps[1..], AddTo(spec, nodes.Keys, s.place, id, s.seed).value, nodes[id := s.node], ids[1..],
                     before - freed)
  }

  /** An id declared before the run is handed out exactly when a step frees it first. */
  lemma {:induction false} NeverOneDeclaredBeforeExactly(steps: seq<Step>, spec: Json, nodes: map<string, Json>,
                                                         ids: seq<string>, before: set<string>)
    requires Created(steps, spec, nodes, ids) && forall s :: s in steps ==> Named(s.place)
    requires before <= Declared(spec, nodes)
    ensures (forall i :: 0 <= i < |ids| ==> ids[i] !in before) <==> NoneReturns(steps, spec, nodes, ids, before)
    decreases |steps|
  {
    if steps != [] {
      hide AddTo, Declared, IsNext, Freed;
      var s, id, freed := steps[0], ids[0], before * Freed(spec, nodes, steps[0].place);
      var more, laid := AddTo(spec, nodes.Keys, s.place, id, s.seed).value, nodes[id := s.node];
      NextIsFree(s.base, spec, nodes, id);
      StepFreesExactly(spec, nodes, s, id);
      assert before - freed <= Declared(more, laid);
      NeverOneDeclaredBeforeExactly(steps[1..], more, laid, ids[1..], before - freed);
      NoneOfEither(ids, before, freed);
    }
  }

  lemma NoneOfEither(ids: seq<string>, before: set<string>, freed: set<string>)
    requires ids != [] && ids[0] !in before && freed <= before
    ensures (forall i :: 0 <= i < |ids| ==> ids[i] !in before) <==>
              (forall i :: 1 <= i < |ids| ==> ids[i] !in freed)
              && forall i :: 0 <= i < |ids[1..]| ==> ids[1..][i] !in before - freed
  {
    assert forall i :: 1 <= i < |ids| ==> ids[i] == ids[1..][i - 1];
    assert forall i :: 0 <= i < |ids[1..]| ==> ids[1..][i] == ids[i + 1];
  }

  /** Of some ids declared before the run, none that a step frees could be the name a later
      step is given. */
  ghost predicate NamesApart(steps: seq<Step>, spec: Json, nodes: map<string, Json>, ids: seq<string>,
                             before: set<string>)
    requires Created(steps, spec, nodes, ids)
    decreases |steps|
  {
    steps != [] ==>
      var s, id := steps[0], ids[0];
      && (forall x, i, n: nat :: x in before * Freed(spec, nodes, s.place) && 1 <= i < |steps| ==>
            x != Name(steps[i].base, n))
      && NamesApart(steps[1..], AddTo(spec, nodes.Keys, s.place, id, s.seed).value, nodes[id := s.node], ids[1..],
                    before)
  }

  lemma {:induction false} GivenNames(steps: seq<Step>, spec: Json, nodes: map<string, Json>, ids: seq<string>, i: nat)
    requires Created(steps, spec, nodes, ids) && i < |steps|
    ensures exists n: nat :: ids[i] == Name(steps[i].base, n)
    decreases |steps|
  {
    if i > 0 {
      hide AddTo, Declared, IsNext, Name;
      var s, id := steps[0], ids[0];
      GivenNames(steps[1..], AddTo(spec, nodes.Keys, s.place, id, s.seed).value, nodes[id := s.node], ids[1..], i - 1);
      assert ids[1..][i - 1] == ids[i] && steps[1..][i - 1] == steps[i];
    }
  }

  /** Then none of them is handed out. */
  lemma {:induction false} NamesApartNoneReturns(steps: seq<Step>, spec: Json, nodes: map<string, Json>,
                                                 ids: seq<string>, before: set<string>, all: set<string>)
    requires Created(steps, spec, nodes, ids) && before <= all && NamesApart(steps, spec, nodes, ids, all)
    ensures NoneReturns(steps, spec, nodes, ids, before)
    decreases |steps|
  {
    if steps != [] {
      hide AddTo, Declared, IsNext, Freed, Name;
      var s, id, freed := steps[0], ids[0], before * Freed(spec, nodes, steps[0].place);
      assert freed <= all * Freed(spec, nodes, s.place);
      forall i | 1 <= i < |ids| ensures ids[i] !in freed {
        GivenNames(steps, spec, nodes, ids, i);
        var n: nat :| ids[i] == Name(steps[i].base, n);
      }
      NamesApartNoneReturns(steps[1..], AddTo(spec, nodes.Keys, s.place, id, s.seed).value, nodes[id := s.node],
                            ids[1..], before - freed, all);
    }
  }

  /** A name without an underscore, `root` say, is never in the way. */
  lemma NoUnderscoreIsNoName(x: string, base: string, n: nat)
    requires '_' !in x
    ensures x != Name(base, n)
  {
    assert Name(base, n)[|base|] == '_';
  }

  lemma NeverOneDeclaredBefore(steps: seq<Step>, spec: Json, nodes: map<string, Json>, ids: seq<string>)
    requires Created(steps, spec, nodes, ids) && forall s :: s in steps ==> Named(s.place)
    requires NamesApart(steps, spec, nodes, ids, Declared(spec, nodes))
    ensures forall i :: 0 <= i < |ids| ==> ids[i] !in Declared(spec, nodes)
  {
    NamesApartNoneReturns(steps, spec, nodes, ids, Declared(spec, nodes), Declared(spec, nodes));
    NeverOneDeclaredBeforeExactly(steps, spec, nodes, ids, Declared(spec, nodes));
  }

  // ---- once the organisation is laid out -----------------------------------------------------

  /** The organisation has an id, and is on the open diagram. */
  predicate LaidOut(spec: Json, laid: set<string>)
  {
    IdOf(Organization(spec)).Some? && IdOf(Organization(spec)).value != "" && IdOf(Organization(spec)).value in laid
  }

  lemma WithHolds(j: Json, key: string, v: Json, other: string)
    requires j.Obj?
    ensures Part(With(j, key, v), key) == v
    ensures other != key ==> Get(With(j, key, v), other) == Get(j, other)
  {
    SetFieldGets(j.fields, key, v);
    if other != key { SetFieldElsewhere(j.fields, key, v, other); }
  }

  lemma ListingKeepsName(holder: Json, part: string, list: string, item: Json)
    requires part != "id" && list != "id" && Listing(holder, part, list, item).Some?
    ensures IdOf(Listing(holder, part, list, item).value) == IdOf(holder)
  {
    hide With;
    if part == "" {
      WithHolds(holder, list, Arr(Listed(holder, list) + [item]), "id");
    } else {
      WithHolds(holder, part, Push(OrEmpty(Part(holder, part)), list, item), "id");
    }
  }

  /** A list of the document, or of the organisation as a part of it: the organisation's
      name stays. */
  lemma ListingKeepsOrganization(spec: Json, part: string, list: string, item: Json)
    requires part != "id" && list != "id" && Listing(spec, part, list, item).Some? && IdOf(Organization(spec)).Some?
    ensures IdOf(Organization(Listing(spec, part, list, item).value)) == IdOf(Organization(spec))
  {
    hide With;
    if part == "" {
      WithHolds(spec, list, Arr(Listed(spec, list) + [item]), "organization");
    } else {
      var was := OrEmpty(Part(spec, part));
      WithHolds(spec, part, Push(was, list, item), "organization");
      if part == "organization" {
        WithHolds(was, list, Arr(Listed(was, list) + [item]), "id");
      }
    }
  }

  lemma AgentKeepsName(org: Json, agent: Json, id: string)
    requires org.Obj?
    ensures IdOf(WithAgent(org, agent, id)) == IdOf(org)
  {
    hide With;
    var more := Push(org, "members", agent);
    WithHolds(org, "members", Arr(Listed(org, "members") + [agent]), "id");
    WithHolds(more, "leader", Str(id), "id");
  }

  lemma SubagentKeepsName(team: Json, item: Json)
    requires WithSubagent(team, item).Some?
    ensures IdOf(WithSubagent(team, item).value) == IdOf(team)
  {
    hide With, WithSubagentIn, Push;
    var members, ts := Listed(team, "members"), Listed(team, "teams");
    if members != [] {
      WithHolds(team, "members", Arr([Push(members[0], "subagents", item)] + members[1..]), "id");
    } else {
      WithHolds(team, "teams", Arr(WithSubagentIn(ts, item, team).value), "id");
    }
  }

  lemma NamedIsObject(j: Json)
    requires IdOf(j).Some?
    ensures j.Obj? && !Falsy(j)
  {
  }

  lemma OrganizationRenamed(spec: Json, org: Json)
    requires spec.Obj?
    ensures IdOf(Organization(With(spec, "organization", org))) == IdOf(org)
  {
    WithHolds(spec, "organization", org, "id");
  }

  lemma NameStays(spec: Json, laid: set<string>, place: Place, id: string, seed: seq<Field>)
    requires spec.Obj? && LaidOut(spec, laid) && Named(place) && AddTo(spec, laid, place, id, seed).Some?
    ensures IdOf(Organization(AddTo(spec, laid, place, id, seed).value)) == IdOf(Organization(spec))
  {
    hide With, Push, WithAgent, WithSubagent, Listing, Item, TeamFields, Ids, IdOf, Get, Organization, Falsy;
    var org, item := Organization(spec), Item(id, seed);
    NamedIsObject(org);
    match place
    case NotePlace =>
    case TeamPlace =>
      TeamKeepsName(org, Obj(TeamFields(id)));
      OrganizationRenamed(spec, Push(org, "teams", Obj(TeamFields(id))));
    case AgentPlace =>
      AgentKeepsName(org, item, id);
      OrganizationRenamed(spec, WithAgent(org, item, id));
    case SubagentPlace =>
      SubagentKeepsName(org, item);
      OrganizationRenamed(spec, WithSubagent(org, item).value);
    case ListPlace(false, part, list) =>
      ListingKeepsOrganization(spec, part, list, item);
    case ListPlace(true, part, list) =>
      ListingKeepsName(org, part, list, item);
      OrganizationRenamed(spec, Listing(org, part, list, item).value);
  }

  /** A laid out organisation stays, whatever is created. */
  lemma LaidOutStays(spec: Json, nodes: map<string, Json>, s: Step, id: string)
    requires spec.Obj? && LaidOut(spec, nodes.Keys) && Named(s.place)
    requires AddTo(spec, nodes.Keys, s.place, id, s.seed).Some?
    ensures LaidOut(AddTo(spec, nodes.Keys, s.place, id, s.seed).value, nodes[id := s.node].Keys)
  {
    hide AddTo, IdOf;
    NameStays(spec, nodes.Keys, s.place, id, s.seed);
  }

  lemma TeamKeepsName(org: Json, team: Json)
    requires org.Obj?
    ensures IdOf(Push(org, "teams", team)) == IdOf(org)
  {
    hide With;
    WithHolds(org, "teams", Arr(Listed(org, "teams") + [team]), "id");
  }

  /** A first team lays it out. */
  lemma FirstTeamLaysOut(spec: Json, nodes: map<string, Json>, s: Step, id: string)
    requires spec.Obj? && s.place.TeamPlace? && Unused(spec, nodes.Keys) && IsNext(s.base, Declared(spec, nodes), id)
    requires AddTo(spec, nodes.Keys, s.place, id, s.seed).Some?
    ensures LaidOut(AddTo(spec, nodes.Keys, s.place, id, s.seed).value, nodes[id := s.node].Keys)
  {
    hide With, Unused, Merged, Declared;
    var merged := Merged(OrEmpty(Organization(spec)), id);
    MergedDeclaresExactly(OrEmpty(Organization(spec)), id);
    WithHolds(spec, "organization", merged, "id");
  }

  /** From then on no id that was declared before is handed out. */
  lemma {:induction false} LaidOutNoneReturns(steps: seq<Step>, spec: Json, nodes: map<string, Json>, ids: seq<string>,
                                              before: set<string>)
    requires Created(steps, spec, nodes, ids) && LaidOut(spec, nodes.Keys) && forall s :: s in steps ==> Named(s.place)
    ensures NoneReturns(steps, spec, nodes, ids, before)
    decreases |steps|
  {
    if steps != [] {
      hide AddTo, Declared, IsNext, Ids, Outside;
      var s, id := steps[0], ids[0];
      LaidOutStays(spec, nodes, s, id);
      assert Freed(spec, nodes, s.place) == {};
      LaidOutNoneReturns(steps[1..], AddTo(spec, nodes.Keys, s.place, id, s.seed).value, nodes[id := s.node], ids[1..],
                         before - before * Freed(spec, nodes, s.place));
    }
  }

  lemma LaidOutNeverReuses(steps: seq<Step>, spec: Json, nodes: map<string, Json>, ids: seq<string>)
    requires Created(steps, spec, nodes, ids) && forall s :: s in steps ==> Named(s.place)
    requires LaidOut(spec, nodes.Keys)
    ensures forall i :: 0 <= i < |ids| ==> ids[i] !in Declared(spec, nodes)
  {
    LaidOutNoneReturns(steps, spec, nodes, ids, Declared(spec, nodes));
    NeverOneDeclaredBeforeExactly(steps, spec, nodes, ids, Declared(spec, nodes));
  }

  /** So a run that begins with a first team hands out an id declared before exactly when
      that team freed it and a later step is given it. */
  lemma AfterFirstTeamExactly(steps: seq<Step>, spec: Json, nodes: map<string, Json>, ids: seq<string>)
    requires Created(steps, spec, nodes, ids) && forall s :: s in steps ==> Named(s.place)
    requires steps != [] && steps[0].place.TeamPlace? && Unused(spec, nodes.Keys)
    ensures (forall i :: 0 <= i < |ids| ==> ids[i] !in Declared(spec, nodes)) <==>
            forall i :: 1 <= i < |ids| ==> ids[i] !in Freed(spec, nodes, TeamPlace)
  {
    hide AddTo, Declared, IsNext, Freed, Unused;
    var s, id, all := steps[0], ids[0], Declared(spec, nodes);
    var more, laid := AddTo(spec, nodes.Keys, s.place, id, s.seed).value, nodes[id := s.node];
    FirstTeamLaysOut(spec, nodes, s, id);
    FreedWasDeclared(spec, nodes, TeamPlace);
    LaidOutNoneReturns(steps[1..], more, laid, ids[1..], all - all * Freed(spec, nodes, s.place));
    NeverOneDeclaredBeforeExactly(steps, spec, nodes, ids, all);
  }

  lemma FreedWasDeclared(spec: Json, nodes: map<string, Json>, place: Place)
    requires spec.Obj?
    ensures Freed(spec, nodes, place) <= Declared(spec, nodes)
  {
  }

  // ---- a first team frees the organisation's name --------------------------------------------

  const TEAM_STEP := Step("team", TeamPlace, [], Null)

  function OrganizationOnly(org: Json): Json
  {
    Obj([Field("organization", org)])
  }

  function OnlyNamed(id: string): (r: Json)
    ensures r.Obj?
  {
    Obj([Field("id", Str(id))])
  }

  lemma OnlyNamedDeclares(id: string)
    ensures Ids(OnlyNamed(id)) == [id]
  {
    IdsOfNamed(id, []);
    assert [Field("id", Str(id))] + [] == [Field("id", Str(id))];
  }

  lemma TeamsComeLast(id: string)
    ensures |TeamFields(id)| == 5 && TeamFields(id)[4] == Field("teams", Arr([]))
  {
  }

  lemma OnlyNamedPart(id: string, key: string)
    ensures Ids(Part(OnlyNamed(id), key)) == []
  {
    assert Part(OnlyNamed(id), key) == if key == "id" then Str(id) else Null;
  }

  /** An organisation that had nothing but a name is left with nothing but the team's. */
  lemma MergedOfNamed(was: string, id: string)
    ensures var org := Merged(OnlyNamed(was), id);
            Part(org, "teams") == Arr([]) && IdOf(org) == Some(id) && forall x :: x in Ids(org) ==> x == id
  {
    hide SetAll, Ids, IdsOfFields, TeamFields, Uncovered;
    TeamFieldsAre(id);
    TeamFieldsAre("");
    assert TeamFields(id)[4] == Field("teams", Arr([])) by { TeamsComeLast(id); }
    MergedDeclaresExactly(OnlyNamed(was), id);
    BlankDeclaresNothing(OnlyNamed(was).fields);
    forall key ensures Ids(Part(OnlyNamed(was), key)) == [] { OnlyNamedPart(was, key); }
    UncoveredDeclares(OnlyNamed(was).fields, TeamFields(""));
    SetAllGets(OnlyNamed(was).fields, TeamFields(id), 4);
  }

  /** A first team takes the place of an organisation that has only a name. */
  lemma TeamReplacesOrganization(was: string, id: string)
    ensures AddTo(OrganizationOnly(OnlyNamed(was)), {}, TeamPlace, id, [])
            == Some(OrganizationOnly(Merged(OnlyNamed(was), id)))
  {
    hide Merged;
    var spec, org := OrganizationOnly(OnlyNamed(was)), OnlyNamed(was);
    assert Organization(spec) == org && IdOf(org) == Some(was);
    assert Listed(org, "members") == [] && Listed(org, "teams") == [];
    assert SetField(spec.fields, "organization", Merged(org, id)) == [Field("organization", Merged(org, id))];
  }

  /** And the next is placed beside it. */
  lemma TeamBesideOrganization(org: Json, id: string, next: string, laid: set<string>)
    requires org.Obj? && IdOf(org) == Some(id) && id != "" && id in laid && Part(org, "teams") == Arr([])
    ensures AddTo(OrganizationOnly(org), laid, TeamPlace, next, []).Some?
    ensures AddTo(OrganizationOnly(org), laid, TeamPlace, next, []).value.Obj?
  {
    assert Organization(OrganizationOnly(org)) == org;
  }

  lemma TeamNames()
    ensures Name("team", 1) == "team_1" && Name("team", 2) == "team_2"
  {
    assert Decimal(1) == "1" && Decimal(2) == "2";
  }

  lemma TeamOneThenTwo(none: set<string>, one: set<string>)
    requires "team_1" !in none && "team_1" in one && "team_2" !in one
    ensures IsNext("team", none, "team_1") && IsNext("team", one, "team_2")
  {
    TeamNames();
    hide Name;
  }

  /** An organisation named `team_1` with nothing in it yet: the first team takes its place
      as `team_2`, and the next is `team_1`, a name that was declared before. */
  lemma FirstTeamFreesTheName()
    ensures "team_1" in Declared(OrganizationOnly(OnlyNamed("team_1")), map[])
    ensures Created([TEAM_STEP, TEAM_STEP], OrganizationOnly(OnlyNamed("team_1")), map[], ["team_2", "team_1"])
  {
    hide AddTo, Ids, Name, IsNext, Merged, OnlyNamed, Part, IdOf;
    var nodes: map<string, Json> := map[];
    assert nodes.Keys == {};
    var org := Merged(OnlyNamed("team_1"), "team_2");
    OnlyNamedDeclares("team_1");
    IdsOfPart("organization", OnlyNamed("team_1"));
    MergedOfNamed("team_1", "team_2");
    IdsOfPart("organization", org);
    TeamReplacesOrganization("team_1", "team_2");
    TeamBesideOrganization(org, "team_2", "team_1", nodes["team_2" := Null].Keys);
    TeamOneThenTwo(Declared(OrganizationOnly(org), nodes["team_2" := Null]),
                   Declared(OrganizationOnly(OnlyNamed("team_1")), nodes));
    CreatedTwo(OrganizationOnly(OnlyNamed("team_1")), nodes, OrganizationOnly(org), "team_2", "team_1");
  }

  lemma CreatedTwo(spec: Json, nodes: map<string, Json>, more: Json, a: string, b: string)
    requires spec.Obj? && more.Obj?
    requires IsNext("team", Declared(spec, nodes), a) && AddTo(spec, nodes.Keys, TeamPlace, a, []) == Some(more)
    requires var laid := nodes[a := Null];
             && IsNext("team", Declared(more, laid), b) && AddTo(more, laid.Keys, TeamPlace, b, []).Some?
             && AddTo(more, laid.Keys, TeamPlace, b, []).value.Obj?
    ensures Created([TEAM_STEP, TEAM_STEP], spec, nodes, [a, b])
  {
    hide AddTo, Declared, IsNext, Created;
    var laid := nodes[a := Null];
    CreatedNone(AddTo(more, laid.Keys, TeamPlace, b, []).value, laid[b := Null]);
    CreatedOneMore([], more, laid, [], b);
    assert [TEAM_STEP] + [] == [TEAM_STEP] && [b] + [] == [b];
    assert [TEAM_STEP] + [TEAM_STEP] == [TEAM_STEP, TEAM_STEP] && [a] + [b] == [a, b];
    CreatedOneMore([TEAM_STEP], spec, nodes, [b], a);
  }

  lemma CreatedNone(spec: Json, nodes: map<string, Json>)
    requires spec.Obj?
    ensures Created([], spec, nodes, [])
  {
  }

  lemma CreatedOneMore(steps: seq<Step>, spec: Json, nodes: map<string, Json>, ids: seq<string>, id: string)
    requires spec.Obj? && IsNext("team", Declared(spec, nodes), id) && AddTo(spec, nodes.Keys, TeamPlace, id, []).Some?
    requires Created(steps, AddTo(spec, nodes.Keys, TeamPlace, id, []).value, nodes[id := Null], ids)
    ensures Created([TEAM_STEP] + steps, spec, nodes, [id] + ids)
  {
    hide AddTo, Declared, IsNext;
    assert ([TEAM_STEP] + steps)[1..] == steps && ([id] + ids)[1..] == ids;
  }
}
