/** The tree of teams: teams added and removed, and whole runs of changes to it. */
module OrgTree {
  import opened Staffing

  /** A team with the teams below it; `placement` when it declares one. */
  datatype Tree = Tree(post: Post, placement: bool, teams: seq<Tree>)

  /** Every team, each before those below it. */
  function Roster(t: Tree): (ps: seq<Post>)
    ensures |ps| >= 1 && ps[0] == t.post
    decreases t
  {
    [t.post] + RosterIn(t.teams)
  }

  function RosterIn(ts: seq<Tree>): seq<Post>
    decreases ts
  {
    if ts == [] then [] else Roster(ts[0]) + RosterIn(ts[1..])
  }

  function WithStaff(t: Tree, g: Post -> Staff): Tree
    decreases t
  {
    Tree(Post(t.post.id, g(t.post)), t.placement, WithStaffIn(t.teams, g))
  }

  function WithStaffIn(ts: seq<Tree>, g: Post -> Staff): seq<Tree>
    decreases ts
  {
    if ts == [] then [] else [WithStaff(ts[0], g)] + WithStaffIn(ts[1..], g)
  }

  lemma EachConcat(a: seq<Post>, b: seq<Post>, g: Post -> Staff)
    ensures Each(a + b, g) == Each(a, g) + Each(b, g)
  {
  }

  /** Changing the staff of every team changes the list of teams one by one. */
  lemma {:induction false} RosterWithStaff(t: Tree, g: Post -> Staff)
    ensures Roster(WithStaff(t, g)) == Each(Roster(t), g)
    decreases t
  {
    RosterInWithStaff(t.teams, g);
    EachConcat([t.post], RosterIn(t.teams), g);
    assert Each([t.post], g) == [Post(t.post.id, g(t.post))];
  }

  lemma {:induction false} RosterInWithStaff(ts: seq<Tree>, g: Post -> Staff)
    ensures RosterIn(WithStaffIn(ts, g)) == Each(RosterIn(ts), g)
    decreases ts
  {
    if ts != [] {
      RosterWithStaff(ts[0], g);
      RosterInWithStaff(ts[1..], g);
      EachConcat(Roster(ts[0]), RosterIn(ts[1..]), g);
    }
  }

  // ---- teams ---------------------------------------------------------------------------

  /** Nothing has been put in the organisation yet: it has no id, or holds nobody and no
      team and is not drawn. */
  predicate Unused(t: Tree, drawn: bool)
  {
    t.post.id == "" || (t.post.staff.members == [] && t.teams == [] && !drawn)
  }

  /** The first team is the organisation itself; another hangs below it. */
  function AddTeam(t: Tree, id: string, drawn: bool): Tree
  {
    var added := Post(id, Staff("", []));
    if Unused(t, drawn) then Tree(added, t.placement, [])
    else t.(teams := t.teams + [Tree(added, false, [])])
  }

  function RemoveTeam(t: Tree, id: string): Tree
    decreases t
  {
    t.(teams := RemoveIn(t.teams, id))
  }

  function RemoveIn(ts: seq<Tree>, id: string): seq<Tree>
    decreases ts
  {
    if ts == [] then []
    else (if ts[0].post.id == id then [] else [RemoveTeam(ts[0], id)]) + RemoveIn(ts[1..], id)
  }

  lemma RosterInCons(t: Tree, rest: seq<Tree>)
    ensures RosterIn([t] + rest) == Roster(t) + RosterIn(rest)
  {
  }

  lemma {:induction false} RosterInConcat(a: seq<Tree>, b: seq<Tree>)
    ensures RosterIn(a + b) == RosterIn(a) + RosterIn(b)
  {
    if a == [] {
      assert a + b == b;
    } else {
      assert (a + b)[1..] == a[1..] + b;
      RosterInConcat(a[1..], b);
    }
  }

  lemma AddTeamRoster(t: Tree, id: string, drawn: bool)
    ensures Roster(AddTeam(t, id, drawn))
            == (if t.post.id == "" || (t.post.staff.members == [] && t.teams == [] && !drawn) then [] else Roster(t))
               + [Post(id, Staff("", []))]
  {
    var leaf := Tree(Post(id, Staff("", [])), false, []);
    LeafRoster(leaf);
    RosterInConcat(t.teams, [leaf]);
    hide RosterIn;
    assert [t.post] + (RosterIn(t.teams) + [leaf.post]) == Roster(t) + [leaf.post];
  }

  lemma LeafRoster(leaf: Tree)
    requires leaf.teams == []
    ensures Roster(leaf) == [leaf.post] && RosterIn([leaf]) == [leaf.post]
  {
    assert RosterIn([leaf]) == Roster(leaf) + RosterIn([]);
  }

  lemma IsTeamConcat(a: seq<Post>, b: seq<Post>, id: string)
    ensures IsTeam(a + b, id) <==> IsTeam(a, id) || IsTeam(b, id)
  {
    if i :| 0 <= i < |a| && a[i].id == id { assert (a + b)[i].id == id; }
    if i :| 0 <= i < |b| && b[i].id == id { assert (a + b)[|a| + i].id == id; }
    if i :| 0 <= i < |a + b| && (a + b)[i].id == id {
      if i < |a| { assert a[i].id == id; } else { assert b[i - |a|].id == id; }
    }
  }

  /** An id that is no team's below the top removes nothing. */
  lemma {:induction false} RemoveAbsent(ts: seq<Tree>, id: string)
    requires !IsTeam(RosterIn(ts), id)
    ensures RemoveIn(ts, id) == ts
    decreases ts
  {
    if ts != [] {
      IsTeamConcat(Roster(ts[0]), RosterIn(ts[1..]), id);
      IsTeamConcat([ts[0].post], RosterIn(ts[0].teams), id);
      assert Roster(ts[0])[0].id != id;
      RemoveAbsent(ts[0].teams, id);
      RemoveAbsent(ts[1..], id);
      assert ts == [ts[0]] + ts[1..];
    }
  }

  predicate OnceEach(ps: seq<Post>)
  {
    forall i, j :: 0 <= i < j < |ps| ==> ps[i].id != ps[j].id
  }

  lemma OnceApart(a: seq<Post>, b: seq<Post>, id: string)
    requires OnceEach(a + b) && IsTeam(a, id)
    ensures !IsTeam(b, id) && OnceEach(a) && OnceEach(b)
  {
    OnceParts(a, b);
    var i :| 0 <= i < |a| && a[i].id == id;
    forall j | 0 <= j < |b| ensures b[j].id != id {
      assert (a + b)[i] == a[i] && (a + b)[|a| + j] == b[j];
    }
  }

  lemma OnceParts(a: seq<Post>, b: seq<Post>)
    requires OnceEach(a + b)
    ensures OnceEach(a) && OnceEach(b)
  {
    forall i, j | 0 <= i < j < |a| ensures a[i].id != a[j].id {
      assert (a + b)[i] == a[i] && (a + b)[j] == a[j];
    }
    forall i, j | 0 <= i < j < |b| ensures b[i].id != b[j].id {
      assert (a + b)[|a| + i] == b[i] && (a + b)[|a| + j] == b[j];
    }
  }

  /** The list of teams is cut where the removed team's own list stood. */
  ghost predicate Cut(was: seq<Post>, now: seq<Post>, sub: Tree, id: string)
  {
    sub.post.id == id && exists a, b :: was == a + Roster(sub) + b && now == a + b
  }

  lemma CutAround(before: seq<Post>, was: seq<Post>, now: seq<Post>, after: seq<Post>, sub: Tree, id: string)
    requires Cut(was, now, sub, id)
    ensures Cut(before + was + after, before + now + after, sub, id)
  {
    var a, b :| was == a + Roster(sub) + b && now == a + b;
    assert before + was + after == (before + a) + Roster(sub) + (b + after);
    assert before + now + after == (before + a) + (b + after);
  }

  lemma CutHere(ts: seq<Tree>, id: string)
    requires ts != [] && ts[0].post.id == id && !IsTeam(RosterIn(ts[1..]), id)
    ensures Cut(RosterIn(ts), RosterIn(RemoveIn(ts, id)), ts[0], id)
  {
    var rest := ts[1..];
    RemoveAbsent(rest, id);
    assert RemoveIn(ts, id) == rest;
    assert RosterIn(ts) == [] + Roster(ts[0]) + RosterIn(rest) && RosterIn(rest) == [] + RosterIn(rest);
  }

  lemma CutBelow(ts: seq<Tree>, id: string, sub: Tree)
    requires ts != [] && ts[0].post.id != id && !IsTeam(RosterIn(ts[1..]), id)
    requires Cut(RosterIn(ts[0].teams), RosterIn(RemoveIn(ts[0].teams, id)), sub, id)
    ensures Cut(RosterIn(ts), RosterIn(RemoveIn(ts, id)), sub, id)
  {
    var t, rest := ts[0], ts[1..];
    RemoveAbsent(rest, id);
    assert RemoveIn(ts, id) == [RemoveTeam(t, id)] + rest;
    RosterInCons(RemoveTeam(t, id), rest);
    CutAround([t.post], RosterIn(t.teams), RosterIn(RemoveIn(t.teams, id)), RosterIn(rest), sub, id);
    assert RosterIn(ts) == [t.post] + RosterIn(t.teams) + RosterIn(rest);
    assert Roster(RemoveTeam(t, id)) == [t.post] + RosterIn(RemoveIn(t.teams, id));
  }

  lemma CutAfter(ts: seq<Tree>, id: string, sub: Tree)
    requires ts != [] && ts[0].post.id != id && !IsTeam(RosterIn(ts[0].teams), id)
    requires Cut(RosterIn(ts[1..]), RosterIn(RemoveIn(ts[1..], id)), sub, id)
    ensures Cut(RosterIn(ts), RosterIn(RemoveIn(ts, id)), sub, id)
  {
    var t, rest := ts[0], ts[1..];
    RemoveAbsent(t.teams, id);
    assert RemoveTeam(t, id) == t;
    RosterInCons(t, RemoveIn(rest, id));
    CutAround(Roster(t), RosterIn(rest), RosterIn(RemoveIn(rest, id)), [], sub, id);
    assert Roster(t) + RosterIn(rest) + [] == RosterIn(ts);
    assert Roster(t) + RosterIn(RemoveIn(rest, id)) + [] == RosterIn(RemoveIn(ts, id));
  }

  lemma TopOrBelow(t: Tree, id: string)
    requires OnceEach(Roster(t))
    ensures OnceEach(RosterIn(t.teams))
    ensures IsTeam(Roster(t), id) <==> t.post.id == id || IsTeam(RosterIn(t.teams), id)
  {
    OnceParts([t.post], RosterIn(t.teams));
    IsTeamConcat([t.post], RosterIn(t.teams), id);
    assert IsTeam([t.post], id) <==> [t.post][0].id == id;
  }

  lemma {:induction false} RemoveCutsIn(ts: seq<Tree>, id: string) returns (sub: Tree)
    requires OnceEach(RosterIn(ts)) && IsTeam(RosterIn(ts), id)
    ensures Cut(RosterIn(ts), RosterIn(RemoveIn(ts, id)), sub, id)
    decreases ts
  {
    hide Cut, OnceEach, RemoveIn, Roster;
    assert ts != [];
    var t, rest := ts[0], ts[1..];
    IsTeamConcat(Roster(t), RosterIn(rest), id);
    OnceParts(Roster(t), RosterIn(rest));
    TopOrBelow(t, id);
    if IsTeam(Roster(t), id) { OnceApart(Roster(t), RosterIn(rest), id); }
    if t.post.id == id {
      sub := t;
      CutHere(ts, id);
    } else if IsTeam(RosterIn(t.teams), id) {
      sub := RemoveCutsIn(t.teams, id);
      CutBelow(ts, id, sub);
    } else {
      sub := RemoveCutsIn(rest, id);
      CutAfter(ts, id, sub);
    }
  }

  /** Removing a team removes exactly it and the teams below it, and the top is never
      removed. */
  lemma RemoveTeamExactly(t: Tree, id: string)
    requires OnceEach(Roster(t))
    ensures t.post.id != id && IsTeam(Roster(t), id) ==>
              exists sub :: Cut(Roster(t), Roster(RemoveTeam(t, id)), sub, id)
    ensures t.post.id == id || !IsTeam(Roster(t), id) ==> RemoveTeam(t, id) == t
  {
    var ps := RosterIn(t.teams);
    IsTeamConcat([t.post], ps, id);
    OnceParts([t.post], ps);
    if t.post.id == id {
      assert [t.post][0].id == id;
      OnceApart([t.post], ps, id);
      RemoveAbsent(t.teams, id);
    } else if IsTeam(ps, id) {
      var sub := RemoveCutsIn(t.teams, id);
      CutAround([t.post], ps, RosterIn(RemoveIn(t.teams, id)), [], sub, id);
      assert [t.post] + ps + [] == Roster(t);
      assert [t.post] + RosterIn(RemoveIn(t.teams, id)) + [] == Roster(RemoveTeam(t, id));
    } else {
      assert !IsTeam([t.post], id);
      RemoveAbsent(t.teams, id);
    }
  }

  // ---- whole runs ------------------------------------------------------------------------

  datatype Op =
    | NewTeam(id: string, drawn: bool)
    | NewAgent(id: string)
    | DropTeam(id: string)
    | DropAgent(id: string)
    | Move(agent: Agent, to: string, leads: bool)

  /** New components get fresh ids, and a moved agent is one of the organisation's. */
  ghost predicate Enabled(t: Tree, op: Op)
  {
    match op
    case NewTeam(id, _) => !IsTeam(Roster(t), id)
    case NewAgent(id) => !Known(Roster(t), id)
    case DropTeam(_) => true
    case DropAgent(_) => true
    case Move(a, _, _) => exists h :: 0 <= h < |Roster(t)| && a in Roster(t)[h].staff.members
  }

  function Apply(t: Tree, op: Op): Tree
  {
    match op
    case NewTeam(id, drawn) => AddTeam(t, id, drawn)
    case NewAgent(id) => t.(post := Post(t.post.id, AddedStaff(t.post.staff, id)))
    case DropTeam(id) => RemoveTeam(t, id)
    case DropAgent(id) => WithStaff(t, (p: Post) => Left(p.staff, id))
    case Move(a, to, leads) =>
      if IsTeam(Roster(t), to) then
        var home := HomeOf(Roster(t), a.id);
        WithStaff(t, (p: Post) => MovedStaff(p, home, to, a, leads))
      else t
  }

  lemma GoodCut(a: seq<Post>, mid: seq<Post>, b: seq<Post>)
    requires Good(a + mid + b)
    ensures Good(a + b)
  {
    var was, now := a + mid + b, a + b;
    assert forall i :: 0 <= i < |a| ==> now[i] == was[i];
    assert forall i :: |a| <= i < |now| ==> now[i] == was[i + |mid|];
  }

  lemma GoodAppend(ps: seq<Post>, id: string)
    requires Good(ps) && !IsTeam(ps, id)
    ensures Good(ps + [Post(id, Staff("", []))])
  {
    var now := ps + [Post(id, Staff("", []))];
    assert forall i :: 0 <= i < |ps| ==> now[i] == ps[i];
  }

  lemma DropKeepsGood(t: Tree, id: string)
    requires Good(Roster(t))
    ensures Good(Roster(RemoveTeam(t, id)))
  {
    var ps := Roster(t);
    RemoveTeamExactly(t, id);
    hide RemoveTeam;
    if t.post.id != id && IsTeam(ps, id) {
      var sub :| Cut(ps, Roster(RemoveTeam(t, id)), sub, id);
      var a, b :| ps == a + Roster(sub) + b && Roster(RemoveTeam(t, id)) == a + b;
      GoodCut(a, Roster(sub), b);
    }
  }

  /** One change keeps every leader a member or empty, and every agent in one seat. */
  lemma ApplyKeepsGood(t: Tree, op: Op)
    requires Good(Roster(t)) && Enabled(t, op)
    ensures Good(Roster(Apply(t, op)))
  {
    var ps := Roster(t);
    match op
    case NewTeam(id, drawn) =>
      AddTeamRoster(t, id, drawn);
      GoodAppend(ps, id);
    case NewAgent(id) =>
      AddedGood(ps, id);
      assert Roster(Apply(t, op)) == Added(ps, id);
    case DropTeam(id) =>
      DropKeepsGood(t, id);
    case DropAgent(id) =>
      RosterWithStaff(t, (p: Post) => Left(p.staff, id));
      RemovedGood(ps, id);
    case Move(a, to, leads) =>
      MoveKeepsGood(t, a, to, leads);
  }

  lemma MoveKeepsGood(t: Tree, a: Agent, to: string, leads: bool)
    requires Good(Roster(t)) && Enabled(t, Move(a, to, leads))
    ensures Good(Roster(Apply(t, Move(a, to, leads))))
  {
    var ps := Roster(t);
    if IsTeam(ps, to) {
      var home := HomeOf(ps, a.id);
      RosterWithStaff(t, (p: Post) => MovedStaff(p, home, to, a, leads));
      var h :| 0 <= h < |ps| && a in ps[h].staff.members;
      OneHome(ps, a, h);
      MoveGoodExactly(ps, a, to, leads);
    }
  }

  /** Every change in turn is one that may be made. */
  ghost predicate Runs(t: Tree, ops: seq<Op>)
    decreases |ops|
  {
    ops == [] || (Enabled(t, ops[0]) && Runs(Apply(t, ops[0]), ops[1..]))
  }

  function After(t: Tree, ops: seq<Op>): Tree
    decreases |ops|
  {
    if ops == [] then t else After(Apply(t, ops[0]), ops[1..])
  }

  /** And so does any run of them. */
  lemma {:induction false} RunKeepsGood(t: Tree, ops: seq<Op>)
    requires Good(Roster(t)) && Runs(t, ops)
    ensures Good(Roster(After(t, ops)))
    decreases |ops|
  {
    if ops != [] {
      ApplyKeepsGood(t, ops[0]);
      RunKeepsGood(Apply(t, ops[0]), ops[1..]);
    }
  }

  // ---- duplicating a team ------------------------------------------------------------------

  /** A new team with another's leader copied over, but none of its members. */
  function Duplicated(t: Tree, id: string, drawn: bool, leader: string): Tree
  {
    var copy := Post(id, Staff(leader, []));
    if Unused(t, drawn) then AddTeam(t, id, drawn).(post := copy)
    else t.(teams := t.teams + [Tree(copy, false, [])])
  }

  lemma DuplicatedRoster(t: Tree, id: string, drawn: bool, leader: string)
    ensures Roster(Duplicated(t, id, drawn, leader))
            == (if Unused(t, drawn) then [] else Roster(t)) + [Post(id, Staff(leader, []))]
  {
    var leaf := Tree(Post(id, Staff(leader, [])), false, []);
    LeafRoster(leaf);
    if Unused(t, drawn) {
      LeafRoster(Duplicated(t, id, drawn, leader));
    } else {
      RosterInConcat(t.teams, [leaf]);
      hide RosterIn;
      assert [t.post] + (RosterIn(t.teams) + [leaf.post]) == Roster(t) + [leaf.post];
    }
  }

  /** The copy's leader is no member of it, so leaders stay good exactly when the team
      that was copied had none. */
  lemma DuplicateKeepsGoodExactly(t: Tree, id: string, drawn: bool, leader: string)
    requires Good(Roster(t)) && !IsTeam(Roster(t), id)
    ensures Good(Roster(Duplicated(t, id, drawn, leader))) <==> leader == ""
  {
    hide Roster, Duplicated, Unused;
    var rest := if Unused(t, drawn) then [] else Roster(t);
    var now := rest + [Post(id, Staff(leader, []))];
    DuplicatedRoster(t, id, drawn, leader);
    if leader == "" {
      GoodAppend(rest, id);
    } else {
      assert now[|rest|].staff.members == [];
      assert !LeaderOk(now[|rest|].staff);
    }
  }
}
