/** Who sits in which team and who leads it: agents added, removed and moved. */
module Staffing {
  import opened Basics

  /** An agent: its id and the sandboxes it runs in. */
  datatype Agent = Agent(id: string, environments: seq<string>)

  /** Who is in a team and who leads it; no leader is the empty text. */
  datatype Staff = Staff(leader: string, members: seq<Agent>)

  /** A team apart from the teams below it. */
  datatype Post = Post(id: string, staff: Staff)

  predicate Sits(id: string, members: seq<Agent>)
  {
    exists i :: 0 <= i < |members| && members[i].id == id
  }

  predicate LeaderOk(s: Staff)
  {
    s.leader == "" || Sits(s.leader, s.members)
  }

  predicate DistinctMembers(members: seq<Agent>)
  {
    forall i, j :: 0 <= i < j < |members| ==> members[i].id != members[j].id
  }

  /** Each team once, each agent in exactly one seat, each leader a member. */
  ghost predicate Good(ps: seq<Post>)
  {
    && (forall i, j :: 0 <= i < j < |ps| ==> ps[i].id != ps[j].id)
    && (forall i :: 0 <= i < |ps| ==> DistinctMembers(ps[i].staff.members))
    && (forall i, j, id :: 0 <= i < j < |ps| && Sits(id, ps[i].staff.members) ==> !Sits(id, ps[j].staff.members))
    && (forall i :: 0 <= i < |ps| ==> LeaderOk(ps[i].staff))
  }

  function Without(members: seq<Agent>, id: string): (r: seq<Agent>)
    ensures forall m :: m in r <==> m in members && m.id != id
  {
    if members == [] then []
    else (if members[0].id == id then [] else [members[0]]) + Without(members[1..], id)
  }

  /** The first member's id, or none. */
  function FirstId(members: seq<Agent>): string
  {
    if members == [] then "" else members[0].id
  }

  lemma {:induction false} WithoutKeepsDistinct(members: seq<Agent>, id: string)
    requires DistinctMembers(members)
    ensures DistinctMembers(Without(members, id))
  {
    if members != [] {
      WithoutKeepsDistinct(members[1..], id);
      var rest := Without(members[1..], id);
      forall j | 0 <= j < |rest| ensures rest[j].id != members[0].id {
        assert rest[j] in members[1..];
      }
    }
  }

  lemma SitsWithout(members: seq<Agent>, id: string, x: string)
    ensures Sits(x, Without(members, id)) <==> x != id && Sits(x, members)
  {
  }

  lemma FirstIdOk(members: seq<Agent>)
    ensures FirstId(members) == "" || Sits(FirstId(members), members)
  {
  }

  // ---- one staff at a time -----------------------------------------------------------

  /** An agent leaves: a leader who leaves is followed by the first who stays. */
  function Left(s: Staff, id: string): Staff
  {
    var rest := Without(s.members, id);
    Staff(if s.leader == id then FirstId(rest) else s.leader, rest)
  }

  function Joined(s: Staff, a: Agent): Staff
  {
    s.(members := s.members + [a])
  }

  /** The moved agent leads its team, or stops leading it. */
  function Led(s: Staff, id: string, leads: bool): Staff
  {
    if leads then s.(leader := id)
    else if s.leader == id then s.(leader := FirstId(Without(s.members, id)))
    else s
  }

  lemma LeftOk(s: Staff, id: string)
    requires LeaderOk(s) && DistinctMembers(s.members)
    ensures LeaderOk(Left(s, id)) && DistinctMembers(Left(s, id).members)
    ensures forall x :: Sits(x, Left(s, id).members) <==> x != id && Sits(x, s.members)
  {
    WithoutKeepsDistinct(s.members, id);
    forall x ensures Sits(x, Left(s, id).members) <==> x != id && Sits(x, s.members) {
      SitsWithout(s.members, id, x);
    }
    FirstIdOk(Without(s.members, id));
  }

  lemma JoinedOk(s: Staff, a: Agent)
    requires LeaderOk(s) && DistinctMembers(s.members) && !Sits(a.id, s.members)
    ensures LeaderOk(Joined(s, a)) && DistinctMembers(Joined(s, a).members)
    ensures forall x :: Sits(x, Joined(s, a).members) <==> x == a.id || Sits(x, s.members)
  {
    var more := s.members + [a];
    forall x ensures Sits(x, more) <==> x == a.id || Sits(x, s.members) {
      if Sits(x, s.members) {
        var i :| 0 <= i < |s.members| && s.members[i].id == x;
        assert more[i].id == x;
      }
      assert more[|s.members|] == a;
      if Sits(x, more) {
        var i :| 0 <= i < |more| && more[i].id == x;
        if i < |s.members| { assert s.members[i].id == x; }
      }
    }
  }

  lemma {:induction false} WithoutInOrder(a: seq<Agent>, b: seq<Agent>, id: string)
    ensures Without(a + b, id) == Without(a, id) + Without(b, id)
  {
    if a == [] {
      assert a + b == b;
    } else {
      assert (a + b)[1..] == a[1..] + b;
      WithoutInOrder(a[1..], b, id);
    }
  }

  predicate FirstOtherAt(members: seq<Agent>, id: string, leader: string, i: nat)
  {
    i < |members| && members[i].id == leader && leader != id && forall j :: 0 <= j < i ==> members[j].id == id
  }

  /** The first member but for this one, or the empty text if there is no other. */
  ghost predicate FirstOther(members: seq<Agent>, id: string, leader: string)
  {
    if forall m :: m in members ==> m.id == id then leader == ""
    else exists i: nat :: FirstOtherAt(members, id, leader, i)
  }

  lemma {:induction false} FirstStays(members: seq<Agent>, id: string)
    ensures FirstOther(members, id, FirstId(Without(members, id)))
  {
    if members != [] {
      var rest := members[1..];
      if members[0].id == id {
        FirstStays(rest, id);
        OneMoreBefore(members, id, FirstId(Without(rest, id)));
      } else {
        assert FirstOtherAt(members, id, members[0].id, 0);
      }
    }
  }

  lemma OneMoreBefore(members: seq<Agent>, id: string, leader: string)
    requires members != [] && members[0].id == id && FirstOther(members[1..], id, leader)
    ensures FirstOther(members, id, leader)
  {
    var rest := members[1..];
    assert members == [members[0]] + rest;
    if !forall m :: m in rest ==> m.id == id {
      var i: nat :| FirstOtherAt(rest, id, leader, i);
      assert forall j :: 0 < j <= i + 1 ==> members[j] == rest[j - 1];
      assert FirstOtherAt(members, id, leader, i + 1);
    }
  }

  /** What leaving does: a leader who stays keeps leading, and one who goes is followed by
      the first other member. */
  lemma LeftOnFields(s: Staff, id: string)
    ensures forall m :: m in Left(s, id).members <==> m in s.members && m.id != id
    ensures s.leader != id ==> Left(s, id).leader == s.leader
    ensures s.leader == id ==> FirstOther(s.members, id, Left(s, id).leader)
  {
    FirstStays(s.members, id);
  }

  lemma LedOk(s: Staff, id: string, leads: bool)
    requires LeaderOk(s) && DistinctMembers(s.members)
    ensures LeaderOk(Led(s, id, leads)) <==> !leads || id == "" || Sits(id, s.members)
    ensures Led(s, id, leads).members == s.members
  {
  }

  // ---- the whole list of teams ---------------------------------------------------------

  /** The first team an agent sits in. */
  function HomeOf(ps: seq<Post>, id: string): (r: Option<string>)
  {
    if ps == [] then None
    else if Sits(id, ps[0].staff.members) then Some(ps[0].id)
    else HomeOf(ps[1..], id)
  }

  predicate IsTeam(ps: seq<Post>, id: string)
  {
    exists i :: 0 <= i < |ps| && ps[i].id == id
  }

  /** What a move makes of one team: the agent leaves its home for another, and leads
      there or does not. */
  function MovedStaff(p: Post, home: Option<string>, to: string, a: Agent, leads: bool): Staff
  {
    var moves := home.Some? && home.value != to;
    if p.id == to then Led(if moves then Joined(p.staff, a) else p.staff, a.id, leads)
    else if moves && p.id == home.value then Left(p.staff, a.id)
    else p.staff
  }

  function Each(ps: seq<Post>, g: Post -> Staff): (r: seq<Post>)
    ensures |r| == |ps| && forall i :: 0 <= i < |ps| ==> r[i] == Post(ps[i].id, g(ps[i]))
  {
    seq(|ps|, i requires 0 <= i < |ps| => Post(ps[i].id, g(ps[i])))
  }

  function Moved(ps: seq<Post>, a: Agent, to: string, leads: bool): seq<Post>
  {
    if IsTeam(ps, to) then
      var home := HomeOf(ps, a.id);
      Each(ps, (p: Post) => MovedStaff(p, home, to, a, leads))
    else ps
  }

  function Removed(ps: seq<Post>, id: string): seq<Post>
  {
    Each(ps, (p: Post) => Left(p.staff, id))
  }

  /** A new agent leads a team nobody leads. */
  function AddedStaff(s: Staff, id: string): Staff
  {
    var j := Joined(s, Agent(id, []));
    if j.leader == "" then j.(leader := id) else j
  }

  /** It sits in the first team. */
  function Added(ps: seq<Post>, id: string): seq<Post>
  {
    if ps == [] then [] else ps[0 := Post(ps[0].id, AddedStaff(ps[0].staff, id))]
  }

  /** What a move makes of each team: of the one moved to, the one left, and any other. */
  lemma MoveOnFields(ps: seq<Post>, a: Agent, to: string, leads: bool, i: nat)
    requires i < |ps|
    ensures |Moved(ps, a, to, leads)| == |ps| && Moved(ps, a, to, leads)[i].id == ps[i].id
    ensures IsTeam(ps, to) && ps[i].id == to ==>
              var was, now := ps[i].staff, Moved(ps, a, to, leads)[i].staff;
              && now.members == (if HomeOf(ps, a.id) == None || HomeOf(ps, a.id) == Some(to) then was.members
                                 else was.members + [a])
              && (leads ==> now.leader == a.id)
              && (!leads && was.leader != a.id ==> now.leader == was.leader)
              && (!leads && was.leader == a.id ==> FirstOther(now.members, a.id, now.leader))
    ensures IsTeam(ps, to) && ps[i].id != to && HomeOf(ps, a.id) == Some(ps[i].id) ==>
              var was, now := ps[i].staff, Moved(ps, a, to, leads)[i].staff;
              && (forall m :: m in now.members <==> m in was.members && m.id != a.id)
              && (was.leader != a.id ==> now.leader == was.leader)
              && (was.leader == a.id ==> FirstOther(was.members, a.id, now.leader))
    ensures !IsTeam(ps, to) || (ps[i].id != to && HomeOf(ps, a.id) != Some(ps[i].id)) ==>
              Moved(ps, a, to, leads)[i] == ps[i]
  {
    hide FirstOther, Without, FirstId;
    LeftOnFields(ps[i].staff, a.id);
    FirstStays(ps[i].staff.members, a.id);
    FirstStays(ps[i].staff.members + [a], a.id);
  }

  /** What a removal makes of each team. */
  lemma RemovedOnFields(ps: seq<Post>, id: string, i: nat)
    requires i < |ps|
    ensures |Removed(ps, id)| == |ps| && Removed(ps, id)[i].id == ps[i].id
    ensures var was, now := ps[i].staff, Removed(ps, id)[i].staff;
            && (forall m :: m in now.members <==> m in was.members && m.id != id)
            && (was.leader != id ==> now.leader == was.leader)
            && (was.leader == id ==> FirstOther(was.members, id, now.leader))
  {
    LeftOnFields(ps[i].staff, id);
  }

  /** A new agent comes last in the first team and leads it if nobody did. */
  lemma AddedOnFields(ps: seq<Post>, id: string)
    requires ps != []
    ensures var was, now := ps[0].staff, Added(ps, id)[0].staff;
            && Added(ps, id)[1..] == ps[1..] && Added(ps, id)[0].id == ps[0].id
            && now.members == was.members + [Agent(id, [])]
            && now.leader == if was.leader == "" then id else was.leader
  {
  }

  lemma {:induction false} HomeMeans(ps: seq<Post>, id: string)
    ensures HomeOf(ps, id).None? ==> forall i :: 0 <= i < |ps| ==> !Sits(id, ps[i].staff.members)
    ensures HomeOf(ps, id).Some? ==>
              exists i :: 0 <= i < |ps| && ps[i].id == HomeOf(ps, id).value && Sits(id, ps[i].staff.members)
                          && forall j :: 0 <= j < i ==> !Sits(id, ps[j].staff.members)
  {
    if ps != [] && !Sits(id, ps[0].staff.members) {
      HomeMeans(ps[1..], id);
      if HomeOf(ps, id).Some? {
        var rest := ps[1..];
        var i :| 0 <= i < |rest| && rest[i].id == HomeOf(ps, id).value && Sits(id, rest[i].staff.members)
                 && forall j :: 0 <= j < i ==> !Sits(id, rest[j].staff.members);
        assert ps[i + 1].id == HomeOf(ps, id).value;
        assert forall j :: 0 < j <= i ==> ps[j] == rest[j - 1];
      }
    }
  }

  ghost predicate Known(ps: seq<Post>, id: string)
  {
    exists i :: 0 <= i < |ps| && Sits(id, ps[i].staff.members)
  }

  lemma RemovedGood(ps: seq<Post>, id: string)
    requires Good(ps)
    ensures Good(Removed(ps, id)) && !Known(Removed(ps, id), id)
  {
    forall i | 0 <= i < |ps|
      ensures LeaderOk(Left(ps[i].staff, id)) && DistinctMembers(Left(ps[i].staff, id).members)
      ensures forall x :: Sits(x, Left(ps[i].staff, id).members) <==> x != id && Sits(x, ps[i].staff.members)
    {
      LeftOk(ps[i].staff, id);
    }
  }

  lemma AddedStaffOk(s: Staff, id: string)
    requires LeaderOk(s) && DistinctMembers(s.members) && !Sits(id, s.members)
    ensures LeaderOk(AddedStaff(s, id)) && DistinctMembers(AddedStaff(s, id).members)
    ensures forall x :: Sits(x, AddedStaff(s, id).members) <==> x == id || Sits(x, s.members)
  {
    JoinedOk(s, Agent(id, []));
  }

  lemma AddedGood(ps: seq<Post>, id: string)
    requires Good(ps) && !Known(ps, id)
    ensures Good(Added(ps, id))
    ensures ps != [] ==> forall x :: Known(Added(ps, id), x) <==> x == id || Known(ps, x)
  {
    if ps != [] {
      AddedStaffOk(ps[0].staff, id);
      hide Sits, DistinctMembers, LeaderOk, AddedStaff;
      var r := Added(ps, id);
      assert r[0].staff == AddedStaff(ps[0].staff, id);
      assert forall i :: 1 <= i < |ps| ==> r[i] == ps[i];
      assert forall i, x :: 0 <= i < |ps| && Sits(x, ps[i].staff.members) ==> Known(ps, x);
      forall x | x == id || Known(ps, x) ensures Known(r, x) {
        if x == id {
          assert Sits(x, r[0].staff.members);
        } else {
          var i :| 0 <= i < |ps| && Sits(x, ps[i].staff.members);
          assert Sits(x, r[i].staff.members);
        }
      }
    }
  }

  /** What a move does to one team of a good list. */
  lemma MovedStaffOk(ps: seq<Post>, i: nat, a: Agent, to: string, leads: bool)
    requires Good(ps) && i < |ps| && IsTeam(ps, to)
    ensures var home := HomeOf(ps, a.id);
            var s := MovedStaff(ps[i], home, to, a, leads);
            && DistinctMembers(s.members)
            && (forall x :: Sits(x, s.members) <==>
                  if x == a.id && home.Some? then ps[i].id == to else Sits(x, ps[i].staff.members))
            && (LeaderOk(s) <==> ps[i].id != to || !leads || a.id == "" || home.Some?)
  {
    var home := HomeOf(ps, a.id);
    var s := ps[i].staff;
    HomeMeans(ps, a.id);
    if home.Some? {
      var h :| 0 <= h < |ps| && ps[h].id == home.value && Sits(a.id, ps[h].staff.members);
      assert forall k :: 0 <= k < |ps| && k != h ==> !Sits(a.id, ps[k].staff.members);
      if ps[i].id == to {
        if home.value != to {
          JoinedOk(s, a);
          LedOk(Joined(s, a), a.id, leads);
        } else {
          LedOk(s, a.id, leads);
        }
      } else if ps[i].id == home.value {
        LeftOk(s, a.id);
      }
    } else if ps[i].id == to {
      LedOk(s, a.id, leads);
    }
  }

  /** A move keeps every team's leader a member, and every agent in one seat, exactly
      when the agent is somewhere to begin with, or is not to lead. */
  lemma MoveGoodExactly(ps: seq<Post>, a: Agent, to: string, leads: bool)
    requires Good(ps)
    ensures Good(Moved(ps, a, to, leads)) <==> !IsTeam(ps, to) || !leads || a.id == "" || Known(ps, a.id)
    ensures Known(ps, a.id) && IsTeam(ps, to) ==>
              forall i :: 0 <= i < |ps| ==> (Sits(a.id, Moved(ps, a, to, leads)[i].staff.members) <==> ps[i].id == to)
  {
    hide MovedStaff, Sits, DistinctMembers, LeaderOk, HomeOf;
    var r := Moved(ps, a, to, leads);
    HomeMeans(ps, a.id);
    if IsTeam(ps, to) {
      var t :| 0 <= t < |ps| && ps[t].id == to;
      forall i | 0 <= i < |ps|
        ensures DistinctMembers(r[i].staff.members)
        ensures forall x :: Sits(x, r[i].staff.members) <==>
                  if x == a.id && HomeOf(ps, a.id).Some? then ps[i].id == to else Sits(x, ps[i].staff.members)
        ensures LeaderOk(r[i].staff) <==> ps[i].id != to || !leads || a.id == "" || HomeOf(ps, a.id).Some?
      {
        MovedStaffOk(ps, i, a, to, leads);
      }
      assert LeaderOk(r[t].staff) <==> !leads || a.id == "" || HomeOf(ps, a.id).Some?;
    }
  }

  // ---- nobody is lost ------------------------------------------------------------------

  /** Every agent in the organisation, as often as it sits somewhere. */
  ghost function Crew(ps: seq<Post>): multiset<Agent>
  {
    if ps == [] then multiset{} else multiset(ps[0].staff.members) + Crew(ps[1..])
  }

  lemma {:induction false} CrewUpdate(ps: seq<Post>, i: nat, p: Post)
    requires i < |ps|
    ensures Crew(ps[i := p]) + multiset(ps[i].staff.members) == Crew(ps) + multiset(p.staff.members)
  {
    if i == 0 {
      assert ps[0 := p][1..] == ps[1..];
    } else {
      var head := multiset(ps[0].staff.members);
      assert ps[i := p][1..] == ps[1..][i - 1 := p];
      assert Crew(ps[i := p]) == head + Crew(ps[1..][i - 1 := p]) && Crew(ps) == head + Crew(ps[1..]);
      CrewUpdate(ps[1..], i - 1, p);
      Shift(head, Crew(ps[1..][i - 1 := p]), multiset(ps[i].staff.members), Crew(ps[1..]), multiset(p.staff.members));
    }
  }

  lemma Shift(head: multiset<Agent>, x: multiset<Agent>, m: multiset<Agent>, y: multiset<Agent>, n: multiset<Agent>)
    requires x + m == y + n
    ensures (head + x) + m == (head + y) + n
  {
    assert (head + x) + m == head + (x + m);
    assert (head + y) + n == head + (y + n);
  }

  lemma {:induction false} WithoutAbsent(members: seq<Agent>, id: string)
    requires !Sits(id, members)
    ensures Without(members, id) == members
  {
    if members != [] {
      assert members[0].id != id;
      assert forall i :: 0 <= i < |members| - 1 ==> members[1..][i] == members[i + 1];
      WithoutAbsent(members[1..], id);
      assert members == [members[0]] + members[1..];
    }
  }

  lemma {:induction false} WithoutOne(members: seq<Agent>, a: Agent)
    requires DistinctMembers(members) && a in members
    ensures multiset(Without(members, a.id)) + multiset{a} == multiset(members)
  {
    var head, tail := members[0], members[1..];
    assert members == [head] + tail;
    if head.id == a.id {
      assert head == a by {
        var i :| 0 <= i < |members| && members[i] == a;
        assert i == 0;
      }
      assert !Sits(a.id, tail) by {
        forall j | 0 <= j < |tail| ensures tail[j].id != a.id { assert members[j + 1] == tail[j]; }
      }
      WithoutAbsent(tail, a.id);
    } else {
      assert a in tail;
      WithoutOne(tail, a);
    }
  }

  lemma {:induction false} OneHome(ps: seq<Post>, a: Agent, h: nat)
    requires Good(ps) && h < |ps| && a in ps[h].staff.members
    ensures HomeOf(ps, a.id) == Some(ps[h].id)
  {
    HomeMeans(ps, a.id);
    assert Sits(a.id, ps[h].staff.members);
  }

  /** A move of an agent that sits somewhere touches two teams at most. */
  lemma MoveTouchesTwo(ps: seq<Post>, a: Agent, to: string, leads: bool, h: nat, t: nat)
    requires Good(ps) && h < |ps| && t < |ps| && h != t && a in ps[h].staff.members && ps[t].id == to
    ensures Moved(ps, a, to, leads)
            == ps[h := Post(ps[h].id, Left(ps[h].staff, a.id))]
                 [t := Post(to, Led(Joined(ps[t].staff, a), a.id, leads))]
  {
    OneHome(ps, a, h);
    assert ps[h].id != to;
    assert IsTeam(ps, to);
  }

  lemma Transfer(c0: multiset<Agent>, c1: multiset<Agent>, c2: multiset<Agent>, h: multiset<Agent>,
                 h': multiset<Agent>, t: multiset<Agent>, t': multiset<Agent>, a: Agent)
    requires c1 + h == c0 + h' && h' + multiset{a} == h
    requires c2 + t == c1 + t' && t' == t + multiset{a}
    ensures c2 == c0
  {
    forall x ensures c2[x] == c0[x] {
      assert (c1 + h)[x] == (c0 + h')[x] && (h' + multiset{a})[x] == h[x];
      assert (c2 + t)[x] == (c1 + t')[x];
    }
  }

  lemma TwoUpdatesConserve(ps: seq<Post>, h: nat, t: nat, p: Post, q: Post, a: Agent)
    requires h < |ps| && t < |ps| && h != t
    requires multiset(p.staff.members) + multiset{a} == multiset(ps[h].staff.members)
    requires q.staff.members == ps[t].staff.members + [a]
    ensures Crew(ps[h := p][t := q]) == Crew(ps)
  {
    CrewUpdate(ps, h, p);
    CrewUpdate(ps[h := p], t, q);
    assert multiset(q.staff.members) == multiset(ps[t].staff.members) + multiset{a};
    Transfer(Crew(ps), Crew(ps[h := p]), Crew(ps[h := p][t := q]), multiset(ps[h].staff.members),
             multiset(p.staff.members), multiset(ps[t].staff.members), multiset(q.staff.members), a);
  }

  /** And loses or copies nobody, whichever teams they are. */
  lemma MoveConservesCrew(ps: seq<Post>, a: Agent, to: string, leads: bool, h: nat)
    requires Good(ps) && h < |ps| && a in ps[h].staff.members
    ensures Crew(Moved(ps, a, to, leads)) == Crew(ps)
  {
    if IsTeam(ps, to) {
      var t :| 0 <= t < |ps| && ps[t].id == to;
      if t != h {
        MoveTouchesTwo(ps, a, to, leads, h, t);
        WithoutOne(ps[h].staff.members, a);
        TwoUpdatesConserve(ps, h, t, Post(ps[h].id, Left(ps[h].staff, a.id)),
                           Post(to, Led(Joined(ps[t].staff, a), a.id, leads)), a);
      } else {
        OneHome(ps, a, h);
        SameMembersSameCrew(ps, Moved(ps, a, to, leads));
      }
    }
  }

  lemma {:induction false} SameMembersSameCrew(ps: seq<Post>, qs: seq<Post>)
    requires |ps| == |qs| && forall i :: 0 <= i < |ps| ==> ps[i].staff.members == qs[i].staff.members
    ensures Crew(ps) == Crew(qs)
  {
    if ps != [] {
      forall i | 0 <= i < |ps| - 1 ensures ps[1..][i].staff.members == qs[1..][i].staff.members {
        assert ps[i + 1].staff.members == qs[i + 1].staff.members;
      }
      SameMembersSameCrew(ps[1..], qs[1..]);
    }
  }

  // ---- the same, in place ----------------------------------------------------------------

  /** A team as an object of the document, its members and leader assigned in place. */
  class Team {
    const id: string
    var leader: string
    var members: seq<Agent>

    constructor (id: string)
      ensures Snapshot() == Post(id, Staff("", []))
    {
      this.id, leader, members := id, "", [];
    }

    function Snapshot(): Post
      reads this
    {
      Post(id, Staff(leader, members))
    }

    method Leave(agent: string)
      modifies this
      ensures Snapshot() == Post(id, Left(old(Snapshot().staff), agent))
    {
      members := Without(members, agent);
      if leader == agent {
        leader := FirstId(members);
      }
    }

    method Join(a: Agent)
      modifies this
      ensures Snapshot() == Post(id, Joined(old(Snapshot().staff), a))
    {
      members := members + [a];
    }

    method Lead(agent: string, leads: bool)
      modifies this
      ensures Snapshot() == Post(id, Led(old(Snapshot().staff), agent, leads))
    {
      if leads {
        leader := agent;
      } else if leader == agent {
        leader := FirstId(Without(members, agent));
      }
    }
  }

  function Snapshots(ts: seq<Team>): (ps: seq<Post>)
    reads ts
    ensures |ps| == |ts| && forall i :: 0 <= i < |ts| ==> ps[i] == ts[i].Snapshot()
  {
    if ts == [] then [] else [ts[0].Snapshot()] + Snapshots(ts[1..])
  }

  ghost predicate DistinctTeams(ts: seq<Team>)
    reads ts
  {
    forall i, j :: 0 <= i < j < |ts| ==> ts[i] != ts[j] && ts[i].id != ts[j].id
  }

  method FindHome(ts: seq<Team>, id: string) returns (home: Team?)
    ensures home == null ==> HomeOf(Snapshots(ts), id) == None
    ensures home != null ==> home in ts && HomeOf(Snapshots(ts), id) == Some(home.id)
  {
    var i := |ts|;
    home := null;
    while i > 0
      invariant 0 <= i <= |ts|
      invariant home == null ==> HomeOf(Snapshots(ts)[i..], id) == None
      invariant home != null ==> home in ts && HomeOf(Snapshots(ts)[i..], id) == Some(home.id)
    {
      i := i - 1;
      assert Snapshots(ts)[i..][1..] == Snapshots(ts)[i + 1..];
      if exists k :: 0 <= k < |ts[i].members| && ts[i].members[k].id == id {
        home := ts[i];
      }
    }
  }

  method FindTeam(ts: seq<Team>, id: string) returns (team: Team?)
    ensures team == null <==> !IsTeam(Snapshots(ts), id)
    ensures team != null ==> team in ts && team.id == id
  {
    team := null;
    for i := 0 to |ts|
      invariant team == null ==> forall k :: 0 <= k < i ==> ts[k].id != id
      invariant team != null ==> team in ts && team.id == id
    {
      if team == null && ts[i].id == id {
        team := ts[i];
      }
    }
    if team != null {
      var k :| 0 <= k < |ts| && ts[k] == team;
      assert Snapshots(ts)[k].id == id;
    }
  }

  lemma MovedNowhere(ps: seq<Post>, a: Agent, to: string, leads: bool)
    requires !IsTeam(ps, to)
    ensures Moved(ps, a, to, leads) == ps
  {
  }

  lemma MovedTeamByTeam(ps: seq<Post>, qs: seq<Post>, a: Agent, to: string, leads: bool)
    requires IsTeam(ps, to) && |qs| == |ps|
    requires forall i :: 0 <= i < |ps| ==>
               qs[i] == Post(ps[i].id, MovedStaff(ps[i], HomeOf(ps, a.id), to, a, leads))
    ensures qs == Moved(ps, a, to, leads)
  {
  }

  /** The agent's home and the other team, updated where they stand; no other team. */
  method MoveAgent(ts: seq<Team>, a: Agent, to: string, leads: bool)
    requires DistinctTeams(ts)
    modifies ts
    ensures Snapshots(ts) == Moved(old(Snapshots(ts)), a, to, leads)
  {
    hide Left, Joined, Led, HomeOf, Sits, Snapshots, Moved;
    var from := FindHome(ts, a.id);
    var team := FindTeam(ts, to);
    if team == null {
      MovedNowhere(Snapshots(ts), a, to, leads);
      return;
    }
    ghost var was, home := Snapshots(ts), HomeOf(Snapshots(ts), a.id);
    assert forall i :: 0 <= i < |ts| ==> (ts[i].id == to <==> ts[i] == team);
    assert from != null ==> forall i :: 0 <= i < |ts| ==> (ts[i].id == home.value <==> ts[i] == from);
    if from != null && from != team {
      from.Leave(a.id);
      team.Join(a);
    }
    team.Lead(a.id, leads);
    assert forall i :: 0 <= i < |ts| ==> ts[i].Snapshot() == Post(was[i].id, MovedStaff(was[i], home, to, a, leads));
    MovedTeamByTeam(was, Snapshots(ts), a, to, leads);
  }

  /** Every team loses the agent, and its leader if that was the one. */
  method RemoveAgent(ts: seq<Team>, id: string)
    requires DistinctTeams(ts)
    modifies ts
    ensures Snapshots(ts) == Removed(old(Snapshots(ts)), id)
  {
    hide Snapshots, Left;
    ghost var was := Snapshots(ts);
    for i := 0 to |ts|
      invariant forall k :: 0 <= k < i ==> ts[k].Snapshot() == Post(was[k].id, Left(was[k].staff, id))
      invariant forall k :: i <= k < |ts| ==> ts[k].Snapshot() == was[k]
    {
      assert ts[i].Snapshot() == was[i];
      ts[i].Leave(id);
    }
  }

  /** A new agent lands in the first team. */
  method AddAgent(ts: seq<Team>, id: string) returns (done: bool)
    requires DistinctTeams(ts)
    modifies ts
    ensures done == (ts != [])
    ensures Snapshots(ts) == Added(old(Snapshots(ts)), id)
  {
    if ts == [] {
      return false;
    }
    var team := ts[0];
    ghost var was := Snapshots(ts);
    team.members := team.members + [Agent(id, [])];
    if team.leader == "" {
      team.leader := id;
    }
    assert forall i :: 1 <= i < |ts| ==> ts[i].Snapshot() == was[i];
    return true;
  }
}
