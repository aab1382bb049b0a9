/** Mission windows: which days a mission confers anything, and why sweeping the
    closed ones changes no answer that is still to be asked. Days are numbered. */
module Missions {
  import opened Basics
  import opened Lex

  /** A date field as `_parse` reads it: absent, unreadable text, or a day. */
  datatype DateText = Absent | Unreadable | Iso(day: int)

  datatype Status = Proposed | Active | Completed | Disbanded | Unknown

  /** Proposed or active, from the start date on and up to the end date; a date that is
      absent or unreadable does not bound it. */
  ghost predicate Confers(status: Status, startsOn: DateText, endsOn: DateText, on: int)
  {
    && (status == Proposed || status == Active)
    && (startsOn.Iso? ==> startsOn.day <= on)
    && (endsOn.Iso? ==> on <= endsOn.day)
  }

  predicate WindowIsOpen(status: Status, startsOn: DateText, endsOn: DateText, on: int): (open: bool)
    ensures open <==> Confers(status, startsOn, endsOn, on)
  {
    if status == Completed || status == Disbanded then false
    else if status != Proposed && status != Active then false
    else if startsOn.Iso? && on < startsOn.day then false
    else if endsOn.Iso? && endsOn.day < on then false
    else true
  }

  /** The open days of a window form an interval. */
  lemma OpenDaysAreAnInterval(status: Status, startsOn: DateText, endsOn: DateText, a: int, b: int, c: int)
    requires a <= b <= c
    requires WindowIsOpen(status, startsOn, endsOn, a) && WindowIsOpen(status, startsOn, endsOn, c)
    ensures WindowIsOpen(status, startsOn, endsOn, b)
  {
  }

  datatype Grant = Grant(status: Status, startsOn: DateText, endsOn: DateText, peers: seq<string>)

  predicate GrantIsOpen(g: Grant, on: int)
  {
    WindowIsOpen(g.status, g.startsOn, g.endsOn, on)
  }

  ghost predicate Reaches(grants: seq<Grant>, on: int, peer: string)
  {
    exists i :: 0 <= i < |grants| && Confers(grants[i].status, grants[i].startsOn, grants[i].endsOn, on)
      && peer in grants[i].peers
  }

  /** Everyone reachable on the day, once each, in order. */
  method OpenPeers(grants: seq<Grant>, on: int) returns (peers: seq<string>)
    ensures Ascending(peers)
    ensures forall p :: p in peers <==> Reaches(grants, on, p)
  {
    var found: seq<string> := [];
    for i := 0 to |grants|
      invariant forall p :: p in found <==> Reaches(grants[..i], on, p)
    {
      assert grants[..i + 1] == grants[..i] + [grants[i]];
      ghost var before := found;
      if GrantIsOpen(grants[i], on) {
        found := found + grants[i].peers;
      }
      forall p ensures p in found <==> Reaches(grants[..i + 1], on, p) {
        if Reaches(grants[..i], on, p) {
          var j :| 0 <= j < i && GrantIsOpen(grants[j], on) && p in grants[j].peers;
          assert grants[..i + 1][j] == grants[j];
        }
        if GrantIsOpen(grants[i], on) && p in grants[i].peers {
          assert grants[..i + 1][i] == grants[i];
        }
        if Reaches(grants[..i + 1], on, p) {
          var j :| 0 <= j < i + 1 && GrantIsOpen(grants[..i + 1][j], on) && p in grants[..i + 1][j].peers;
          if j < i { assert grants[..i][j] == grants[j]; }
        }
      }
    }
    assert grants[..|grants|] == grants;
    peers := Sorted(Elements(found));
  }

  /** What a sweep reads and writes of one mission. */
  datatype Record = Record(id: string, status: Status, startsOn: DateText, endsOn: DateText)

  predicate OpenOn(r: Record, on: int)
  {
    WindowIsOpen(r.status, r.startsOn, r.endsOn, on)
  }

  /** Still marked open, and past its end date. */
  predicate Overdue(r: Record, today: int)
  {
    (r.status == Proposed || r.status == Active) && r.endsOn.Iso? && r.endsOn.day < today
  }

  function SweepOne(r: Record, today: int): Record
  {
    if Overdue(r, today) then r.(status := Completed) else r
  }

  function SweepAll(rs: seq<Record>, today: int): (swept: seq<Record>)
    ensures |swept| == |rs|
    ensures forall i :: 0 <= i < |rs| ==> swept[i] == SweepOne(rs[i], today)
  {
    if rs == [] then [] else [SweepOne(rs[0], today)] + SweepAll(rs[1..], today)
  }

  function OverdueIds(rs: seq<Record>, today: int): seq<string>
  {
    if rs == [] then []
    else OverdueIds(rs[..|rs| - 1], today)
         + if Overdue(rs[|rs| - 1], today) then [rs[|rs| - 1].id] else []
  }

  lemma {:induction false} OverdueIdsInOrder(a: seq<Record>, b: seq<Record>, today: int)
    ensures OverdueIds(a + b, today) == OverdueIds(a, today) + OverdueIds(b, today)
  {
    if b == [] {
      assert a + b == a;
    } else {
      assert (a + b)[..|a + b| - 1] == a + b[..|b| - 1];
      OverdueIdsInOrder(a, b[..|b| - 1], today);
    }
  }

  /** One id for a mission that is proposed or active though its end date is past. */
  lemma OverdueId(r: Record, today: int)
    ensures OverdueIds([r], today)
            == if (r.status == Proposed || r.status == Active) && r.endsOn.Iso? && today > r.endsOn.day then [r.id]
               else []
  {
    assert [r][..0] == [];
  }

  class Mission {
    const id: string
    const startsOn: DateText
    const endsOn: DateText
    var status: Status

    constructor (id: string, status: Status, startsOn: DateText, endsOn: DateText)
      ensures Snapshot() == Record(id, status, startsOn, endsOn)
    {
      this.id, this.status, this.startsOn, this.endsOn := id, status, startsOn, endsOn;
    }

    function Snapshot(): Record
      reads this
    {
      Record(id, status, startsOn, endsOn)
    }
  }

  function Snapshots(ms: seq<Mission>): (rs: seq<Record>)
    reads ms
    ensures |rs| == |ms| && forall i :: 0 <= i < |ms| ==> rs[i] == ms[i].Snapshot()
  {
    if ms == [] then [] else [ms[0].Snapshot()] + Snapshots(ms[1..])
  }

  /** Marks every overdue mission completed, in place; returns their ids in order. */
  method Sweep(missions: seq<Mission>, today: int) returns (swept: seq<string>)
    requires forall i, j :: 0 <= i < j < |missions| ==> missions[i] != missions[j]
    modifies missions
    ensures Snapshots(missions) == SweepAll(old(Snapshots(missions)), today)
    ensures swept == OverdueIds(old(Snapshots(missions)), today)
    ensures forall m :: m in missions ==>
              m.status == if old(m.status == Proposed || m.status == Active) && m.endsOn.Iso? && today > m.endsOn.day
                          then Completed else old(m.status)
  {
    hide Snapshots, SweepAll;
    swept := [];
    ghost var was := Snapshots(missions);
    for i := 0 to |missions|
      invariant forall k :: 0 <= k < i ==> missions[k].Snapshot() == SweepOne(was[k], today)
      invariant forall k :: i <= k < |missions| ==> missions[k].Snapshot() == was[k]
      invariant swept == OverdueIds(was[..i], today)
    {
      var m := missions[i];
      assert was[..i + 1][..i] == was[..i];
      assert m.Snapshot() == was[i];
      if m.status == Proposed || m.status == Active {
        if m.endsOn.Iso? && m.endsOn.day < today {
          m.status := Completed;
          swept := swept + [m.id];
        }
      }
    }
    assert was[..|missions|] == was;
    forall m | m in missions
      ensures m.status == if old(m.status == Proposed || m.status == Active) && m.endsOn.Iso? && today > m.endsOn.day
                          then Completed else old(m.status)
    {
      var k :| 0 <= k < |missions| && missions[k] == m;
      assert m.Snapshot() == SweepOne(was[k], today);
    }
  }

  /** The only answers a sweep changes are about days already past: those on which
      an overdue mission was still open. */
  lemma SweepChangesExactly(r: Record, today: int, on: int)
    ensures OpenOn(SweepOne(r, today), on) != OpenOn(r, on) <==> Overdue(r, today) && OpenOn(r, on)
    ensures today <= on ==> OpenOn(SweepOne(r, today), on) == OpenOn(r, on)
  {
  }

  function SweepOnDays(rs: seq<Record>, days: seq<int>): seq<Record>
    decreases |days|
  {
    if days == [] then rs else SweepOnDays(SweepAll(rs, days[0]), days[1..])
  }

  /** However often anybody swept, and on whatever days up to now, today's answer
      is the one never having swept would give. */
  lemma {:induction false} MissedSweepsAreUntidyNotUnsafe(rs: seq<Record>, days: seq<int>, on: int, i: nat)
    requires forall k :: 0 <= k < |days| ==> days[k] <= on
    requires i < |rs|
    ensures |SweepOnDays(rs, days)| == |rs|
    ensures OpenOn(SweepOnDays(rs, days)[i], on) == OpenOn(rs[i], on)
    decreases |days|
  {
    if days != [] {
      MissedSweepsAreUntidyNotUnsafe(SweepAll(rs, days[0]), days[1..], on, i);
    }
  }

  /** Two sweeps, in either order, are one sweep on the later of the two days;
      sweeping twice on one day is sweeping once. */
  lemma SweepsCompose(rs: seq<Record>, a: int, b: int)
    ensures SweepAll(SweepAll(rs, a), b) == SweepAll(rs, if a <= b then b else a)
    ensures a == b ==> OverdueIds(SweepAll(rs, a), b) == []
  {
    NothingLeftOverdue(rs, a);
  }

  lemma {:induction false} NothingLeftOverdue(rs: seq<Record>, today: int)
    ensures OverdueIds(SweepAll(rs, today), today) == []
  {
    var swept := SweepAll(rs, today);
    if rs != [] {
      var n := |rs| - 1;
      NothingLeftOverdue(rs[..n], today);
      assert swept[..n] == SweepAll(rs[..n], today);
      assert !Overdue(swept[n], today);
    }
  }

  /** Grants compiled from swept missions reach the same peers from that day on. */
  lemma SweepKeepsPeers(before: seq<Grant>, after: seq<Grant>, today: int, on: int, peer: string)
    requires today <= on && |before| == |after|
    requires forall i :: 0 <= i < |before| ==>
      var r := SweepOne(Record("", before[i].status, before[i].startsOn, before[i].endsOn), today);
      after[i] == before[i].(status := r.status)
    ensures Reaches(before, on, peer) <==> Reaches(after, on, peer)
  {
  }
}
