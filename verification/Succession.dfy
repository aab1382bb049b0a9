/** Stand-ins over whole runs: assignments opened, closed and lapsing on different
    days, and when two halves of a control can meet in one hand. */
module Succession {
  import opened Basics
  import opened Lex
  import opened Missions
  import opened Continuity

  const DEFAULT_STANDING_IN_DAYS := 7

  datatype Assignment = Assignment(failed: string, successor: string, byHierarchy: bool,
                                   decisions: seq<string>, withheld: seq<Withheld>,
                                   active: bool, startsOn: DateText, endsOn: DateText)
  {
    predicate IsOpen(on: int)
    {
      active && WindowIsOpen(Active, startsOn, endsOn, on)
    }
  }

  function OpenAssignment(failed: string, successor: string, leaderMandate: seq<string>,
                          successorMandate: seq<string>, rules: seq<Separation>,
                          byHierarchy: bool, endsOn: DateText, today: int): Assignment
  {
    if byHierarchy then
      Assignment(failed, successor, true, [], [], true, Absent, Absent)
    else
      var (granted, withheld) := Split(Sorted(Elements(leaderMandate)), Elements(successorMandate), rules);
      Assignment(failed, successor, false, granted, withheld, true, Absent,
                 if endsOn.Absent? then Iso(today + DEFAULT_STANDING_IN_DAYS) else endsOn)
  }

  /** What is opened: by hierarchy nothing is conferred or withheld and it has no end; else
      what a split of the failed agent's mandate gives, for seven days if no end is named. */
  lemma OpenedOnFields(failed: string, successor: string, mandate: seq<string>, holds: seq<string>,
                       rules: seq<Separation>, byHierarchy: bool, endsOn: DateText, today: int)
    ensures var a := OpenAssignment(failed, successor, mandate, holds, rules, byHierarchy, endsOn, today);
            && a.failed == failed && a.successor == successor && a.byHierarchy == byHierarchy
            && a.active && a.startsOn == Absent
            && (byHierarchy ==> a.decisions == [] && a.withheld == [] && a.endsOn == Absent)
            && (!byHierarchy ==> IsSplit(a.decisions, a.withheld, Elements(mandate), Elements(holds), rules)
                                 && a.endsOn == if endsOn == Absent then Iso(today + 7) else endsOn)
  {
    hide IsSplit;
    SplitIsASplit(Sorted(Elements(mandate)), Elements(holds), rules);
    SortedElements(Elements(mandate));
  }

  /** An agent of the chart; an empty manager or successor is none. */
  datatype Agent = Agent(mandate: seq<string>, manager: string, successor: string)

  type Chart = map<string, Agent>

  function Own(chart: Chart, who: string): (own: set<string>)
    ensures forall d :: d in own <==> who in chart && d in chart[who].mandate
  {
    if who in chart then Elements(chart[who].mandate) else {}
  }

  /** Everything the open stand-ins of one agent confer on it that day. */
  function Covered(book: seq<Assignment>, who: string, on: int): set<string>
  {
    if book == [] then {}
    else
      var last := book[|book| - 1];
      Covered(book[..|book| - 1], who, on)
      + if last.successor == who && last.IsOpen(on) then Elements(last.decisions) else {}
  }

  lemma {:induction false} CoveredMeans(book: seq<Assignment>, who: string, on: int, d: string)
    ensures d in Covered(book, who, on) <==>
            exists i :: 0 <= i < |book| && book[i].successor == who && book[i].active && d in book[i].decisions
                        && (book[i].startsOn.Iso? ==> book[i].startsOn.day <= on)
                        && (book[i].endsOn.Iso? ==> on <= book[i].endsOn.day)
  {
    if book != [] {
      var n := |book| - 1;
      CoveredMeans(book[..n], who, on, d);
      assert forall i :: 0 <= i < n ==> book[..n][i] == book[i];
    }
  }

  /** On this day and every later one, two halves of a control held together by an
      agent, its own or covered, are both its own. */
  ghost predicate Kept(chart: Chart, rules: seq<Separation>, book: seq<Assignment>, today: int)
  {
    forall who, on, d, e ::
      today <= on && Clash(rules, d, e)
      && d in Own(chart, who) + Covered(book, who, on) && e in Own(chart, who) + Covered(book, who, on)
      ==> d in Own(chart, who) && e in Own(chart, who)
  }

  /** No assignment waits to start: `open_assignment` never sets `starts_on`. */
  predicate Started(book: seq<Assignment>)
  {
    forall i :: 0 <= i < |book| ==> book[i].startsOn == Absent
  }

  lemma {:induction false} CoverOnlyShrinks(book: seq<Assignment>, who: string, today: int, on: int)
    requires Started(book) && today <= on
    ensures Covered(book, who, on) <= Covered(book, who, today)
  {
    if book != [] { CoverOnlyShrinks(book[..|book| - 1], who, today, on); }
  }

  lemma CoveredAppend(book: seq<Assignment>, a: Assignment, who: string, on: int)
    ensures Covered(book + [a], who, on)
            == Covered(book, who, on) + if a.successor == who && a.IsOpen(on) then Elements(a.decisions) else {}
  {
  }

  /** What a grant split against `holds` can never do to a decision in `holds`
      or to another of its own. */
  lemma OpenedIsSafe(failed: string, successor: string, mandate: seq<string>, holds: seq<string>,
                     rules: seq<Separation>, byHierarchy: bool, endsOn: DateText, today: int, d: string, e: string)
    ensures var a := OpenAssignment(failed, successor, mandate, holds, rules, byHierarchy, endsOn, today);
            d in a.decisions ==> d !in holds && (e in holds || e in a.decisions ==> !Clash(rules, d, e))
  {
    if !byHierarchy {
      var order := Sorted(Elements(mandate));
      SplitIsASplit(order, Elements(holds), rules);
      var g := Elements(Split(order, Elements(holds), rules).0);
      if d in g && e in Elements(holds) + g {
        GrantedIsSafe(g, Elements(order), Elements(holds), rules, d, e);
      }
    }
  }

  /** None of its grants is one half of a control whose other half the successor
      would have on the day it opens. */
  ghost predicate MeetsNothing(a: Assignment, rules: seq<Separation>, has: set<string>, today: int)
  {
    a.IsOpen(today) ==> forall d, e :: d in a.decisions && e in has ==> !Clash(rules, d, e)
  }

  /** A split told of `holds` meets nothing there, nor among its own grants. */
  lemma OpenedMeetsNothing(failed: string, successor: string, mandate: seq<string>, holds: seq<string>,
                           rules: seq<Separation>, byHierarchy: bool, endsOn: DateText, today: int)
    ensures var a := OpenAssignment(failed, successor, mandate, holds, rules, byHierarchy, endsOn, today);
            MeetsNothing(a, rules, Elements(holds) + Elements(a.decisions), today)
            && Elements(a.decisions) !! Elements(holds)
  {
    var a := OpenAssignment(failed, successor, mandate, holds, rules, byHierarchy, endsOn, today);
    forall d, e | d in a.decisions && e in Elements(holds) + Elements(a.decisions)
      ensures d !in holds && !Clash(rules, d, e)
    {
      OpenedIsSafe(failed, successor, mandate, holds, rules, byHierarchy, endsOn, today, d, e);
    }
    forall d | d in a.decisions ensures d !in holds {
      OpenedIsSafe(failed, successor, mandate, holds, rules, byHierarchy, endsOn, today, d, d);
    }
  }

  lemma OldPair(chart: Chart, rules: seq<Separation>, book: seq<Assignment>, today: int, a: Assignment,
                who: string, on: int, d: string, e: string)
    requires Started(book) && a.startsOn == Absent && today <= on
    requires MeetsNothing(a, rules, Own(chart, a.successor) + Covered(book, a.successor, today) + Elements(a.decisions),
                          today)
    requires Clash(rules, d, e)
    requires d in Own(chart, who) + Covered(book + [a], who, on)
    requires e in Own(chart, who) + Covered(book + [a], who, on)
    ensures d in Own(chart, who) + Covered(book, who, on)
  {
    CoveredAppend(book, a, who, on);
    CoverOnlyShrinks(book, who, today, on);
  }

  lemma AddingKeeps(chart: Chart, rules: seq<Separation>, book: seq<Assignment>, today: int, a: Assignment)
    requires Kept(chart, rules, book, today) && Started(book) && a.startsOn == Absent
    requires MeetsNothing(a, rules, Own(chart, a.successor) + Covered(book, a.successor, today) + Elements(a.decisions),
                          today)
    ensures Kept(chart, rules, book + [a], today)
  {
    forall who, on, d, e | today <= on && Clash(rules, d, e)
      && d in Own(chart, who) + Covered(book + [a], who, on) && e in Own(chart, who) + Covered(book + [a], who, on)
      ensures d in Own(chart, who) && e in Own(chart, who)
    {
      assert Clash(rules, e, d);
      OldPair(chart, rules, book, today, a, who, on, d, e);
      OldPair(chart, rules, book, today, a, who, on, e, d);
    }
  }

  // ---- runs in which each split is told what the successor covers -------------

  datatype World = World(today: int, book: seq<Assignment>)

  datatype Step =
    | Open(failed: string, successor: string, mandate: seq<string>, byHierarchy: bool, endsOn: DateText)
    | Close(failed: string)
    | Pass(days: nat)

  function CloseAll(book: seq<Assignment>, failed: string): (r: seq<Assignment>)
    ensures |r| == |book|
    ensures forall i :: 0 <= i < |r| && book[i].failed != failed ==> r[i] == book[i]
    ensures forall i :: 0 <= i < |r| && book[i].failed == failed ==> !r[i].active && r[i] == book[i].(active := false)
  {
    if book == [] then []
    else
      var last := book[|book| - 1];
      CloseAll(book[..|book| - 1], failed) + [if last.failed == failed then last.(active := false) else last]
  }

  lemma {:induction false} ClosingKeeps(chart: Chart, rules: seq<Separation>, book: seq<Assignment>,
                                        today: int, failed: string)
    requires Started(book)
    ensures Started(CloseAll(book, failed))
    ensures Kept(chart, rules, book, today) ==> Kept(chart, rules, CloseAll(book, failed), today)
  {
    hide CloseAll, Covered, Clash;
    ClosingCoversLess(book, failed);
  }

  lemma {:induction false} ClosingCoversLess(book: seq<Assignment>, failed: string)
    requires Started(book)
    ensures Started(CloseAll(book, failed))
    ensures forall who, on :: Covered(CloseAll(book, failed), who, on) <= Covered(book, who, on)
  {
    if book != [] {
      var n := |book| - 1;
      var r := CloseAll(book[..n], failed);
      var x := if book[n].failed == failed then book[n].(active := false) else book[n];
      ClosingCoversLess(book[..n], failed);
      forall who, on ensures Covered(r + [x], who, on) <= Covered(book, who, on) {
        CoveredAppend(r, x, who, on);
      }
    }
  }

  function Holds(chart: Chart, w: World, who: string): seq<string>
  {
    Sorted(Own(chart, who) + Covered(w.book, who, w.today))
  }

  function Apply(chart: Chart, rules: seq<Separation>, w: World, s: Step): World
  {
    match s
    case Open(failed, successor, mandate, byHierarchy, endsOn) =>
      w.(book := w.book + [OpenAssignment(failed, successor, mandate, Holds(chart, w, successor), rules,
                                          byHierarchy, endsOn, w.today)])
    case Close(failed) => w.(book := CloseAll(w.book, failed))
    case Pass(days) => w.(today := w.today + days)
  }

  function Run(chart: Chart, rules: seq<Separation>, w: World, steps: seq<Step>): World
    decreases |steps|
  {
    if steps == [] then w else Run(chart, rules, Apply(chart, rules, w, steps[0]), steps[1..])
  }

  lemma AddingOpenedKeeps(chart: Chart, rules: seq<Separation>, book: seq<Assignment>, today: int,
                          holds: seq<string>, a: Assignment)
    requires Kept(chart, rules, book, today) && Started(book) && a.startsOn == Absent
    requires Elements(holds) == Own(chart, a.successor) + Covered(book, a.successor, today)
    requires MeetsNothing(a, rules, Elements(holds) + Elements(a.decisions), today)
    ensures Kept(chart, rules, book + [a], today) && Started(book + [a])
  {
    AddingKeeps(chart, rules, book, today, a);
  }

  lemma OpeningKeeps(chart: Chart, rules: seq<Separation>, w: World, s: Step)
    requires s.Open? && Kept(chart, rules, w.book, w.today) && Started(w.book)
    ensures var w' := Apply(chart, rules, w, s); Kept(chart, rules, w'.book, w'.today) && Started(w'.book)
  {
    var holds := Holds(chart, w, s.successor);
    SortedElements(Own(chart, s.successor) + Covered(w.book, s.successor, w.today));
    OpenedMeetsNothing(s.failed, s.successor, s.mandate, holds, rules, s.byHierarchy, s.endsOn, w.today);
    AddingOpenedKeeps(chart, rules, w.book, w.today, holds,
      OpenAssignment(s.failed, s.successor, s.mandate, holds, rules, s.byHierarchy, s.endsOn, w.today));
  }

  lemma StepKeeps(chart: Chart, rules: seq<Separation>, w: World, s: Step)
    requires Kept(chart, rules, w.book, w.today) && Started(w.book)
    ensures var w' := Apply(chart, rules, w, s); Kept(chart, rules, w'.book, w'.today) && Started(w'.book)
  {
    match s
    case Open(_, _, _, _, _) => OpeningKeeps(chart, rules, w, s);
    case Close(failed) => ClosingKeeps(chart, rules, w.book, w.today, failed);
    case Pass(days) =>
  }

  /** Whole runs: however many stand-ins overlap, are closed or lapse, none of them
      ever brings two halves of a control into one hand. */
  lemma {:induction false} RunKeepsSeparation(chart: Chart, rules: seq<Separation>, w: World, steps: seq<Step>)
    requires Kept(chart, rules, w.book, w.today) && Started(w.book)
    ensures var w' := Run(chart, rules, w, steps); Kept(chart, rules, w'.book, w'.today) && Started(w'.book)
    decreases |steps|
  {
    if steps != [] {
      StepKeeps(chart, rules, w, steps[0]);
      RunKeepsSeparation(chart, rules, Apply(chart, rules, w, steps[0]), steps[1..]);
    }
  }

  lemma EmptyBookKeeps(chart: Chart, rules: seq<Separation>, today: int)
    ensures Kept(chart, rules, [], today) && Started([])
  {
  }

  // ---- runs as the organisation is wired --------------------------------------

  /** The declared successor, or with none declared the manager. */
  function SuccessorOf(chart: Chart, id: string): Option<string>
  {
    if id !in chart then None
    else
      var named := if chart[id].successor != "" then chart[id].successor else chart[id].manager;
      if named in chart then Some(named) else None
  }

  predicate ActedFor(book: seq<Assignment>, failed: string, on: int)
  {
    exists i :: 0 <= i < |book| && book[i].failed == failed && book[i].IsOpen(on)
  }

  /** The wiring hands the split the successor's own mandate and nothing else. */
  function StandInFor(chart: Chart, rules: seq<Separation>, w: World, id: string, endsOn: DateText)
    : (r: Option<Assignment>)
    ensures r.Some? ==> r.value.startsOn == Absent
  {
    var successor := SuccessorOf(chart, id);
    if successor.None? || successor.value == id then None
    else if ActedFor(w.book, successor.value, w.today) then None
    else Some(OpenAssignment(id, successor.value, chart[id].mandate, chart[successor.value].mandate, rules,
                             chart[id].successor == "", endsOn, w.today))
  }

  /** Somebody stands in exactly when there is a successor in the chart, the declared one or
      with none declared the manager, who is another agent and is itself not stood in for. */
  lemma StandInOnFields(chart: Chart, rules: seq<Separation>, w: World, id: string, endsOn: DateText)
    ensures var r := StandInFor(chart, rules, w, id, endsOn);
            && (r.Some? <==>
                  id in chart
                  && exists s :: s in chart
                                 && s == (if chart[id].successor == "" then chart[id].manager else chart[id].successor)
                                 && s != id && forall a :: a in w.book && a.failed == s ==> !OpenNow(a, w.today))
            && (r.Some? ==>
                  r.value.failed == id && r.value.byHierarchy == (chart[id].successor == "")
                  && r.value.successor == if chart[id].successor == "" then chart[id].manager else chart[id].successor)
  {
    hide OpenAssignment;
    if id in chart && SuccessorOf(chart, id).Some? {
      OpenedOnFields(id, SuccessorOf(chart, id).value, chart[id].mandate, chart[SuccessorOf(chart, id).value].mandate,
                     rules, chart[id].successor == "", endsOn, w.today);
    }
  }

  /** It confers something on the day. */
  ghost predicate OpenNow(a: Assignment, on: int)
  {
    a.active && (a.startsOn.Iso? ==> a.startsOn.day <= on) && (a.endsOn.Iso? ==> on <= a.endsOn.day)
  }

  /** Something the caller can check first: the window is over before it starts, or
      no grant meets its other half among what the successor already stands in for. */
  ghost predicate NoOverlap(a: Assignment, rules: seq<Separation>, covered: set<string>, today: int)
  {
    (a.endsOn.Iso? && a.endsOn.day < today)
    || forall d, e :: d in a.decisions && e in covered ==> !Clash(rules, d, e)
  }

  lemma HarmlessAdditionKeeps(chart: Chart, rules: seq<Separation>, book: seq<Assignment>, today: int, a: Assignment)
    requires Kept(chart, rules, book, today) && Started(book) && a.startsOn == Absent
    requires MeetsNothing(a, rules, Own(chart, a.successor) + Elements(a.decisions), today)
    requires NoOverlap(a, rules, Covered(book, a.successor, today), today)
    ensures Kept(chart, rules, book + [a], today)
  {
    AddingKeeps(chart, rules, book, today, a);
  }

  lemma OverlapBreaks(chart: Chart, rules: seq<Separation>, book: seq<Assignment>, today: int, a: Assignment)
    requires a.startsOn == Absent && a.active
    requires Own(chart, a.successor) !! Elements(a.decisions)
    requires !NoOverlap(a, rules, Covered(book, a.successor, today), today)
    ensures !Kept(chart, rules, book + [a], today)
  {
    var d, e :| d in a.decisions && e in Covered(book, a.successor, today) && Clash(rules, d, e);
    CoveredAppend(book, a, a.successor, today);
    assert d in Elements(a.decisions);
  }

  /** One stand-in as wired keeps the separations exactly when `NoOverlap` held. */
  lemma StandInKeepsExactly(chart: Chart, rules: seq<Separation>, w: World, id: string, endsOn: DateText)
    requires Kept(chart, rules, w.book, w.today) && Started(w.book)
    requires StandInFor(chart, rules, w, id, endsOn).Some?
    ensures var a := StandInFor(chart, rules, w, id, endsOn).value;
            Kept(chart, rules, w.book + [a], w.today)
            <==> NoOverlap(a, rules, Covered(w.book, a.successor, w.today), w.today)
  {
    var a := StandInFor(chart, rules, w, id, endsOn).value;
    OpenedMeetsNothing(id, a.successor, chart[id].mandate, chart[a.successor].mandate, rules,
                       chart[id].successor == "", endsOn, w.today);
    if NoOverlap(a, rules, Covered(w.book, a.successor, w.today), w.today) {
      HarmlessAdditionKeeps(chart, rules, w.book, w.today, a);
    } else {
      OverlapBreaks(chart, rules, w.book, w.today, a);
    }
  }

  /** Told also of what the successor covers today, the split would grant the same, less
      that. */
  ghost predicate ToldTheSame(chart: Chart, rules: seq<Separation>, w: World, failed: string, successor: string)
    requires failed in chart
  {
    var order := Sorted(Elements(chart[failed].mandate));
    var own, covered := Own(chart, successor), Covered(w.book, successor, w.today);
    Elements(Split(order, own + covered, rules).0) == Elements(Split(order, own, rules).0) - covered
  }

  /** The same condition on what the call is given. */
  lemma NoOverlapOnInputs(chart: Chart, rules: seq<Separation>, w: World, id: string, endsOn: DateText)
    requires Kept(chart, rules, w.book, w.today) && StandInFor(chart, rules, w, id, endsOn).Some?
    ensures var a := StandInFor(chart, rules, w, id, endsOn).value;
            id in chart
            && (NoOverlap(a, rules, Covered(w.book, a.successor, w.today), w.today)
                <==> chart[id].successor == "" || (endsOn.Iso? && endsOn.day < w.today)
                     || ToldTheSame(chart, rules, w, id, a.successor))
  {
    var a := StandInFor(chart, rules, w, id, endsOn).value;
    if chart[id].successor != "" {
      var order := Sorted(Elements(chart[id].mandate));
      var own, covered := Own(chart, a.successor), Covered(w.book, a.successor, w.today);
      var g, h := Elements(Split(order, own, rules).0), Elements(Split(order, own + covered, rules).0);
      SplitIsASplit(order, own, rules);
      SplitIsASplit(order, own + covered, rules);
      forall d, e | d in g && d in covered && e in covered ensures !Clash(rules, d, e) {
        assert d !in own;
      }
      hide Split, IsGrant, Clash;
      ToldMoreGrantsTheRestExactly(g, h, Elements(order), own, covered, rules);
      assert a.decisions == Split(order, own, rules).0;
      assert forall d :: d in a.decisions <==> d in g;
    }
  }

  datatype Event = StandIn(id: string, endsOn: DateText) | Return(failed: string) | Wait(days: nat)

  function Happen(chart: Chart, rules: seq<Separation>, w: World, e: Event): World
  {
    match e
    case StandIn(id, endsOn) =>
      var r := StandInFor(chart, rules, w, id, endsOn);
      if r.None? then w else w.(book := w.book + [r.value])
    case Return(failed) => w.(book := CloseAll(w.book, failed))
    case Wait(days) => w.(today := w.today + days)
  }

  ghost predicate Harmless(chart: Chart, rules: seq<Separation>, w: World, e: Event)
  {
    e.StandIn? ==>
      var r := StandInFor(chart, rules, w, e.id, e.endsOn);
      r.Some? ==> NoOverlap(r.value, rules, Covered(w.book, r.value.successor, w.today), w.today)
  }

  ghost predicate KeptThroughout(chart: Chart, rules: seq<Separation>, w: World, events: seq<Event>)
    decreases |events|
  {
    Kept(chart, rules, w.book, w.today)
    && (events != [] ==> KeptThroughout(chart, rules, Happen(chart, rules, w, events[0]), events[1..]))
  }

  ghost predicate HarmlessThroughout(chart: Chart, rules: seq<Separation>, w: World, events: seq<Event>)
    decreases |events|
  {
    events != [] ==> Harmless(chart, rules, w, events[0])
                     && HarmlessThroughout(chart, rules, Happen(chart, rules, w, events[0]), events[1..])
  }

  lemma EventKeepsExactly(chart: Chart, rules: seq<Separation>, w: World, e: Event)
    requires Kept(chart, rules, w.book, w.today) && Started(w.book)
    ensures var w' := Happen(chart, rules, w, e);
            Started(w'.book) && (Kept(chart, rules, w'.book, w'.today) <==> Harmless(chart, rules, w, e))
  {
    match e
    case StandIn(id, endsOn) =>
      if StandInFor(chart, rules, w, id, endsOn).Some? { StandInKeepsExactly(chart, rules, w, id, endsOn); }
    case Return(failed) => ClosingKeeps(chart, rules, w.book, w.today, failed);
    case Wait(days) =>
  }

  /** As wired, a run keeps every separation on every day exactly when each of its
      stand-ins was harmless when it was opened. */
  lemma {:induction false} WiredRunKeepsExactly(chart: Chart, rules: seq<Separation>, w: World, events: seq<Event>)
    requires Kept(chart, rules, w.book, w.today) && Started(w.book)
    ensures KeptThroughout(chart, rules, w, events) <==> HarmlessThroughout(chart, rules, w, events)
    decreases |events|
  {
    if events != [] {
      EventKeepsExactly(chart, rules, w, events[0]);
      var w' := Happen(chart, rules, w, events[0]);
      if Kept(chart, rules, w'.book, w'.today) {
        WiredRunKeepsExactly(chart, rules, w', events[1..]);
      }
    }
  }

  /** A stand-in by hierarchy, or by a successor covering nothing, is harmless. */
  lemma HarmlessWhenFree(chart: Chart, rules: seq<Separation>, w: World, id: string, endsOn: DateText)
    requires id in chart && SuccessorOf(chart, id).Some?
    requires chart[id].successor == "" || Covered(w.book, SuccessorOf(chart, id).value, w.today) == {}
    ensures Harmless(chart, rules, w, StandIn(id, endsOn))
  {
  }

  lemma SplitOfOne(d: string, rules: seq<Separation>)
    ensures Split(Sorted({d}), {}, rules) == ([d], [])
  {
    var s := Sorted({d});
    assert s == [d] by { assert |s| == 1 && s[0] in s; }
    assert !Blocked(rules, d, {});
  }

  const PAYMENTS := [Separation("pay", ["raise", "approve"], "")]

  const TWO_LEADERS: Chart := map["alice" := Agent(["raise"], "", "carol"),
                                  "bob" := Agent(["approve"], "", "carol"),
                                  "carol" := Agent([], "", "")]

  lemma OneHalfEach(id: string, w: World)
    requires id in TWO_LEADERS && id != "carol" && !ActedFor(w.book, "carol", w.today)
    ensures StandInFor(TWO_LEADERS, PAYMENTS, w, id, Absent)
            == Some(Assignment(id, "carol", false, TWO_LEADERS[id].mandate, [], true, Absent, Iso(w.today + 7)))
  {
    var d := TWO_LEADERS[id].mandate[0];
    assert TWO_LEADERS[id].mandate == [d] && Elements([d]) == {d};
    assert Elements(TWO_LEADERS["carol"].mandate) == {};
    SplitOfOne(d, PAYMENTS);
  }

  lemma SecondStandInBreaks(first: Assignment, second: Assignment)
    requires first == Assignment("alice", "carol", false, ["raise"], [], true, Absent, Iso(7))
    requires second == Assignment("bob", "carol", false, ["approve"], [], true, Absent, Iso(7))
    ensures !Kept(TWO_LEADERS, PAYMENTS, [first, second], 0)
  {
    CoveredAppend([], first, "carol", 0);
    CoveredAppend([first], second, "carol", 0);
    assert [first] + [second] == [first, second] && [] + [first] == [first];
    assert "raise" in first.decisions && "approve" in second.decisions;
    assert Clash(PAYMENTS, "approve", "raise") by {
      assert "approve" in PAYMENTS[0].decisions && "raise" in PAYMENTS[0].decisions;
    }
  }

  lemma BrokenAfterTwo(chart: Chart, rules: seq<Separation>, w: World, e1: Event, e2: Event)
    requires var w2 := Happen(chart, rules, Happen(chart, rules, w, e1), e2);
             !Kept(chart, rules, w2.book, w2.today)
    ensures !KeptThroughout(chart, rules, w, [e1, e2])
  {
    assert [e1, e2][1..] == [e2];
    assert !KeptThroughout(chart, rules, Happen(chart, rules, w, e1), [e2]);
  }

  lemma BooksOfBoth()
    ensures var w := Happen(TWO_LEADERS, PAYMENTS, World(0, []), StandIn("alice", Absent));
            Happen(TWO_LEADERS, PAYMENTS, w, StandIn("bob", Absent))
            == World(0, [Assignment("alice", "carol", false, ["raise"], [], true, Absent, Iso(7)),
                         Assignment("bob", "carol", false, ["approve"], [], true, Absent, Iso(7))])
  {
    hide StandInFor;
    OneHalfEach("alice", World(0, []));
    var w := Happen(TWO_LEADERS, PAYMENTS, World(0, []), StandIn("alice", Absent));
    OneHalfEach("bob", w);
  }

  /** As wired it is not safe: carol, the declared successor of both, raises and
      approves payments on one day though alice and bob each hold only one half. */
  lemma TwoStandInsBreakTheControl()
    ensures !KeptThroughout(TWO_LEADERS, PAYMENTS, World(0, []), [StandIn("alice", Absent), StandIn("bob", Absent)])
  {
    BooksOfBoth();
    SecondStandInBreaks(Assignment("alice", "carol", false, ["raise"], [], true, Absent, Iso(7)),
                        Assignment("bob", "carol", false, ["approve"], [], true, Absent, Iso(7)));
    BrokenAfterTwo(TWO_LEADERS, PAYMENTS, World(0, []), StandIn("alice", Absent), StandIn("bob", Absent));
  }
}
