/** Splitting a failed leader's mandate under the separations of duties, and the
    record of who stands in for whom. */
module Continuity {
  import opened Basics
  import opened Lex

  datatype Separation = Separation(id: string, decisions: seq<string>, reason: string)

  datatype Withheld = Withheld(decision: string, separation: string, reason: string)

  /** The rule has `d` as one half and something else in `held` as the other. */
  predicate Blocks(r: Separation, d: string, held: set<string>)
  {
    d in r.decisions && exists e :: e in held && e != d && e in r.decisions
  }

  predicate Blocked(rules: seq<Separation>, d: string, held: set<string>)
  {
    exists i :: 0 <= i < |rules| && Blocks(rules[i], d, held)
  }

  /** The first rule that blocks, as `next(...)` over the rules finds it. */
  function FirstBlocking(rules: seq<Separation>, d: string, held: set<string>): (r: Separation)
    requires Blocked(rules, d, held)
    ensures exists i :: 0 <= i < |rules| && r == rules[i] && Blocks(r, d, held)
                        && forall j :: 0 <= j < i ==> !Blocks(rules[j], d, held)
  {
    if Blocks(rules[0], d, held) then rules[0]
    else
      assert Blocked(rules[1..], d, held) by {
        var i :| 0 <= i < |rules| && Blocks(rules[i], d, held);
        assert rules[1..][i - 1] == rules[i];
      }
      FirstBlocking(rules[1..], d, held)
  }

  function Refusal(rules: seq<Separation>, d: string, held: set<string>): Withheld
    requires Blocked(rules, d, held)
  {
    var r := FirstBlocking(rules, d, held);
    Withheld(d, r.id, r.reason)
  }

  /** One pass over decisions still to consider, given what is held by now. */
  function Split(todo: seq<string>, held: set<string>, rules: seq<Separation>): (seq<string>, seq<Withheld>)
  {
    if todo == [] then ([], [])
    else
      var d := todo[0];
      if d in held then Split(todo[1..], held, rules)
      else if Blocked(rules, d, held) then
        var rest := Split(todo[1..], held, rules);
        (rest.0, [Refusal(rules, d, held)] + rest.1)
      else
        var rest := Split(todo[1..], held + {d}, rules);
        ([d] + rest.0, rest.1)
  }

  /** After `i` decisions, what is granted and withheld so far followed by what the
      rest of the pass yields is the whole answer. */
  ghost predicate Underway(order: seq<string>, i: nat, held: set<string>, rules: seq<Separation>,
                           granted: seq<string>, withheld: seq<Withheld>, answer: (seq<string>, seq<Withheld>))
    requires i <= |order|
  {
    var rest := Split(order[i..], held, rules);
    granted + rest.0 == answer.0 && withheld + rest.1 == answer.1
  }

  lemma SplitStep(order: seq<string>, i: nat, held: set<string>, rules: seq<Separation>,
                  granted: seq<string>, withheld: seq<Withheld>, answer: (seq<string>, seq<Withheld>))
    requires i < |order| && Underway(order, i, held, rules, granted, withheld, answer)
    ensures var d := order[i];
            if d in held then Underway(order, i + 1, held, rules, granted, withheld, answer)
            else if Blocked(rules, d, held) then
              Underway(order, i + 1, held, rules, granted, withheld + [Refusal(rules, d, held)], answer)
            else Underway(order, i + 1, held + {d}, rules, granted + [d], withheld, answer)
  {
  }

  lemma UnderwayDone(order: seq<string>, held: set<string>, rules: seq<Separation>,
                     granted: seq<string>, withheld: seq<Withheld>, answer: (seq<string>, seq<Withheld>))
    requires Underway(order, |order|, held, rules, granted, withheld, answer)
    ensures (granted, withheld) == answer
  {
    assert order[|order|..] == [];
    assert granted + [] == granted && withheld + [] == withheld;
  }

  method SplitMandate(mandate: seq<string>, holds: seq<string>, rules: seq<Separation>)
    returns (granted: seq<string>, withheld: seq<Withheld>)
    ensures (granted, withheld) == Split(Sorted(Elements(mandate)), Elements(holds), rules)
  {
    var held := Elements(holds);
    var order := Sorted(Elements(mandate));
    ghost var answer := Split(order, held, rules);
    granted, withheld := [], [];
    assert order[0..] == order;
    assert Underway(order, 0, held, rules, granted, withheld, answer);
    for i := 0 to |order|
      invariant Underway(order, i, held, rules, granted, withheld, answer)
    {
      SplitStep(order, i, held, rules, granted, withheld, answer);
      var d := order[i];
      if d in held {
        continue;
      }
      if Blocked(rules, d, held) {
        withheld := withheld + [Refusal(rules, d, held)];
        continue;
      }
      granted := granted + [d];
      held := held + {d};
    }
    UnderwayDone(order, held, rules, granted, withheld, answer);
  }

  // ---- what a split is, said without running it -----------------------------

  function Before(g: set<string>, d: string): set<string>
  {
    set x | x in g && Less(x, d)
  }

  /** A decision is granted just when it is not already held and no rule pairs it
      with something held or with an earlier grant. */
  ghost predicate IsGrant(granted: set<string>, mandate: set<string>, held: set<string>, rules: seq<Separation>)
  {
    forall d :: d in granted <==> IsNextGrant(d, granted, mandate, held, rules)
  }

  predicate IsNextGrant(d: string, granted: set<string>, mandate: set<string>, held: set<string>,
                        rules: seq<Separation>)
  {
    d in mandate && d !in held && !Blocked(rules, d, held + Before(granted, d))
  }

  function Decisions(withheld: seq<Withheld>): seq<string>
  {
    if withheld == [] then [] else [withheld[0].decision] + Decisions(withheld[1..])
  }

  ghost predicate IsSplit(granted: seq<string>, withheld: seq<Withheld>,
                          mandate: set<string>, held: set<string>, rules: seq<Separation>)
  {
    var g := Elements(granted);
    && Ascending(granted)
    && IsGrant(g, mandate, held, rules)
    && Ascending(Decisions(withheld))
    && Elements(Decisions(withheld)) == mandate - held - g
    && RefusedAlong(withheld, g, held, rules)
  }

  /** Each refusal names the first rule in its way at its turn. */
  ghost predicate RefusedAlong(withheld: seq<Withheld>, g: set<string>, held: set<string>, rules: seq<Separation>)
  {
    forall w :: w in withheld ==>
      var have := held + Before(g, w.decision);
      Blocked(rules, w.decision, have) && w == Refusal(rules, w.decision, have)
  }

  lemma {:induction false} SplitIsASplit(todo: seq<string>, held: set<string>, rules: seq<Separation>)
    requires Ascending(todo)
    ensures var (g, w) := Split(todo, held, rules); IsSplit(g, w, Elements(todo), held, rules)
  {
    if todo != [] {
      var d, rest := todo[0], todo[1..];
      assert todo == [d] + rest;
      assert forall x :: x in rest ==> Less(d, x) && x != d by {
        LessIrreflexive(d);
      }
      var have := if d in held || Blocked(rules, d, held) then held else held + {d};
      SplitIsASplit(rest, have, rules);
      var (g, w) := Split(rest, have, rules);
      assert Elements(todo) == Elements(rest) + {d};
      if d in held {
      } else if Blocked(rules, d, held) {
        SplitRefuses(d, rest, g, w, held, rules);
      } else {
        SplitGrants(d, rest, g, w, held, rules);
      }
    }
  }

  lemma NothingBefore(d: string, g: set<string>)
    requires forall x :: x in g ==> x == d || Less(d, x)
    ensures Before(g, d) == {}
  {
    forall x | x in g ensures !Less(x, d) {
      LessIrreflexive(d);
      if Less(d, x) { LessAsymmetric(d, x); }
    }
  }

  lemma SplitRefuses(d: string, rest: seq<string>, g: seq<string>, w: seq<Withheld>,
                     held: set<string>, rules: seq<Separation>)
    requires forall x :: x in rest ==> Less(d, x) && x != d
    requires d !in held && Blocked(rules, d, held)
    requires IsSplit(g, w, Elements(rest), held, rules)
    ensures IsSplit(g, [Refusal(rules, d, held)] + w, Elements(rest) + {d}, held, rules)
  {
    var r := Refusal(rules, d, held);
    RefusalsExtend(d, Elements(rest), Elements(g), held, rules);
    RefusedFirst(r, w, rest, Elements(g), held);
    hide Blocked, Refusal, Before, IsGrant, Ascending, Elements, Decisions;
  }

  lemma RefusedFirst(r: Withheld, w: seq<Withheld>, rest: seq<string>, g: set<string>, held: set<string>)
    requires forall x :: x in rest ==> Less(r.decision, x) && x != r.decision
    requires Ascending(Decisions(w)) && Elements(Decisions(w)) == Elements(rest) - held - g
    requires r.decision !in held && r.decision !in g
    ensures Ascending(Decisions([r] + w))
    ensures Elements(Decisions([r] + w)) == Elements(rest) + {r.decision} - held - g
  {
    var d := r.decision;
    assert Decisions([r] + w) == [d] + Decisions(w);
    assert Elements([d] + Decisions(w)) == {d} + Elements(Decisions(w));
    forall x | x in Decisions(w) ensures Less(d, x) {
      assert x in Elements(Decisions(w)) && x in rest;
    }
  }

  lemma RefusalsExtend(d: string, rest: set<string>, g: set<string>, held: set<string>, rules: seq<Separation>)
    requires forall x :: x in rest ==> Less(d, x) && x != d
    requires d !in held && Blocked(rules, d, held)
    requires IsGrant(g, rest, held, rules)
    ensures IsGrant(g, rest + {d}, held, rules)
    ensures held + Before(g, d) == held && d !in g && g <= rest
    ensures Refusal(rules, d, held).decision == d
  {
    assert g <= rest;
    NothingBefore(d, g);
    assert held + Before(g, d) == held;
  }

  lemma GrantsExtend(d: string, rest: set<string>, g: set<string>, held: set<string>, rules: seq<Separation>)
    requires forall x :: x in rest ==> Less(d, x) && x != d
    requires d !in held && !Blocked(rules, d, held)
    requires IsGrant(g, rest, held + {d}, rules)
    ensures IsGrant({d} + g, rest + {d}, held, rules)
    ensures forall x :: Less(d, x) ==> held + Before({d} + g, x) == (held + {d}) + Before(g, x)
  {
    assert g <= rest;
    NothingBefore(d, {d} + g);
    assert held + Before({d} + g, d) == held;
    forall x | Less(d, x) ensures held + Before({d} + g, x) == (held + {d}) + Before(g, x) {
    }
  }

  lemma SplitGrants(d: string, rest: seq<string>, g: seq<string>, w: seq<Withheld>,
                    held: set<string>, rules: seq<Separation>)
    requires forall x :: x in rest ==> Less(d, x) && x != d
    requires d !in held && !Blocked(rules, d, held)
    requires IsSplit(g, w, Elements(rest), held + {d}, rules)
    ensures IsSplit([d] + g, w, Elements(rest) + {d}, held, rules)
  {
    hide Blocked, Refusal, Before;
    assert Elements([d] + g) == {d} + Elements(g);
    assert forall x :: x in g ==> x in Elements(g) && x in rest;
    GrantsExtend(d, Elements(rest), Elements(g), held, rules);
    forall r | r in w ensures Less(d, r.decision) {
      DecisionListed(w, r);
    }
  }

  lemma {:induction false} DecisionListed(w: seq<Withheld>, r: Withheld)
    requires r in w
    ensures r.decision in Elements(Decisions(w))
  {
    if r != w[0] { DecisionListed(w[1..], r); }
  }

  // ---- what follows for any split --------------------------------------------

  /** Two decisions are the two halves of one control. */
  ghost predicate Clash(rules: seq<Separation>, d: string, e: string)
  {
    d != e && exists i :: 0 <= i < |rules| && d in rules[i].decisions && e in rules[i].decisions
  }

  lemma BlockedIsClash(rules: seq<Separation>, d: string, held: set<string>)
    ensures Blocked(rules, d, held) <==> exists e :: e in held && Clash(rules, d, e)
  {
  }

  /** Nothing granted is half of a control whose other half is held or granted. */
  lemma GrantedIsSafe(g: set<string>, mandate: set<string>, held: set<string>, rules: seq<Separation>,
                      d: string, e: string)
    requires IsGrant(g, mandate, held, rules)
    requires d in g && e in held + g
    ensures !Clash(rules, d, e)
  {
    if Clash(rules, d, e) {
      assert Clash(rules, e, d);
      BlockedIsClash(rules, d, held + Before(g, d));
      if e in g {
        BlockedIsClash(rules, e, held + Before(g, e));
        LessTotal(d, e);
      }
    }
  }

  ghost predicate RefusedUnder(w: Withheld, rules: seq<Separation>, held: set<string>)
  {
    exists i :: 0 <= i < |rules| && w == Withheld(w.decision, rules[i].id, rules[i].reason)
                && Blocks(rules[i], w.decision, held)
  }

  /** Held, granted and withheld share the mandate out, and each withheld decision
      conflicts with what the successor ends up with, under the rule it names. */
  lemma SplitPartitions(granted: seq<string>, withheld: seq<Withheld>,
                        mandate: set<string>, held: set<string>, rules: seq<Separation>)
    requires IsSplit(granted, withheld, mandate, held, rules)
    ensures var g, w := Elements(granted), Elements(Decisions(withheld));
            mandate == (mandate * held) + g + w && g !! w && g !! held && w !! held
    ensures forall w :: w in withheld ==> RefusedUnder(w, rules, held + Elements(granted))
  {
  }

  /** A set of grants that could be conferred together. */
  ghost predicate Compatible(c: set<string>, mandate: set<string>, held: set<string>, rules: seq<Separation>)
  {
    c <= mandate - held && forall d, e :: d in c && e in held + c ==> !Clash(rules, d, e)
  }

  /** Of all compatible sets the grant comes first: wherever another first differs
      from it, it is the grant that has the decision. */
  lemma GrantIsLexFirst(g: set<string>, c: set<string>, mandate: set<string>, held: set<string>, rules: seq<Separation>)
    requires IsGrant(g, mandate, held, rules) && Compatible(c, mandate, held, rules) && c != g
    ensures Compatible(g, mandate, held, rules)
    ensures var d := Least((g - c) + (c - g)); d in g && d !in c && Before(g, d) == Before(c, d)
  {
    forall d, e | d in g && e in held + g ensures !Clash(rules, d, e) {
      GrantedIsSafe(g, mandate, held, rules, d, e);
    }
    var diff := (g - c) + (c - g);
    assert diff != {} by {
      if diff == {} { assert forall x :: x in g <==> x in c; }
    }
    var d := Least(diff);
    forall x | Less(x, d) ensures x in g <==> x in c {
      if x in diff { LessIrreflexive(d); LessAsymmetric(x, d); }
    }
    if d in c {
      BlockedIsClash(rules, d, held + Before(g, d));
    }
  }

  /** So no decision can be added to it, and nothing but the sets of decisions and
      the pairs the rules forbid decides it. */
  lemma GrantIsMaximalAndUnique(g: set<string>, c: set<string>, mandate: set<string>, held: set<string>,
                                rules: seq<Separation>, rules': seq<Separation>)
    requires IsGrant(g, mandate, held, rules)
    ensures Compatible(c, mandate, held, rules) && g <= c ==> c == g
    ensures IsGrant(c, mandate, held, rules') && (forall d, e :: Clash(rules, d, e) <==> Clash(rules', d, e)) ==> c == g
  {
    if c != g {
      if Compatible(c, mandate, held, rules) && g <= c {
        GrantIsLexFirst(g, c, mandate, held, rules);
      }
      if IsGrant(c, mandate, held, rules') && (forall d, e :: Clash(rules, d, e) <==> Clash(rules', d, e)) {
        forall d, e | d in c && e in held + c ensures !Clash(rules, d, e) {
          GrantedIsSafe(c, mandate, held, rules', d, e);
        }
        assert forall d :: d in c ==> d in mandate && d !in held;
        GrantIsLexFirst(g, c, mandate, held, rules);
        var d := Least((g - c) + (c - g));
        BlockedIsClash(rules', d, held + Before(c, d));
        BlockedIsClash(rules, d, held + Before(g, d));
        assert false;
      }
    }
  }

  /** Told of more that is held, the split grants just what is left of the same grants,
      exactly when none of those meets its other half there. */
  lemma ToldMoreGrantsTheRestExactly(g: set<string>, h: set<string>, mandate: set<string>, held: set<string>,
                                     more: set<string>, rules: seq<Separation>)
    requires IsGrant(g, mandate, held, rules) && IsGrant(h, mandate, held + more, rules)
    requires forall d, e :: d in g && d in more && e in more ==> !Clash(rules, d, e)
    ensures h == g - more <==> forall d, e :: d in g && e in more ==> !Clash(rules, d, e)
  {
    if forall d, e :: d in g && e in more ==> !Clash(rules, d, e) {
      forall d ensures d in g - more <==> IsNextGrant(d, g - more, mandate, held + more, rules) {
        RestIsGranted(d, g, mandate, held, more, rules);
      }
      GrantIsMaximalAndUnique(h, g - more, mandate, held + more, rules, rules);
    }
    if h == g - more {
      forall d, e | d in g && e in more ensures !Clash(rules, d, e) {
        if d !in more { GrantedIsSafe(h, mandate, held + more, rules, d, e); }
      }
    }
  }

  lemma RestIsGranted(d: string, g: set<string>, mandate: set<string>, held: set<string>, more: set<string>,
                      rules: seq<Separation>)
    requires IsGrant(g, mandate, held, rules)
    requires forall d, e :: d in g && e in more ==> !Clash(rules, d, e)
    ensures d in g - more <==> IsNextGrant(d, g - more, mandate, held + more, rules)
  {
    hide Blocked, Clash;
    BlockedIsClash(rules, d, held + Before(g, d));
    BlockedIsClash(rules, d, held + more + Before(g - more, d));
    assert held + Before(g, d) <= held + more + Before(g - more, d);
    assert held + more + Before(g - more, d) <= held + Before(g, d) + more;
  }

  /** Input order, repetitions and rule order change nothing about what is granted and
      what is withheld; which of several rules is named follows their order. */
  lemma SplitIgnoresOrder(m1: seq<string>, h1: seq<string>, r1: seq<Separation>,
                          m2: seq<string>, h2: seq<string>, r2: seq<Separation>)
    requires Elements(m1) == Elements(m2) && Elements(h1) == Elements(h2)
    requires forall r :: r in r1 <==> r in r2
    ensures var s1 := Split(Sorted(Elements(m1)), Elements(h1), r1);
            var s2 := Split(Sorted(Elements(m2)), Elements(h2), r2);
            s1.0 == s2.0 && Decisions(s1.1) == Decisions(s2.1)
  {
    var order, held := Sorted(Elements(m1)), Elements(h1);
    SplitIsASplit(order, held, r1);
    SplitIsASplit(order, held, r2);
    var g1, g2 := Split(order, held, r1).0, Split(order, held, r2).0;
    var w1, w2 := Split(order, held, r1).1, Split(order, held, r2).1;
    hide Split, Clash;
    forall d, e ensures Clash(r1, d, e) <==> Clash(r2, d, e) {
      SameRulesSameClashes(r1, r2, d, e);
      SameRulesSameClashes(r2, r1, d, e);
    }
    GrantIsMaximalAndUnique(Elements(g1), Elements(g2), Elements(order), held, r1, r2);
    SameElementsSameList(g1, g2);
    SameElementsSameList(Decisions(w1), Decisions(w2));
  }

  lemma SameRulesSameClashes(r1: seq<Separation>, r2: seq<Separation>, d: string, e: string)
    requires forall r :: r in r1 ==> r in r2
    ensures Clash(r1, d, e) ==> Clash(r2, d, e)
  {
    if Clash(r1, d, e) {
      var i :| 0 <= i < |r1| && d in r1[i].decisions && e in r1[i].decisions;
      assert r1[i] in r2;
    }
  }

  /** Asked again with the grants in hand, it grants nothing and withholds the same. */
  lemma SplitAgainGrantsNothing(order: seq<string>, held: set<string>, rules: seq<Separation>)
    requires Ascending(order)
    ensures var once := Split(order, held, rules);
            var again := Split(order, held + Elements(once.0), rules);
            again.0 == [] && Decisions(again.1) == Decisions(once.1)
  {
    var once := Split(order, held, rules);
    var again := Split(order, held + Elements(once.0), rules);
    SplitIsASplit(order, held, rules);
    SplitIsASplit(order, held + Elements(once.0), rules);
    SecondSplitGrantsNothing(once, again, Elements(order), held, rules);
  }

  lemma SecondSplitGrantsNothing(once: (seq<string>, seq<Withheld>), again: (seq<string>, seq<Withheld>),
                                 mandate: set<string>, held: set<string>, rules: seq<Separation>)
    requires IsSplit(once.0, once.1, mandate, held, rules)
    requires IsSplit(again.0, again.1, mandate, held + Elements(once.0), rules)
    ensures again.0 == [] && Decisions(again.1) == Decisions(once.1)
  {
    AgainGrantsNothing(Elements(once.0), Elements(again.0), mandate, held, rules);
    NonEmptyHasElements(again.0);
    SameElementsSameList(Decisions(once.1), Decisions(again.1));
  }

  lemma AgainGrantsNothing(g: set<string>, g': set<string>, mandate: set<string>, held: set<string>,
                           rules: seq<Separation>)
    requires IsGrant(g, mandate, held, rules) && IsGrant(g', mandate, held + g, rules)
    ensures g' == {} && mandate - (held + g) - g' == mandate - held - g
  {
  }

  lemma SameElementsSameList(a: seq<string>, b: seq<string>)
    requires Ascending(a) && Ascending(b) && Elements(a) == Elements(b)
    ensures a == b
  {
    assert forall x :: x in a <==> x in Elements(a);
    assert forall x :: x in b <==> x in Elements(b);
    AscendingUnique(a, b);
  }

  // ---- which half is conferred -----------------------------------------------------------

  /** Of the two halves of a control a successor holding nothing is given the first in
      `sorted` order; the other is withheld under the rule. */
  lemma FirstHalfIsConferred(a: string, b: string, rule: Separation)
    requires ComesBefore(a, b) && rule.decisions == [a, b]
    ensures Split(Sorted({b, a}), {}, [rule]) == ([a], [Withheld(b, rule.id, rule.reason)])
  {
    LessMeans(a, b);
    LessIrreflexive(a);
    AscendingUnique(Sorted({b, a}), [a, b]);
    assert !Blocked([rule], a, {});
    assert Blocks([rule][0], b, {a}) && Blocked([rule], b, {a});
    assert Refusal([rule], b, {a}) == Withheld(b, rule.id, rule.reason);
    SplitTwo(a, b, [rule]);
  }

  lemma SplitTwo(a: string, b: string, rules: seq<Separation>)
    requires a != b && !Blocked(rules, a, {}) && Blocked(rules, b, {a})
    ensures Split([a, b], {}, rules) == ([a], [Refusal(rules, b, {a})])
  {
    hide Blocked, Refusal;
    assert [a, b][1..] == [b] && [b][1..] == [];
    assert {} + {a} == {a};
    SplitNone({a}, rules);
    assert [Refusal(rules, b, {a})] + [] == [Refusal(rules, b, {a})];
    assert Split([a, b][1..], {} + {a}, rules) == ([], [Refusal(rules, b, {a})]);
    assert [a] + [] == [a];
  }

  lemma SplitNone(held: set<string>, rules: seq<Separation>)
    ensures Split([], held, rules) == ([], [])
  {
  }

  /** So `approve_payment` is conferred and `raise_payment` withheld. */
  lemma ApprovalIsConferred(rule: Separation)
    requires rule.decisions == ["approve_payment", "raise_payment"]
    ensures Split(Sorted({"raise_payment", "approve_payment"}), {}, [rule])
            == (["approve_payment"], [Withheld("raise_payment", rule.id, rule.reason)])
  {
    var a, b := "approve_payment", "raise_payment";
    assert ComesAt(a, b, 0);
    FirstHalfIsConferred(a, b, rule);
  }
}
