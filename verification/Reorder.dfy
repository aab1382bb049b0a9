/** Putting a host's child elements into a wanted order in place, and which of them
    that moves: a moved element loses the keyboard focus. */
module Reorder {
  import opened Basics

  /** The sequence without some elements, the others in their order. */
  function Minus<T(==,!new)>(s: seq<T>, gone: set<T>): (r: seq<T>)
    ensures forall x :: x in r <==> x in s && x !in gone
  {
    if s == [] then []
    else (if s[0] in gone then [] else [s[0]]) + Minus(s[1..], gone)
  }

  lemma {:induction false} MinusNothing<T(!new)>(s: seq<T>)
    ensures Minus(s, {}) == s
  {
    if s != [] { MinusNothing(s[1..]); }
  }

  lemma {:induction false} MinusTwice<T(!new)>(s: seq<T>, a: set<T>, b: set<T>)
    ensures Minus(Minus(s, a), b) == Minus(s, a + b)
  {
    if s != [] {
      var t := Minus(s[1..], a);
      MinusTwice(s[1..], a, b);
      if s[0] in a {
        assert Minus(s, a) == t;
      } else {
        assert Minus(s, a) == [s[0]] + t;
        MinusConcat([s[0]], t, b);
      }
    }
  }

  lemma {:induction false} MinusAbsent<T(!new)>(s: seq<T>, gone: set<T>)
    requires forall x :: x in s ==> x !in gone
    ensures Minus(s, gone) == s
  {
    if s != [] { MinusAbsent(s[1..], gone); }
  }

  lemma {:induction false} MinusConcat<T(!new)>(s: seq<T>, t: seq<T>, gone: set<T>)
    ensures Minus(s + t, gone) == Minus(s, gone) + Minus(t, gone)
  {
    if s == [] {
      assert s + t == t;
    } else {
      assert (s + t)[1..] == s[1..] + t;
      MinusConcat(s[1..], t, gone);
    }
  }

  lemma {:induction false} MinusDistinct<T(!new)>(s: seq<T>, gone: set<T>)
    requires Distinct(s)
    ensures Distinct(Minus(s, gone))
  {
    if s != [] {
      MinusDistinct(s[1..], gone);
      assert s[0] !in s[1..];
    }
  }

  function IndexOf<T(==,!new)>(s: seq<T>, x: T): (i: nat)
    requires x in s
    ensures i < |s| && s[i] == x && x !in s[..i]
  {
    if s[0] == x then 0 else 1 + IndexOf(s[1..], x)
  }

  function NextOf<T(==,!new)>(s: seq<T>, x: T): Option<T>
    requires x in s
  {
    First(s[IndexOf(s, x) + 1..])
  }

  function First<T>(s: seq<T>): Option<T>
  {
    if s == [] then None else Some(s[0])
  }

  /** The first of the rest is after the done. */
  lemma NextAfter<T(!new)>(done: seq<T>, x: T, rest: seq<T>)
    requires x !in done
    ensures x in done + [x] + rest && NextOf(done + [x] + rest, x) == First(rest)
  {
    var s := done + [x] + rest;
    var k := IndexOf(s, x);
    assert s[|done|] == x;
    assert k == |done|;
    assert s[k + 1..] == rest;
  }

  /** The element before which `ref` stands gets `box` in front; with none, at the end. */
  function Inserted<T(==,!new)>(s: seq<T>, box: T, ref: Option<T>): seq<T>
    requires ref.Some? ==> ref.value in s && ref.value != box
  {
    var rest := Minus(s, {box});
    var i := if ref.Some? then IndexOf(rest, ref.value) else |rest|;
    rest[..i] + [box] + rest[i..]
  }

  lemma OnceBetween<T(!new)>(a: seq<T>, box: T, b: seq<T>)
    requires box !in a && box !in b
    ensures var t := a + [box] + b;
            box in t && multiset(t)[box] == 1 && NextOf(t, box) == First(b) && Minus(t, {box}) == a + b
  {
    hide NextOf, First, Minus;
    NextAfter(a, box, b);
    MinusConcat(a + [box], b, {box});
    MinusConcat(a, [box], {box});
    MinusAbsent(a, {box});
    MinusAbsent(b, {box});
    MinusOne(box);
    assert multiset(a + [box] + b) == multiset(a) + multiset{box} + multiset(b);
  }

  lemma MinusOne<T(!new)>(box: T)
    ensures Minus([box], {box}) == []
  {
  }

  lemma InsertedMeans<T(!new)>(s: seq<T>, box: T, ref: Option<T>)
    requires ref.Some? ==> ref.value in s && ref.value != box
    ensures var t := Inserted(s, box, ref);
            box in t && multiset(t)[box] == 1 && NextOf(t, box) == ref && Minus(t, {box}) == Minus(s, {box})
  {
    hide NextOf, Minus;
    var rest := Minus(s, {box});
    var i := if ref.Some? then IndexOf(rest, ref.value) else |rest|;
    var a, b := rest[..i], rest[i..];
    assert rest == a + b && forall x :: x in a || x in b ==> x in rest;
    OnceBetween(a, box, b);
  }

  lemma AroundOne<T(!new)>(t: seq<T>, box: T) returns (a: seq<T>, b: seq<T>)
    requires multiset(t)[box] == 1
    ensures t == a + [box] + b && box !in a && box !in b
  {
    assert box in multiset(t);
    var k := IndexOf(t, box);
    a, b := t[..k], t[k + 1..];
    assert t == a + [box] + b;
    assert multiset(t) == multiset(a) + multiset{box} + multiset(b);
  }

  /** Among children that stand once each, there is only one way to be so inserted. */
  lemma InsertedExactly<T(!new)>(s: seq<T>, box: T, ref: Option<T>, t: seq<T>)
    requires Distinct(s) && (ref.Some? ==> ref.value in s && ref.value != box)
    ensures t == Inserted(s, box, ref) <==>
              box in t && multiset(t)[box] == 1 && NextOf(t, box) == ref && Minus(t, {box}) == Minus(s, {box})
  {
    hide NextOf, Minus, Distinct;
    InsertedMeans(s, box, ref);
    if box in t && multiset(t)[box] == 1 && NextOf(t, box) == ref && Minus(t, {box}) == Minus(s, {box}) {
      var a, b := AroundOne(t, box);
      OnceBetween(a, box, b);
      var rest := Minus(s, {box});
      MinusDistinct(s, {box});
      if ref.Some? { FoundAt(rest, a, b); }
      assert rest[..|a|] == a && rest[|a|..] == b;
    }
  }

  lemma FoundAt<T(!new)>(rest: seq<T>, a: seq<T>, b: seq<T>)
    requires Distinct(rest) && rest == a + b && b != []
    ensures b[0] in rest && IndexOf(rest, b[0]) == |a|
  {
    assert rest[|a|] == b[0];
  }

  class Host<T(==,!new)> {
    var children: seq<T>
    ghost var moved: seq<T>
    ghost var removed: seq<T>

    constructor (children: seq<T>)
      ensures this.children == children && moved == [] && removed == []
    {
      this.children, moved, removed := children, [], [];
    }

    function FirstChild(): Option<T>
      reads this
    {
      First(children)
    }

    function NextSibling(x: T): Option<T>
      requires x in children
      reads this
    {
      NextOf(children, x)
    }

    /** Afterwards the element is among the children once, right before `ref` or last of
        all, and the others are as they were. */
    method InsertBefore(box: T, ref: Option<T>)
      requires ref.Some? ==> ref.value in children && ref.value != box
      modifies `children, `moved
      ensures box in children && multiset(children)[box] == 1 && NextOf(children, box) == ref
      ensures Minus(children, {box}) == Minus(old(children), {box})
      ensures children == Inserted(old(children), box, ref) && moved == old(moved) + [box]
    {
      InsertedMeans(children, box, ref);
      children := Inserted(children, box, ref);
      moved := moved + [box];
    }

    method Remove(x: T)
      modifies `children, `removed
      ensures children == Minus(old(children), {x}) && removed == old(removed) + [x]
    {
      children := Minus(children, {x});
      removed := removed + [x];
    }

    /** The first loop: every wanted element into its place. */
    method Place(ordered: seq<T>) returns (ref: Option<T>)
      requires Distinct(children) && Distinct(ordered)
      modifies `children, `moved
      ensures children == ordered + Minus(old(children), Elements(ordered))
      ensures ref == First(Minus(old(children), Elements(ordered)))
      ensures moved == old(moved) + Moves(old(children), ordered, |ordered|)
    {
      hide Minus, Inserted, NextOf, Distinct, InPlace;
      ghost var was, before := children, moved;
      ref := FirstChild();
      NonePlaced(was, ordered);
      for i := 0 to |ordered|
        invariant Arranged(children, ref, was, ordered, i)
        invariant moved == before + Moves(was, ordered, i)
      {
        var box := ordered[i];
        MovesOneMore(children, ref, was, ordered, i);
        if ref == Some(box) {
          StaysPut(children, ref, was, ordered, i);
          ref := NextSibling(box);
          continue;
        }
        MovesIn(children, ref, was, ordered, i);
        InsertBefore(box, ref);
      }
      assert ordered[..|ordered|] == ordered;
    }

    /** The second: what is left, one by one. */
    method DropFrom(first: Option<T>, ghost ordered: seq<T>, ghost rest: seq<T>)
      requires children == ordered + rest && first == First(rest)
      requires Distinct(rest) && forall x :: x in rest ==> x !in ordered
      modifies `children, `removed
      ensures children == ordered && removed == old(removed) + rest
    {
      hide Minus, NextOf, Distinct;
      var ref := first;
      ghost var k, before := 0, removed;
      while ref.Some?
        invariant k <= |rest| && children == ordered + rest[k..]
        invariant ref == First(rest[k..])
        invariant removed == before + rest[..k]
        decreases |rest| - k
      {
        DropStep(ordered, rest, k);
        var next := NextSibling(ref.value);
        Remove(ref.value);
        ref := next;
        k := k + 1;
      }
    }

    /** Ends with the children as wanted, whatever they were. Moves exactly the wanted
        elements that are not in place, in order, and removes exactly the leftovers. */
    method Reorder(ordered: seq<T>)
      requires Distinct(children) && Distinct(ordered)
      modifies this
      ensures children == ordered
      ensures moved == old(moved) + Moves(old(children), ordered, |ordered|)
      ensures removed == old(removed) + Minus(old(children), Elements(ordered))
    {
      ghost var rest := Minus(children, Elements(ordered));
      MinusDistinct(children, Elements(ordered));
      var ref := Place(ordered);
      DropFrom(ref, ordered, rest);
    }
  }

  /** After `i` elements: those, then what was there without them, from `ref` on. */
  ghost predicate Arranged<T(!new)>(children: seq<T>, ref: Option<T>, was: seq<T>, ordered: seq<T>, i: nat)
    requires i <= |ordered|
  {
    var rest := Minus(was, Elements(ordered[..i]));
    children == ordered[..i] + rest && ref == First(rest)
  }

  lemma NonePlaced<T(!new)>(was: seq<T>, ordered: seq<T>)
    ensures Arranged(was, First(was), was, ordered, 0)
  {
    MinusNothing(was);
    assert ordered[..0] == [] && Elements(ordered[..0]) == {};
  }

  /** In place at its turn: everything that stood before it is already placed. */
  ghost predicate InPlace<T(!new)>(was: seq<T>, ordered: seq<T>, i: nat)
    requires i < |ordered|
  {
    exists k :: 0 <= k < |was| && was[k] == ordered[i] && forall j :: 0 <= j < k ==> was[j] in ordered[..i]
  }

  ghost function Moves<T(!new)>(was: seq<T>, ordered: seq<T>, n: nat): seq<T>
    requires n <= |ordered|
  {
    if n == 0 then [] else Moves(was, ordered, n - 1) + if InPlace(was, ordered, n - 1) then [] else [ordered[n - 1]]
  }

  lemma {:induction false} FirstLeft<T(!new)>(was: seq<T>, placed: set<T>, x: T)
    requires x !in placed
    ensures First(Minus(was, placed)) == Some(x)
            <==> exists k :: 0 <= k < |was| && was[k] == x && forall j :: 0 <= j < k ==> was[j] in placed
  {
    if was != [] {
      var tail := was[1..];
      FirstLeft(tail, placed, x);
      if was[0] in placed {
        if k :| 0 <= k < |tail| && tail[k] == x && forall j :: 0 <= j < k ==> tail[j] in placed {
          assert was[k + 1] == x;
          assert forall j :: 0 <= j < k + 1 ==> was[j] in placed by {
            forall j | 0 <= j < k + 1 ensures was[j] in placed { if j > 0 { assert was[j] == tail[j - 1]; } }
          }
        }
        if k :| 0 <= k < |was| && was[k] == x && forall j :: 0 <= j < k ==> was[j] in placed {
          assert tail[k - 1] == x && forall j :: 0 <= j < k - 1 ==> tail[j] == was[j + 1];
        }
      }
    }
  }

  lemma FirstIsInPlace<T(!new)>(was: seq<T>, ordered: seq<T>, i: nat)
    requires i < |ordered| && Distinct(ordered)
    ensures First(Minus(was, Elements(ordered[..i]))) == Some(ordered[i]) <==> InPlace(was, ordered, i)
  {
    FirstLeft(was, Elements(ordered[..i]), ordered[i]);
    assert forall x :: x in ordered[..i] <==> x in Elements(ordered[..i]);
  }

  lemma PlacedOneMore<T(!new)>(was: seq<T>, ordered: seq<T>, i: nat)
    requires i < |ordered|
    ensures ordered[..i + 1] == ordered[..i] + [ordered[i]]
    ensures Minus(was, Elements(ordered[..i + 1])) == Minus(Minus(was, Elements(ordered[..i])), {ordered[i]})
  {
    assert Elements(ordered[..i + 1]) == Elements(ordered[..i]) + {ordered[i]};
    MinusTwice(was, Elements(ordered[..i]), {ordered[i]});
  }

  lemma MovesOneMore<T(!new)>(children: seq<T>, ref: Option<T>, was: seq<T>, ordered: seq<T>, i: nat)
    requires i < |ordered| && Arranged(children, ref, was, ordered, i) && Distinct(ordered)
    ensures Moves(was, ordered, i + 1) == Moves(was, ordered, i) + if ref == Some(ordered[i]) then [] else [ordered[i]]
  {
    FirstIsInPlace(was, ordered, i);
  }

  lemma StaysPut<T(!new)>(children: seq<T>, ref: Option<T>, was: seq<T>, ordered: seq<T>, i: nat)
    requires i < |ordered| && Arranged(children, ref, was, ordered, i) && ref == Some(ordered[i])
    requires Distinct(was) && Distinct(ordered)
    ensures ordered[i] in children && Arranged(children, NextOf(children, ordered[i]), was, ordered, i + 1)
  {
    var rest := Minus(was, Elements(ordered[..i]));
    PlacedOneMore(was, ordered, i);
    MinusDistinct(was, Elements(ordered[..i]));
    HeadGone(rest);
    HeadSplit(ordered[..i], rest);
    NextAfter(ordered[..i], ordered[i], rest[1..]);
  }

  lemma HeadSplit<T(!new)>(done: seq<T>, rest: seq<T>)
    requires rest != []
    ensures done + rest == done + [rest[0]] + rest[1..]
  {
  }

  lemma MovesIn<T(!new)>(children: seq<T>, ref: Option<T>, was: seq<T>, ordered: seq<T>, i: nat)
    requires i < |ordered| && Arranged(children, ref, was, ordered, i) && ref != Some(ordered[i])
    requires Distinct(was) && Distinct(ordered)
    ensures ref.Some? ==> ref.value in children
    ensures Arranged(Inserted(children, ordered[i], ref), ref, was, ordered, i + 1)
  {
    var rest := Minus(was, Elements(ordered[..i]));
    PlacedOneMore(was, ordered, i);
    MinusDistinct(was, Elements(ordered[..i]));
    InsertedAt(ordered[..i], rest, ordered[i], ref);
  }

  lemma HeadGone<T(!new)>(rest: seq<T>)
    requires Distinct(rest) && rest != []
    ensures Minus(rest, {rest[0]}) == rest[1..]
  {
    MinusAbsent(rest[1..], {rest[0]});
  }

  lemma InsertedAt<T(!new)>(done: seq<T>, rest: seq<T>, box: T, ref: Option<T>)
    requires ref == First(rest) && ref != Some(box) && box !in done && Distinct(rest)
    requires forall x :: x in rest ==> x !in done
    ensures Inserted(done + rest, box, ref) == done + [box] + Minus(rest, {box})
    ensures First(Minus(rest, {box})) == ref || (ref.None? && Minus(rest, {box}) == [])
  {
    MinusConcat(done, rest, {box});
    MinusAbsent(done, {box});
    var left := Minus(done + rest, {box});
    assert left == done + Minus(rest, {box});
    if ref.Some? {
      assert Minus(rest, {box})[0] == rest[0];
      assert left[|done|] == ref.value;
      assert ref.value !in done;
      var k := IndexOf(left, ref.value);
      assert k == |done|;
      assert left[..k] == done && left[k..] == Minus(rest, {box});
    } else {
      assert rest == [];
      assert left[..|left|] == done && left[|left|..] == [];
    }
  }

  lemma DropStep<T(!new)>(ordered: seq<T>, rest: seq<T>, k: nat)
    requires Distinct(rest) && k < |rest| && forall x :: x in rest ==> x !in ordered
    ensures var c := ordered + rest[k..];
            rest[k] in c && NextOf(c, rest[k]) == First(rest[k + 1..]) && Minus(c, {rest[k]}) == ordered + rest[k + 1..]
  {
    assert rest[k..] == [rest[k]] + rest[k + 1..];
    assert ordered + rest[k..] == ordered + [rest[k]] + rest[k + 1..];
    NextAfter(ordered, rest[k], rest[k + 1..]);
    MinusConcat(ordered, rest[k..], {rest[k]});
    MinusAbsent(ordered, {rest[k]});
    HeadGone(rest[k..]);
  }

  // ---- which elements move ----------------------------------------------------------

  /** Nothing moves exactly when the wanted order is how the children begin. */
  lemma {:induction false} NothingMovesExactly<T(!new)>(was: seq<T>, ordered: seq<T>, n: nat)
    requires Distinct(was) && Distinct(ordered) && n <= |ordered|
    ensures Moves(was, ordered, n) == [] <==> ordered[..n] <= was
  {
    if n > 0 {
      NothingMovesExactly(was, ordered, n - 1);
      assert ordered[..n] == ordered[..n - 1] + [ordered[n - 1]];
      if ordered[..n - 1] <= was {
        PrefixInPlace(was, ordered, n - 1);
      }
    }
  }

  lemma PrefixInPlace<T(!new)>(was: seq<T>, ordered: seq<T>, i: nat)
    requires Distinct(was) && Distinct(ordered) && i < |ordered| && ordered[..i] <= was
    ensures InPlace(was, ordered, i) <==> i < |was| && was[i] == ordered[i]
  {
  }

  /** So a leftover at the front moves every element that stays: none is in place. */
  lemma FrontLeftoverMovesAll<T(!new)>(gone: T, was: seq<T>, ordered: seq<T>, i: nat)
    requires i < |ordered| && gone !in ordered
    ensures !InPlace([gone] + was, ordered, i)
  {
    assert gone !in ordered[..i];
    forall k | 0 <= k < |was| + 1 && ([gone] + was)[k] == ordered[i]
      ensures !(forall j :: 0 <= j < k ==> ([gone] + was)[j] in ordered[..i])
    {
      assert ([gone] + was)[0] == gone;
    }
  }
}
