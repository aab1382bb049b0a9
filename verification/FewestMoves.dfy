/** How few insertions could put a host's children into a wanted order, and when the
    reordering loop needs no more. */
module FewestMoves {
  import opened Basics
  import opened Reorder

  /** What can be done to a host's children, one element at a time. */
  datatype Edit<T> = Insert(box: T, ref: Option<T>) | Drop(x: T)

  /** The host refuses to insert before what is not its child and leaves the children. */
  function Edited<T(==,!new)>(s: seq<T>, e: Edit<T>): seq<T>
  {
    match e
    case Insert(box, ref) => if ref.Some? && (ref.value !in s || ref.value == box) then s else Inserted(s, box, ref)
    case Drop(x) => Minus(s, {x})
  }

  function After<T(==,!new)>(s: seq<T>, edits: seq<Edit<T>>): seq<T>
  {
    if edits == [] then s else Edited(After(s, edits[..|edits| - 1]), edits[|edits| - 1])
  }

  /** The elements inserted, in order and as often as that happens. */
  function Boxes<T>(edits: seq<Edit<T>>): (r: seq<T>)
    ensures |r| <= |edits|
  {
    if edits == [] then []
    else
      var last := edits[|edits| - 1];
      Boxes(edits[..|edits| - 1]) + if last.Insert? then [last.box] else []
  }

  function Touched<T(!new)>(edits: seq<Edit<T>>): set<T>
  {
    set e | e in edits :: if e.Insert? then e.box else e.x
  }

  /** The one is the other with some elements left out. */
  predicate Within<T(==)>(c: seq<T>, s: seq<T>)
  {
    c == [] || (s != [] && if c[0] == s[0] then Within(c[1..], s[1..]) else Within(c, s[1..]))
  }

  lemma {:induction false} MinusWithin<T(!new)>(s: seq<T>, gone: set<T>)
    ensures Within(Minus(s, gone), s)
  {
    if s != [] {
      MinusWithin(s[1..], gone);
      var rest := Minus(s[1..], gone);
      if s[0] in gone {
        assert Minus(s, gone) == rest;
        if rest != [] { assert rest[0] in rest && rest[0] !in gone; }
      } else {
        assert Minus(s, gone) == [s[0]] + rest;
        assert Minus(s, gone)[1..] == rest;
      }
    }
  }

  lemma {:induction false} WithinElements<T(!new)>(c: seq<T>, s: seq<T>)
    requires Within(c, s)
    ensures forall x :: x in c ==> x in s
  {
    if c != [] {
      WithinElements(if c[0] == s[0] then c[1..] else c, s[1..]);
      assert c == [c[0]] + c[1..];
    }
  }

  lemma {:induction false} MinusSame<T(!new)>(s: seq<T>, a: set<T>, b: set<T>)
    requires forall x :: x in s ==> (x in a <==> x in b)
    ensures Minus(s, a) == Minus(s, b)
  {
    if s != [] {
      assert s[0] in s;
      MinusSame(s[1..], a, b);
    }
  }

  /** Of children that stand once each, only these can be left out to leave those. */
  lemma {:induction false} WithinIsMinus<T(!new)>(c: seq<T>, s: seq<T>)
    requires Distinct(s) && Within(c, s)
    ensures Minus(s, Elements(s) - Elements(c)) == c
  {
    if s != [] {
      var tail := s[1..];
      assert s == [s[0]] + tail && Distinct(tail) && s[0] !in tail;
      if c != [] && c[0] == s[0] {
        assert c == [s[0]] + c[1..];
        WithinIsMinus(c[1..], tail);
        LeaveOutTaken(s[0], c[1..], tail);
      } else {
        assert Within(c, tail);
        WithinIsMinus(c, tail);
        LeaveOutSkipped(s[0], c, tail);
      }
    }
  }

  lemma LeaveOutTaken<T(!new)>(x: T, c: seq<T>, tail: seq<T>)
    requires x !in tail && Within(c, tail) && Minus(tail, Elements(tail) - Elements(c)) == c
    ensures Minus([x] + tail, Elements([x] + tail) - Elements([x] + c)) == [x] + c
  {
    hide Within;
    var gone := Elements([x] + tail) - Elements([x] + c);
    assert Elements([x] + tail) == {x} + Elements(tail) && Elements([x] + c) == {x} + Elements(c);
    MinusSame(tail, gone, Elements(tail) - Elements(c));
    assert ([x] + tail)[1..] == tail;
  }

  lemma LeaveOutSkipped<T(!new)>(x: T, c: seq<T>, tail: seq<T>)
    requires x !in tail && Within(c, tail) && Minus(tail, Elements(tail) - Elements(c)) == c
    ensures Minus([x] + tail, Elements([x] + tail) - Elements(c)) == c
  {
    WithinElements(c, tail);
    hide Within;
    var gone := Elements([x] + tail) - Elements(c);
    assert Elements([x] + tail) == {x} + Elements(tail);
    MinusSame(tail, gone, Elements(tail) - Elements(c));
    assert ([x] + tail)[1..] == tail;
  }

  // ---- no run does better than the longest common order -----------------------------------

  lemma EditLeavesOthers<T(!new)>(s: seq<T>, e: Edit<T>)
    ensures var x := if e.Insert? then e.box else e.x;
            Minus(Edited(s, e), {x}) == Minus(s, {x})
  {
    match e
    case Insert(box, ref) =>
      if !(ref.Some? && (ref.value !in s || ref.value == box)) { InsertedMeans(s, box, ref); }
    case Drop(x) => MinusTwice(s, {x}, {x});
      assert {x} + {x} == {x};
  }

  lemma TouchedMore<T(!new)>(edits: seq<Edit<T>>)
    requires edits != []
    ensures var n := |edits| - 1;
            Touched(edits) == Touched(edits[..n]) + {if edits[n].Insert? then edits[n].box else edits[n].x}
  {
    var n := |edits| - 1;
    assert edits == edits[..n] + [edits[n]];
  }

  /** Whatever the run, the elements it does not touch stay in their order. */
  lemma {:induction false} UntouchedKeepOrder<T(!new)>(s: seq<T>, edits: seq<Edit<T>>)
    ensures Minus(After(s, edits), Touched(edits)) == Minus(s, Touched(edits))
  {
    if edits != [] {
      var n := |edits| - 1;
      var init, last := edits[..n], edits[n];
      var x := if last.Insert? then last.box else last.x;
      var mid := After(s, init);
      UntouchedKeepOrder(s, init);
      EditLeavesOthers(mid, last);
      TouchedMore(edits);
      var t := Touched(init);
      MinusTwice(mid, t, {x});
      MinusTwice(s, t, {x});
      MinusTwice(mid, {x}, t);
      MinusTwice(After(s, edits), {x}, t);
      assert t + {x} == {x} + t;
    }
  }

  /** A touched element that is there in the end was inserted. */
  lemma {:induction false} TouchedIsInserted<T(!new)>(s: seq<T>, edits: seq<Edit<T>>, x: T)
    requires x in After(s, edits) && x in Touched(edits)
    ensures x in Boxes(edits)
  {
    var n := |edits| - 1;
    assert edits != [];
    var init, last := edits[..n], edits[n];
    var y := if last.Insert? then last.box else last.x;
    TouchedMore(edits);
    if last.Insert? && x == y {
    } else {
      EditLeavesOthers(After(s, init), last);
      assert last.Drop? ==> x != y;
      assert x in Minus(After(s, edits), {y});
      assert x in After(s, init) && x in Touched(init);
      TouchedIsInserted(s, init, x);
    }
  }

  /** Leaving out some elements leaves at least the rest. */
  lemma {:induction false} MinusCount<T(!new)>(s: seq<T>, gone: set<T>, boxes: seq<T>)
    requires Distinct(s) && forall x :: x in s && x in gone ==> x in boxes
    ensures |s| <= |Minus(s, gone)| + |boxes|
    decreases |s|
  {
    if s != [] {
      var tail := s[1..];
      assert s[0] in s && s[0] !in tail;
      if s[0] in gone {
        var k := IndexOf(boxes, s[0]);
        var fewer := boxes[..k] + boxes[k + 1..];
        assert boxes == boxes[..k] + [boxes[k]] + boxes[k + 1..];
        MinusCount(tail, gone, fewer);
      } else {
        MinusCount(tail, gone, boxes);
        assert Minus(s, gone) == [s[0]] + Minus(tail, gone);
      }
    }
  }

  /** Every run to the wanted order leaves some elements in the order they had, and
      inserts at least all the others. */
  lemma RunLeavesCommonOrder<T(!new)>(was: seq<T>, ordered: seq<T>, edits: seq<Edit<T>>) returns (c: seq<T>)
    requires Distinct(ordered) && After(was, edits) == ordered
    ensures Within(c, was) && Within(c, ordered) && |ordered| - |c| <= |Boxes(edits)|
  {
    var gone := Touched(edits);
    c := Minus(ordered, gone);
    UntouchedKeepOrder(was, edits);
    MinusWithin(was, gone);
    MinusWithin(ordered, gone);
    forall x | x in ordered && x in gone ensures x in Boxes(edits) {
      TouchedIsInserted(was, edits, x);
    }
    MinusCount(ordered, gone, Boxes(edits));
  }

  // ---- and the longest common order can be kept -------------------------------------------

  lemma AfterOne<T(!new)>(s: seq<T>, edits: seq<Edit<T>>, e: Edit<T>)
    ensures After(s, edits + [e]) == Edited(After(s, edits), e)
    ensures Boxes(edits + [e]) == Boxes(edits) + if e.Insert? then [e.box] else []
  {
    assert (edits + [e])[..|edits|] == edits;
  }

  function Drops<T>(d: seq<T>): (r: seq<Edit<T>>)
    ensures |r| == |d| && forall i :: 0 <= i < |d| ==> r[i] == Drop(d[i])
  {
    seq(|d|, i requires 0 <= i < |d| => Drop(d[i]))
  }

  lemma {:induction false} DropsLeave<T(!new)>(s: seq<T>, d: seq<T>)
    ensures After(s, Drops(d)) == Minus(s, Elements(d)) && Boxes(Drops(d)) == []
  {
    if d == [] {
      MinusNothing(s);
      assert Elements(d) == {};
    } else {
      var n := |d| - 1;
      DropsLeave(s, d[..n]);
      DropsOneMore(s, d[..n], d[n]);
      assert d == d[..n] + [d[n]];
    }
  }

  lemma DropsOneMore<T(!new)>(s: seq<T>, d: seq<T>, x: T)
    ensures After(s, Drops(d + [x])) == Minus(After(s, Drops(d)), {x})
    ensures Boxes(Drops(d + [x])) == Boxes(Drops(d))
    ensures Minus(s, Elements(d + [x])) == Minus(Minus(s, Elements(d)), {x})
  {
    hide After, Boxes, Minus;
    assert Drops(d + [x]) == Drops(d) + [Drop(x)];
    AfterOne(s, Drops(d), Drop(x));
    assert Elements(d + [x]) == Elements(d) + {x};
    MinusTwice(s, Elements(d), {x});
  }

  /** From the last back to the `i`th, inserts each of the missing before its next. */
  function Fill<T(==)>(ordered: seq<T>, gone: set<T>, i: nat): seq<Edit<T>>
    requires i <= |ordered|
    decreases |ordered| - i
  {
    if i == |ordered| then []
    else
      Fill(ordered, gone, i + 1)
      + if ordered[i] in gone then [Insert(ordered[i], First(ordered[i + 1..]))] else []
  }

  lemma {:induction false} FillCompletes<T(!new)>(ordered: seq<T>, gone: set<T>, i: nat)
    requires i <= |ordered| && Distinct(ordered)
    ensures After(Minus(ordered, gone), Fill(ordered, gone, i)) == Minus(ordered[..i], gone) + ordered[i..]
    ensures |Boxes(Fill(ordered, gone, i))| == |ordered[i..]| - |Minus(ordered[i..], gone)|
    decreases |ordered| - i
  {
    if i == |ordered| {
      assert ordered[..i] == ordered && ordered[i..] == [];
      assert Minus(ordered, gone) + [] == Minus(ordered, gone);
    } else {
      FillCompletes(ordered, gone, i + 1);
      FillsOne(ordered, gone, i);
      FillOneMore(ordered, gone, i, Minus(ordered, gone));
    }
  }

  lemma FillOneMore<T(!new)>(ordered: seq<T>, gone: set<T>, i: nat, base: seq<T>)
    requires i < |ordered|
    ensures var was, next := Fill(ordered, gone, i + 1), Insert(ordered[i], First(ordered[i + 1..]));
            && After(base, Fill(ordered, gone, i))
               == (if ordered[i] in gone then Edited(After(base, was), next) else After(base, was))
            && |Boxes(Fill(ordered, gone, i))| == |Boxes(was)| + if ordered[i] in gone then 1 else 0
  {
    hide After, Boxes, Edited, First;
    var was := Fill(ordered, gone, i + 1);
    AfterOne(base, was, Insert(ordered[i], First(ordered[i + 1..])));
    assert was + [] == was;
  }

  lemma FillsOne<T(!new)>(ordered: seq<T>, gone: set<T>, i: nat)
    requires i < |ordered| && Distinct(ordered)
    ensures var before := Minus(ordered[..i + 1], gone) + ordered[i + 1..];
            Minus(ordered[..i], gone) + ordered[i..]
            == if ordered[i] in gone then Edited(before, Insert(ordered[i], First(ordered[i + 1..]))) else before
    ensures |Minus(ordered[i..], gone)| == |Minus(ordered[i + 1..], gone)| + if ordered[i] in gone then 0 else 1
  {
    hide Minus, Edited, First, Distinct;
    var x, head, rest := ordered[i], ordered[..i], ordered[i + 1..];
    assert ordered[i..] == [x] + rest && ordered[..i + 1] == head + [x];
    var kept := Minus(head, gone);
    KeptApart(ordered, gone, i);
    MinusConcat(head, [x], gone);
    MinusConcat([x], rest, gone);
    MinusSingle(x, gone);
    if x in gone {
      assert kept + [] == kept;
      InsertsBefore(kept, x, rest);
    } else {
      assert kept + [x] + rest == kept + ([x] + rest);
    }
  }

  lemma KeptApart<T(!new)>(ordered: seq<T>, gone: set<T>, i: nat)
    requires i < |ordered| && Distinct(ordered)
    ensures var kept, rest := Minus(ordered[..i], gone), ordered[i + 1..];
            ordered[i] !in kept && ordered[i] !in rest && forall y :: y in rest ==> y !in kept
  {
  }

  lemma MinusSingle<T(!new)>(x: T, gone: set<T>)
    ensures Minus([x], gone) == if x in gone then [] else [x]
  {
  }

  lemma InsertsBefore<T(!new)>(kept: seq<T>, x: T, rest: seq<T>)
    requires x !in kept && x !in rest && forall y :: y in rest ==> y !in kept
    ensures Edited(kept + rest, Insert(x, First(rest))) == kept + ([x] + rest)
  {
    var s := kept + rest;
    MinusAbsent(s, {x});
    if rest != [] {
      assert rest[0] in rest && s[|kept|] == rest[0] && rest[0] in s;
      assert IndexOf(s, rest[0]) == |kept|;
    }
    assert s[..|kept|] == kept && s[|kept|..] == rest;
  }

  lemma {:induction false} AfterBoth<T(!new)>(s: seq<T>, a: seq<Edit<T>>, b: seq<Edit<T>>)
    ensures After(s, a + b) == After(After(s, a), b) && Boxes(a + b) == Boxes(a) + Boxes(b)
  {
    if b == [] {
      assert a + b == a;
    } else {
      var n := |b| - 1;
      assert (a + b)[..|a + b| - 1] == a + b[..n];
      AfterBoth(s, a, b[..n]);
    }
  }

  /** Any common order can be kept: some run inserts exactly the others. */
  lemma CommonOrderIsEnough<T(!new)>(was: seq<T>, ordered: seq<T>, c: seq<T>) returns (edits: seq<Edit<T>>)
    requires Distinct(was) && Distinct(ordered) && Within(c, was) && Within(c, ordered)
    ensures After(was, edits) == ordered && |Boxes(edits)| == |ordered| - |c|
  {
    var d, gone := Minus(was, Elements(c)), Elements(ordered) - Elements(c);
    WithinIsMinus(c, was);
    WithinIsMinus(c, ordered);
    assert Elements(d) == Elements(was) - Elements(c);
    DropsLeave(was, d);
    FillCompletes(ordered, gone, 0);
    assert ordered[..0] == [] && ordered[0..] == ordered;
    edits := Drops(d) + Fill(ordered, gone, 0);
    AfterBoth(was, Drops(d), Fill(ordered, gone, 0));
  }

  // ---- when the loop inserts no more than it must -----------------------------------------

  /** How many of the first `n` wanted elements are in place at their turn. */
  ghost function InPlaceCount<T(!new)>(was: seq<T>, ordered: seq<T>, n: nat): nat
    requires n <= |ordered|
  {
    if n == 0 then 0 else InPlaceCount(was, ordered, n - 1) + if InPlace(was, ordered, n - 1) then 1 else 0
  }

  lemma {:induction false} MovesTheRest<T(!new)>(was: seq<T>, ordered: seq<T>, n: nat)
    requires n <= |ordered|
    ensures |Moves(was, ordered, n)| == n - InPlaceCount(was, ordered, n)
  {
    if n > 0 { MovesTheRest(was, ordered, n - 1); }
  }

  /** The loop inserts as few elements as any run to the wanted order could, exactly when
      no order common to the children and the wanted list is longer than the elements it
      finds in place. */
  lemma FewestExactly<T(!new)>(was: seq<T>, ordered: seq<T>)
    requires Distinct(was) && Distinct(ordered)
    ensures (forall edits :: After(was, edits) == ordered ==> |Moves(was, ordered, |ordered|)| <= |Boxes(edits)|)
            <==> (forall c :: Within(c, was) && Within(c, ordered) ==> |c| <= InPlaceCount(was, ordered, |ordered|))
  {
    MovesTheRest(was, ordered, |ordered|);
    if c :| Within(c, was) && Within(c, ordered) && |c| > InPlaceCount(was, ordered, |ordered|) {
      var edits := CommonOrderIsEnough(was, ordered, c);
      assert After(was, edits) == ordered;
    }
    if edits :| After(was, edits) == ordered && |Moves(was, ordered, |ordered|)| > |Boxes(edits)| {
      var c := RunLeavesCommonOrder(was, ordered, edits);
      assert Within(c, was);
    }
  }

  /** And sending the first element to the end moves all the others instead of it. */
  lemma FirstToLastMovesTheRest<T(!new)>(a: T, s: seq<T>, i: nat)
    requires Distinct([a] + s) && i <= |s|
    ensures InPlace([a] + s, s + [a], i) <==> i == |s|
  {
    var was, ordered := [a] + s, s + [a];
    assert was[0] == a;
    if i == |s| {
      assert ordered[i] == a;
      assert was[0] == ordered[i];
    } else {
      assert ordered[..i] == s[..i];
      assert forall x :: x in s[..i] ==> x in s;
      assert a !in s by {
        forall m | 0 <= m < |s| ensures s[m] != a { assert was[m + 1] == s[m]; }
      }
    }
  }

  /** One insertion would do: with two others or more, the loop does not move the fewest. */
  lemma OneInsertionWouldDo<T(!new)>(a: T, s: seq<T>)
    requires Distinct([a] + s)
    ensures After([a] + s, [Insert(a, None)]) == s + [a] && |Boxes([Insert(a, None)])| == 1
    ensures |Moves([a] + s, s + [a], |s| + 1)| == |s|
  {
    var was, ordered := [a] + s, s + [a];
    assert was[1..] == s && a !in was[1..] by {
      forall m | 0 <= m < |was[1..]| ensures was[1..][m] != was[0] { assert was[1..][m] == was[m + 1]; }
    }
    MinusAbsent(s, {a});
    assert Minus(was, {a}) == s;
    assert s[..|s|] == s && s[|s|..] == [];
    assert [Insert(a, None)] == [] + [Insert(a, None)];
    AfterOne(was, [], Insert(a, None));
    MovesTheRest(was, ordered, |s| + 1);
    OnlyLastInPlace(a, s, |s| + 1);
  }

  lemma {:induction false} OnlyLastInPlace<T(!new)>(a: T, s: seq<T>, n: nat)
    requires Distinct([a] + s) && n <= |s| + 1
    ensures InPlaceCount([a] + s, s + [a], n) == if n == |s| + 1 then 1 else 0
  {
    if n > 0 {
      OnlyLastInPlace(a, s, n - 1);
      FirstToLastMovesTheRest(a, s, n - 1);
    }
  }
}
