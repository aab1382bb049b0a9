/** The restrictions a data class inherits along `derived_from`: a recursive search
    with shared state, over a graph that may have cycles. */
module DataClasses {

  /** A flag as the document holds it: absent, true or false. */
  datatype Flag = Unset | Yes | No

  /** A relation of a class; `derives` when its kind is `derived_from`. */
  datatype Relation = Relation(derives: bool, target: string)

  datatype DataClass = DataClass(id: string, mayLeaveRegion: Flag, mayAppearInTraces: Flag,
                                 scope: string, relations: seq<Relation>)

  type Classes = map<string, DataClass>

  /** The table by id; a repeated id keeps its last class. */
  function ById(classes: seq<DataClass>): (m: Classes)
    ensures forall k :: k in m ==> m[k].id == k && m[k] in classes
    ensures forall c :: c in classes ==> c.id in m
  {
    if classes == [] then map[]
    else
      var last := classes[|classes| - 1];
      var m := ById(classes[..|classes| - 1]);
      assert classes == classes[..|classes| - 1] + [last];
      m[last.id := last]
  }

  /** A repeated id keeps its last class. */
  lemma {:induction false} ByIdKeepsLast(classes: seq<DataClass>, i: nat)
    requires i < |classes| && forall j :: i < j < |classes| ==> classes[j].id != classes[i].id
    ensures classes[i].id in ById(classes) && ById(classes)[classes[i].id] == classes[i]
  {
    hide ById;
    var n := |classes| - 1;
    ByIdOneMore(classes);
    if i < n {
      assert classes[..n][i] == classes[i];
      ByIdKeepsLast(classes[..n], i);
      assert classes[n].id != classes[i].id;
    }
  }

  lemma ByIdOneMore(classes: seq<DataClass>)
    requires classes != []
    ensures ById(classes) == ById(classes[..|classes| - 1])[classes[|classes| - 1].id := classes[|classes| - 1]]
  {
  }

  /** How open a scope is; an absent one is private and an unknown one has no rank. */
  function Rank(scope: string): int
  {
    if scope == "" || scope == "private" then 1
    else if scope == "protected" then 2
    else if scope == "public" then 3
    else 0
  }

  predicate Tighter(a: string, b: string)
  {
    Rank(a) != 0 && Rank(b) != 0 && Rank(a) < Rank(b)
  }

  datatype Key = Region | Traces | Scope

  datatype Row = Row(key: Key, from: string, dropped: bool)

  predicate Has(rows: seq<Row>, key: Key)
  {
    exists i :: 0 <= i < |rows| && rows[i].key == key
  }

  /** What makes a source class restrict `own` under a key. */
  predicate Restricts(own: DataClass, src: DataClass, key: Key)
  {
    match key
    case Region => src.mayLeaveRegion == No
    case Traces => src.mayAppearInTraces == No
    case Scope => Tighter(src.scope, own.scope)
  }

  /** Whether `own` says otherwise. */
  predicate Drops(own: DataClass, key: Key)
  {
    match key
    case Region => own.mayLeaveRegion != No
    case Traces => own.mayAppearInTraces != No
    case Scope => true
  }

  function AddRow(own: DataClass, src: DataClass, key: Key, rows: seq<Row>): seq<Row>
  {
    if Restricts(own, src, key) && !Has(rows, key) then rows + [Row(key, src.id, Drops(own, key))] else rows
  }

  /** The rows a list of sources gives: under each key the first source that restricts. */
  function RowsOf(own: DataClass, sources: seq<DataClass>): seq<Row>
  {
    if sources == [] then []
    else
      var src := sources[|sources| - 1];
      var rows := RowsOf(own, sources[..|sources| - 1]);
      AddRow(own, src, Scope, AddRow(own, src, Traces, AddRow(own, src, Region, rows)))
  }

  // ---- the order of the search, by an explicit list of what is left to do -----

  function TargetsOf(rs: seq<Relation>): seq<string>
  {
    if rs == [] then []
    else (if rs[0].derives then [rs[0].target] else []) + TargetsOf(rs[1..])
  }

  /** The class says it is derived from that target. */
  ghost predicate SaysDerived(c: DataClass, t: string)
  {
    exists r :: r in c.relations && r.derives && r.target == t
  }

  lemma {:induction false} TargetsOfMean(rs: seq<Relation>, t: string)
    ensures t in TargetsOf(rs) <==> exists r :: r in rs && r.derives && r.target == t
  {
    if rs != [] {
      TargetsOfMean(rs[1..], t);
      assert rs == [rs[0]] + rs[1..];
    }
  }

  lemma {:induction false} TargetsInOrder(a: seq<Relation>, r: Relation, b: seq<Relation>)
    ensures TargetsOf(a + [r] + b) == TargetsOf(a) + (if r.derives then [r.target] else []) + TargetsOf(b)
  {
    if a == [] {
      assert a + [r] + b == [r] + b && ([r] + b)[1..] == b;
    } else {
      assert (a + [r] + b)[1..] == a[1..] + [r] + b;
      TargetsInOrder(a[1..], r, b);
    }
  }

  function Targets(byId: Classes, id: string): (ts: seq<string>)
    ensures forall t :: t in ts <==> id in byId && SaysDerived(byId[id], t)
  {
    assert id in byId ==> forall t :: t in TargetsOf(byId[id].relations) <==> SaysDerived(byId[id], t) by {
      if id in byId {
        forall t ensures t in TargetsOf(byId[id].relations) <==> SaysDerived(byId[id], t) {
          TargetsOfMean(byId[id].relations, t);
        }
      }
    }
    if id in byId then TargetsOf(byId[id].relations) else []
  }

  ghost function Universe(byId: Classes): set<string>
  {
    set id, t | id in byId && t in Targets(byId, id) :: t
  }

  /** Depth first: take the next, unless seen; its own sources come before the rest. */
  ghost function Preorder(byId: Classes, todo: seq<string>, seen: set<string>): seq<string>
    decreases Universe(byId) + (set t | t in todo) - seen, |todo|
  {
    if todo == [] then []
    else
      var t, rest := todo[0], todo[1..];
      assert todo == [t] + rest;
      if t in seen then
        assert Universe(byId) + (set x | x in rest) - seen == Universe(byId) + (set x | x in todo) - seen;
        Preorder(byId, rest, seen)
      else if t !in byId then
        assert t in Universe(byId) + (set x | x in todo) - seen;
        Preorder(byId, rest, seen + {t})
      else
        assert t in Universe(byId) + (set x | x in todo) - seen;
        assert (set x | x in Targets(byId, t)) <= Universe(byId);
        [t] + Preorder(byId, Targets(byId, t) + rest, seen + {t})
  }

  /** Doing `todo` first emits `out` and leaves `left` to do, whatever comes after. */
  ghost predicate Advances(byId: Classes, todo: seq<string>, seen: set<string>,
                           out: seq<string>, left: seq<string>, seen': set<string>)
  {
    forall rest :: Preorder(byId, todo + rest, seen) == out + Preorder(byId, left + rest, seen')
  }

  lemma AdvanceNothing(byId: Classes, todo: seq<string>, seen: set<string>)
    ensures Advances(byId, todo, seen, [], todo, seen)
  {
  }

  lemma AdvanceThen(byId: Classes, todo: seq<string>, seen: set<string>, out: seq<string>,
                    mid: seq<string>, seen1: set<string>, out2: seq<string>, left: seq<string>, seen2: set<string>)
    requires Advances(byId, todo, seen, out, mid, seen1) && Advances(byId, mid, seen1, out2, left, seen2)
    ensures Advances(byId, todo, seen, out + out2, left, seen2)
  {
  }

  lemma AdvanceHead(byId: Classes, t: string, tail: seq<string>, seen: set<string>)
    ensures t in seen ==> Advances(byId, [t] + tail, seen, [], tail, seen)
    ensures t !in seen && t !in byId ==> Advances(byId, [t] + tail, seen, [], tail, seen + {t})
    ensures t !in seen && t in byId ==> Advances(byId, [t] + tail, seen, [t], Targets(byId, t) + tail, seen + {t})
  {
    forall rest
      ensures t in seen ==> Preorder(byId, [t] + tail + rest, seen) == [] + Preorder(byId, tail + rest, seen)
      ensures t !in seen && t !in byId ==>
        Preorder(byId, [t] + tail + rest, seen) == [] + Preorder(byId, tail + rest, seen + {t})
      ensures t !in seen && t in byId ==>
        Preorder(byId, [t] + tail + rest, seen) == [t] + Preorder(byId, Targets(byId, t) + tail + rest, seen + {t})
    {
      var todo := [t] + tail + rest;
      assert todo[0] == t && todo[1..] == tail + rest;
      assert Targets(byId, t) + (tail + rest) == Targets(byId, t) + tail + rest;
    }
  }

  lemma AdvanceBefore(byId: Classes, todo: seq<string>, seen: set<string>, out: seq<string>,
                      seen': set<string>, tail: seq<string>)
    requires Advances(byId, todo, seen, out, [], seen')
    ensures Advances(byId, todo + tail, seen, out, tail, seen')
  {
    forall rest ensures Preorder(byId, todo + tail + rest, seen) == out + Preorder(byId, tail + rest, seen') {
      assert todo + tail + rest == todo + (tail + rest);
      assert [] + (tail + rest) == tail + rest;
    }
  }

  // ---- the search as it runs ---------------------------------------------------

  /** The classes of a list of declared ids. */
  predicate AreSources(byId: Classes, ids: seq<string>, sources: seq<DataClass>)
  {
    |ids| == |sources| && forall i :: 0 <= i < |ids| ==> ids[i] in byId && sources[i] == byId[ids[i]]
  }

  lemma RowsOneMore(own: DataClass, sources: seq<DataClass>, src: DataClass)
    ensures RowsOf(own, sources + [src])
            == AddRow(own, src, Scope, AddRow(own, src, Traces, AddRow(own, src, Region, RowsOf(own, sources))))
  {
  }

  /** The search has emitted `done` and the relations from the `i`th on are left. */
  ghost predicate At(byId: Classes, id: string, seen0: set<string>, done: seq<string>, i: nat, seen: set<string>)
    requires id in byId && i <= |byId[id].relations|
  {
    Advances(byId, Targets(byId, id), seen0, done, TargetsOf(byId[id].relations[i..]), seen)
  }

  lemma AtSkipsOther(byId: Classes, id: string, seen0: set<string>, done: seq<string>, i: nat, seen: set<string>)
    requires id in byId && i < |byId[id].relations| && At(byId, id, seen0, done, i, seen)
    requires !byId[id].relations[i].derives
    ensures At(byId, id, seen0, done, i + 1, seen)
  {
    var rs := byId[id].relations;
    assert rs[i..][1..] == rs[i + 1..];
    assert TargetsOf(rs[i..]) == TargetsOf(rs[i + 1..]);
  }

  lemma AtSkipsTarget(byId: Classes, id: string, seen0: set<string>, done: seq<string>, i: nat,
                      seen: set<string>, seen': set<string>)
    requires id in byId && i < |byId[id].relations| && At(byId, id, seen0, done, i, seen)
    requires byId[id].relations[i].derives
    requires var t := byId[id].relations[i].target;
             if t in seen then seen' == seen else t !in byId && seen' == seen + {t}
    ensures At(byId, id, seen0, done, i + 1, seen')
  {
    var rs := byId[id].relations;
    var t, tail := rs[i].target, TargetsOf(rs[i + 1..]);
    assert rs[i..][1..] == rs[i + 1..];
    AdvanceHead(byId, t, tail, seen);
    AdvanceThen(byId, Targets(byId, id), seen0, done, [t] + tail, seen, [], tail, seen');
    assert done + [] == done;
  }

  lemma AtDescends(byId: Classes, id: string, seen0: set<string>, done: seq<string>, i: nat, seen: set<string>,
                   below: seq<string>, seen': set<string>)
    requires id in byId && i < |byId[id].relations| && At(byId, id, seen0, done, i, seen)
    requires var r := byId[id].relations[i];
             r.derives && r.target !in seen && r.target in byId
             && Advances(byId, Targets(byId, r.target), seen + {r.target}, below, [], seen')
    ensures At(byId, id, seen0, done + [byId[id].relations[i].target] + below, i + 1, seen')
  {
    var rs := byId[id].relations;
    var t, tail := rs[i].target, TargetsOf(rs[i + 1..]);
    assert rs[i..][1..] == rs[i + 1..];
    AdvanceHead(byId, t, tail, seen);
    AdvanceThen(byId, Targets(byId, id), seen0, done, [t] + tail, seen, [t], Targets(byId, t) + tail, seen + {t});
    AdvanceBefore(byId, Targets(byId, t), seen + {t}, below, seen', tail);
    AdvanceThen(byId, Targets(byId, id), seen0, done + [t], Targets(byId, t) + tail, seen + {t}, below, tail, seen');
  }

  lemma AtStarts(byId: Classes, id: string, seen: set<string>)
    requires id in byId
    ensures At(byId, id, seen, [], 0, seen)
  {
  }

  lemma AtEnds(byId: Classes, id: string, seen0: set<string>, done: seq<string>, seen: set<string>)
    requires id in byId && At(byId, id, seen0, done, |byId[id].relations|, seen)
    ensures Advances(byId, Targets(byId, id), seen0, done, [], seen)
  {
  }

  lemma Slices(a: seq<string>, done: seq<string>, mid: seq<string>, b: seq<string>)
    requires mid <= b && a + done <= mid
    ensures b == a + (done + mid[|a| + |done|..] + b[|mid|..])
  {
  }

  class Search {
    const byId: Classes
    const own: DataClass
    var seen: set<string>
    var out: seq<Row>
    ghost var order: seq<string>
    ghost var sources: seq<DataClass>

    ghost predicate Valid()
      reads this
    {
      AreSources(byId, order, sources) && out == RowsOf(own, sources)
    }

    constructor (byId: Classes, own: DataClass)
      ensures Valid() && this.byId == byId && this.own == own
      ensures seen == {own.id} && order == []
    {
      this.byId, this.own := byId, own;
      seen, out, order, sources := {own.id}, [], [], [];
    }

    /** One restriction of a source: a row, unless there is one under its key. */
    method Note(src: DataClass, key: Key)
      modifies `out
      ensures out == AddRow(own, src, key, old(out))
    {
      if Restricts(own, src, key) && !Has(out, key) {
        out := out + [Row(key, src.id, Drops(own, key))];
      }
    }

    /** A source met for the first time: the rows it adds. */
    method Visit(src: DataClass)
      requires Valid() && src.id in byId && byId[src.id] == src
      modifies `out, `order, `sources
      ensures Valid() && order == old(order) + [src.id]
    {
      RowsOneMore(own, sources, src);
      Note(src, Region);
      Note(src, Traces);
      Note(src, Scope);
      order, sources := order + [src.id], sources + [src];
    }

    /** Terminates on any graph: each call is on a target not seen before. */
    method Walk(id: string)
      requires Valid() && forall k :: k in byId ==> byId[k].id == k
      modifies `seen, `out, `order, `sources
      ensures Valid() && old(seen) <= seen && old(order) <= order
      ensures Advances(byId, Targets(byId, id), old(seen), order[|old(order)|..], [], seen)
      decreases Universe(byId) - seen
    {
      if id !in byId {
        AdvanceNothing(byId, [], seen);
        return;
      }
      var rs := byId[id].relations;
      ghost var seen0, order0 := seen, order;
      AtStarts(byId, id, seen);
      ghost var done: seq<string> := [];
      for i := 0 to |rs|
        invariant Valid() && seen0 <= seen && order == order0 + done
        invariant At(byId, id, seen0, done, i, seen)
      {
        var r := rs[i];
        if !r.derives {
          AtSkipsOther(byId, id, seen0, done, i, seen);
          continue;
        }
        if r.target in seen {
          AtSkipsTarget(byId, id, seen0, done, i, seen, seen);
          continue;
        }
        ghost var before := seen;
        seen := seen + {r.target};
        if r.target !in byId {
          AtSkipsTarget(byId, id, seen0, done, i, before, seen);
          continue;
        }
        TargetInUniverse(byId, id, i);
        Visit(byId[r.target]);
        ghost var mid := order;
        Walk(r.target);
        Slices(order0, done, mid, order);
        AtDescends(byId, id, seen0, done, i, before, order[|mid|..], seen);
        assert mid[|order0| + |done|..] == [r.target];
        done := done + [r.target] + order[|mid|..];
      }
      AtEnds(byId, id, seen0, done, seen);
      assert order[|order0|..] == done;
    }
  }

  lemma TargetInUniverse(byId: Classes, id: string, i: nat)
    requires id in byId && i < |byId[id].relations| && byId[id].relations[i].derives
    ensures byId[id].relations[i].target in Universe(byId)
  {
    TargetListed(byId[id].relations, i);
    assert byId[id].relations[i].target in Targets(byId, id);
  }

  lemma {:induction false} TargetListed(rs: seq<Relation>, i: nat)
    requires i < |rs| && rs[i].derives
    ensures rs[i].target in TargetsOf(rs)
  {
    if i > 0 { TargetListed(rs[1..], i - 1); }
  }

  /** The other classes a class derives from, in the order the search meets them. */
  ghost function Ancestors(byId: Classes, classId: string): seq<string>
  {
    Preorder(byId, Targets(byId, classId), {classId})
  }

  lemma SearchFinds(byId: Classes, id: string, order: seq<string>, seen: set<string>)
    requires Advances(byId, Targets(byId, id), {id}, order, [], seen)
    ensures order == Ancestors(byId, id)
  {
    assert Targets(byId, id) + [] == Targets(byId, id);
    assert Preorder(byId, Targets(byId, id) + [], {id}) == order + Preorder(byId, [] + [], seen);
  }

  /** The rows shown for a class: none for an undeclared one. */
  ghost predicate IsInherited(rows: seq<Row>, byId: Classes, classId: string)
  {
    if classId !in byId then rows == []
    else exists sources :: AreSources(byId, Ancestors(byId, classId), sources) && rows == RowsOf(byId[classId], sources)
  }

  method InheritedRestrictions(classes: seq<DataClass>, classId: string) returns (rows: seq<Row>)
    ensures IsInherited(rows, ById(classes), classId)
  {
    var byId := ById(classes);
    if classId !in byId {
      return [];
    }
    var search := new Search(byId, byId[classId]);
    search.Walk(classId);
    SearchFinds(byId, classId, search.order, search.seen);
    rows := search.out;
  }

  lemma {:induction false} PreorderDeclared(byId: Classes, todo: seq<string>, seen: set<string>)
    ensures forall t :: t in Preorder(byId, todo, seen) ==> t in byId && t !in seen
    decreases Universe(byId) + (set t | t in todo) - seen, |todo|
  {
    if todo != [] {
      var t, rest := todo[0], todo[1..];
      assert todo == [t] + rest;
      if t in seen {
        assert Universe(byId) + (set x | x in rest) - seen == Universe(byId) + (set x | x in todo) - seen;
        PreorderDeclared(byId, rest, seen);
      } else if t !in byId {
        assert t in Universe(byId) + (set x | x in todo) - seen;
        PreorderDeclared(byId, rest, seen + {t});
      } else {
        assert t in Universe(byId) + (set x | x in todo) - seen;
        assert (set x | x in Targets(byId, t)) <= Universe(byId);
        PreorderDeclared(byId, Targets(byId, t) + rest, seen + {t});
      }
    }
  }

  // ---- what the rows mean --------------------------------------------------------

  /** One declared class derives from another. */
  ghost predicate Derives(byId: Classes, x: string, y: string)
  {
    x in byId && y in byId && SaysDerived(byId[x], y)
  }

  ghost predicate Lineage(byId: Classes, a: string, b: string, p: seq<string>)
  {
    p != [] && p[0] == a && p[|p| - 1] == b && forall i :: 0 <= i < |p| - 1 ==> Derives(byId, p[i], p[i + 1])
  }

  ghost predicate DerivesFrom(byId: Classes, a: string, b: string)
  {
    exists p :: Lineage(byId, a, b, p)
  }

  /** The next step of the search: what is left to do and what is seen. */
  lemma {:induction false} PreorderReached(byId: Classes, c: string, todo: seq<string>, seen: set<string>, t: string)
    requires forall x :: x in todo && x in byId ==> DerivesFrom(byId, c, x)
    requires t in Preorder(byId, todo, seen)
    ensures DerivesFrom(byId, c, t)
    decreases Universe(byId) + (set x | x in todo) - seen, |todo|
  {
    var h, rest := todo[0], todo[1..];
    assert todo == [h] + rest;
    if h in seen {
      assert Universe(byId) + (set x | x in rest) - seen == Universe(byId) + (set x | x in todo) - seen;
      PreorderReached(byId, c, rest, seen, t);
    } else if h !in byId {
      assert h in Universe(byId) + (set x | x in todo) - seen;
      PreorderReached(byId, c, rest, seen + {h}, t);
    } else if t != h {
      assert h in Universe(byId) + (set x | x in todo) - seen;
      assert (set x | x in Targets(byId, h)) <= Universe(byId);
      forall x | x in Targets(byId, h) && x in byId ensures DerivesFrom(byId, c, x) {
        OneMoreStep(byId, c, h, x);
      }
      PreorderReached(byId, c, Targets(byId, h) + rest, seen + {h}, t);
    }
  }

  lemma OneMoreStep(byId: Classes, c: string, h: string, x: string)
    requires DerivesFrom(byId, c, h) && Derives(byId, h, x)
    ensures DerivesFrom(byId, c, x)
  {
    var p :| Lineage(byId, c, h, p);
    assert Lineage(byId, c, x, p + [x]);
  }

  /** Nothing declared is left out: neither what was to do, nor what the search met. */
  lemma {:induction false} PreorderCloses(byId: Classes, todo: seq<string>, seen: set<string>)
    ensures forall x :: x in todo && x in byId ==> x in seen || x in Preorder(byId, todo, seen)
    ensures forall x, y :: x in Preorder(byId, todo, seen) && Derives(byId, x, y)
              ==> y in seen || y in Preorder(byId, todo, seen)
    decreases Universe(byId) + (set t | t in todo) - seen, |todo|
  {
    if todo != [] {
      var t, rest := todo[0], todo[1..];
      assert todo == [t] + rest;
      if t in seen {
        assert Universe(byId) + (set x | x in rest) - seen == Universe(byId) + (set x | x in todo) - seen;
        PreorderCloses(byId, rest, seen);
      } else if t !in byId {
        assert t in Universe(byId) + (set x | x in todo) - seen;
        PreorderCloses(byId, rest, seen + {t});
      } else {
        assert t in Universe(byId) + (set x | x in todo) - seen;
        assert (set x | x in Targets(byId, t)) <= Universe(byId);
        PreorderCloses(byId, Targets(byId, t) + rest, seen + {t});
      }
    }
  }

  lemma {:induction false} ClosedLineage(byId: Classes, s: set<string>, a: string, b: string, p: seq<string>)
    requires Lineage(byId, a, b, p) && a in s
    requires forall x, y :: x in s && Derives(byId, x, y) ==> y in s
    ensures b in s
    decreases |p|
  {
    var n := |p| - 1;
    if n > 0 {
      assert Derives(byId, p[n - 1], p[n - 1 + 1]);
      ClosedLineage(byId, s, a, p[n - 1], p[..n]);
    }
  }

  /** The search meets exactly the other declared classes the class derives from. */
  lemma AncestorsAre(byId: Classes, c: string, t: string)
    requires c in byId
    ensures t in Ancestors(byId, c) <==> t != c && t in byId && DerivesFrom(byId, c, t)
  {
    var order := Ancestors(byId, c);
    PreorderDeclared(byId, Targets(byId, c), {c});
    PreorderCloses(byId, Targets(byId, c), {c});
    assert Lineage(byId, c, c, [c]);
    forall x | x in Targets(byId, c) && x in byId ensures DerivesFrom(byId, c, x) {
      OneMoreStep(byId, c, c, x);
    }
    if t in order {
      PreorderReached(byId, c, Targets(byId, c), {c}, t);
    }
    if t != c && DerivesFrom(byId, c, t) {
      var p :| Lineage(byId, c, t, p);
      var s := (set x | x in order) + {c};
      forall x, y | x in s && Derives(byId, x, y) ensures y in s {
      }
      ClosedLineage(byId, s, c, t, p);
    }
  }

  /** The row under a key: from the first source that restricts. */
  ghost predicate FirstRow(own: DataClass, sources: seq<DataClass>, r: Row)
  {
    exists i :: 0 <= i < |sources| && Restricts(own, sources[i], r.key)
      && r == Row(r.key, sources[i].id, Drops(own, r.key))
      && forall j :: 0 <= j < i ==> !Restricts(own, sources[j], r.key)
  }

  ghost predicate OneEach(rows: seq<Row>)
  {
    forall i, j :: 0 <= i < j < |rows| ==> rows[i].key != rows[j].key
  }

  ghost predicate Sums(own: DataClass, sources: seq<DataClass>, rows: seq<Row>, key: Key)
  {
    && (Has(rows, key) <==> exists i :: 0 <= i < |sources| && Restricts(own, sources[i], key))
    && (forall r :: r in rows && r.key == key ==> FirstRow(own, sources, r))
  }

  lemma AddRowSums(own: DataClass, sources: seq<DataClass>, src: DataClass, rows: seq<Row>, key: Key)
    requires Sums(own, sources, rows, key)
    ensures Sums(own, sources + [src], AddRow(own, src, key, rows), key)
  {
    var more, rows' := sources + [src], AddRow(own, src, key, rows);
    assert forall i :: 0 <= i < |sources| ==> more[i] == sources[i];
    assert more[|sources|] == src;
    forall r | r in rows && r.key == key ensures FirstRow(own, more, r) {
      var i :| 0 <= i < |sources| && Restricts(own, sources[i], key)
        && r == Row(key, sources[i].id, Drops(own, key)) && forall j :: 0 <= j < i ==> !Restricts(own, sources[j], key);
      assert more[i] == sources[i];
    }
    if rows' != rows {
      assert rows'[|rows|].key == key;
      assert FirstRow(own, more, rows'[|rows|]);
    }
    if Has(rows, key) {
      var i :| 0 <= i < |rows| && rows[i].key == key;
      assert rows'[i] == rows[i];
      var k :| 0 <= k < |sources| && Restricts(own, sources[k], key);
      assert Restricts(own, more[k], key);
    }
  }

  lemma AddOtherSums(own: DataClass, sources: seq<DataClass>, src: DataClass, rows: seq<Row>, key: Key, other: Key)
    requires Sums(own, sources, rows, key) && other != key
    ensures Sums(own, sources, AddRow(own, src, other, rows), key)
  {
    var rows' := AddRow(own, src, other, rows);
    assert forall i :: 0 <= i < |rows| ==> rows'[i] == rows[i];
    assert Has(rows, key) ==> Has(rows', key);
    assert forall r :: r in rows' && r.key == key ==> r in rows;
  }

  lemma {:induction false} RowsSum(own: DataClass, sources: seq<DataClass>, key: Key)
    ensures Sums(own, sources, RowsOf(own, sources), key)
  {
    if sources != [] {
      var n := |sources| - 1;
      var init, src := sources[..n], sources[n];
      RowsSum(own, init, key);
      assert sources == init + [src];
      var r0 := RowsOf(own, init);
      var r1 := AddRow(own, src, Region, r0);
      var r2 := AddRow(own, src, Traces, r1);
      match key
      case Region =>
        AddRowSums(own, init, src, r0, key);
        AddOtherSums(own, sources, src, r1, key, Traces);
        AddOtherSums(own, sources, src, r2, key, Scope);
      case Traces =>
        AddOtherSums(own, init, src, r0, key, Region);
        AddRowSums(own, init, src, r1, key);
        AddOtherSums(own, sources, src, r2, key, Scope);
      case Scope =>
        AddOtherSums(own, init, src, r0, key, Region);
        AddOtherSums(own, init, src, r1, key, Traces);
        AddRowSums(own, init, src, r2, key);
    }
  }

  lemma {:induction false} RowsOneEach(own: DataClass, sources: seq<DataClass>)
    ensures OneEach(RowsOf(own, sources))
  {
    if sources != [] {
      RowsOneEach(own, sources[..|sources| - 1]);
    }
  }

  ghost predicate Restrains(byId: Classes, c: string, y: string, key: Key)
    requires c in byId
  {
    y != c && y in byId && DerivesFrom(byId, c, y) && Restricts(byId[c], byId[y], key)
  }

  lemma SourceRestrains(byId: Classes, c: string, sources: seq<DataClass>, i: nat, key: Key)
    requires c in byId && AreSources(byId, Ancestors(byId, c), sources) && i < |sources|
    requires Restricts(byId[c], sources[i], key)
    ensures Restrains(byId, c, Ancestors(byId, c)[i], key)
  {
    var y := Ancestors(byId, c)[i];
    assert y in Ancestors(byId, c);
    AncestorsAre(byId, c, y);
  }

  lemma RestrainerIsSource(byId: Classes, c: string, sources: seq<DataClass>, y: string, key: Key)
    requires c in byId && AreSources(byId, Ancestors(byId, c), sources) && Restrains(byId, c, y, key)
    ensures exists i :: 0 <= i < |sources| && Restricts(byId[c], sources[i], key)
  {
    AncestorsAre(byId, c, y);
    var i :| 0 <= i < |Ancestors(byId, c)| && Ancestors(byId, c)[i] == y;
    assert Restricts(byId[c], sources[i], key);
  }

  lemma RowRestrains(byId: Classes, c: string, sources: seq<DataClass>, r: Row)
    requires c in byId && (forall k :: k in byId ==> byId[k].id == k)
    requires AreSources(byId, Ancestors(byId, c), sources) && FirstRow(byId[c], sources, r)
    ensures Restrains(byId, c, r.from, r.key) && r.dropped == Drops(byId[c], r.key)
  {
    var i :| 0 <= i < |sources| && Restricts(byId[c], sources[i], r.key)
      && r == Row(r.key, sources[i].id, Drops(byId[c], r.key));
    SourceRestrains(byId, c, sources, i, r.key);
  }

  /** A row is shown exactly when some other declared class the class derives from,
      however far back, restricts it; the row names such a class, and whether the
      class itself says otherwise. */
  lemma InheritedExactly(byId: Classes, c: string, rows: seq<Row>, key: Key)
    requires c in byId && (forall k :: k in byId ==> byId[k].id == k) && IsInherited(rows, byId, c)
    ensures Has(rows, key) <==> exists y :: Restrains(byId, c, y, key)
    ensures forall r :: r in rows && r.key == key ==>
              Restrains(byId, c, r.from, key) && r.dropped == Drops(byId[c], key)
    ensures OneEach(rows)
  {
    var sources: seq<DataClass> :| AreSources(byId, Ancestors(byId, c), sources) && rows == RowsOf(byId[c], sources);
    RowsSum(byId[c], sources, key);
    RowsOneEach(byId[c], sources);
    if y :| Restrains(byId, c, y, key) {
      RestrainerIsSource(byId, c, sources, y, key);
    }
    if Has(rows, key) {
      var i :| 0 <= i < |sources| && Restricts(byId[c], sources[i], key);
      SourceRestrains(byId, c, sources, i, key);
    }
    forall r | r in rows && r.key == key
      ensures Restrains(byId, c, r.from, key) && r.dropped == Drops(byId[c], key)
    {
      RowRestrains(byId, c, sources, r);
    }
  }

  /** No single derivation drops the restriction. */
  ghost predicate EdgesKeep(byId: Classes, key: Key)
  {
    forall x, y :: Derives(byId, x, y) && Restricts(byId[x], byId[y], key) ==> !Drops(byId[x], key)
  }

  /** Then no class anywhere down the line is shown as dropping it. */
  lemma NoEdgeDropsNoRowDrops(byId: Classes, c: string, rows: seq<Row>, r: Row)
    requires c in byId && (forall k :: k in byId ==> byId[k].id == k) && IsInherited(rows, byId, c)
    requires r in rows && r.key != Scope && EdgesKeep(byId, r.key)
    ensures !r.dropped
  {
    InheritedExactly(byId, c, rows, r.key);
    var p :| Lineage(byId, c, r.from, p);
    KeptAlong(byId, c, r.from, p, r.key);
  }

  lemma {:induction false} KeptAlong(byId: Classes, c: string, y: string, p: seq<string>, key: Key)
    requires key != Scope && EdgesKeep(byId, key) && c in byId && y in byId
    requires Lineage(byId, c, y, p) && Restricts(byId[y], byId[y], key)
    ensures !Drops(byId[c], key)
    decreases |p|
  {
    var n := |p| - 1;
    if n > 0 {
      var x := p[n - 1];
      assert Derives(byId, p[n - 1], p[n - 1 + 1]);
      assert Restricts(byId[x], byId[y], key);
      KeptAlong(byId, c, x, p[..n], key);
    }
  }

  lemma InheritedExist(byId: Classes, c: string) returns (rows: seq<Row>)
    requires c in byId
    ensures IsInherited(rows, byId, c)
  {
    var ids := Ancestors(byId, c);
    PreorderDeclared(byId, Targets(byId, c), {c});
    var sources := seq(|ids|, i requires 0 <= i < |ids| => if ids[i] in byId then byId[ids[i]] else byId[c]);
    assert AreSources(byId, ids, sources);
    rows := RowsOf(byId[c], sources);
  }

  /** A derivation that drops the restriction shows on the class that derives. */
  lemma DroppingEdgeShows(byId: Classes, x: string, y: string, key: Key) returns (rows: seq<Row>, r: Row)
    requires key != Scope && forall k :: k in byId ==> byId[k].id == k
    requires Derives(byId, x, y) && Restricts(byId[x], byId[y], key) && Drops(byId[x], key)
    ensures IsInherited(rows, byId, x) && r in rows && r.key == key && r.dropped
  {
    hide IsInherited;
    rows := InheritedExist(byId, x);
    InheritedExactly(byId, x, rows, key);
    assert Lineage(byId, x, y, [x, y]);
    assert Restrains(byId, x, y, key);
    var i :| 0 <= i < |rows| && rows[i].key == key;
    r := rows[i];
  }

  /** No row of any class is shown as dropping a flag. */
  ghost predicate NoRowDrops(byId: Classes, key: Key)
  {
    forall c, rows, r: Row :: c in byId && IsInherited(rows, byId, c) && r in rows && r.key == key ==> !r.dropped
  }

  /** That is so exactly when no single derivation drops it. */
  lemma NoRowDropsExactly(byId: Classes, key: Key)
    requires key != Scope && forall k :: k in byId ==> byId[k].id == k
    ensures NoRowDrops(byId, key) <==> EdgesKeep(byId, key)
  {
    hide IsInherited;
    if EdgesKeep(byId, key) {
      forall c, rows, r: Row | c in byId && IsInherited(rows, byId, c) && r in rows && r.key == key ensures !r.dropped {
        NoEdgeDropsNoRowDrops(byId, c, rows, r);
      }
    } else {
      var x, y :| Derives(byId, x, y) && Restricts(byId[x], byId[y], key) && Drops(byId[x], key);
      var rows, r := DroppingEdgeShows(byId, x, y, key);
    }
  }

  // ---- the rows on the classes' own fields ---------------------------------------------

  /** Another declared class the class derives from, however far back. */
  ghost predicate Above(byId: Classes, c: string, y: string)
  {
    y != c && y in byId && DerivesFrom(byId, c, y)
  }

  ghost predicate Private(c: DataClass)
  {
    c.scope == "" || c.scope == "private"
  }

  /** One class is private and the other is not, or one protected and the other public. */
  ghost predicate LessOpen(src: DataClass, own: DataClass)
  {
    || (Private(src) && (own.scope == "protected" || own.scope == "public"))
    || (src.scope == "protected" && own.scope == "public")
  }

  /** What a class above restricts, on its fields and the class's own. */
  lemma RestrainsOnFields(byId: Classes, c: string, y: string)
    requires c in byId
    ensures Restrains(byId, c, y, Region) <==> Above(byId, c, y) && byId[y].mayLeaveRegion == No
    ensures Restrains(byId, c, y, Traces) <==> Above(byId, c, y) && byId[y].mayAppearInTraces == No
    ensures Restrains(byId, c, y, Scope) <==> Above(byId, c, y) && LessOpen(byId[y], byId[c])
  {
  }

  /** A class is shown a region row exactly when a class above may not leave its region;
      it names one, and is marked dropped unless the class may not either. */
  lemma RegionRows(byId: Classes, c: string, rows: seq<Row>)
    requires c in byId && (forall k :: k in byId ==> byId[k].id == k) && IsInherited(rows, byId, c)
    ensures (exists r :: r in rows && r.key == Region)
            <==> exists y :: Above(byId, c, y) && byId[y].mayLeaveRegion == No
    ensures forall r :: r in rows && r.key == Region ==>
              && Above(byId, c, r.from) && byId[r.from].mayLeaveRegion == No
              && r.dropped == (byId[c].mayLeaveRegion != No)
  {
    hide IsInherited, DerivesFrom, Restrains;
    InheritedExactly(byId, c, rows, Region);
    forall y ensures Restrains(byId, c, y, Region) <==> Above(byId, c, y) && byId[y].mayLeaveRegion == No {
      RestrainsOnFields(byId, c, y);
    }
  }

  /** The same for traces. */
  lemma TracesRows(byId: Classes, c: string, rows: seq<Row>)
    requires c in byId && (forall k :: k in byId ==> byId[k].id == k) && IsInherited(rows, byId, c)
    ensures (exists r :: r in rows && r.key == Traces)
            <==> exists y :: Above(byId, c, y) && byId[y].mayAppearInTraces == No
    ensures forall r :: r in rows && r.key == Traces ==>
              && Above(byId, c, r.from) && byId[r.from].mayAppearInTraces == No
              && r.dropped == (byId[c].mayAppearInTraces != No)
  {
    hide IsInherited, DerivesFrom, Restrains;
    InheritedExactly(byId, c, rows, Traces);
    forall y ensures Restrains(byId, c, y, Traces) <==> Above(byId, c, y) && byId[y].mayAppearInTraces == No {
      RestrainsOnFields(byId, c, y);
    }
  }

  /** And for the scope, shown exactly when a class above is less open, always as dropped. */
  lemma ScopeRows(byId: Classes, c: string, rows: seq<Row>)
    requires c in byId && (forall k :: k in byId ==> byId[k].id == k) && IsInherited(rows, byId, c)
    ensures (exists r :: r in rows && r.key == Scope) <==> exists y :: Above(byId, c, y) && LessOpen(byId[y], byId[c])
    ensures forall r :: r in rows && r.key == Scope ==>
              Above(byId, c, r.from) && LessOpen(byId[r.from], byId[c]) && r.dropped
  {
    hide IsInherited, DerivesFrom, Restrains;
    InheritedExactly(byId, c, rows, Scope);
    forall y ensures Restrains(byId, c, y, Scope) <==> Above(byId, c, y) && LessOpen(byId[y], byId[c]) {
      RestrainsOnFields(byId, c, y);
    }
  }

  // ---- which row, and in which order -----------------------------------------------------

  /** A row names the first class met, in the order of the search, that restricts. */
  lemma RowNamesFirst(byId: Classes, c: string, rows: seq<Row>, r: Row)
    requires c in byId && (forall k :: k in byId ==> byId[k].id == k) && IsInherited(rows, byId, c) && r in rows
    ensures exists i :: 0 <= i < |Ancestors(byId, c)| && Ancestors(byId, c)[i] == r.from
                        && Restrains(byId, c, r.from, r.key)
                        && forall j :: 0 <= j < i ==> !Restrains(byId, c, Ancestors(byId, c)[j], r.key)
  {
    hide RowsOf, Ancestors, DerivesFrom;
    var sources: seq<DataClass> :| AreSources(byId, Ancestors(byId, c), sources) && rows == RowsOf(byId[c], sources);
    RowsSum(byId[c], sources, r.key);
    var i :| 0 <= i < |sources| && Restricts(byId[c], sources[i], r.key)
      && r == Row(r.key, sources[i].id, Drops(byId[c], r.key))
      && forall j :: 0 <= j < i ==> !Restricts(byId[c], sources[j], r.key);
    SourceRestrains(byId, c, sources, i, r.key);
    assert Ancestors(byId, c)[i] == r.from;
  }

  ghost predicate FirstAt(own: DataClass, sources: seq<DataClass>, key: Key, i: nat)
  {
    i < |sources| && Restricts(own, sources[i], key) && forall j :: 0 <= j < i ==> !Restricts(own, sources[j], key)
  }

  ghost predicate Earlier(own: DataClass, sources: seq<DataClass>, x: Row, y: Row)
  {
    exists i: nat, j: nat :: FirstAt(own, sources, x.key, i) && FirstAt(own, sources, y.key, j)
                             && (i < j || (i == j && Precedes(x.key, y.key)))
  }

  ghost predicate Precedes(x: Key, y: Key)
  {
    (x == Region && y != Region) || (x == Traces && y == Scope)
  }

  /** The rows stand in the order of the classes they name, and for one class the region
      comes first and the scope last. */
  lemma {:induction false} RowsInOrder(own: DataClass, sources: seq<DataClass>, i: nat, j: nat)
    requires i < j < |RowsOf(own, sources)|
    ensures Earlier(own, sources, RowsOf(own, sources)[i], RowsOf(own, sources)[j])
  {
    var n := |sources| - 1;
    var init, src := sources[..n], sources[n];
    var rows := RowsOf(own, init);
    assert sources == init + [src];
    if j < |rows| {
      RowsInOrder(own, init, i, j);
      EarlierStill(own, init, src, rows[i], rows[j]);
    } else {
      LastAdded(own, init, src, j);
      if i < |rows| {
        AlreadyThere(own, init, src, i);
      } else {
        LastAdded(own, init, src, i);
      }
    }
  }

  lemma EarlierStill(own: DataClass, init: seq<DataClass>, src: DataClass, x: Row, y: Row)
    requires Earlier(own, init, x, y)
    ensures Earlier(own, init + [src], x, y)
  {
    var i: nat, j: nat :| FirstAt(own, init, x.key, i) && FirstAt(own, init, y.key, j)
      && (i < j || (i == j && Precedes(x.key, y.key)));
    assert FirstAt(own, init + [src], x.key, i) && FirstAt(own, init + [src], y.key, j);
  }

  lemma AlreadyThere(own: DataClass, init: seq<DataClass>, src: DataClass, i: nat)
    requires i < |RowsOf(own, init)|
    ensures exists k: nat :: k < |init| && FirstAt(own, init + [src], RowsOf(own, init)[i].key, k)
  {
    var r := RowsOf(own, init)[i];
    RowsSum(own, init, r.key);
    var k :| 0 <= k < |init| && Restricts(own, init[k], r.key) && r == Row(r.key, init[k].id, Drops(own, r.key))
      && forall j :: 0 <= j < k ==> !Restricts(own, init[j], r.key);
    assert FirstAt(own, init + [src], r.key, k);
  }

  /** A row the last source adds: it is the first to restrict. */
  lemma LastAdded(own: DataClass, init: seq<DataClass>, src: DataClass, i: nat)
    requires |RowsOf(own, init)| <= i < |RowsOf(own, init + [src])|
    ensures var rows := RowsOf(own, init + [src]);
            && FirstAt(own, init + [src], rows[i].key, |init|)
            && forall j :: |RowsOf(own, init)| <= j < i ==> Precedes(rows[j].key, rows[i].key)
  {
    var rows := RowsOf(own, init);
    RowsOneMore(own, init, src);
    RowsSum(own, init, Region);
    RowsSum(own, init, Traces);
    RowsSum(own, init, Scope);
    AddedRows(own, src, rows);
    forall key | Restricts(own, src, key) && !Has(rows, key) ensures FirstAt(own, init + [src], key, |init|) {
      assert forall j :: 0 <= j < |init| ==> !Restricts(own, init[j], key);
    }
  }

  lemma AddedRows(own: DataClass, src: DataClass, rows: seq<Row>)
    ensures var more := AddRow(own, src, Scope, AddRow(own, src, Traces, AddRow(own, src, Region, rows)));
            && |rows| <= |more| && more[..|rows|] == rows
            && (forall i :: |rows| <= i < |more| ==> Restricts(own, src, more[i].key) && !Has(rows, more[i].key))
            && forall i, j :: |rows| <= i < j < |more| ==> Precedes(more[i].key, more[j].key)
  {
    hide Restricts, Drops;
    var r1 := AddRow(own, src, Region, rows);
    var r2 := AddRow(own, src, Traces, r1);
    assert Has(r1, Traces) == Has(rows, Traces) && Has(r1, Scope) == Has(rows, Scope) by {
      HasAdded(rows, r1);
    }
    assert Has(r2, Scope) == Has(r1, Scope) by {
      HasAdded(r1, r2);
    }
  }

  lemma HasAdded(rows: seq<Row>, more: seq<Row>)
    requires more == rows || (more != [] && more[..|more| - 1] == rows)
    ensures forall key :: Has(more, key) <==> Has(rows, key) || (more != rows && more[|more| - 1].key == key)
  {
    forall key ensures Has(more, key) <==> Has(rows, key) || (more != rows && more[|more| - 1].key == key) {
      if Has(rows, key) {
        var i :| 0 <= i < |rows| && rows[i].key == key;
        assert more[i].key == key;
      }
      if more != rows && more[|more| - 1].key == key { assert Has(more, key); }
    }
  }

  /** `own` derives from `a` and `b`, `a` from `d`; `b` and `d` may not leave their region. */
  const FAMILY: Classes := map[
    "own" := DataClass("own", Unset, Unset, "", [Relation(true, "a"), Relation(true, "b")]),
    "a" := DataClass("a", Unset, Unset, "", [Relation(true, "d")]),
    "b" := DataClass("b", No, Unset, "", []),
    "d" := DataClass("d", No, Unset, "", [])]

  /** The search goes down before it goes on: what is shown is `d`'s. */
  lemma DepthFirst()
    ensures Ancestors(FAMILY, "own") == ["a", "d", "b"]
  {
    assert Targets(FAMILY, "own") == ["a", "b"] && Targets(FAMILY, "a") == ["d"] by {
      assert FAMILY["own"].relations[1..] == [Relation(true, "b")] && FAMILY["a"].relations[1..] == [];
    }
    assert Targets(FAMILY, "b") == [] && Targets(FAMILY, "d") == [];
    hide Targets;
    assert ["d"] + ["b"] == ["d", "b"] && [] + ["b"] == ["b"];
    assert ["a", "b"][1..] == ["b"] && ["d", "b"][1..] == ["b"] && ["b"][1..] == [];
    assert Preorder(FAMILY, ["b"], {"own", "a", "d"}) == ["b"] + Preorder(FAMILY, [], {"own", "a", "d", "b"});
    assert {"own"} + {"a"} == {"own", "a"} && {"own", "a"} + {"d"} == {"own", "a", "d"};
    assert Preorder(FAMILY, ["d", "b"], {"own", "a"}) == ["d"] + Preorder(FAMILY, ["b"], {"own", "a", "d"});
    assert Preorder(FAMILY, ["a", "b"], {"own"}) == ["a"] + Preorder(FAMILY, ["d", "b"], {"own", "a"});
  }
}
