/** The design document as a JSON tree, and renaming an id throughout it. */
module Documents {
  import opened Basics

  datatype Json =
    | Null
    | Bool(b: bool)
    | Num(n: int)
    | Str(s: string)
    | Arr(items: seq<Json>)
    | Obj(fields: seq<Field>)

  datatype Field = Field(key: string, value: Json)

  /** The values directly inside a value. */
  function Children(j: Json): (r: seq<Json>)
  {
    match j
    case Arr(items) => items
    case Obj(fields) => seq(|fields|, i requires 0 <= i < |fields| => fields[i].value)
    case _ => []
  }

  /** A value standing in a list or under a key: rewritten if it is the old id. */
  function RewriteValue(v: Json, was: string, id: string): Json
    decreases v, 1
  {
    if v == Str(was) then Str(id) else Rewrite(v, was, id)
  }

  /** Goes through lists and objects; keys, and anything else, stay. */
  function Rewrite(j: Json, was: string, id: string): Json
    decreases j, 0
  {
    match j
    case Arr(items) => Arr(RewriteItems(items, was, id))
    case Obj(fields) => Obj(RewriteFields(fields, was, id))
    case _ => j
  }

  function RewriteItems(items: seq<Json>, was: string, id: string): (r: seq<Json>)
    ensures |r| == |items| && forall i :: 0 <= i < |items| ==> r[i] == RewriteValue(items[i], was, id)
    decreases items, 2
  {
    if items == [] then [] else [RewriteValue(items[0], was, id)] + RewriteItems(items[1..], was, id)
  }

  function RewriteFields(fields: seq<Field>, was: string, id: string): (r: seq<Field>)
    ensures |r| == |fields|
    ensures forall i :: 0 <= i < |fields| ==> r[i] == Field(fields[i].key, RewriteValue(fields[i].value, was, id))
    decreases fields, 2
  {
    if fields == [] then []
    else [Field(fields[0].key, RewriteValue(fields[0].value, was, id))] + RewriteFields(fields[1..], was, id)
  }

  // ---- every value by its place --------------------------------------------------------

  /** The value reached by taking the child of each number in turn. */
  function At(j: Json, path: seq<nat>): Option<Json>
  {
    if path == [] then Some(j)
    else if path[0] < |Children(j)| then At(Children(j)[path[0]], path[1..])
    else None
  }

  function Keys(j: Json): seq<string>
  {
    if j.Obj? then seq(|j.fields|, i requires 0 <= i < |j.fields| => j.fields[i].key) else []
  }

  lemma KeysStay(v: Json, was: string, id: string)
    ensures Keys(RewriteValue(v, was, id)) == Keys(v) && Keys(Rewrite(v, was, id)) == Keys(v)
  {
  }

  lemma ChildrenRewritten(j: Json, was: string, id: string)
    ensures var c, r := Children(j), Children(Rewrite(j, was, id));
            |r| == |c| && forall i :: 0 <= i < |c| ==> r[i] == RewriteValue(c[i], was, id)
  {
  }

  /** Every string value that is the old id becomes the new one, wherever it stands, and
      no other value, key or length changes. */
  lemma {:induction false} RewriteAt(j: Json, was: string, id: string, path: seq<nat>)
    requires path != []
    ensures At(Rewrite(j, was, id), path)
            == match At(j, path)
               case None => None
               case Some(v) => Some(RewriteValue(v, was, id))
    ensures At(j, path).Some? ==> Keys(At(Rewrite(j, was, id), path).value) == Keys(At(j, path).value)
    ensures Keys(Rewrite(j, was, id)) == Keys(j)
    decreases |path|
  {
    KeysStay(j, was, id);
    if At(j, path).Some? { KeysStay(At(j, path).value, was, id); }
    hide Keys;
    ChildrenRewritten(j, was, id);
    var c := Children(j);
    if path[0] < |c| {
      var v := c[path[0]];
      if |path| == 1 {
        assert path[1..] == [];
      } else if v == Str(was) {
        assert Children(v) == [] && Children(Str(id)) == [];
      } else {
        RewriteAt(v, was, id, path[1..]);
      }
    }
  }

  // ---- renaming back -------------------------------------------------------------------

  /** The text occurs as a value somewhere inside. */
  ghost predicate Occurs(s: string, j: Json)
  {
    exists path :: path != [] && At(j, path) == Some(Str(s))
  }

  ghost predicate OccursValue(s: string, v: Json)
  {
    v == Str(s) || Occurs(s, v)
  }

  lemma OccursBelow(s: string, j: Json)
    ensures Occurs(s, j) <==> exists i :: 0 <= i < |Children(j)| && OccursValue(s, Children(j)[i])
  {
    if Occurs(s, j) {
      var path :| path != [] && At(j, path) == Some(Str(s));
      var v := Children(j)[path[0]];
      var rest := path[1..];
      assert At(v, rest) == Some(Str(s));
      if rest == [] { assert v == Str(s); } else { assert Occurs(s, v); }
      assert OccursValue(s, Children(j)[path[0]]);
    }
    if i: nat :| i < |Children(j)| && OccursValue(s, Children(j)[i]) {
      var v := Children(j)[i];
      if v == Str(s) {
        var p: seq<nat> := [i];
        assert p[1..] == [];
        assert At(j, p) == Some(Str(s));
      } else {
        var path :| path != [] && At(v, path) == Some(Str(s));
        assert ([i] + path)[1..] == path;
        assert At(j, [i] + path) == Some(Str(s));
      }
    }
  }

  lemma {:induction false} ThereAndBackValue(v: Json, a: string, b: string)
    requires a != b
    ensures RewriteValue(RewriteValue(v, a, b), b, a) == v <==> !OccursValue(b, v)
    decreases v, 1
  {
    if v == Str(a) {
      OccursBelow(b, v);
    } else if v == Str(b) {
      assert RewriteValue(v, a, b) == v;
    } else {
      RewriteKeepsContainers(v, a, b);
      ThereAndBack(v, a, b);
    }
  }

  lemma RewriteKeepsContainers(v: Json, a: string, b: string)
    requires v != Str(a) && v != Str(b)
    ensures RewriteValue(v, a, b) == Rewrite(v, a, b) && Rewrite(v, a, b) != Str(b)
    ensures RewriteValue(Rewrite(v, a, b), b, a) == Rewrite(Rewrite(v, a, b), b, a)
  {
  }

  /** Renaming and renaming back restores the document exactly when the new id stood
      nowhere in it as a value before. */
  lemma {:induction false} ThereAndBack(j: Json, a: string, b: string)
    requires a != b
    ensures Rewrite(Rewrite(j, a, b), b, a) == j <==> !Occurs(b, j)
    decreases j, 0
  {
    var r := Rewrite(j, a, b);
    var back := Rewrite(r, b, a);
    OccursBelow(b, j);
    ChildrenRewritten(j, a, b);
    ChildrenRewritten(r, b, a);
    match j
    case Arr(items) =>
      forall i | 0 <= i < |items| { ThereAndBackValue(items[i], a, b); }
      SameChildren(j, back, a, b);
    case Obj(fields) =>
      forall i | 0 <= i < |fields| { ThereAndBackValue(fields[i].value, a, b); }
      SameChildren(j, back, a, b);
    case _ =>
  }

  lemma SameChildren(j: Json, back: Json, a: string, b: string)
    requires j.Arr? || j.Obj?
    requires back == Rewrite(Rewrite(j, a, b), b, a)
    ensures back == j <==> forall i :: 0 <= i < |Children(j)| ==>
              RewriteValue(RewriteValue(Children(j)[i], a, b), b, a) == Children(j)[i]
  {
    ChildrenRewritten(j, a, b);
    ChildrenRewritten(Rewrite(j, a, b), b, a);
    var c := Children(j);
    assert Children(back) == c ==> back == j by {
      if Children(back) == c && j.Obj? {
        forall i | 0 <= i < |j.fields| ensures back.fields[i] == j.fields[i] {
          assert Children(back)[i] == c[i];
        }
        assert back.fields == j.fields;
      }
    }
    if forall i :: 0 <= i < |c| ==> RewriteValue(RewriteValue(c[i], a, b), b, a) == c[i] {
      assert Children(back) == c;
    }
    if back == j {
      forall i | 0 <= i < |c| ensures RewriteValue(RewriteValue(c[i], a, b), b, a) == c[i] {
        assert Children(back)[i] == c[i];
      }
    }
  }

  // ---- what stands at every place --------------------------------------------------------

  /** A text, a number, a truth value or nothing. */
  predicate Plain(v: Json)
  {
    !v.Arr? && !v.Obj?
  }

  /** At every place below the top: nothing where there was nothing; the new id where the old
      one stood; any other plain value as it was; a list or an object with as many places
      and the same keys. */
  lemma RewriteOnPlaces(j: Json, was: string, id: string, path: seq<nat>)
    requires path != []
    ensures At(j, path) == None ==> At(Rewrite(j, was, id), path) == None
    ensures At(j, path) == Some(Str(was)) ==> At(Rewrite(j, was, id), path) == Some(Str(id))
    ensures At(j, path).Some? && Plain(At(j, path).value) && At(j, path).value != Str(was) ==>
              At(Rewrite(j, was, id), path) == At(j, path)
    ensures At(j, path).Some? && !Plain(At(j, path).value) ==>
              At(Rewrite(j, was, id), path).Some?
              && var v, w := At(j, path).value, At(Rewrite(j, was, id), path).value;
              v.Arr? == w.Arr? && v.Obj? == w.Obj? && |Children(v)| == |Children(w)| && Keys(v) == Keys(w)
  {
    RewriteAt(j, was, id, path);
    if At(j, path).Some? {
      KeysStay(At(j, path).value, was, id);
      ChildrenRewritten(At(j, path).value, was, id);
    }
    hide At, Keys, Children;
  }
}
