/** The undo history as it is kept: two stacks and the last recorded state, updated in
    place. Entries are objects, because the toast's Undo compares them by identity. */
module History {
  import opened Basics
  import opened Timeline

  /** A recorded step: the state before it. `settled` when nothing can amend the step,
      and then `after` is the state it led to. */
  class Entry<D> {
    const state: D
    const reason: string
    ghost const settled: bool
    ghost const after: D

    constructor (state: D, reason: string, ghost settled: bool, ghost after: D)
      ensures this.state == state && this.reason == reason && this.settled == settled && this.after == after
    {
      this.state, this.reason, this.settled, this.after := state, reason, settled, after;
    }
  }

  function States<D>(es: seq<Entry<D>>): (r: seq<D>)
    ensures |r| == |es| && forall i :: 0 <= i < |es| ==> r[i] == es[i].state
  {
    seq(|es|, i requires 0 <= i < |es| => es[i].state)
  }

  function Reasons<D>(es: seq<Entry<D>>): (r: seq<string>)
    ensures |r| == |es| && forall i :: 0 <= i < |es| ==> r[i] == es[i].reason
  {
    seq(|es|, i requires 0 <= i < |es| => es[i].reason)
  }

  function Reverse<T>(s: seq<T>): (r: seq<T>)
    ensures |r| == |s| && forall i :: 0 <= i < |s| ==> r[i] == s[|s| - 1 - i]
  {
    seq(|s|, i requires 0 <= i < |s| => s[|s| - 1 - i])
  }

  /** Past states, the last recorded one, then the undone ones nearest first. */
  function LineOf<D>(past: seq<Entry<D>>, last: D, future: seq<Entry<D>>): (t: Line<D>)
    ensures t.WellFormed() && t.Present() == last
  {
    Line(States(past) + [last] + Reverse(States(future)), Reasons(past) + Reverse(Reasons(future)), |past|)
  }

  /** The state each past step led to is where the next one started. */
  ghost predicate AfterIs<D>(past: seq<Entry<D>>, last: D, i: nat, d: D)
    requires i < |past|
  {
    d == if i + 1 < |past| then past[i + 1].state else last
  }

  ghost predicate SettledStay<D>(past: seq<Entry<D>>, last: D)
  {
    forall i :: 0 <= i < |past| && past[i].settled ==> AfterIs(past, last, i, past[i].after)
  }

  lemma UndoLine<D>(past: seq<Entry<D>>, last: D, future: seq<Entry<D>>, undone: Entry<D>)
    requires past != [] && undone.state == last && undone.reason == past[|past| - 1].reason
    ensures LineOf(past[..|past| - 1], past[|past| - 1].state, future + [undone]) == Back(LineOf(past, last, future))
  {
    var n := |past| - 1;
    var a, b := LineOf(past[..n], past[n].state, future + [undone]), LineOf(past, last, future);
    assert (future + [undone])[..|future|] == future;
    assert a.states == b.states && a.reasons == b.reasons;
  }

  lemma RedoLine<D>(past: seq<Entry<D>>, last: D, future: seq<Entry<D>>, redone: Entry<D>)
    requires future != [] && redone.state == last && redone.reason == future[|future| - 1].reason
    ensures LineOf(past + [redone], future[|future| - 1].state, future[..|future| - 1])
            == Forth(LineOf(past, last, future))
  {
    var n := |future| - 1;
    var a, b := LineOf(past + [redone], future[n].state, future[..n]), LineOf(past, last, future);
    assert (past + [redone])[..|past|] == past;
    assert a.states == b.states && a.reasons == b.reasons;
  }

  lemma RecordLine<D>(past: seq<Entry<D>>, last: D, future: seq<Entry<D>>, e: Entry<D>, d: D)
    requires e.state == last
    ensures var more := past + [e];
            LineOf(if |more| > UNDO_LIMIT then more[1..] else more, d, [])
            == Record(LineOf(past, last, future), e.reason, d)
  {
    var more := past + [e];
    var t := Record(LineOf(past, last, future), e.reason, d);
    assert more[..|past|] == past;
    var r := LineOf(if |more| > UNDO_LIMIT then more[1..] else more, d, []);
    assert r.states == t.states && r.reasons == t.reasons;
  }

  lemma AmendLine<D>(past: seq<Entry<D>>, last: D, future: seq<Entry<D>>, d: D)
    ensures LineOf(past, d, []) == Amend(LineOf(past, last, future), d)
  {
    assert LineOf(past, d, []).states == Amend(LineOf(past, last, future), d).states;
    assert LineOf(past, d, []).reasons == Amend(LineOf(past, last, future), d).reasons;
  }

  /** The fields, read as a log. */
  function LogOf<D>(past: seq<Entry<D>>, last: D, future: seq<Entry<D>>, at: int, reason: string, coalescing: bool)
    : Log<D>
  {
    Log(LineOf(past, last, future), at, reason, coalescing)
  }

  /** What every operation keeps: the bound, and that only an unsettled step is amended. */
  ghost predicate Sane<D>(past: seq<Entry<D>>, last: D, future: seq<Entry<D>>, coalescing: bool)
  {
    && |past| + |future| <= UNDO_LIMIT
    && SettledStay(past, last)
    && (coalescing ==> past != [] && !past[|past| - 1].settled)
  }

  lemma UndoSane<D>(past: seq<Entry<D>>, last: D, future: seq<Entry<D>>, coalescing: bool, undone: Entry<D>)
    requires Sane(past, last, future, coalescing) && past != []
    ensures Sane(past[..|past| - 1], past[|past| - 1].state, future + [undone], false)
  {
    var n := |past| - 1;
    forall i | 0 <= i < n && past[i].settled ensures AfterIs(past[..n], past[n].state, i, past[i].after) {
      assert AfterIs(past, last, i, past[i].after);
    }
  }

  lemma RedoSane<D>(past: seq<Entry<D>>, last: D, future: seq<Entry<D>>, coalescing: bool, redone: Entry<D>)
    requires Sane(past, last, future, coalescing) && future != []
    requires redone.state == last && redone.after == future[|future| - 1].state
    ensures Sane(past + [redone], future[|future| - 1].state, future[..|future| - 1], false)
  {
    AppendSettled(past, last, redone, future[|future| - 1].state);
  }

  lemma AppendSettled<D>(past: seq<Entry<D>>, last: D, e: Entry<D>, d: D)
    requires SettledStay(past, last) && e.state == last && e.after == d
    ensures SettledStay(past + [e], d)
  {
    var more := past + [e];
    forall i | 0 <= i < |more| && more[i].settled ensures AfterIs(more, d, i, more[i].after) {
      if i < |past| { assert AfterIs(past, last, i, past[i].after); }
    }
  }

  lemma RecordSane<D>(past: seq<Entry<D>>, last: D, future: seq<Entry<D>>, coalescing: bool, e: Entry<D>, d: D)
    requires Sane(past, last, future, coalescing) && e.state == last && e.after == d
    ensures var more := past + [e];
            Sane(if |more| > UNDO_LIMIT then more[1..] else more, d, [], !e.settled)
  {
    var more := past + [e];
    AppendSettled(past, last, e, d);
    if |more| > UNDO_LIMIT {
      forall i | 0 <= i < |more| - 1 && more[1..][i].settled ensures AfterIs(more[1..], d, i, more[1..][i].after) {
        assert AfterIs(more, d, i + 1, more[i + 1].after);
      }
    }
  }

  lemma AmendSane<D>(past: seq<Entry<D>>, last: D, future: seq<Entry<D>>, d: D)
    requires Sane(past, last, future, true)
    ensures Sane(past, d, [], true)
  {
    forall i | 0 <= i < |past| && past[i].settled ensures AfterIs(past, d, i, past[i].after) {
      assert AfterIs(past, last, i, past[i].after);
    }
  }

  lemma UndoStep<D>(past: seq<Entry<D>>, last: D, future: seq<Entry<D>>, at: int, reason: string,
                    coalescing: bool, undone: Entry<D>)
    requires Sane(past, last, future, coalescing) && past != []
    requires undone.state == last && undone.reason == past[|past| - 1].reason
    ensures Sane(past[..|past| - 1], past[|past| - 1].state, future + [undone], false)
    ensures LogOf(past[..|past| - 1], past[|past| - 1].state, future + [undone], at, "", false)
            == Next(LogOf(past, last, future, at, reason, coalescing), Undo)
  {
    UndoLine(past, last, future, undone);
    UndoSane(past, last, future, coalescing, undone);
  }

  lemma RedoStep<D>(past: seq<Entry<D>>, last: D, future: seq<Entry<D>>, at: int, reason: string,
                    coalescing: bool, redone: Entry<D>)
    requires Sane(past, last, future, coalescing) && future != []
    requires redone.state == last && redone.reason == future[|future| - 1].reason
    requires redone.after == future[|future| - 1].state
    ensures Sane(past + [redone], future[|future| - 1].state, future[..|future| - 1], false)
    ensures LogOf(past + [redone], future[|future| - 1].state, future[..|future| - 1], at, "", false)
            == Next(LogOf(past, last, future, at, reason, coalescing), Redo)
  {
    RedoLine(past, last, future, redone);
    RedoSane(past, last, future, coalescing, redone);
  }

  lemma RecordStep<D>(past: seq<Entry<D>>, last: D, future: seq<Entry<D>>, at: int, reason: string,
                      coalescing: bool, e: Entry<D>, op: Op<D>)
    requires Sane(past, last, future, coalescing) && op.Push?
    requires e.state == last && e.reason == op.reason && e.after == op.doc && e.settled == !op.coalesce
    requires !Continues(LogOf(past, last, future, at, reason, coalescing), op)
    ensures var more := if |past + [e]| > UNDO_LIMIT then (past + [e])[1..] else past + [e];
            Sane(more, op.doc, [], op.coalesce) && more != [] && more[|more| - 1] == e
            && LogOf(more, op.doc, [], op.now, op.reason, op.coalesce)
               == Next(LogOf(past, last, future, at, reason, coalescing), op)
  {
    RecordLine(past, last, future, e, op.doc);
    RecordSane(past, last, future, coalescing, e, op.doc);
  }

  lemma AmendStep<D>(past: seq<Entry<D>>, last: D, future: seq<Entry<D>>, at: int, reason: string,
                     coalescing: bool, op: Op<D>)
    requires Sane(past, last, future, coalescing) && op.Push?
    requires Continues(LogOf(past, last, future, at, reason, coalescing), op)
    ensures Sane(past, op.doc, [], op.coalesce)
    ensures LogOf(past, op.doc, [], op.now, op.reason, op.coalesce)
            == Next(LogOf(past, last, future, at, reason, coalescing), op)
  {
    AmendLine(past, last, future, op.doc);
    AmendSane(past, last, future, op.doc);
  }

  class Canvas<D(==)> {
    /** The open document, when there is one. */
    var record: Option<D>
    var past: seq<Entry<D>>
    var future: seq<Entry<D>>
    var last: Option<D>
    var at: int
    var reason: string
    var coalescing: bool

    ghost predicate Valid()
      reads this
    {
      if last.Some? then record.Some? && Sane(past, last.value, future, coalescing)
      else past == [] && future == [] && !coalescing
    }

    ghost function Now(): Log<D>
      requires last.Some?
      reads this
    {
      LogOf(past, last.value, future, at, reason, coalescing)
    }

    constructor ()
      ensures Valid() && record == None && last == None
    {
      record, past, future, last, at, reason, coalescing := None, [], [], None, 0, "", false;
    }

    /** Another document is opened: nothing of the old history is left. */
    method Open(d: D)
      modifies this
      ensures Valid() && record == last == Some(d)
      ensures Now().line == Line([d], [], 0)
    {
      record := Some(d);
      ResetHistory();
    }

    method ResetHistory()
      modifies `past, `future, `last, `at, `reason, `coalescing
      ensures Valid() && last == record
      ensures last.Some? ==> Now() == Log(Line([record.value], [], 0), 0, "", false)
    {
      past, future, last, at, reason, coalescing := [], [], None, 0, "", false;
      if record.Some? {
        last := record;
      }
    }

    /** A step of its own: an entry for the state before it, and the oldest gone. */
    method NewStep(why: string, coalesce: bool, now: int)
      requires Valid() && last.Some?
      requires !Continues(Now(), Push(record.value, why, coalesce, now))
      modifies `past, `future, `last, `at, `reason, `coalescing
      ensures Valid() && last == record && Now() == Next(old(Now()), Push(record.value, why, coalesce, now))
      ensures past != [] && past == (if |old(past)| < 60 then old(past) else old(past)[1..]) + [past[|past| - 1]]
      ensures fresh(past[|past| - 1]) && past[|past| - 1].state == old(last).value && past[|past| - 1].reason == why
      ensures past[|past| - 1].settled == !coalesce && past[|past| - 1].after == record.value
    {
      hide Sane, LogOf, LineOf, Next, Continues;
      var entry := new Entry(last.value, why, !coalesce, record.value);
      RecordStep(past, last.value, future, at, reason, coalescing, entry, Push(record.value, why, coalesce, now));
      past := past + [entry];
      if |past| > UNDO_LIMIT {
        past := past[1..];
      }
      future, last := [], record;
      at, reason, coalescing := now, why, coalesce;
    }

    /** More of the last step. */
    method SameStep(why: string, now: int)
      requires Valid() && last.Some?
      requires Continues(Now(), Push(record.value, why, true, now))
      modifies `future, `last, `at, `reason, `coalescing
      ensures Valid() && last == record && Now() == Next(old(Now()), Push(record.value, why, true, now))
    {
      AmendStep(past, last.value, future, at, reason, coalescing, Push(record.value, why, true, now));
      future, last := [], record;
      at, reason, coalescing := now, why, true;
    }

    /** Called after a change: records it as a step of its own, or as more of the last. */
    method PushHistory(why: string, coalesce: bool, now: int)
      requires Valid() && record.Some?
      modifies `past, `future, `last, `at, `reason, `coalescing
      ensures Valid()
      ensures old(last).None? ==> unchanged(this)
      ensures old(last).Some? ==>
                last == record && Now() == Next(old(Now()), Push(record.value, why, coalesce, now))
      ensures var more := coalesce && old(coalescing) && why == old(reason) && now - old(at) < 700 && old(past) != [];
              && (old(last).Some? && more ==> past == old(past))
              && (old(last).Some? && !more ==>
                    past == (if |old(past)| < 60 then old(past) else old(past)[1..]) + [past[|past| - 1]]
                    && fresh(past[|past| - 1]) && past[|past| - 1].state == old(last).value
                    && past[|past| - 1].settled == !coalesce && past[|past| - 1].after == record.value)
    {
      if last.None? {
        return;
      }
      var continuing := coalesce && coalescing && reason == why && now - at < UNDO_COALESCE_MS && |past| > 0;
      if !continuing {
        NewStep(why, coalesce, now);
      } else {
        SameStep(why, now);
      }
    }

    method ApplyHistory(state: D)
      modifies `record, `last
      ensures record == last == Some(state)
    {
      record := Some(state);
      last := Some(state);
    }

    method Undo() returns (done: bool)
      requires Valid()
      modifies this
      ensures Valid() && done == (old(past) != [])
      ensures !done ==> unchanged(this)
      ensures done ==> last.Some? && Now() == Next(old(Now()), Op.Undo) && record == last
                       && last == Some(old(past)[|old(past)| - 1].state)
                       && past == old(past)[..|old(past)| - 1]
    {
      if past == [] {
        return false;
      }
      hide Sane, LogOf, LineOf, Next;
      var entry := past[|past| - 1];
      var undone := new Entry(last.value, entry.reason, false, last.value);
      UndoStep(past, last.value, future, at, reason, coalescing, undone);
      past := past[..|past| - 1];
      future := future + [undone];
      reason, coalescing := "", false;
      ApplyHistory(entry.state);
      return true;
    }

    method Redo() returns (done: bool)
      requires Valid()
      modifies this
      ensures Valid() && done == (old(future) != [])
      ensures !done ==> unchanged(this)
      ensures done ==> last.Some? && Now() == Next(old(Now()), Op.Redo) && record == last
                       && last == Some(old(future)[|old(future)| - 1].state)
                       && past[..|past| - 1] == old(past) && fresh(past[|past| - 1])
    {
      if future == [] {
        return false;
      }
      hide Sane, LogOf, LineOf, Next;
      var entry := future[|future| - 1];
      var redone := new Entry(last.value, entry.reason, true, entry.state);
      RedoStep(past, last.value, future, at, reason, coalescing, redone);
      future := future[..|future| - 1];
      past := past + [redone];
      reason, coalescing := "", false;
      ApplyHistory(entry.state);
      return true;
    }

    /** What a toast remembers: the step on top as an object, if there is one. */
    function OfferUndo(): (entry: Entry?<D>)
      reads this
    {
      if past == [] then null else past[|past| - 1]
    }

    /** The toast's Undo acts only while that very step is on top. For a step nothing can
        amend, the state it then undoes is the one right after that change, so it undoes
        that change and nothing else. */
    method ToastUndo(entry: Entry?<D>) returns (done: bool)
      requires Valid()
      modifies this
      ensures Valid()
      ensures done == (entry != null && entry == old(OfferUndo()))
      ensures !done ==> unchanged(this)
      ensures done ==> record == last == Some(entry.state)
                       && Now() == Next(old(Now()), Op.Undo)
                       && (entry.settled ==> old(last) == Some(entry.after))
    {
      var top := OfferUndo();
      if entry == null || top != entry {
        return false;
      }
      done := Undo();
    }
  }
}
