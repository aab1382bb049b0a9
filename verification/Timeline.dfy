/** The undo history as a reader sees it: a labelled timeline and a cursor, with what
    each operation does to it and what whole runs of operations amount to. */
module Timeline {

  const UNDO_LIMIT := 60
  const UNDO_COALESCE_MS := 700

  /** Recorded states in order, the reason of each step between two of them, and
      which state is the present one. */
  datatype Line<D> = Line(states: seq<D>, reasons: seq<string>, cursor: nat)
  {
    predicate WellFormed()
    {
      |states| == |reasons| + 1 && cursor < |states|
    }

    function Present(): D
      requires WellFormed()
    {
      states[cursor]
    }
  }

  function Back<D>(t: Line<D>): Line<D>
  {
    if t.cursor == 0 then t else t.(cursor := t.cursor - 1)
  }

  function Forth<D>(t: Line<D>): Line<D>
  {
    if t.cursor + 1 >= |t.states| then t else t.(cursor := t.cursor + 1)
  }

  /** A step of its own: the future goes, and the oldest state when there are too many. */
  function Record<D>(t: Line<D>, reason: string, d: D): Line<D>
    requires t.WellFormed()
  {
    var states, reasons := t.states[..t.cursor + 1] + [d], t.reasons[..t.cursor] + [reason];
    if t.cursor + 1 > UNDO_LIMIT then Line(states[1..], reasons[1..], t.cursor)
    else Line(states, reasons, t.cursor + 1)
  }

  /** More of the step before: the future goes and the present state is replaced. */
  function Amend<D>(t: Line<D>, d: D): Line<D>
    requires t.WellFormed()
  {
    Line(t.states[..t.cursor] + [d], t.reasons[..t.cursor], t.cursor)
  }

  /** The timeline with what decides whether the next edit continues the last step. */
  datatype Log<D> = Log(line: Line<D>, at: int, reason: string, coalescing: bool)

  datatype Op<D> = Push(doc: D, reason: string, coalesce: bool, now: int) | Undo | Redo

  predicate Continues<D>(h: Log<D>, op: Op<D>)
    requires op.Push?
  {
    op.coalesce && h.coalescing && h.reason == op.reason && op.now - h.at < UNDO_COALESCE_MS && h.line.cursor > 0
  }

  function Next<D>(h: Log<D>, op: Op<D>): Log<D>
    requires h.line.WellFormed()
  {
    match op
    case Push(doc, reason, coalesce, now) =>
      Log(if Continues(h, op) then Amend(h.line, doc) else Record(h.line, reason, doc), now, reason, coalesce)
    case Undo => if h.line.cursor == 0 then h else h.(line := Back(h.line), reason := "", coalescing := false)
    case Redo =>
      if h.line.cursor + 1 >= |h.line.states| then h else h.(line := Forth(h.line), reason := "", coalescing := false)
  }

  /** Well formed, and no more steps than the limit, those undone included. */
  predicate Bounded<D>(h: Log<D>)
  {
    h.line.WellFormed() && |h.line.reasons| <= UNDO_LIMIT
  }

  lemma NextBounded<D>(h: Log<D>, op: Op<D>)
    requires Bounded(h)
    ensures Bounded(Next(h, op))
  {
  }

  function Run<D>(h: Log<D>, ops: seq<Op<D>>): Log<D>
    requires Bounded(h)
    decreases |ops|
  {
    if ops == [] then h else NextBounded(h, ops[0]); Run(Next(h, ops[0]), ops[1..])
  }

  /** Over every run the steps past and future together stay within the limit, though
      only recording trims. */
  lemma {:induction false} RunBounded<D>(h: Log<D>, ops: seq<Op<D>>)
    requires Bounded(h)
    ensures Bounded(Run(h, ops)) && |Run(h, ops).line.states| <= 61
    decreases |ops|
  {
    if ops != [] {
      NextBounded(h, ops[0]);
      RunBounded(Next(h, ops[0]), ops[1..]);
    }
  }

  // ---- undoing and redoing -------------------------------------------------------

  function Repeat<D>(op: Op<D>, k: nat): seq<Op<D>>
  {
    if k == 0 then [] else [op] + Repeat(op, k - 1)
  }

  lemma {:induction false} Undos<D>(h: Log<D>, k: nat)
    requires Bounded(h)
    ensures Run(h, Repeat(Undo, k)).line == h.line.(cursor := if k <= h.line.cursor then h.line.cursor - k else 0)
    decreases k
  {
    if k > 0 {
      var ops := Repeat<D>(Undo, k);
      assert ops[0] == Undo && ops[1..] == Repeat(Undo, k - 1);
      NextBounded(h, Undo);
      Undos(Next(h, Undo), k - 1);
    }
  }

  lemma {:induction false} Redos<D>(h: Log<D>, k: nat)
    requires Bounded(h)
    ensures var last := |h.line.states| - 1;
            Run(h, Repeat(Redo, k)).line
            == h.line.(cursor := if h.line.cursor + k <= last then h.line.cursor + k else last)
    decreases k
  {
    if k > 0 {
      var ops := Repeat<D>(Redo, k);
      assert ops[0] == Redo && ops[1..] == Repeat(Redo, k - 1);
      NextBounded(h, Redo);
      Redos(Next(h, Redo), k - 1);
    }
  }

  lemma {:induction false} RunSplit<D>(h: Log<D>, a: seq<Op<D>>, b: seq<Op<D>>)
    requires Bounded(h)
    ensures Bounded(Run(h, a)) && Run(h, a + b) == Run(Run(h, a), b)
    decreases |a|
  {
    if a == [] {
      assert a + b == b;
    } else {
      NextBounded(h, a[0]);
      assert (a + b)[0] == a[0] && (a + b)[1..] == a[1..] + b;
      RunSplit(Next(h, a[0]), a[1..], b);
    }
  }

  /** Undoing so many times and redoing as many restores the timeline exactly when
      there was that much to undo, or nothing to redo to begin with. */
  lemma UndosThenRedos<D>(h: Log<D>, k: nat)
    requires Bounded(h)
    ensures Run(h, Repeat(Undo, k) + Repeat(Redo, k)).line == h.line
            <==> k <= h.line.cursor || h.line.cursor == |h.line.states| - 1
  {
    RunSplit(h, Repeat(Undo, k), Repeat(Redo, k));
    Undos(h, k);
    RunBounded(h, Repeat(Undo, k));
    Redos(Run(h, Repeat(Undo, k)), k);
  }

  /** Nothing in a run of undos and redos alters what was recorded. */
  lemma {:induction false} UndoRedoKeepRecords<D>(h: Log<D>, ops: seq<Op<D>>)
    requires Bounded(h) && forall i :: 0 <= i < |ops| ==> !ops[i].Push?
    ensures var h' := Run(h, ops); h'.line.states == h.line.states && h'.line.reasons == h.line.reasons
    decreases |ops|
  {
    if ops != [] {
      NextBounded(h, ops[0]);
      UndoRedoKeepRecords(Next(h, ops[0]), ops[1..]);
    }
  }

  /** A recorded edit leaves nothing to redo, and undoing it returns to the state it
      was made on: the one before, or before the last step if the edit continued it, as
      one does that may, has the step's reason and comes within 700 ms. */
  lemma PushThenUndo<D>(h: Log<D>, op: Op<D>)
    requires Bounded(h) && op.Push?
    ensures var h' := Next(h, op);
            && Bounded(h') && h'.line.cursor == |h'.line.states| - 1 > 0
            && h'.line.Present() == op.doc
            && Next(h', Undo).line.Present()
               == if op.coalesce && h.coalescing && op.reason == h.reason && op.now - h.at < 700 && h.line.cursor > 0
                  then h.line.states[h.line.cursor - 1] else h.line.Present()
  {
  }

  // ---- two edits in a row -----------------------------------------------------------

  lemma RunOne<D>(h: Log<D>, a: Op<D>)
    requires Bounded(h)
    ensures Bounded(Next(h, a)) && Run(h, [a]) == Next(h, a)
  {
    NextBounded(h, a);
    assert [a][1..] == [];
  }

  lemma RunTwo<D>(h: Log<D>, a: Op<D>, b: Op<D>)
    requires Bounded(h)
    ensures Bounded(Run(h, [a])) && Run(h, [a, b]) == Next(Run(h, [a]), b)
  {
    RunOne(h, a);
    RunOne(Next(h, a), b);
    assert [a, b] == [a] + [b];
    RunSplit(h, [a], [b]);
  }

  lemma RunThree<D>(h: Log<D>, a: Op<D>, b: Op<D>, c: Op<D>)
    requires Bounded(h)
    ensures Bounded(Run(h, [a, b])) && Run(h, [a, b, c]) == Next(Run(h, [a, b]), c)
  {
    RunOne(Run(h, [a, b]), c) by { RunBounded(h, [a, b]); }
    assert [a, b, c] == [a, b] + [c];
    RunSplit(h, [a, b], [c]);
  }

  /** Less than 700 ms after an edit with the same reason, and both may be merged. */
  predicate OneAction<D>(a: Op<D>, b: Op<D>)
    requires a.Push? && b.Push?
  {
    a.coalesce && b.coalesce && a.reason == b.reason && b.now - a.now < 700
  }

  /** The later edit took the place of the earlier one's state, in the same step. */
  ghost predicate SameStep<D>(one: Line<D>, two: Line<D>, d: D)
    requires one.WellFormed()
  {
    two == one.(states := one.states[..|one.states| - 1] + [d])
  }

  /** The later edit is a step after the earlier one's; of 60 steps the oldest goes. */
  ghost predicate OwnStep<D>(one: Line<D>, two: Line<D>, reason: string, d: D)
    requires one.WellFormed()
  {
    if |one.reasons| < 60 then two == Line(one.states + [d], one.reasons + [reason], one.cursor + 1)
    else two == Line(one.states[1..] + [d], one.reasons[1..] + [reason], one.cursor)
  }

  /** Two edits in a row make one step if both may be merged, their reasons are equal and
      less than 700 ms lie between them, and otherwise two; then one undo gives the state
      between them. */
  lemma TwoEdits<D>(h: Log<D>, a: Op<D>, b: Op<D>)
    requires Bounded(h) && a.Push? && b.Push?
    ensures var one, two := Run(h, [a]).line, Run(h, [a, b]).line;
            && one.WellFormed() && two.WellFormed() && one.Present() == a.doc && two.Present() == b.doc
            && (if OneAction(a, b) then SameStep(one, two, b.doc) else OwnStep(one, two, b.reason, b.doc))
            && (|two.states| == |one.states| + 1 <==> !OneAction(a, b) && |one.states| < 61)
    ensures Run(h, [a, b, Undo]).line.WellFormed() && Run(h, [a, Undo]).line.WellFormed()
    ensures Run(h, [a, b, Undo]).line.Present() == if OneAction(a, b) then Run(h, [a, Undo]).line.Present() else a.doc
  {
    RunOne(h, a);
    RunTwo(h, a, b);
    RunTwo(h, a, Undo);
    RunThree(h, a, b, Undo);
    hide Run;
    var h1 := Next(h, a);
    NextBounded(h1, b);
    PushThenUndo(h, a);
    EitherStep(h1, b);
    PushThenUndo(h1, b);
  }

  /** The same of an edit on any timeline whose last step was just made. */
  lemma EitherStep<D>(h: Log<D>, op: Op<D>)
    requires Bounded(h) && op.Push? && h.line.cursor == |h.line.states| - 1 > 0
    ensures var continues := op.coalesce && h.coalescing && op.reason == h.reason && op.now - h.at < 700;
            && (if continues then SameStep(h.line, Next(h, op).line, op.doc)
                else OwnStep(h.line, Next(h, op).line, op.reason, op.doc))
            && (|Next(h, op).line.states| == |h.line.states| + 1 <==> !continues && |h.line.states| < 61)
  {
    assert h.line.states[..h.line.cursor + 1] == h.line.states && h.line.reasons[..h.line.cursor] == h.line.reasons;
  }

  /** An edit after an undo, or after a redo that did something, is a step of its own. */
  lemma EditAfterUndo<D>(h: Log<D>, op: Op<D>, b: Op<D>)
    requires Bounded(h) && b.Push?
    requires op == Undo || (op == Redo && h.line.cursor + 1 < |h.line.states|)
    ensures Run(h, [op, b, Undo]).line.WellFormed() && Run(h, [op]).line.WellFormed()
    ensures Run(h, [op, b, Undo]).line.Present() == Run(h, [op]).line.Present()
  {
    RunOne(h, op);
    RunTwo(h, op, b);
    RunThree(h, op, b, Undo);
    hide Run;
    PushThenUndo(Next(h, op), b);
  }

  // ---- typing ---------------------------------------------------------------------

  /** Each keystroke with the same reason, soon after the one before. */
  predicate Typing<D>(ops: seq<Op<D>>, reason: string, at: int)
  {
    ops != [] ==>
      && ops[0].Push? && ops[0].coalesce && ops[0].reason == reason
      && ops[0].now - at < 700
      && Typing(ops[1..], reason, ops[0].now)
  }

  /** What the document is after the keystrokes. */
  function Typed<D>(ops: seq<Op<D>>, d: D): D
  {
    if ops == [] then d else Typed(ops[1..], if ops[0].Push? then ops[0].doc else d)
  }

  /** However long the run, it costs the one step its first keystroke made. */
  lemma {:induction false} TypingAmends<D>(h: Log<D>, ops: seq<Op<D>>)
    requires Bounded(h) && h.coalescing && h.line.cursor > 0 && h.line.cursor == |h.line.states| - 1
    requires Typing(ops, h.reason, h.at)
    ensures Run(h, ops).line == Amend(h.line, Typed(ops, h.line.Present()))
    decreases |ops|
  {
    if ops == [] {
      assert h.line.states[..h.line.cursor] + [h.line.Present()] == h.line.states;
      assert h.line.reasons[..h.line.cursor] == h.line.reasons;
    } else {
      NextBounded(h, ops[0]);
      var h1 := Next(h, ops[0]);
      TypingAmends(h1, ops[1..]);
      AmendTwice(h.line, ops[0].doc, Typed(ops[1..], ops[0].doc));
    }
  }

  lemma AmendTwice<D>(t: Line<D>, d: D, e: D)
    requires t.WellFormed()
    ensures Amend(Amend(t, d), e) == Amend(t, e)
  {
  }

  /** A run of typing is exactly one recorded step from the state before it to the
      last one typed, and undoing once restores the state before the first. */
  lemma TypingIsOneStep<D>(h: Log<D>, first: Op<D>, more: seq<Op<D>>)
    requires Bounded(h) && first.Push? && first.coalesce && !Continues(h, first)
    requires Typing(more, first.reason, first.now)
    ensures var h' := Run(h, [first] + more);
            && Bounded(h')
            && h'.line == Record(h.line, first.reason, Typed(more, first.doc))
            && Next(h', Undo).line.Present() == h.line.Present()
  {
    var h1 := Next(h, first);
    NextBounded(h, first);
    assert ([first] + more)[1..] == more;
    RunBounded(h, [first] + more);
    TypingAmends(h1, more);
    AmendOfRecord(h.line, first.reason, first.doc, Typed(more, first.doc));
    RecordThenBack(h.line, first.reason, Typed(more, first.doc));
  }

  lemma RecordThenBack<D>(t: Line<D>, reason: string, d: D)
    requires t.WellFormed()
    ensures var r := Record(t, reason, d);
            r.WellFormed() && r.cursor > 0 && Back(r).Present() == t.Present()
  {
  }

  lemma AmendOfRecord<D>(t: Line<D>, reason: string, d: D, e: D)
    requires t.WellFormed()
    ensures Amend(Record(t, reason, d), e) == Record(t, reason, e)
  {
  }
}
