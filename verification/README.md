# Verification of the organisation designer's algorithms

A model in Dafny of the stateful and algorithmic parts of the agent
organisation platform: authority that passes to stand-ins, the checks the
design canvas makes on workflows, its undo history and document surgery, the
text forms, the message bus's subjects, and the marketplace. Every module says
what the code computes and proves what that means, over all inputs or whole
runs.

`dafny verify dfyconfig.toml` checks everything.

## The modules

| module | models |
|---|---|
| `Basics`, `Lex` | what the modules share; the order of text, `sorted(set(...))` |
| `Missions` | mission windows, grants, the sweep |
| `Continuity` | splitting a mandate under separations of duties |
| `Succession` | stand-in assignments over whole runs, as designed and as the organisation chart wires them |
| `Workflow`, `GraphCheck`, `GraphMeaning` | a workflow's graph and paths; the checking loops; what their findings mean |
| `Lanes` | the lane propagation of the process view |
| `DataClasses` | restrictions inherited along `derived_from` |
| `Timeline`, `History` | the undo history as a labelled timeline with a cursor; as two stacks on the heap that refine it |
| `Reorder`, `FewestMoves` | the in-place reordering of a host's children; how few insertions could do |
| `Text`, `Forms` | split, join and trim; the pairing and label text forms |
| `Subjects`, `Delivery` | subject building and matching; the bus adapter's deliveries |
| `Documents`, `Renaming` | rewriting the JSON document; renaming a component and looking it up |
| `FreshIds`, `Creations`, `CreationRuns` | fresh ids; adding components to the document; runs of that |
| `Staffing`, `OrgTree`, `OrgDocument`, `Placements` | seats and leaders; the tree of teams; the document read as that tree; where agents run |
| `Marketplace`, `MarketRuns` | the catalog over a document store; whole runs of it |

Code that updates objects (missions, the history, the host element, the
search's shared sets, teams, the collector of placements, the adapter, the
designer, the catalog) is modelled with classes whose methods do the same;
each method is tied to a function of the old state, and the theorems are about
those functions. Loops keep the source's loops.
What such a function means is stated once more without it, on the inputs' own
fields and on the order of lists: see the lemmas named `...OnFields`,
`...Mean(s)` and `...InOrder`.

## Where a promise holds only under a condition

- **Stand-ins.** `RunKeepsSeparation` holds when each split is told everything
  the successor holds, own and covered. `stand_in_for`
  (`src/orgagents/org.py:270-280`) passes `successor.mandate` only, so two
  stand-ins with one declared successor can hand it both halves of a control:
  `TwoStandInsBreakTheControl` gives the run and `WiredRunKeepsExactly` the
  exact condition.
- **Reordering.** The comment at `web/canvas.js:1875-1876` says elements
  already in place are not moved. An element counts as in place only when all
  that stood before it is already placed, so one leftover in front makes every
  wanted element move (`FrontLeftoverMovesAll`). Nor does it always move as few
  as it could (`OneInsertionWouldDo`): `FewestExactly` says when it does, against
  every run of insertions and removals to the same order.
- **Renaming.** A rename is meant to keep every reference
  (`web/canvas.js:4000-4002`), but the open diagram's `root` is in the layout
  and is not rewritten: renaming the workflow a process canvas draws loses its
  steps (`StepStillFoundExactly`, `RenamedFlowLosesItsStep`). A value that merely equals the old id is
  rewritten too, and renaming back restores the document only if the new id was
  nowhere a value (`ThereAndBack`).
- **Forks.** The finding says a fork's branches never meet at a join. The
  search asks only that some path out of the fork reaches a join:
  `OneBranchNeverJoins` is a graph that draws no finding though one branch
  never meets one.
- **Pairings.** The form is called lossless (`web/app.js:1235-1243`). An empty
  reference comes back as an empty name, and a pairing with no role comes back
  as an owner (`AnnBecomesOwner`): `FormRoundTripExactly` has the exact condition.
- **Undo.** k undos and k redos restore the timeline, unless fewer than k steps
  could be undone and there was already something to redo (`UndosThenRedos`).
- **Publishing.** One entry an object is kept exactly while the lookup, which
  reads 2000 rows of the kind, finds it (`PublishKeepsOneListingExactly`,
  `OldestIsListedTwice`).
- **Hiring.** An installed agent's copy is stored under an id cut from two
  others and overwrites whoever has it (`InstallKeepsOthersExactly`,
  `HiringAgainLosesTheEdit`).
- **Names on the bus.** Different names may share a token (`NamesMayCollide`):
  `a-b` and `a.b`, or no name and `unknown`. `TokensEqualExactly` says which, and
  isolation of tenants and mailboxes is stated on names through it.
- **New ids.** A first team takes the organisation's place, and an id that only
  the organisation declared under what the team overwrites may be handed out
  again (`FirstTeamFreesTheName`). `FirstTeamKeepsExactly` says when a first team
  frees none, and `NeverOneDeclaredBeforeExactly` when a run hands none out.
- **Placements.** A placement's id joins team and sandbox by two hyphens, which
  ids may hold themselves; two placements may then be one (`HyphensAreAmbiguous`,
  `OnePlacementExactly`).
- **Duplicating.** A team's leader is meant to be one of its members
  (`web/canvas.js:4219`); a duplicate has the leader without the members
  (`DuplicateKeepsGoodExactly`).

## Model

| member | source | states |
|---|---|---|
| `Continuity.SplitMandate` | src/orgagents/continuity.py:112-152 | the loop over the mandate, in sorted order and without repetitions, computes `Split`, whose meaning the rows below give |
| `Continuity.FirstBlocking` | src/orgagents/continuity.py:129-146 | the refusing rule is the first in the list that has the decision and something else already held |
| `Continuity.SplitIsASplit` | src/orgagents/continuity.py:112-152 | the result of `Split` said without running it: grants and refusals ascend, a decision is granted just when no rule pairs it with something held or with an earlier grant, and each refusal names the first rule in its way at its turn |
| `Continuity.GrantedIsSafe` | src/orgagents/continuity.py:112-152 | no granted decision is one half of a control whose other half is held or granted |
| `Continuity.SplitPartitions` | src/orgagents/continuity.py:112-152 | held, granted and withheld share the mandate out with nothing twice, and each withheld decision is blocked by the rule it names in the final set of held and granted decisions |
| `Continuity.GrantIsLexFirst` | src/orgagents/continuity.py:128-151 | wherever any other compatible set first differs from the grant, it is the grant that has the decision |
| `Continuity.FirstHalfIsConferred` | src/orgagents/continuity.py:128-151 | of the two halves of a control a successor holding nothing is given the one whose text comes before, character by character; the other is withheld under the rule |
| `Continuity.ApprovalIsConferred` | src/orgagents/continuity.py:128-151 | on two concrete decisions: `approve_payment` is conferred, `raise_payment` withheld |
| `Continuity.GrantIsMaximalAndUnique` | src/orgagents/continuity.py:128-151 | no compatible set properly contains the grant, and any rules with the same clashes give the same grant |
| `Continuity.ToldMoreGrantsTheRestExactly` | src/orgagents/continuity.py:112-152 | told of more that is held, the split grants what is left of the same grants if and only if none of those meets its other half there |
| `Continuity.SplitIgnoresOrder` | src/orgagents/continuity.py:112-152 | what is granted and what is withheld does not depend on the order or repetition of mandate, holdings or rules |
| `Continuity.SplitAgainGrantsNothing` | src/orgagents/continuity.py:112-152 | asked again with the grants among the holdings, it grants nothing and withholds the same decisions |
| `Succession.CoveredMeans` | src/orgagents/continuity.py:88-101 | what an agent covers on a day is exactly what some assignment naming it, open that day, lists |
| `Succession.CoverOnlyShrinks` | src/orgagents/continuity.py:155-193 | `starts_on` is never set, so whatever is covered on a later day was covered already today |
| `Succession.OpenedOnFields` | src/orgagents/continuity.py:155-193 | what is opened: by hierarchy nothing conferred and no end; otherwise a split of the failed agent's mandate, for seven days if no end is named |
| `Succession.OpenedMeetsNothing` | src/orgagents/continuity.py:155-193 | a new assignment confers no half of a control whose other half is among the holdings it was told of or among its own grants |
| `Succession.StepKeeps` | src/orgagents/continuity.py:155-193 | opening (told of own and covered decisions), closing and passing days each keep: two halves of a control held together on this or any later day are both the agent's own |
| `Succession.EmptyBookKeeps` | src/orgagents/continuity.py:155-193 | which holds with no stand-ins, where runs begin |
| `Succession.RunKeepsSeparation` | src/orgagents/continuity.py:155-193 | the same over every run, however many stand-ins overlap, are closed or lapse |
| `Succession.StandInOnFields` | src/orgagents/org.py:230-284 | somebody stands in if and only if the declared successor, or with none declared the manager, is another agent of the chart and not itself stood in for that day |
| `Succession.StandInKeepsExactly` | src/orgagents/org.py:245-284 | the chart's wiring passes the split the successor's own mandate only; one stand-in then keeps the separations if and only if `NoOverlap` held: its window is over before it starts, or none of its decisions clashes with what the successor covers today |
| `Succession.NoOverlapOnInputs` | src/orgagents/org.py:245-284 | that condition on what the call is given: the stand-in is by hierarchy, or its window is over, or the split told also of what the successor covers grants the same, less that |
| `Succession.HarmlessWhenFree` | src/orgagents/org.py:230-284 | a stand-in by hierarchy, or by a successor covering nothing, always satisfies that condition |
| `Succession.WiredRunKeepsExactly` | src/orgagents/org.py:245-319 | over every run of stand-ins, returns and passing days as wired, every day keeps the separations if and only if each event satisfied the condition at its turn |
| `Succession.TwoStandInsBreakTheControl` | src/orgagents/org.py:245-284 | a concrete chart, rules and run of two stand-ins for which the wiring does put both halves of a control in one hand |
| `Missions.WindowIsOpen` | src/orgagents/missions.py:30-53 | open if and only if the mission is proposed or active, and the day is not before a readable start date nor after a readable end date |
| `Missions.OpenDaysAreAnInterval` | src/orgagents/missions.py:30-53 | if a window is open on two days it is open on every day between |
| `Missions.OpenPeers` | src/orgagents/missions.py:66-74 | the peers, ascending and once each, are exactly those some grant open that day names |
| `Missions.Sweep` | src/orgagents/missions.py:77-95 | sets every proposed or active mission whose end date is past completed, in place, leaves the rest, and returns the swept ids in order |
| `Missions.OverdueId` | src/orgagents/missions.py:86-94 | one id is returned for a mission that is proposed or active though its end date is past, and none for any other |
| `Missions.SweepChangesExactly` | src/orgagents/missions.py:77-95 | a sweep changes an answer exactly for an overdue mission on a day its window covered, so never today's or a later day's |
| `Missions.MissedSweepsAreUntidyNotUnsafe` | src/orgagents/missions.py:77-95 | any sweeps on any days up to a day leave that day's answer for every mission as it was without them |
| `Missions.SweepsCompose` | src/orgagents/missions.py:77-95 | two sweeps in either order are one on the later day, and a second on the same day sweeps nothing |
| `Missions.SweepKeepsPeers` | src/orgagents/missions.py:56-95 | grants with the fields of swept missions reach the same peers from the sweep's day on |
| `Workflow.OutsAreLeads` | web/canvas.js:4954-4977 | the recorded ways out of a step are exactly its plain edges, branch cases and branch default that lead to a step |
| `Workflow.BranchLeads` | web/canvas.js:4967-4977 | a branch leads to each step that a case or its default names, and elsewhere only by an edge or another branch of its id |
| `Workflow.WaysCounted` | web/canvas.js:4953-4985 | as many ways out are recorded as there are edges, cases and defaults that do not lead nowhere, each as often as it is there |
| `Workflow.EntryMeans` | web/canvas.js:4946-4949 | a workflow starts at its entry, or with none at its first step that has an id |
| `Workflow.LastKind` | web/canvas.js:4988-4988 | a step's kind is that of the last step of its id |
| `Workflow.ClosedHoldsPath` | web/canvas.js:5015-5021 | a set closed under ways out contains every path that starts in it |
| `Workflow.ClosedHoldsTrail` | web/canvas.js:4991-4999 | the same for paths out of a fork that stop at the first join |
| `GraphCheck.CollectArms` | web/canvas.js:4965-4977 | the loop over branches records each arm that does not dangle and reports each that does, in order |
| `GraphCheck.FindJoins` | web/canvas.js:4991-4999 | the stack search, on any graph with loops, ends having found exactly the joins that are first on some path out of the fork |
| `GraphCheck.CheckForks` | web/canvas.js:4988-5004 | a fork is reported just when it meets no join, and the joins met by some fork are collected exactly |
| `GraphCheck.ReachFrom` | web/canvas.js:5015-5021 | the reachability search ends, on any graph, with exactly the steps some path from the entry leads to |
| `GraphCheck.GraphIssues` | web/canvas.js:4943-5028 | the whole check terminates on every graph and makes exactly the findings `Issues` lists, in order |
| `GraphMeaning.IssueIsWarranted` | web/canvas.js:4943-5028 | any finding at all is made if and only if its path-based condition holds; a step is named unreachable just when no path from the entry leads to it |
| `GraphMeaning.NoIssuesMeansSound` | web/canvas.js:4943-5028 | nothing is found if and only if the graph is sound: targets are steps or END, only branches and forks have several ways out, every step is reachable, every fork meets some join, every join is met first by some fork, every person's step names somebody |
| `GraphMeaning.IssuesInSections` | web/canvas.js:4943-5028 | the findings come section by section |
| `GraphMeaning.SectionsInOrder` | web/canvas.js:4954-5026 | within a section they follow the edges, the steps and a branch's arms, at most one from each |
| `GraphMeaning.ArmsInOrder` | web/canvas.js:4969-4970 | a branch's arms are its cases in order, then its default |
| `GraphMeaning.OneBranchNeverJoins` | web/canvas.js:4983-5009 | a graph that draws no finding though from one of its fork's ways out no join is reached |
| `Lanes.ProcessEdges` | web/canvas.js:563-585 | the ends of the picture's edges: the named plain edges in their order, then each branch's arms in theirs, those that end the workflow left out; exactly the flows of the graph |
| `Lanes.FlowsInOrder` | web/canvas.js:566-585 | the flows follow the edges, then the branches, each with its cases before its default |
| `Lanes.CaseFlowsInOrder` | web/canvas.js:573-578 | and in a branch each case's flow stands between those of the cases around it |
| `Lanes.OwnLanes` | web/canvas.js:633-638 | the lanes owners give outright |
| `Lanes.OwnedLast` | web/canvas.js:633-638 | a step's own lane is that of the last owned step of its id |
| `Lanes.FirstLaned` | web/canvas.js:644-644 | the source found is that of a flow into the step before which no flow into it has a laned source; none is found if no source has a lane |
| `Lanes.TurnIsOne` | web/canvas.js:642-645 | a step's turn has one outcome: the lane of its first source with one, as the lanes are at that turn |
| `Lanes.Pass` | web/canvas.js:641-649 | one pass over the steps leaves every lane given so far as it was, gives lanes only from steps that lead there, and reports a change exactly when it gave one; the steps take their turns in the order of the nodes, each as `Turn` says; without a change, no step was left with a lane to take |
| `Lanes.PassOutcome` | web/canvas.js:641-649 | so a pass leaves fewer steps without a lane, or none is left that could take one: the measure that bounds the passes |
| `Lanes.ProcessLanes` | web/canvas.js:630-651 | the lanes are reached from the owners' by such passes; on any graph at most one pass a step is enough: owned steps keep their own lane, every lane is an own lane of some step leading there, and each step without one has no laned predecessor, or a first one without an id; where all steps have ids no step without a lane has a laned predecessor |
| `Lanes.ResolvedSettles` | web/canvas.js:641-649 | the last part, from the state the passes end in |
| `Lanes.LanedExactly` | web/canvas.js:630-651 | a step has a lane if and only if an owned step reaches it through the workflow's steps |
| `DataClasses.ById` | web/canvas.js:905-907 | the table holds each declared id once, with a class of that id |
| `DataClasses.ByIdKeepsLast` | web/canvas.js:905-907 | of classes with one id the last is kept |
| `DataClasses.Search.Walk` | web/canvas.js:1008-1031 | the recursive search with its shared `seen` and `out` terminates on every graph and visits exactly the depth-first order of the unseen ancestors |
| `DataClasses.AncestorsAre` | web/canvas.js:1007-1031 | those are exactly the other declared classes reachable along `derived_from` |
| `DataClasses.DepthFirst` | web/canvas.js:1008-1031 | on a concrete family the search goes down before it goes on |
| `DataClasses.RowsSum` | web/canvas.js:1014-1028 | under each key the row is that of the first source that restricts, and there is one if any source does |
| `DataClasses.InheritedRestrictions` | web/canvas.js:1002-1034 | the rows are those of the ancestors in search order; none for an undeclared class |
| `DataClasses.InheritedExactly` | web/canvas.js:1002-1034 | a region or traces row is shown if and only if some other reachable declared class sets the flag to false, a scope row if and only if some such class ranks lower; each names such a class and is marked dropped exactly when the class itself says otherwise |
| `DataClasses.RegionRows` | web/canvas.js:1014-1017 | a region row is shown if and only if a class reachable along `derived_from` may not leave its region; it names one, and is marked dropped unless the class itself may not |
| `DataClasses.TracesRows` | web/canvas.js:1018-1021 | the same for traces |
| `DataClasses.ScopeRows` | web/canvas.js:1022-1028 | a scope row is shown if and only if a reachable class is private or says nothing while the class is protected or public, or is protected while it is public; always as dropped |
| `DataClasses.RowNamesFirst` | web/canvas.js:1014-1028 | a row names the first class met by the search that restricts |
| `DataClasses.RowsInOrder` | web/canvas.js:1006-1033 | rows stand in the order their classes were met, and for one class region, traces, scope |
| `DataClasses.NoEdgeDropsNoRowDrops` | web/canvas.js:1014-1021 | if no single derivation drops a region or traces restriction, no such row anywhere is marked dropped |
| `DataClasses.NoRowDropsExactly` | web/canvas.js:1014-1021 | no such row of any class is marked dropped if and only if no single derivation drops the restriction |
| `Timeline.RunBounded` | web/canvas.js:5637-5720 | over every run past and future steps together stay within 60, though only recording trims |
| `Timeline.UndosThenRedos` | web/canvas.js:5700-5720 | k undos then k redos restore the timeline if and only if there were k steps to undo or nothing to redo |
| `Timeline.UndoRedoKeepRecords` | web/canvas.js:5700-5720 | no run of undos and redos alters the recorded states or their reasons |
| `Timeline.PushThenUndo` | web/canvas.js:5664-5709 | a recorded edit leaves nothing to redo, and one undo returns to the state before it, or before the step it continued |
| `Timeline.TwoEdits` | web/canvas.js:5655-5683 | over every run, two edits in a row make one step if both may be merged, their reasons are equal and less than 700 ms lie between them, and two steps otherwise; one undo then gives the state between them |
| `Timeline.EditAfterUndo` | web/canvas.js:5700-5720 | an edit after an undo, or a redo that did something, is a step of its own |
| `Timeline.TypingIsOneStep` | web/canvas.js:5653-5683 | a run of keystrokes with one reason, each inside 700 ms of the last, is one recorded step to the last text, and its undo restores the state before the first |
| `History.UndoLine` | web/canvas.js:5700-5709 | moving an entry from past to future moves the cursor of `past ++ [last] ++ reverse(future)` back and changes nothing else |
| `History.RedoLine` | web/canvas.js:5711-5720 | and the other way forth |
| `History.RecordLine` | web/canvas.js:5673-5678 | pushing, shifting the oldest beyond the limit and clearing the future is recording a step on the timeline |
| `History.AmendLine` | web/canvas.js:5673-5678 | a continued step replaces the present state |
| `History.Canvas.ResetHistory` | web/canvas.js:5645-5651 | an empty history at the open document |
| `History.Canvas.PushHistory` | web/canvas.js:5664-5683 | refines recording or amending; nothing happens before a document was opened; a new step is a new object holding the state before the change |
| `History.Canvas.NewStep` | web/canvas.js:5673-5683 | a step of its own, the oldest shifted out beyond the limit |
| `History.Canvas.Undo` | web/canvas.js:5700-5709 | refines moving the cursor back; nothing happens with nothing to undo |
| `History.Canvas.Redo` | web/canvas.js:5711-5720 | refines moving it forth; the step is pushed as a new object |
| `History.Canvas.ToastUndo` | web/canvas.js:3638-3652 | acts only while the captured entry is on top by object identity; for a step nothing can amend, the state it then undoes is the one right after that change |
| `Reorder.Host.InsertBefore` | web/canvas.js:1880-1880 | afterwards the element is among the children once, right before the reference or last of all, and the others are as they were |
| `Reorder.InsertedExactly` | web/canvas.js:1880-1880 | among children that stand once each, only one list answers that description |
| `Reorder.Host.Place` | web/canvas.js:1877-1881 | after the first loop the children are the wanted list followed by the leftovers in their order, and the moved elements are exactly those not in place at their turn |
| `Reorder.Host.Reorder` | web/canvas.js:1874-1882 | the children end as wanted whatever they were; exactly the leftovers are removed, in order, and an element in place is never moved |
| `Reorder.FirstIsInPlace` | web/canvas.js:1879-1879 | the loop's test holds exactly when everything that stood before the element is already placed |
| `Reorder.NothingMovesExactly` | web/canvas.js:1874-1882 | nothing is moved if and only if the wanted order is how the children begin |
| `Reorder.FrontLeftoverMovesAll` | web/canvas.js:1875-1882 | with a leftover in front, every wanted element is moved: the comment's promise fails there |
| `FewestMoves.RunLeavesCommonOrder` | web/canvas.js:1875-1882 | every run of insertions and removals that ends in the wanted order leaves some elements in the order they had, and inserts at least all the others |
| `FewestMoves.CommonOrderIsEnough` | web/canvas.js:1875-1882 | and for every list within both the children and the wanted order some run inserts exactly the others |
| `FewestMoves.FewestExactly` | web/canvas.js:1874-1882 | the loop inserts as few elements as any run could if and only if no list within both the children and the wanted order is longer than the elements it finds in place |
| `FewestMoves.FirstToLastMovesTheRest` | web/canvas.js:1875-1882 | sending the first element to the end finds only that one in place |
| `FewestMoves.OneInsertionWouldDo` | web/canvas.js:1875-1882 | there one insertion would do, and the loop makes one for each of the others |
| `Text.SplitJoin` | web/app.js:376-387 | splitting gives back the parts that were joined |
| `Text.JoinSplit` | web/app.js:383-384 | joining gives back the text that was split |
| `Text.JoinBetween` | web/app.js:1263-1266 | the join of two lists is the one, the glue and the other |
| `Text.TrimMeans` | web/app.js:1233-1233 | trimming takes all white space off both ends and nothing else |
| `Forms.CsvOfJoinExactly` | web/app.js:1233-1233 | a printed comma list is read back as it was if and only if its items are non-empty, trimmed and free of commas |
| `Forms.CsvMeans` | web/app.js:1233-1233 | a comma list is read item by item, each trimmed, the empty ones left out |
| `Forms.PrintedOnFields` | web/app.js:1262-1267 | what a line shows: name or reference, contact, roles and what is approved, with bars between |
| `Forms.LineMeans` | web/app.js:1269-1280 | what a line is read as, field by field: a reference if it begins so, and owner where no role is named |
| `Forms.OneNotBlank` | web/app.js:1270-1270 | a line is left out if and only if it is nothing but white space |
| `Forms.ParsePrinted` | web/app.js:1262-1281 | one printed pairing reads back as itself, except that an empty reference becomes an empty name |
| `Forms.ParseOfPrint` | web/app.js:1262-1281 | the same for a whole text, line by line |
| `Forms.ReparseExactly` | web/app.js:1262-1281 | for every text, parsing, printing and parsing again gives what parsing once gave if and only if no line was an empty `person:` reference |
| `Forms.FormRoundTripExactly` | web/app.js:1262-1281 | any pairings survive printing and parsing if and only if each is one the form can carry (tidy fields, some role) and none is an empty reference |
| `Forms.RolelessBecomesOwner` | web/app.js:1269-1275 | a pairing without a role comes back as an owner and otherwise as it was |
| `Forms.AnnBecomesOwner` | web/app.js:1262-1281 | somebody named without a role, printed and parsed: the form does not give the pairing back |
| `Forms.LabelsFromText` | web/app.js:380-387 | the loop over lines builds the map of non-empty keys, a later line winning |
| `Forms.ReadLabelMeans` | web/app.js:383-384 | a line's key is what stands before its first `=` and its value all that comes after, both trimmed |
| `Forms.CollectedMeans` | web/app.js:381-386 | a key is in the map if and only if it is not empty and some line has it, with its last line's value |
| `Forms.LabelsRoundTripExactly` | web/app.js:376-387 | however a map is listed, printing and reading gives it back if and only if keys are non-empty and free of `=`, and keys and values are trimmed and on one line; values may contain `=` |
| `Forms.RereadLabels` | web/app.js:376-387 | what was read from any text is printed and read again without change |
| `Subjects.TokenIsOne` | src/orgagents/bus.py:43-46 | a token is never empty and has no dot, blank, `*` or `>` in it |
| `Subjects.TokensEqualExactly` | src/orgagents/bus.py:43-46 | two names share a token if and only if, an empty one read as `unknown`, they are as long and differ only where both have something that comes out as a hyphen |
| `Subjects.NameKeepsApartExactly` | src/orgagents/bus.py:43-46 | a name shares its token with no other if and only if it is not empty, not `unknown`, and nothing in it comes out as a hyphen |
| `Subjects.UsableNamesKeepApart` | src/orgagents/bus.py:43-46 | of names of letters, digits, hyphens and underscores no two share a token |
| `Subjects.NamesMayCollide` | src/orgagents/bus.py:43-46 | a dot, a blank and a hyphen in a name give the same token, and so do no name and `unknown` |
| `Subjects.AgentReads` | src/orgagents/bus.py:60-61 | an agent subject splits on dots into exactly the tokens it was made of |
| `Subjects.ChannelReads` | src/orgagents/bus.py:63-65 | so does a channel subject, with or without an address |
| `Subjects.LetterReads` | src/orgagents/bus.py:83-87 | so does an inbox or reply subject, its last token being the sender's |
| `Subjects.InboxAndReplyRead` | src/orgagents/bus.py:83-87 | inbox and reply subjects by their six tokens |
| `Subjects.MatchesBelow` | src/orgagents/bus.py:73-75 | plain tokens followed by `>` match exactly the longer subjects that begin with them |
| `Subjects.TenantsAreIsolatedExactly` | src/orgagents/bus.py:73-75 | a tenant's wildcard selects a subject of another tenant if and only if the tenants' tokens are equal, that is when their names are alike in the sense above |
| `Subjects.LettersStayHomeExactly` | src/orgagents/bus.py:73-87 | so it overhears an inbox or reply of another tenant if and only if the tenants' names are alike |
| `Subjects.AgentsWildcardTakesExactly` | src/orgagents/bus.py:93-95 | the wildcard over a tenant's agents selects another tenant's agent, inbox or reply subject if and only if the tenants' tokens are equal, their names alike, and never a channel subject |
| `Subjects.MailboxTakesItsMail` | src/orgagents/bus.py:83-91 | a mailbox selects an inbox or reply subject if and only if tenant and recipient tokens are equal: the tenants' names alike, and the agents' |
| `Subjects.MailboxTakesNothingElse` | src/orgagents/bus.py:60-91 | and never a channel subject or the bare subject of any agent |
| `Subjects.StreamTakesItsChannel` | src/orgagents/bus.py:152-177 | the two subjects a channel's stream is declared with select another channel subject of the tenant if and only if the kinds' names are alike |
| `Delivery.Adapter.Deliver` | src/orgagents/bus.py:197-238 | refused without a client, or when addressed to somebody the chart refuses, and then nothing is sent; otherwise exactly one message goes to its subject, and everything ever sent was allowed |
| `Delivery.RecipientNamesTheSubject` | src/orgagents/bus.py:67-71 | an addressed message goes to a subject that ends in its recipient's token, any other to its channel's, whoever sent it |
| `Delivery.DeliveriesMissMailboxes` | src/orgagents/bus.py:67-91 | a delivered message never lands in any agent's mailbox, and lands under a tenant's wildcard if and only if the tenants' tokens are equal, their names alike |
| `Documents.RewriteAt` | web/canvas.js:4003-4015 | at every place of the document, a string value equal to the old id becomes the new one, any other keeps its kind and length, and every object keeps its keys |
| `Documents.RewriteOnPlaces` | web/canvas.js:4003-4016 | place by place: the new id where the old one stood, any other plain value as it was, lists and objects with as many places and the same keys |
| `Documents.ThereAndBack` | web/canvas.js:4003-4015 | renaming and renaming back restores the document if and only if the new id stood nowhere as a value |
| `Renaming.IdsRewritten` | web/canvas.js:3927-3937 | the declared ids after are those before, in order and number, with the old id renamed |
| `Renaming.RenamingKeepsDistinct` | web/canvas.js:3995-4015 | ids are distinct after if and only if before, under a fresh id |
| `Renaming.FindCommutes` | web/canvas.js:1384-1421 | looking up the renamed id finds the rewriting of what the old lookup found, for teams, agents, sub-agents, memory namespaces, evaluations and every collection, and the old id finds nothing |
| `Renaming.FoundExactly` | web/canvas.js:1384-1421 | a component is found if and only if one of its kind and id stands in that kind's place in the document |
| `Renaming.StepFoundMeans` | web/canvas.js:1390-1394 | a step that is found stands among the nodes of a workflow of the root's id |
| `Renaming.StepCommutes` | web/canvas.js:1390-1394 | the same for a step of the workflow the diagram's root names, when the root is renamed along |
| `Renaming.StepStillFoundExactly` | web/canvas.js:1390-1394 | the code leaves the root as it is, so the step is found if and only if it was not the root workflow that was renamed, or there was no such step |
| `Renaming.RenamedFlowLosesItsStep` | web/canvas.js:1390-1394 | a document with one workflow and one step, where a rename that is not refused loses the step |
| `Renaming.NodesRenamed` | web/canvas.js:4017-4021 | the open diagram keeps as many nodes, the renamed one under and with its new id and all else it held, the others untouched |
| `Renaming.IdsMean` | web/canvas.js:3931-3937 | an id is declared if and only if it is the text under `id` of an object somewhere in the document |
| `Renaming.UnusableExactly` | web/canvas.js:3990-3999 | the ids that are refused, by their characters |
| `Renaming.Designer.RenameComponent` | web/canvas.js:3987-4024 | refused with nothing changed for an empty, unchanged, unusable or taken id, decided on the trimmed text; otherwise document, nodes and selection are rewritten and nothing else |
| `Renaming.RenameDeclares` | web/canvas.js:3987-4024 | the ids declared afterwards, in document and diagram, are those before with the new id in place of the old |
| `FreshIds.DecimalInjective` | web/canvas.js:3966-3967 | different numbers are written differently |
| `FreshIds.DecimalMeans` | web/canvas.js:3966-3967 | a number is written in decimal digits, without zeros in front |
| `FreshIds.Pigeonhole` | web/canvas.js:3964-3967 | if every number below n is taken, at least that many ids are taken: the measure that ends the loop |
| `FreshIds.NextName` | web/canvas.js:3965-3967 | ends for every set of taken ids, with a free id all of whose lower numbers are taken |
| `FreshIds.NextId` | web/canvas.js:3962-3968 | the same for a component kind, a memory namespace's ids starting with `namespace` |
| `FreshIds.NewDiagramId` | web/canvas.js:234-239 | the same for diagrams |
| `FreshIds.NextIsUnique` | web/canvas.js:3962-3968 | there is only one such id |
| `Creations.AddKeeps` | web/canvas.js:1439-1487 | a component added to the document, a sub-agent included, is declared, and so is everything declared before, unless a first team takes the organisation's place |
| `CreationRuns.FirstTeamDeclaresExactly` | web/canvas.js:1441-1454 | after a first team the document declares exactly the team's id, its own, those outside the organisation and those in the organisation that no field of the team is written over |
| `CreationRuns.FirstTeamKeepsExactly` | web/canvas.js:1441-1454 | so it keeps every declared id if and only if each stands in one of those places |
| `CreationRuns.OnlyItsNameGoesExactly` | web/canvas.js:1441-1454 | where the organisation declares nothing under name, leader, members and teams, a first team keeps every declared id if and only if the organisation had no id or has one declared elsewhere too |
| `CreationRuns.NeverHandedOutTwice` | web/canvas.js:3654-3676 | over a run of creations, each put in the document and laid out on the open diagram, no id is handed out twice, nor one laid out before |
| `CreationRuns.StepFreesExactly` | web/canvas.js:1439-1487 | a creation leaves undeclared exactly the ids `Freed` names: none, unless it is a first team |
| `CreationRuns.NeverOneDeclaredBeforeExactly` | web/canvas.js:3927-3968 | over every run, first teams included, no id handed out is one of any ids declared before if and only if none of those that a step freed is handed out after it |
| `CreationRuns.NeverOneDeclaredBefore` | web/canvas.js:3927-3968 | the form a caller can check: it suffices that no declared id a first team frees is a later step's kind with a number |
| `CreationRuns.LaidOutNeverReuses` | web/canvas.js:3927-3968 | once the organisation is on the open diagram, as it is after a first team, no run hands out an id declared before it |
| `CreationRuns.AfterFirstTeamExactly` | web/canvas.js:1441-1454 | so a run that begins with a first team hands out an id declared before if and only if that team freed it and a later step is given it |
| `CreationRuns.FirstTeamFreesTheName` | web/canvas.js:1441-1454 | a document and two teams for which that happens: the organisation's former id is handed out again |
| `Staffing.HomeMeans` | web/app.js:1315-1316 | an agent's team is found if and only if it sits in one |
| `Staffing.MoveAgent` | web/app.js:1314-1327 | changes members and leader of the agent's team and the other one in place, as `Moved` says, and no other team |
| `Staffing.MoveGoodExactly` | web/app.js:1314-1327 | leaders stay members or empty and agents in one seat if and only if the target is no team, or the agent does not lead, or it sits somewhere; a seated agent ends up in the target team and nowhere else |
| `Staffing.MoveOnFields` | web/app.js:1314-1327 | what a move makes of the team moved to, of the one left and of any other: members, and a leader who stays, leads, or is followed by the first other member |
| `Staffing.MoveConservesCrew` | web/app.js:1314-1327 | the multiset of all agents is unchanged |
| `Staffing.AddAgent` | web/canvas.js:1460-1467 | a new agent joins the top team in place, leading it if nobody did; refused with no team |
| `Staffing.AddedGood` | web/canvas.js:1460-1467 | that keeps leaders and seats good and makes just that agent known |
| `Staffing.AddedOnFields` | web/canvas.js:1460-1467 | it comes last in the top team, and leads it if and only if nobody did |
| `Staffing.RemoveAgent` | web/canvas.js:1495-1499 | every team drops the agent in place, and a leader who goes is followed by the first who stays |
| `Staffing.RemovedGood` | web/canvas.js:1495-1499 | that keeps leaders and seats good and leaves the agent nowhere |
| `Staffing.RemovedOnFields` | web/canvas.js:1495-1499 | in every team the agent is gone, a leader who stays keeps leading, and one who goes is followed by the first other member |
| `OrgTree.AddTeamRoster` | web/canvas.js:1441-1459 | a new team comes last, or replaces an organisation nothing was put in yet |
| `OrgTree.RemoveTeamExactly` | web/canvas.js:1489-1494 | removing a team cuts exactly its subtree's list out of the list of teams; the top, or an unknown id, removes nothing |
| `OrgTree.RosterWithStaff` | web/canvas.js:183-187 | changing the staff of every team of the tree changes the walked list team by team |
| `OrgTree.ApplyKeepsGood` | web/canvas.js:1439-1513 | one team or agent added, removed or moved keeps every leader a member or empty, every team id once and every agent in one seat |
| `OrgTree.RunKeepsGood` | web/canvas.js:1439-1513 | and so does any run of such changes |
| `OrgTree.DuplicateKeepsGoodExactly` | web/canvas.js:3654-3666 | a duplicated team carries the leader's id over but no members, so leaders stay members or empty if and only if the team copied had no leader |
| `OrgDocument.UnusedAgrees` | web/canvas.js:1445-1448 | the test for a first team on the document is the test on its tree |
| `OrgDocument.AddTeamAgrees` | web/canvas.js:1441-1459 | a team added to the JSON document is the team added to the tree read from it |
| `OrgDocument.AddAgentAgrees` | web/canvas.js:1460-1467 | and an agent likewise |
| `OrgDocument.AddedOnFields` | web/canvas.js:1439-1487 | where each kind of component comes in the document: which list it ends, and a sub-agent with the first agent of the organisation |
| `OrgDocument.ItemOnFields` | web/canvas.js:1461-1485 | a new component has its id, and else what its kind starts with |
| `OrgDocument.CreationKeepsStaffed` | web/canvas.js:1439-1487 | whatever is created under an id not declared yet, the organisation's leaders stay members or empty, each team id there once and each agent in one seat |
| `OrgDocument.RunKeepsStaffed` | web/canvas.js:1439-1487 | and so over every run of creations in the document, each under the next id of its kind |
| `Placements.Collector.Walk` | web/canvas.js:2764-2782 | the recursive walk collects, after what was there, the uses of the team and those below, in order |
| `Placements.CollectGathers` | web/canvas.js:2763-2779 | distinct placement ids, each holding the agents of exactly its uses, in the order met |
| `Placements.AgentsAtInOrder` | web/canvas.js:2776-2781 | a placement's agents come in the order of the uses, as often as they are there |
| `Placements.OneAgentAt` | web/canvas.js:2778-2780 | a use puts its agent in the placement of team, two hyphens and sandbox |
| `Placements.SortedInOrder` | web/canvas.js:2792-2792 | a placement's agents come out in order |
| `Placements.SortedPlaces` | web/canvas.js:2789-2795 | placements ascend by id, none twice, none empty, each with the agents of its uses sorted |
| `Placements.PostureMeans` | web/canvas.js:2787-2794 | the posture shown is that of the last class with the sandbox's id, none if it has no posture or there is no class |
| `Placements.DerivedPlacements` | web/canvas.js:2760-2796 | the whole function gives such placements for the organisation's uses, each with its sandbox's posture |
| `Placements.UsesMean` | web/canvas.js:2764-2782 | an agent is used under a unit for a sandbox if and only if it lists that sandbox in a team whose nearest placement-declaring ancestor, itself included, is that unit, or the root's when none is |
| `Placements.OnePlacementPerSandbox` | web/canvas.js:2760-2796 | in a good organisation with unambiguous keys and no sandbox listed twice by one agent, an agent is in exactly one placement for each sandbox it lists, once |
| `Placements.OnePlacementExactly` | web/canvas.js:2760-2796 | that is so of every use if and only if no two units and sandboxes share a placement id |
| `Placements.HyphensAreAmbiguous` | web/canvas.js:2778-2779 | a good organisation in which two do: sandbox `b--c` of team `a` and sandbox `c` of team `a--b` |
| `Marketplace.FoundWithinLimit` | src/orgagents/catalog.py:93-101 | while a kind's listings fit one lookup of 2000, an object's entry is found if and only if it is listed |
| `Marketplace.PublishKeepsOneListingExactly` | src/orgagents/catalog.py:53-88 | publishing leaves one entry an object if and only if the lookup finds the object's entry when there is one |
| `Marketplace.PublishedOnFields` | src/orgagents/catalog.py:73-88 | a listed object's entry keeps its id, installs and ratings; a new one starts with none |
| `Marketplace.ReinstallChangesNothing` | src/orgagents/catalog.py:182-192 | installing a skill, plugin, workflow or agent again leaves the target's record as it was |
| `Marketplace.ReinstallChangesNobody` | src/orgagents/catalog.py:182-219 | and for all but an agent, every agent's record |
| `Marketplace.AttachedTidy` | src/orgagents/catalog.py:182-215 | an install keeps the target's lists without repetitions so |
| `Marketplace.AttachedAllTidy` | src/orgagents/catalog.py:182-219 | and those of every agent, a hired copy's included |
| `Marketplace.PutInstalls` | src/orgagents/store.py:50-75 | writing an entry changes the total of installs by what its own count changed |
| `Marketplace.Catalog.Publish` | src/orgagents/catalog.py:53-88 | refused with nothing written without groups or without the object; otherwise writes the one entry and marks a published agent |
| `Marketplace.Catalog.Rate` | src/orgagents/catalog.py:222-231 | refused with nothing written outside one to five stars or without the entry; otherwise adds the stars and one rating to that entry only |
| `Marketplace.Catalog.AttachPlugin` | src/orgagents/catalog.py:184-191 | a plugin's skills and tools are each attached once, in order |
| `Marketplace.AddOneTool` | src/orgagents/catalog.py:189-191 | a tool is put at the end unless one of its name is there |
| `Marketplace.Catalog.Install` | src/orgagents/catalog.py:165-220 | a refused install writes nothing; one that went through counts one install on its entry and writes the agents `Installed` says |
| `Marketplace.OutcomeOnFields` | src/orgagents/catalog.py:165-213 | what keeps an install from going through: a protected entry that shares no group with the agent, a missing source, a session; otherwise it goes through |
| `Marketplace.NoOutcomeWithout` | src/orgagents/catalog.py:167-172 | without an entry of the id, or without the agent, it is refused as that |
| `Marketplace.InstalledOnFields` | src/orgagents/catalog.py:182-215 | which list of the target's record each kind goes to, once and at its end, and that nothing else of it changes |
| `Marketplace.HiredOnFields` | src/orgagents/catalog.py:199-209 | a hired copy's id, manager, unit and publication, on the two records |
| `Marketplace.InstallKeepsOthersExactly` | src/orgagents/catalog.py:199-209 | an install leaves every agent but its target as it was if and only if it hires nobody, or the copy's shortened id is free, the target's own, or names an identical copy |
| `Marketplace.HiringAgainRestoresTheCopy` | src/orgagents/catalog.py:199-209 | hiring the same agent again puts the copy back as first hired, whatever was made of it |
| `Marketplace.HiringAgainLosesTheEdit` | src/orgagents/catalog.py:199-209 | two agents and an edited copy for which the edit is lost |
| `MarketRuns.RunKeeps` | src/orgagents/catalog.py:53-231 | over every run of publishing, rating and installing, while each kind's listings fit one lookup: one entry an object and id, ratings between one and five stars on average, total installs equal to installs that went through, and no repetition in any agent's lists |
| `MarketRuns.ShelfIsReached` | src/orgagents/catalog.py:53-101 | up to one listing more than a lookup reads can be published one by one |
| `MarketRuns.OldestIsListedTwice` | src/orgagents/catalog.py:53-101 | then publishing the oldest again lists it twice |
| `Lex.AscendingUnique` | src/orgagents/continuity.py:128-128 | two ascending lists with the same members are the same list, so `sorted(set(...))` is one list |
| `Lex.SortedComesInOrder` | src/orgagents/continuity.py:128-128 | in it an earlier text begins the later one, or has the smaller character where they first differ |

## Left out

- The documents and the tree of teams are values held in a field; that several
  places of the source share one node, and its edits node by node, is not
  captured. `Staffing` does capture the edits of teams in place.
- Undo states are values; the source keeps them as JSON text and parses them back.
- Clock, today's date and new ids are parameters. A date that cannot be read is
  an open end, as `_parse` makes it.
- `starts_on` is never set by `open_assignment`; runs therefore begin with
  assignments that have started.
- The chart and the separations stay fixed through a run of stand-ins.
- OwnLanes: each step's own lane is an input, because `ownerLane` is a plain
  lookup of the owner among teams, agents and people.
- ProcessEdges: does not carry an edge's kind and label, because lanes use its
  ends only.
- An absent text field and an empty one are the same in a workflow's steps, and
  keys that name properties of every JavaScript object are not modelled.
- `localeCompare` is modelled as the order of characters; characters are whole
  code points, not UTF-16 units.
- The chart's assignments are read whole, while `acting_assignments` reads at most
  2000 rows (`src/orgagents/org.py:286-287`).
- Placements take a sandbox by its id; that an override may be a record naming it
  is in `OrgDocument.SandboxOf` only.
- `isalnum` is a parameter of the subjects, required only to leave the reserved
  characters out. The upper-cased `stream` name and `consumer` are left out.
- AddTo: does not copy a duplicate's plain fields, because they declare no id; the
  copied leader is in `OrgTree.Duplicated`.
- Creations that ask the server's model operations first; a document is taken as
  open on some diagram.
- Finding notes and deployment bindings: those live in the layout and in the
  bindings, not in the document that is renamed.
- `nextName` and `namesInUse`: the same loop as `nextId` over names.
- Publish: does not carry an entry's name, summary, owner, tags, version and unit,
  because they are copied from the request or the object and nothing reads them.
- The catalog's `search`, `stats`, `detail` and `unpublish`; entries written within
  the same second may be listed in either order, and the model lists the last
  written first.
- Rate: stars are real numbers; rounding of floating point is not modelled.
- Deliver: the payload, the reply's text and the timeout of a delivery are not
  modelled, because they are the client's.
- The compiler, the server's layout, merge and locks, classifiers, command line,
  API routing, and all drawing, dialogs and key handling in `web/`.
