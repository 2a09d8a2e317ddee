# Verified models of Hegel's protocols and transformations

This project models six parts of Hegel, a property-based testing library with
a native engine behind a C interface, and two of its scripts, and proves what
each of them is for.

- **Debug representations** (`DebugTree`, `DebugParser`, `DebugPrinter`,
  `DebugRoundTrip`, `DebugLayout`, `DebugGrammar`, `DebugOutline`): the
  recursive-descent parser of `{:?}` output and the printer operations its tree is
  emitted as. Nothing is lost or added for any string; layouts differ only at break
  points; the whole derived grammar is accepted up to the depth cap, and printed as
  the groups and break points of its value.
- **Wide integers** (`TwosComplement`, `WideInteger`): two's-complement bytes,
  minimal encodings, sign extension, and the 17-byte draw buffer.
- **Concurrent stateful testing** (`WorkerEvents`, `ConcurrentRounds`,
  `RoundOutcomes`): what a worker reports, how a round's reports are resolved, and
  the main thread with its workers and channels as a transition system over every
  interleaving.
- **Pools** (`VariablePool`, `ConcurrentPool`, `PoolCalls`): the engine's pool of
  ids, and the map that concurrent workers share, again over every interleaving.
- **Runs and handles** (`RunProtocol`, `HandleProtocol`, `HandleOrigins`): the exchange,
  the run handle, the loop that drives a run to its verdict, and families of
  handles used from many threads.
- **Draw naming** (`DrawNaming`, `DrawUses`, `DrawForms`, `DrawScope`): the
  two-pass rewriting of test bodies, every draw they make, and the check of the
  names they record.
- **Tables and coverage** (`UnicodeTables`, `LcovMerge`): category runs and
  decomposition chains, and the union of coverage reports.

`Wrappers` and `Abi` hold shared result shapes.

## Where the code does less than it says

- `FamilyShared::complete` sets a flag and then reports. A caller that sees the
  flag may resume the engine in between, and unless a draw has concluded the case
  the engine then finds no conclusion and answers with a run-level error.
  `HandleProtocol.ResumedTooSoon` says exactly when,
  `HandleProtocol.ResumedBeforeTheReport` gives the execution, and
  `HandleProtocol.NeverResumedTooSoon` shows that the two as one step never allow
  it.
- The coverage merge is keyed by the name in the record, while the reader
  normalises names into paths. `LcovMerge.UnionHoldsIffOneNameEach` says for which
  names the documented union holds of files, and `LcovMerge.TwoNamesMislead` gives
  a covered line reported as uncovered.
- A name that the rewriting marks non-repeatable can still be drawn again: an unbound
  `tc.draw` records the name `draw`, `tc.draw_named` and helpers any name, in the
  same scope, and the name check then reports an internal error.
  `DrawScope.RefusedIffOtherRoute` says for exactly which bodies,
  `DrawScope.DrawnAtMostOnce` for which names, and `DrawScope.UnboundDrawClashes` and
  `DrawScope.NamedDrawClashes` are such bodies.
- Erasing a rewritten test body does not give back one that already held a named
  draw or a labelled target; `DrawUses.ErasingRestores` is exact about it and
  `DrawUses.ErasingLosesOlderLabels` is such a body.

## How the models are read

The parser, the printer, the in-place negation, the exchange, the engine, the
run, the handles, the name collector and the engine's pool are classes or
in-place methods, each proved against a specification function or a direct
statement of its effect. Concurrent components are state machines whose steps are
single actions of one thread; a statement about reachable states is one about
every interleaving. The engine is an arbitrary strategy: what it draws, whether it
fails, which group or rule it hands out and when it stops are parameters or
unconstrained steps, limited to what its interface promises (values within the
bounds, rules of the current group, fresh ids, live ids). Test bodies, clones,
invariants and the spelling of paths are parameters too. Unicode data ranges and
decompositions are as in sections 4.2.3 and 5.7.3 of UAX #44.

## Model

| member | source | states |
|---|---|---|
| DebugRoundTrip.PrintingKeepsEveryCharacter | src/pretty.rs:584-817 | for every string, what is printed for it renders flat as that very string, whether it was parsed into groups or printed verbatim |
| DebugRoundTrip.ItemKeepsText | src/pretty.rs:657-682 | wherever parsing an item stops, the nodes it built render as the nodes and text it began with followed by exactly the characters it consumed |
| DebugRoundTrip.GroupKeepsText | src/pretty.rs:685-731 | a parsed group renders as its prefix, the space a brace drops, and exactly the characters consumed, trailing commas and empty groups included |
| DebugRoundTrip.ItemsKeepText | src/pretty.rs:700-723 | the items of a group with the separators between them and the closing delimiter render as the characters consumed |
| DebugRoundTrip.FlatTextOps | src/pretty.rs:372-384 | splitting a text at its newlines into texts and hard breaks loses nothing |
| DebugLayout.LayoutsDifferOnlyAtBreaks | src/pretty.rs:569-589 | however the break points of an accepted string are broken, the layout is the same pieces of text with only white space between them; unbroken it is the string itself; no emitted text holds a newline |
| DebugLayout.PrintingIsBalanced | src/pretty.rs:785-817 | for every string, each group opened is closed and none is closed that was not open |
| DebugLayout.AcceptedTreesAreShallow | src/pretty.rs:616-621 | no accepted string has groups nested more than 64 deep |
| DebugLayout.ItemNesting | src/pretty.rs:657-731 | the parser's depth counts the open groups: what it has built never nests deeper than the depth left |
| DebugLayout.LayoutIsWeave | src/pretty.rs:389-415 | a layout is the texts between break points woven with what the breaks render as |
| DebugLayout.IndentationFollowsGroups | src/pretty.rs:394-415 | a new line inside a group is indented by what the group adds to the indentation outside it, and closed groups count no more |
| DebugGrammar.DerivedDebugParses | src/pretty.rs:569-577 | the derived text of a value parses into exactly the value's tree if it nests at most 64 groups deep, and is rejected otherwise |
| DebugGrammar.GroupsMatchChildren | src/pretty.rs:684-731 | the outermost collection of a value is read as one group whose items are, in order, those of its children; the group is named exactly for structs with fields |
| DebugGrammar.EveryGroupMatches | src/pretty.rs:657-781 | the groups of the parsed tree, however deep, are exactly the collections of the value, in order, each with its name, or for a map or a set the label before it, and one item per child |
| DebugGrammar.MapFieldItem | src/pretty.rs:759-781 | parsing a struct whose field holds a map or a set gives, as that field's item, a single group that takes the label as its prefix and has one item per entry |
| DebugParser.DebugRepr.ParseItem | src/pretty.rs:657-682 | returns the nodes of, and advances over, exactly the item that the specification reads at the position |
| DebugParser.DebugRepr.ParseGroup | src/pretty.rs:685-731 | same for a group, with the depth restored on success |
| DebugParser.DebugRepr.ParseItems | src/pretty.rs:700-723 | same for the items of a group up to its closing delimiter |
| DebugParser.DebugRepr.LexQuoted | src/pretty.rs:736-749 | consumes a literal up to the first unescaped closing quote, or fails where there is none |
| DebugParser.TakeGroupPrefix | src/pretty.rs:763-781 | splits the accumulated text into what stays and the prefix glued to the delimiter |
| DebugParser.RFindSpace | src/pretty.rs:768-776 | one past the last space, zero without one |
| DebugParser.FlushText | src/pretty.rs:753-757 | a non-empty text becomes one more leaf and is emptied |
| DebugParser.ParseRepr | src/pretty.rs:624-638 | accepts exactly single-line strings that parse to their end |
| DebugPrinter.PrettyPrinter.Write | src/pretty.rs:372-384 | writes a text as its lines with hard breaks between them, leaving out empty ones |
| DebugPrinter.PrettyPrinter.EmitDebugNodes | src/pretty.rs:785-817 | appends exactly the operations of the nodes to the document |
| DebugPrinter.PrettyPrinter.PrintDebugRepr | src/pretty.rs:584-589 | appends the operations of the tree, or of the verbatim text where there is none |
| DebugOutline.PrintedAsTheValue | src/pretty.rs:569-589 | a derived representation is printed with one group for each collection of the value, in order: indented by 4 for a struct with fields and by 1 otherwise, opened by its name or label and delimiter, with a break point of its own between each two children and one before a struct's first field, and closed to match; past 64 levels it is printed verbatim, with no group |
| DebugOutline.PrintedAsRead | src/pretty.rs:785-817 | the same of the groups of the tree that any string is read as, and no group for a string that is not accepted; every break point follows a comma, or opens a struct, and shows as one space |
| DebugOutline.ItemSound | src/pretty.rs:684-699 | whatever is read, groups have one of the three open delimiters, and only braces after a name are a struct's |
| TwosComplement.BetweenBounds | hegel-c/src/lib.rs:3041-3060 | a value between two encoded bounds fits in the longer of the two encodings, minimal or not |
| TwosComplement.SignExtension | hegel-c/src/lib.rs:3061-3072 | appending any number of sign bytes keeps the value |
| TwosComplement.MinimalIsShortest | hegel-c/src/native/bignum.rs:111-113 | an encoding is minimal exactly when no other non-empty encoding of its value is shorter |
| TwosComplement.NegateInPlace | hegel-c/src/native/bignum.rs:177-184 | complement and carry negate in place modulo the buffer's width |
| TwosComplement.ToSignedBytes | hegel-c/src/native/bignum.rs:114-133 | the bytes decode to the value and are minimal |
| TwosComplement.FromSignedBytes | hegel-c/src/native/bignum.rs:137-150 | decodes any encoding, the empty one as zero |
| TwosComplement.NegativeIsMinimal | hegel-c/src/native/bignum.rs:123-131 | a negated value without redundant sign bytes is minimal |
| TwosComplement.PositiveIsMinimal | hegel-c/src/native/bignum.rs:119-122 | a magnitude with at most one added zero byte is minimal |
| WideInteger.GenerateIntegerBig | hegel-c/src/lib.rs:3004-3076 | refused by the handle's check, by null arguments and by empty bounds; otherwise succeeds exactly when the drawn value fits the buffer, always when both bounds do; then the minimal prefix and the whole filled buffer both decode to the value; on failure the buffer and the length are untouched |
| WideInteger.WidthOfI128 | src/generators/numeric.rs:18-20 | the values with sixteen-byte encodings are exactly those of the two 128-bit types |
| WideInteger.Le17Encodes | src/generators/numeric.rs:40-46 | seventeen bytes encode every i128 and every u128 |
| WideInteger.Le17Decodes | src/generators/numeric.rs:47-49 | the low sixteen of seventeen bytes give such a value back |
| WideInteger.DrawWide | src/ffi.rs:448-472 | a draw over any i128 or any u128 range returns the engine's value: the buffer is never too small |
| WideInteger.SixteenBytesAreTooFew | src/ffi.rs:443-447 | the seventeenth byte is needed: the largest u128 does not fit sixteen |
| WorkerEvents.Classify | src/stateful.rs:880-897 | a failed assumption is ferried as invalid, exhausted data as an overrun, a panic with its capture, and any other control payload as it is |
| WorkerEvents.RunWorkerRound | src/stateful.rs:905-958 | the event is that of the first pull that ends the round, and there is none while no pull has; a rule's own failed assumption never ends it |
| WorkerEvents.ResolveRound | src/stateful.rs:1182-1253 | resolves the events as the accumulated control payload, flags and panics say |
| WorkerEvents.Precedence | src/stateful.rs:1169-1253 | continues exactly when all workers finished; the first control payload or death wins, then overrun, then invalid, then the lowest worker's panic with its capture |
| WorkerEvents.DroppedPanicsAreNoted | src/stateful.rs:1219-1252 | unless a control payload wins, each panic not raised is noted exactly once, in worker order, with what the worker captured |
| WorkerEvents.PanicsAreOrdered | src/stateful.rs:1189-1208 | the collected panics are the panicked workers, lowest first |
| WorkerEvents.ContinueMeansDone | src/stateful.rs:1182-1253 | the main thread goes on exactly when every event is a finished round |
| WorkerEvents.AssignGroups | src/stateful.rs:1077-1088 | two rules get the same group index exactly when their group names are equal; names are distinct and used |
| ConcurrentRounds.RoundsSendTheirEnding | src/stateful.rs:905-958 | the event a worker comes to send is the one that the pulls of its round end with |
| ConcurrentRounds.RoundAgrees | src/stateful.rs:905-958 | the loop of a worker's round returns the event that its steps come to send |
| ConcurrentRounds.RunKeepsInv | src/stateful.rs:1116-1166 | along every interleaving each worker and its channels are where the main thread's progress says |
| ConcurrentRounds.MainIsAlone | src/stateful.rs:1137-1165 | whenever a group is chosen or invariants are checked, every worker is parked, every channel is empty, and every worker has reported once per round |
| ConcurrentRounds.GroupsNeverOverlap | src/stateful.rs:1001-1006 | rules in execution at one time have the same group name and run on the clone made for the current round |
| ConcurrentRounds.OneEventPerRound | src/stateful.rs:980-998 | a channel pair holds at most one item; a worker has reported once for every round it took, except one it is on or was stopped in |
| ConcurrentRounds.OnlyFinishedRoundsAreChecked | src/stateful.rs:1152-1159 | after collecting, invariants are checked exactly if every event is a finished round; a worker is found dead exactly if it has exited |
| ConcurrentRounds.NeverStuck | src/stateful.rs:1116-1166 | until the test case is over some thread can move, even if the engine hands out nothing more |
| ConcurrentRounds.ExecutionsAreBounded | src/stateful.rs:1137-1166 | an execution is at most linear in the groups chosen and the rules handed out |
| ConcurrentRounds.LeavingJoinsEveryWorker | src/stateful.rs:973-979 | once the main thread leaves, by return or unwind, no round starts again, the rest is bounded, and it can only stop with every worker gone |
| RoundOutcomes.EventsAreEarned | src/stateful.rs:980-998 | what the main thread collects from a worker is the event that the worker's own steps since it took the round end with, or its death exactly if it is gone |
| RoundOutcomes.CheckedIffEveryRoundEnded | src/stateful.rs:1152-1159 | invariants follow a round exactly when every worker is alive and its last step of the round was to find no more rules |
| RoundOutcomes.PanickedRoundsAreNotChecked | src/stateful.rs:1169-1253 | a round in which a rule panicked hands on that panic, or the worker's death, and is never checked |
| RoundOutcomes.EveryRoundIsChecked | src/stateful.rs:1138-1165 | unless the main thread itself unwinds, each round is followed by one check before the next; it leaves once the engine has no more groups and the final state is checked, or from a round it did not check |
| ConcurrentPool.InterleavingsAreSequential | src/stateful.rs:386-501 | in every interleaving no unwrap or assertion fails, one thread at a time is in the lock, the completed operations are a history of a sequential pool, and with the lock free the map's keys are the engine's live ids |
| ConcurrentPool.HistoriesConserve | src/stateful.rs:377-380 | in a sequential history what was added is what is present together with what was consumed, and nothing is consumed twice |
| ConcurrentPool.NothingIsLostOrDuplicated | src/stateful.rs:377-380 | so it is in every interleaving |
| PoolCalls.CallsDoWhatTheyBegan | src/stateful.rs:414-501 | in every interleaving an addition registers its own value, a reusable draw copies one and leaves it, and a consuming draw takes one away from the map and the live ids; refused calls and panicking clones change nothing |
| PoolCalls.ThreadsKeepTheirOps | src/stateful.rs:414-501 | wherever a thread stands in an operation, it is the one it began last |
| PoolCalls.TakenIsGone | src/stateful.rs:377-380 | a taken value is in the pool no more, and no later draw gets its id |
| VariablePool.SmallestUnusedId | hegel-c/src/native/core/state.rs:1097-1108 | the least natural number not in use |
| VariablePool.DrawFreshId | hegel-c/src/native/core/state.rs:2079-2113 | unless the draw is refused, an id not in use and inside the recorded window, now registered: the recorded one if it qualifies, the least unused one otherwise |
| VariablePool.LeastUnusedFits | hegel-c/src/native/core/state.rs:2063-2077 | the window admits the fallback with one identifier to spare |
| VariablePool.ChooseMember | hegel-c/src/native/core/state.rs:2168-2173 | the recorded member if present, else the largest below it, else the smallest |
| VariablePool.DrawFromSet | hegel-c/src/native/core/state.rs:2131-2173 | sorts the members; a recorded value inside the window is repaired to a member, any other falls back to the smallest, a fresh choice is any member |
| VariablePool.Pool.Add | hegel-c/src/native/core/state.rs:1125-1127 | appends the id to the contents, and adds it to the live ids |
| VariablePool.Pool.Active | hegel-c/src/native/core/state.rs:1130-1136 | lists the contents in order |
| VariablePool.Pool.Consume | hegel-c/src/native/core/state.rs:1139-1149 | removes exactly that id from the contents and the live ids, dropping consumed ids at the end |
| VariablePool.EmptyPoolsAreSmall | hegel-c/src/native/core/state.rs:1138-1149 | a pool holds no memory of consumed ids once all are |
| VariablePool.Pool.Generate | hegel-c/src/native/data_source.rs:389-405 | an empty pool rejects the draw; otherwise a member is drawn, the recorded one repaired or else the smallest unless the choice is fresh, and removed exactly when it is consumed |
| ConcurrentPool.EngineAdds | hegel-c/src/native/data_source.rs:381-387 | registering a value is one of the engine steps of the interleaving model, on the pool and the registry it describes: an id not used before joins the live ones |
| ConcurrentPool.EngineDraws | hegel-c/src/native/data_source.rs:389-405 | so is drawing an id, which leaves the live ids when it is consumed and only then |
| RunProtocol.CaseExchange.Take | hegel-c/src/exchange.rs:54-64 | hands the offered case over and empties the slot |
| RunProtocol.Offer.Poll | hegel-c/src/exchange.rs:73-93 | hands the case over and is pending the first time, ready the next |
| RunProtocol.DataSource.Conclude | hegel-c/src/native/core/state.rs:1479-1487 | the first conclusion of a case, by a draw or a report, stands |
| RunProtocol.Engine.Poll | hegel-c/src/lib.rs:1283-1290 | resumed, the engine learns the conclusion of the case it awaited and offers a fresh one, stalls or returns |
| RunProtocol.Family.Complete | hegel-c/src/lib.rs:540-549 | the first caller's outcome is the one reported |
| RunProtocol.TestCase.MarkComplete | hegel-c/src/lib.rs:4913-4969 | completes the family unless this handle already has, or the status or origin is bad, which are errors that change nothing |
| RunProtocol.HegelRun.NextTestCase | hegel-c/src/lib.rs:1221-1281 | refuses an incomplete outstanding case and changes nothing; otherwise hands over exactly the case the engine offers, or records the result and lets the engine go; a finished run stays as it is; the slot is empty again |
| RunProtocol.HegelRun.Result | hegel-c/src/lib.rs:1302-1327 | a result exactly when the engine is gone |
| RunProtocol.HegelRun.Free | hegel-c/src/lib.rs:1359-1383 | an outstanding incomplete case is concluded as valid, a complete one left as it is |
| RunProtocol.RunTestCase | src/run_lifecycle.rs:277-385 | a return or the end of a loop is reported as valid, a failed assumption as invalid, exhausted data as an overrun, and a panic as interesting at its location and handed on; a usage or internal error leaves the case open and is raised as its message; a conclusion a draw reached stands |
| RunProtocol.Pump | src/run_lifecycle.rs:529-556 | hands over each case knowing the conclusions of all before it and reports each as its body ended; it is never refused for an incomplete case |
| RunProtocol.Drive | src/run_lifecycle.rs:507-627 | every case is reported once, as its body ended, an abandoned run's last one as valid; an engine that stalls, an error, a nondeterministic and a deterministic failure each raise what they should, and the run passes exactly when there is none |
| RunProtocol.StashIsLastFailure | src/run_lifecycle.rs:542-555 | the stash holds the panic of the last case that failed |
| RunProtocol.DiscoveryRaisesItsPanic | src/run_lifecycle.rs:451-465 | if the engine reports a nondeterministic failure only after reading some case as failing, the run raises the panic of the last case that failed and never lacks one |
| RunProtocol.ReplayFailures | src/run_lifecycle.rs:581-625 | the first counterexample that does not fail again, one without a blob or with one that does not decode included, decides what is raised; a single one that does raises its own panic, and several the number of them |
| RunProtocol.Conclude | src/run_lifecycle.rs:558-627 | passing, error, nondeterministic and deterministic failure, one counterexample or several, each raise what they should |
| HandleProtocol.FirstClaimIsTheOnlyReport | hegel-c/src/lib.rs:535-549 | over every sequence of calls on any handles, a family is reported at most once, with the outcome of whoever set its flag first, and is complete yet unreported exactly while that thread is between the two |
| HandleProtocol.DecisionsStand | hegel-c/src/lib.rs:516-521 | completion, its winner, its report and the case's conclusion are never undone |
| HandleProtocol.OneOperationPerHandle | hegel-c/src/lib.rs:1598-1639 | at most one thread holds a handle's lock, completing included |
| HandleProtocol.CompleteFamiliesAdmitNothing | hegel-c/src/lib.rs:1607-1618 | once a family is complete no further guarded operation gets past the check on any handle, later clones included |
| HandleProtocol.ResumedTooSoon | hegel-c/src/lib.rs:1237-1260 | resumed on a completed case, the engine finds no conclusion exactly when some thread has set the flag and not yet reported and no draw has concluded the case; otherwise it reads the first conclusion, a draw's or the winner's |
| HandleProtocol.ResumedBeforeTheReport | hegel-c/src/lib.rs:540-549 | when flag and report are two steps, the engine can be resumed on a case without a conclusion |
| HandleProtocol.NeverResumedTooSoon | hegel-c/src/lib.rs:540-549 | when the report follows the flag at once, it never is |
| HandleProtocol.FinishedRunsStayFinished | hegel-c/src/lib.rs:1237-1279 | an outstanding case means a live engine; without one nothing more is handed out |
| HandleProtocol.FreedCasesAreValid | hegel-c/src/lib.rs:1367-1382 | in any execution after a run is freed, the case that was open is reported as nothing but valid, by the freeing thread |
| HandleProtocol.CompleteAtOnce | hegel-c/src/lib.rs:540-549 | completing a family in one step is setting the flag and then reporting |
| HandleOrigins.ReportedAsAsked | hegel-c/src/lib.rs:4913-4969 | over every sequence of calls, what is reported of a case is what the step that decided it asked for: the outcome of the deciding thread's own call to complete a handle of that case, or valid if freeing the run decided it |
| HandleOrigins.ConcludedAsFound | hegel-c/src/native/core/state.rs:1479-1487 | what the engine reads off a case is what came first: the outcome so reported, or what a draw made on one of its handles found |
| HandleOrigins.NewHandlesBelong | hegel-c/src/lib.rs:1221-1281 | a handle is new with the case just handed out, or by cloning a handle of its family, and is open |
| DrawUses.DrawNameCollector.Visit | hegel-macros/src/common.rs:134-160 | the flags gathered are those of the draws that a `let` names, in visiting order, at their block depth |
| DrawUses.FlagsMean | hegel-macros/src/common.rs:152-158 | a name is flagged repeatable exactly when more than one `let` draws it or one does inside a block or closure |
| DrawUses.RewriteDraws | hegel-macros/src/common.rs:221-250 | collects, then names the draws, then labels the targets |
| DrawUses.UsesAreMarked | hegel-macros/src/common.rs:168-199 | every draw of a body, bound or not, stays where it is; those a `let` names are marked, no other changes |
| DrawUses.MarksAreJustified | hegel-macros/src/common.rs:201-250 | a draw is marked non-repeatable exactly when rewriting is not forced and one `let` draws its name, outside every block and closure; so all of one name agree, and no other draw changes |
| DrawForms.LetsAreNamed | hegel-macros/src/common.rs:168-199 | `let x = tc.draw(g)`, with or without a type, becomes `let x = tc.__draw_named(g, "x", flag)`, its else branch kept; under any other pattern the draw stays as it is |
| DrawForms.TargetsAreLabelled | hegel-macros/src/common.rs:256-282 | `tc.target(e)` becomes `tc.target_labelled(e, "e")` |
| DrawForms.PlacesMean | hegel-macros/src/common.rs:134-149 | draws in a block or a closure count as nested, those of a nested function do not count |
| DrawForms.LetsSpeak | hegel-macros/src/common.rs:104-125 | a `let` of one identifier, typed or not, is what draws under that name |
| DrawForms.CallsDraw | src/test_case.rs:493-516 | every other draw on the test case counts with the name and flag it spells out |
| DrawScope.DrawnAtMostOnce | hegel-macros/src/common.rs:201-209 | a name marked non-repeatable is drawn at most once in every execution of the body exactly when the body draws it by no other route |
| DrawScope.DrawState.Allocate | src/test_case.rs:929-966 | refuses a draw exactly when its name was drawn before and not both draws are repeatable |
| DrawScope.RefusedIffClash | src/test_case.rs:931-966 | some execution of a body is refused exactly when two of its draws can record one name, not both repeatable |
| DrawScope.RefusedIffOtherRoute | hegel-macros/src/common.rs:201-209 | some execution of the rewritten body is refused exactly when a name marked non-repeatable is also drawn by another route, or flags the body spells out clash anyway |
| DrawScope.UnboundDrawClashes | src/test_case.rs:493-495 | `let draw = tc.draw(g); let (a, b) = tc.draw(g);` has an execution that is refused |
| DrawScope.NamedDrawClashes | src/test_case.rs:514-516 | so has `let key = tc.draw(g); tc.draw_named("key", g);` |
| DrawScope.BodyLetsOnce | hegel-macros/src/common.rs:134-149 | in a well-formed body a `let` outside every block and closure is drawn at most once each time the body runs |
| DrawUses.ErasingRestores | hegel-macros/src/common.rs:168-282 | erasing the added names, flags and labels gives back the body exactly when it held nothing that looks already added |
| DrawUses.ErasingLosesOlderLabels | hegel-macros/src/common.rs:256-282 | a body that already labels a target does not come back |
| DrawUses.RewritingIsIdempotent | hegel-macros/src/common.rs:168-282 | rewriting twice is rewriting once |
| DrawNaming.WalkFixes | hegel-macros/src/common.rs:168-282 | a pass leaves a tree alone exactly when it finds nothing to change |
| UnicodeTables.BuildRanges | scripts/generate_unicodedata_tables.py:117-134 | contiguous runs from 0 to the bound, each uniform, adjacent ones different |
| UnicodeTables.TilingIsUnique | scripts/generate_unicodedata_tables.py:117-121 | those runs are the only ones with that property |
| UnicodeTables.CategoryLookup | hegel-c/src/unicodedata/mod.rs:204-216 | the category at the first end not below the codepoint |
| UnicodeTables.BuildAndLookup | hegel-c/src/unicodedata/mod.rs:187-195 | building the table and looking a codepoint up gives its entry, or unassigned |
| UnicodeTables.ResolveAll | scripts/generate_unicodedata_tables.py:103-114 | an entry for each decomposable codepoint whose walk ends elsewhere |
| UnicodeTables.ChainsResolveToTheirEnd | scripts/generate_unicodedata_tables.py:86-89 | a chain that has an end resolves to it, whatever cycles there are elsewhere |
| UnicodeTables.EntryUnlessOnCycle | scripts/generate_unicodedata_tables.py:103-114 | a codepoint gets an entry exactly when it decomposes and is not on a cycle |
| UnicodeTables.AcyclicChainsResolve | scripts/generate_unicodedata_tables.py:86-89 | without cycles every decomposable codepoint gets its chain's fixed point |
| LcovMerge.MergeCounts | scripts/check-coverage.py:394-412 | holds the greatest count, and zero at least, of every line some input mentions |
| LcovMerge.Emit | scripts/check-coverage.py:423-433 | writes each line of the merged counts exactly once under its source |
| LcovMerge.ParseLcov | scripts/check-coverage.py:610-649 | reports exactly the readable zero counts as uncovered and the others as covered |
| LcovMerge.HitsMean | scripts/check-coverage.py:610-649 | a count belongs to the source that its record named last, whatever other lines stand between |
| LcovMerge.MergeAndParse | scripts/check-coverage.py:580-588 | a place is reported uncovered exactly when some name of its file mentions the line and no count under that name is positive |
| LcovMerge.BestIgnoresOrder | scripts/check-coverage.py:377-384 | neither the order nor the repetition of inputs matters |
| LcovMerge.MergingIsUnion | scripts/check-coverage.py:377-384 | merging a merged report with others is merging all of them |
| LcovMerge.UnionHoldsIffOneNameEach | scripts/check-coverage.py:377-384 | for inputs using given names, a file's line is reported uncovered exactly when no input covers it, for every input and line, if and only if no two of the names are read as one path |
| LcovMerge.OneNameSuffices | scripts/check-coverage.py:377-384 | with one name for each file the union holds of files |
| LcovMerge.TwoNamesMislead | scripts/check-coverage.py:580-640 | merging two reports that name one file in two ways and reading the result lists a covered line as uncovered as well |

## Left out

- DrawUses.RewriteDraws: the syntax tree is rewritten as a value, so aliasing
  and the in-place visitors' intermediate states are not captured; spans and
  attributes, and tokens inside macro calls, are not represented.
- DrawScope.RefusedIffOtherRoute: code outside blocks, closures and `while` conditions
  runs at most once and in order, anything else any number of times; draws made
  through clones and helpers are a given set of names, a draw inside another one,
  which records nothing, is left to that freedom.
- DrawScope.DrawState.Allocate: the numbering of displayed names is left out.
- RunProtocol.Drive: output, backtraces and what a reproduce blob encodes are
  left out; decoding one succeeds or not.
- RunProtocol.ReplayFailures: messages leave out the bug-report framing and source
  location of internal errors, and the rest of the advice on flaky tests.
- HandleProtocol.FirstClaimIsTheOnlyReport: a handle is freed only while no thread
  uses it, as the interface demands; use after free is outside the model.
- WorkerEvents.Classify: the payloads that recursive generation raises and catches
  itself are not among the payloads.
- ConcurrentRounds.GroupsNeverOverlap: that the engine hands out rules of the
  current group only is taken from its interface, not proved.
- LcovMerge.MergeCounts: function records are not merged, text is taken as already
  split into lines with integer fields, and missing files count as empty.
- LcovMerge.Emit: the order of sources and lines is left open rather than sorted.
- UnicodeTables.ResolveAll: reading the fields of UnicodeData.txt is not modelled,
  nor is the expansion of its First and Last records.
- The discarding printer, speculation and comments of the pretty printer, and the
  engine's own layout decisions; any choice of breaks is covered instead.
- The sequential stateful runner and the single-threaded pool: the concurrent ones
  hold the harder statements.
- Trimming of backtraces, thread-local capture slots, and verbosity.
- Shrinking, targeting, the database and random distributions.
- The test-only driver of the exchange; the loop over the C interface stands for
  it.
