# Agent hub core: a verified model

This project models the three stateful cores of the agent hub and proves what
they are meant to keep:

* the **flow interpreter** (`internal/flow`): the condition language, graph
  validation, breadth-first execution and the undo log;
* the **task orchestrator** (`internal/orchestrator`): decomposition of a task
  over agents, and the bounded worker pool that runs the subtasks;
* two **shared structures**: the tenant-indexed message hub (`internal/ws`) and
  the dashboard's sample history (`internal/api/dashboard_history.go`).

`dafny verify dfyconfig.toml` checks everything.

## How it is laid out

| files | what they hold |
|---|---|
| `Values`, `Tokens` | dynamic values, truthiness, comparison; tokens and outcomes |
| `Grammar`, `Spelling` | expression trees, how they are spelt, what they mean |
| `CursorSpec`, `CursorParser` | the cursor machine as functions, and the parser object proved against them |
| `CursorProofs`, `CursorBounds` | the machine computes the meaning; exactly when it stays in bounds |
| `CursorAcceptance` | exactly which accepted inputs are grammatical |
| `Lexer`, `SourceText`, `Expressions` | the lexer; exactly which texts lex and to what; source text to meaning |
| `Answers` | what conditions answer, from source text to value, spelt out |
| `Sequences`, `Graph` | duplicate-free sequences; flow validation and Kahn's algorithm |
| `Rollback` | the side-effect store and the undo log |
| `Interleaving`, `Settling`, `Commuting` | store steps of several runs interleaving; how such schedules end; when they commute |
| `Catalog`, `Nodes` | agents, skills and servers; what one node does |
| `Traversal`, `Engine`, `FaultyFlow` | breadth-first search over live edges, the engine, a flow that faults |
| `EngineTurns`, `ConcurrentRuns` | flow runs taking turns on one store, as a machine; what they do to one another |
| `Sorting`, `Decomposer` | stable sorting; a task text to ordered subtasks |
| `WorkerPool`, `Distribution` | the pool as a state machine; one subtask, the summary, whole distributions |
| `Rooms`, `MessageHub`, `HubRuns` | the tenants' rooms; the hub's objects; the hub as a state machine over whole runs |
| `RingBuffer` | the sample history |

Code that updates fields or arrays is a class or a method over an array with a
`modifies` clause, proved against a function of the old state; the theorems are
then about that function. Goroutines, lock scopes and cancellation are steps of
a state machine, so a statement about all event sequences is one about all
interleavings.

An index out of range in the cursor parser is an outcome of its own, `Panic`,
rather than a precondition, so the parser's lemmas say when it cannot happen. A
flow run that meets one ends `Faulted`.

The functions the program and its theorems share are themselves pinned: lemmas
named `…Exactly`, and the module `Answers`, say what each of them comes to on the
fields, characters and numbers involved, without naming it.

The outside world is a parameter: tool calls answer through a function of how
many calls came before (so the same call may answer differently), agents and
servers are read-only maps, how digits are read is a partial function, and
cancellation is an event that may come at any point.

## What turned out not to hold

* Undoing an effect deletes the key when the prior value is nil, although the
  record is said to restore it. So a rolled-back run leaves the store exactly
  as it was **if and only if** it touched no entry holding nil
  (`Engine.FailedRunIsAtomic`, `Rollback.RollbackIsInvisible`); every key still
  reads as before.
* `.length` yields a machine integer and truthiness only tests JSON numbers, so
  a zero length is truthy. Equal values are equally truthy except for that
  (`Values.EqualValuesEquallyTruthy`).
* Skipping a short-circuited operand can run past the last token: `true || (`
  and `true || x.` fault (`CursorBounds.UnclosedTailsPanic`). A text faults **if
  and only if** a short circuit it takes skips a chain with an operand whose own
  bracket is never closed or whose field dots run out into EOF
  (`Expressions.EvalPanicsExactly`), and a flow run if and only if it comes to
  such a condition (`Engine.FaultsExactly`). The fault leaves the
  effects applied so far in place, because nothing undoes them
  (`FaultyFlow.FaultLeavesEffect`).
* The parser accepts some texts outside the grammar, such as `true ||`
  (`CursorBounds.TruncatedInputAccepted`). An accepted text is grammatical **if
  and only if** every run of tokens that a taken short circuit skipped spells a
  chain of operands (`CursorAcceptance.GrammaticalExactly`); without `&&` and
  `||` acceptance and grammar agree
  (`CursorAcceptance.AcceptedExactlyWithoutOperators`).
* A decomposition ignores the order of the agents **if and only if** agents that
  tie on score and id would get the same subtask
  (`Decomposer.CanonicalExactlyWhen`); distinct ids are enough.
* The engine is documented to share no mutable state between executions
  (`internal/flow/engine.go:13-15`), yet all of them write to one side-effect
  store. No run reads it, so in whatever order runs take turns, company changes
  nothing of a run's visits, result and log
  (`ConcurrentRuns.CompanyIsInvisible`), none can hold another up
  (`EngineTurns.RunsReturn`), and runs on different keys commute
  (`ConcurrentRuns.ReturnedRunsAgree`). But an undo record holds what its key
  read when it was made, so runs that overlap on a key can undo each other's
  writes.
    * A run can roll back at any moment without a trace **if and only if** every
      step of the others is harmless to it (`Interleaving.TracelessExactly`);
      runs that share a key one after another are.
    * A roll-back takes a key it holds back to what it read before the run. At
      the moment the run lets go, the overlap is visible **if and only if** the
      other runs alone would by then have changed the key
      (`Interleaving.OverlapVisibleExactly`).
    * Where runs cross, a rolled-back write can come back for good after every
      run has rolled back (`Settling.CrossingRunsResurrect`). Once all have, a
      key reads as at the start **if and only if** no run wrote it or the effect
      undone last on it was applied when it read its starting value
      (`Settling.SettledKeyExactly`); it is enough that the run that took hold of
      the key first lets go last (`Settling.FirstTakenLastReleased`).

## Model

| member | source | states |
|---|---|---|
| Values.ComparisonsCohere | internal/flow/expr.go:449-496 | the six comparison operators agree: `==` and `!=` always defined and opposite, the four orderings defined on the same pairs, mirrored forms equal, each negated form the negation, equality exactly "neither below nor above" |
| Values.EqualValuesEquallyTruthy | internal/flow/expr.go:435-447 | two equal values are equally truthy if and only if neither is the integer zero of `.length` set against a value that is not an integer |
| Values.StringLessTrichotomy | internal/flow/expr.go:484-496 | byte-wise string order is total and strict |
| Values.StringLessTransitive | internal/flow/expr.go:484-496 | and transitive |
| Values.StringLessExactly | internal/flow/expr.go:484-496 | a string is below another if and only if the first character in which they differ is smaller, or it is a proper prefix |
| CursorParser.Parser.Next | internal/flow/expr.go:197-201 | takes the current token and moves past it; past the end it is an overrun |
| CursorParser.Parser.ParseOr | internal/flow/expr.go:203-226 | outcome and final cursor are those of the cursor machine's disjunction, short-circuit included |
| CursorParser.Parser.ParseAnd | internal/flow/expr.go:228-251 | the same for conjunctions |
| CursorParser.Parser.ParseUnary | internal/flow/expr.go:318-328 | the same for negations |
| CursorParser.Parser.ParseComparison | internal/flow/expr.go:330-345 | the same for comparisons |
| CursorParser.Parser.ParsePrimary | internal/flow/expr.go:347-378 | the same for literals, brackets and variables |
| CursorParser.Parser.ParseFieldAccess | internal/flow/expr.go:380-394 | the same for field chains, an unknown variable being an error |
| CursorParser.Parser.SkipAnd | internal/flow/expr.go:255-261 | the cursor ends where the machine's skip of an operand ends, or overruns with it |
| CursorParser.Parser.SkipUnary | internal/flow/expr.go:265-276 | the same below conjunctions |
| CursorParser.Parser.SkipPrimary | internal/flow/expr.go:280-308 | the same for one operand, the bracket-depth loop and the dot loop included |
| CursorParser.EvalTokens | internal/flow/expr.go:46-60 | evaluating a token sequence, trailing tokens being an error |
| CursorProofs.OrAdequate | internal/flow/expr.go:203-394 | interpreter adequacy inside any token sequence: where a tree is spelt and a token that cannot continue it follows, parsing gives exactly the tree's short-circuit meaning, value or error, and on a value stops at its end |
| CursorProofs.EvalTokensAdequate | internal/flow/expr.go:46-60 | on the tokens of any tree the result is its meaning, for all variables |
| CursorProofs.SkipPrimaryAgrees | internal/flow/expr.go:278-308 | skipping a literal, field chain or bracketed expression of any depth stays in bounds and lands where parsing it lands |
| CursorProofs.SkipUnaryAgrees | internal/flow/expr.go:263-276 | the same for a negated or compared operand |
| CursorProofs.SkipAndAgrees | internal/flow/expr.go:253-261 | the same for a conjunction |
| CursorProofs.PassOr | internal/flow/expr.go:283-297 | the bracket loop passes over any balanced expression at any depth and arrives at its end |
| CursorProofs.ShortCircuitIgnoresOperands | internal/flow/expr.go:203-226 | what follows a truthy operand contributes neither value nor error |
| CursorProofs.ConjunctionIgnoresOperands | internal/flow/expr.go:228-251 | what follows a falsy operand and `&&` contributes neither value nor error |
| CursorBounds.SkipParensExact | internal/flow/expr.go:283-297 | the bracket loop stays in bounds if and only if some later token closes the open brackets |
| CursorBounds.SkipDotsExact | internal/flow/expr.go:303-306 | the field loop stays in bounds if and only if its dots do not run out into EOF |
| CursorBounds.SkipPrimaryExact | internal/flow/expr.go:280-308 | skipping one operand stays in bounds if and only if the bracket it opens is closed and its field dots do not run out |
| CursorBounds.SkipUnaryExact | internal/flow/expr.go:265-276 | skipping a negated or compared operand stays in bounds if and only if every operand in it closes |
| CursorBounds.SkipAndsExact | internal/flow/expr.go:237-240 | skipping the rest of an `&&` chain stays in bounds if and only if every operand in it closes |
| CursorBounds.SkipOrsExact | internal/flow/expr.go:212-215 | the same for the rest of an "or" chain |
| CursorBounds.PanicsExactly | internal/flow/expr.go:193-394 | evaluation overruns if and only if some short circuit it takes skips a chain in which an operand does not close |
| CursorBounds.ClosedNeverPanics | internal/flow/expr.go:193-394 | so no closed token sequence, grammatical or not, makes the cursor overrun, whatever the variables |
| CursorBounds.UnclosedTailsPanic | internal/flow/expr.go:280-308 | inputs that do overrun, one for each half of that condition |
| CursorBounds.TruncatedInputAccepted | internal/flow/expr.go:255-308 | an input that is accepted although no tree spells it |
| CursorAcceptance.OrFromTree | internal/flow/expr.go:203-394 | the converse of adequacy: where evaluation comes to a value and every run it skipped spells a chain, the tokens up to the cursor spell a tree |
| CursorAcceptance.OrShortsSpell | internal/flow/expr.go:255-308 | where a tree is spelt, every run that evaluating it skips spells a chain |
| CursorAcceptance.GrammaticalExactly | internal/flow/expr.go:46-60 | an accepted input is grammatical if and only if every run of tokens a taken short circuit skipped spells a chain of operands |
| CursorAcceptance.AcceptedExactlyWithoutOperators | internal/flow/expr.go:46-60 | with neither short-circuit operator in it, an input evaluates to a value if and only if it spells a tree whose meaning is a value |
| CursorAcceptance.AcceptedExactly | internal/flow/expr.go:46-60 | an input spells a tree whose meaning is a value if and only if it evaluates to a value and every skipped run spells a chain |
| CursorAcceptance.SkippedTailPanicsExactly | internal/flow/expr.go:203-226 | after a truthy operand and an "or", evaluation overruns if and only if some operand of the skipped chain does not close |
| Lexer.ScanString | internal/flow/expr.go:124-139 | the unescaped text of a quoted string and where it ends, or that it is unterminated |
| Lexer.ScanToken | internal/flow/expr.go:66-172 | the next token, blank or lexical error at a position |
| Lexer.Lex | internal/flow/expr.go:62-177 | all tokens of a text followed by EOF, or the first lexical error |
| SourceText.ScanExactly | internal/flow/expr.go:66-172 | the lexer finds a token at a position if and only if the source spells that token there, up to a character that would not extend it |
| SourceText.LexExactly | internal/flow/expr.go:62-177 | lexing both ways: a text lexes to some tokens if and only if it is white space and spellings of those tokens with white space wherever they would otherwise run together, and the tokens end in EOF |
| SourceText.QuotedSpells | internal/flow/expr.go:124-139 | every text can be written as a literal in either quotes, escaped |
| Expressions.EvalExpression | internal/flow/expr.go:46-60 | lexing then evaluating, with lexical errors passed on |
| Expressions.EvalIsMeaning | internal/flow/expr.go:46-60 | end to end: text spelling a tree, whatever its spacing, quoting and escapes, evaluates to the tree's meaning |
| Expressions.LexedIsRegular | internal/flow/expr.go:62-177 | a text that lexes gives tokens in the grammar's own form, with EOF at the end and nowhere else |
| Expressions.EvalPanicsExactly | internal/flow/expr.go:46-60 | any source text faults if and only if it lexes and some short circuit it takes skips a chain in which an operand does not close |
| Expressions.EvalPanicsOnlyOnUnclosed | internal/flow/expr.go:46-60 | so text whose tokens are closed gives a value or an error, whatever the variables |
| Expressions.AcceptedExactly | internal/flow/expr.go:46-60 | any source text, whether or not it lexes: it is a spelling of some tree with a value if and only if it evaluates to a value and every skipped run spells a chain; without short-circuit operators, if and only if it evaluates to a value |
| Expressions.UnclosedTextPanics | internal/flow/expr.go:280-308 | a source text that faults, for every binding |
| Answers.NumbersCompared | internal/flow/expr.go:449-482 | the text of two names with one of the six comparison signs between them, both bound to values that stand for numbers, answers exactly the comparison of those numbers |
| Answers.StringsCompared | internal/flow/expr.go:449-496 | the same for strings: the first differing character decides, a proper prefix being below |
| Answers.OthersCompared | internal/flow/expr.go:449-468 | any other two values are equal exactly if they are the same value, and ordering them is an error |
| Answers.NegatedText | internal/flow/expr.go:318-328 | `!` answers true exactly for null, false, the empty string and the number zero |
| Answers.ConjunctionText | internal/flow/expr.go:228-251 | `&&` answers its first operand if that is one of these and its second otherwise, an unbound second being an error only then |
| Answers.DisjunctionText | internal/flow/expr.go:203-226 | the "or" sign answers its first operand unless that is one of these and its second otherwise |
| Answers.ConjunctionBindsTighter | internal/flow/expr.go:203-251 | an "or" whose second operand is a conjunction answers that conjunction, not a conjunction of the "or" |
| Answers.NegationBindsLooser | internal/flow/expr.go:318-345 | `!x == y` negates the comparison |
| Answers.LiteralTexts | internal/flow/expr.go:350-366 | `true`, `false` and `null` answer themselves |
| Answers.NumberText | internal/flow/expr.go:350-366 | a numeral answers the number it reads as |
| Answers.StringText | internal/flow/expr.go:350-366 | a literal in either quotes answers its text |
| Answers.NameText | internal/flow/expr.go:380-394 | a bound name answers its value, an unbound one is an error |
| Answers.FieldText | internal/flow/expr.go:396-433 | one more field on any chain: `.length` answers the number of characters, items or entries and zero of anything else, any other field the entry or null |
| Answers.ThresholdText | internal/flow/expr.go:46-60 | `result.value > limit` answers exactly whether the number in that field is above the limit, for every number |
| Graph.CollectNodes | internal/flow/graph.go:107-125 | succeeds exactly if ids are non-empty and distinct, every node is valid and one is a trigger; otherwise names a defect that is present, and of the nodes the first that is bad and the first thing wrong with it |
| Graph.CollectEdges | internal/flow/graph.go:127-142 | succeeds exactly if no edge dangles, with edges grouped by source and counted by target |
| Graph.InitialQueue | internal/flow/graph.go:144-150 | the queue starts with exactly the nodes no edge enters |
| Graph.Relax | internal/flow/graph.go:157-162 | one node's edges are subtracted, parallel edges counted, and each node freed by the last of them is queued once |
| Graph.SortingStep | internal/flow/graph.go:152-163 | the loop invariant: every in-degree is the number of edges from nodes not yet dequeued |
| Graph.SortingDone | internal/flow/graph.go:143-168 | an exhausted queue leaves nodes over exactly if the graph is cyclic; otherwise the order is a topological permutation |
| Graph.StuckMeansCyclic | internal/flow/graph.go:164-166 | pigeonhole: nodes that each keep a predecessor among themselves contain a cycle |
| Graph.SortedMeansAcyclic | internal/flow/graph.go:143-168 | a topological order rules out every cycle, self-loops included |
| Graph.TopologicalSort | internal/flow/graph.go:143-168 | Kahn's loop ends with nothing remaining if and only if there is no cycle, with a topological permutation |
| Graph.BuildGraph | internal/flow/graph.go:98-169 | accepts if and only if the document is well structured and acyclic; the graph represents it; a rejection names a defect that is present, and a cycle exactly if that is the only one; every node of an accepted flow carries the fields its type needs, and a node reported invalid lacks them |
| Graph.ValidNodeExactly | internal/flow/graph.go:200-240 | a node is valid exactly if it is a trigger with one of the four ways to be started, an agent node with an agent, a tool node with a server and a tool, a condition with an expression, or an output node with one of the four kinds and a target |
| Graph.WellStructuredExactly | internal/flow/graph.go:98-142 | a document is well structured exactly if it has nodes, each with an id of its own and the fields its type needs, one of them a trigger, and edges only between them |
| Graph.RejectionsExactly | internal/flow/graph.go:98-142 | what each rejection says of the nodes and edges themselves: no node, an id that is empty or stands twice, so many triggers, an edge whose source or target no node is |
| Graph.FromInOrder | internal/flow/graph.go:141-141 | the edges kept for a node are exactly those that leave it, in declaration order |
| Graph.WithHandleInOrder | internal/flow/graph.go:180-188 | and those under a handle exactly the ones with that handle, in the same order |
| Graph.OutgoingEdges | internal/flow/graph.go:180-188 | a node's edges with the given handle, in declaration order |
| Graph.Trigger | internal/flow/graph.go:191-198 | finds a trigger if there is one |
| Graph.AcceptedHasUniqueTrigger | internal/flow/graph.go:123-125 | an accepted graph has exactly one |
| Rollback.MemorySideEffectStore.Apply | internal/flow/rollback.go:52-63 | writes the value and returns a record of what the key read before |
| Rollback.MemorySideEffectStore.Undo | internal/flow/rollback.go:66-77 | restores the prior value, deleting the key if it is nil, and logs the undo |
| Rollback.RollbackLog.Apply | internal/flow/rollback.go:108-115 | applies and remembers one effect |
| Rollback.RollbackLog.Rollback | internal/flow/rollback.go:118-127 | undoes all remembered effects last to first and forgets them |
| Rollback.UndoAllAt | internal/flow/rollback.go:118-127 | after a replay each key holds its first recorded prior value |
| Rollback.RollbackRestores | internal/flow/rollback.go:52-127 | applying any effects and rolling them back leaves every key reading as before |
| Rollback.RollbackIsInvisible | internal/flow/rollback.go:66-77 | and leaves the data identical if and only if no touched entry held nil |
| Rollback.RollbackDropsNilEntry | internal/flow/rollback.go:70-74 | the input that shows the difference: an entry holding nil disappears |
| Rollback.KeyInjective | internal/flow/rollback.go:47-49 | keys of the five colon-free kinds determine kind and target |
| Rollback.CellsAreSeparate | internal/flow/rollback.go:47-61 | effects on different kind and target never share a cell |
| Interleaving.OriginIsInitial | internal/flow/rollback.go:98-127 | at every point of any interleaving on disjoint keys, what a run would restore its keys to is their initial content |
| Interleaving.RollingBackNow | internal/flow/rollback.go:118-127 | rolling back after any schedule takes every key to what its first outstanding record remembers |
| Interleaving.TracelessExactly | internal/flow/rollback.go:36-127 | isolation exactly: a run could roll back at any moment of a schedule without a trace in the readings or in the other runs' logs if and only if each step of another run on a key it holds writes and records just what it would restore |
| Interleaving.RolledBackRunLeavesNoTrace | internal/flow/rollback.go:36-127 | for any interleaving in which no other run writes a key while the run has an outstanding record on it, a rolled-back run leaves every reading, and every other run's log, as if it had never run; keys may be shared one run after another |
| Interleaving.ApartRunIsRestored | internal/flow/rollback.go:36-127 | runs on disjoint keys are such an interleaving, and the rolled-back run's own keys read as they did at the start |
| Interleaving.HeldKeyIsRestored | internal/flow/rollback.go:66-127 | whatever other runs write to a key while a run holds it, the run's roll-back takes the key back to what it read before |
| Interleaving.OverlapVisibleExactly | internal/flow/rollback.go:66-127 | so at the moment the run lets go of a key, the overlap is visible there if and only if the other runs alone would by then have left the key changed |
| Interleaving.LoneRunIsRollback | internal/flow/rollback.go:98-127 | a run on its own, step by step, comes to what the roll-back log does in two calls |
| Settling.OutstandingMatches | internal/flow/rollback.go:98-127 | after any schedule a run's records are those of its effects not yet undone, in order, each holding what its key read when it was applied |
| Settling.SettledKeyExactly | internal/flow/rollback.go:52-127 | once every run has undone everything, a key reads as at the start if and only if no run wrote it or the effect undone last on it was applied when it read its starting value |
| Settling.CrossingRunsResurrect | internal/flow/rollback.go:66-77 | two runs cross on a key and both roll back, the first writer first: the key ends with what that run wrote and took back, although without it the key ends as it started |
| Settling.FirstTakenLastReleased | internal/flow/rollback.go:66-127 | where the run that took hold of a key first lets go last, the key ends as it started whatever the others did |
| Commuting.InterleavingsAgree | internal/flow/rollback.go:36-127 | schedules with the same steps of each run, on different keys, end with the same store and the same left to undo |
| Commuting.NoTraceOfAny | internal/flow/rollback.go:36-127 | any number of undisturbed runs that have undone everything can be left out together, every reading and every other log staying as they are |
| Nodes.ExecContext.RunAgent | internal/flow/nodes.go:75-105 | calls the agent's skills in order until one fails, with no recorded effect |
| Nodes.ExecContext.RunMcpTool | internal/flow/nodes.go:107-144 | calls the tool, defaulting the input argument, and records one effect on success |
| Nodes.ExecContext.RunOutput | internal/flow/nodes.go:146-188 | writes the resolved value if the permission list allows the target, else fails without effect |
| Nodes.ExecContext.ExecuteNode | internal/flow/nodes.go:40-66 | output, effects, log and tool calls are exactly those of the node's kind |
| Nodes.SkillAnswersExactly | internal/flow/nodes.go:75-105 | an agent's skills all answer exactly if each server is usable and each call is answered, and the answers are those calls' in order |
| Nodes.FailuresHaveNoEffect | internal/flow/nodes.go:75-188 | a node has at most one effect, and none if it fails |
| Nodes.EffectsArePermitted | internal/flow/nodes.go:146-188 | a database, file or modbus effect targets an entry of the matching list |
| Nodes.TriggerNodeExactly | internal/flow/nodes.go:42-49 | a trigger outputs its value or that it was triggered and how |
| Nodes.ConditionNodeExactly | internal/flow/nodes.go:57-58 | a condition outputs what its expression comes to with `result` bound to its input |
| Nodes.AgentNodeExactly | internal/flow/nodes.go:75-105 | an agent whose skills all answer outputs its name and the answers joined by line breaks in order, each called with the input and the prompt |
| Nodes.AgentNodeFails | internal/flow/nodes.go:75-105 | and it outputs something only then |
| Nodes.ToolNodeExactly | internal/flow/nodes.go:107-144 | a tool node succeeds exactly if its server is usable and the call, with the input as default argument, is answered; its one effect and its output are that answer |
| Nodes.OutputNodeExactly | internal/flow/nodes.go:146-208 | an output node succeeds exactly if its target is on the list for its kind or it is HTTP; it writes its value, or its input if the value is `$input` or `$result` |
| Nodes.EmittedExactly | internal/flow/nodes.go:210-218 | a condition emits "true", or "false" on null, false, the empty string and zero; any other node the nameless handle |
| Catalog.JoinedExactly | internal/flow/nodes.go:101-104 | joining puts the separator between the parts |
| Traversal.NextFromIs | internal/flow/engine.go:81-95 | the next discovery is an unvisited target of a live edge, and every live edge of an earlier visit leads to a visited node; with none, every live edge does |
| Traversal.NextIsEdge | internal/flow/engine.go:87-95 | the edge the loop has come to is the next discovery when the edges before it lead to visited nodes |
| Traversal.VisitIsDiscovered | internal/flow/engine.go:88-106 | every visit was discovered by the earliest visit with a live edge to it |
| Traversal.ExecutedIsLeastFixedPoint | internal/flow/engine.go:81-108 | the executed nodes are the least set containing the trigger and closed under live edges, each once |
| Traversal.DepthsAscend | internal/flow/engine.go:81-108 | along the execution order the distance from the trigger never decreases |
| Traversal.PathsAreNoShorter | internal/flow/engine.go:81-108 | no path of live edges is shorter than a node's depth |
| Traversal.DepthIsDistance | internal/flow/engine.go:88-106 | a node's depth is its distance along live edges, and its input is the output of an earlier live predecessor one step nearer |
| Traversal.SearchIsDetermined | internal/flow/engine.go:81-108 | two searches that ended, complete or stopped, with the same flow and the same outside answers have the same visits in the same order |
| Traversal.RunEffectsArePermitted | internal/flow/nodes.go:146-188 | effect containment over whole sequences of visits |
| Traversal.LogsListExecutions | internal/flow/engine.go:79-103 | the log lists the executed nodes in execution order |
| Engine.RunVisit | internal/flow/engine.go:97-103 | one node's execution extends the run by one visit, or stops it with the outputs and the store unchanged and its log lines and calls added |
| Engine.Discover | internal/flow/engine.go:92-105 | the node visited next is the next discovery of the search; if it gives no output the run stops there |
| Engine.FollowEdges | internal/flow/engine.go:88-106 | the inner loop covers the current visit's live edges, each new target once and in edge order, with queue, visited set and order in step |
| Engine.Engine.Traverse | internal/flow/engine.go:81-108 | the queue loop ends with every visit covered, or stopped at the next discovery |
| Engine.Engine.RollbackAndFail | internal/flow/engine.go:122-135 | everything recorded is undone in reverse, and the run is reported rolled back |
| Engine.Engine.Execute | internal/flow/engine.go:48-120 | a run is invalid exactly for a defective flow; otherwise it is a breadth-first search that is complete or stopped at the next discovery, which failed or faulted, with result, log and store fixed by its visits |
| Engine.SuccessIsLeastFixedPoint | internal/flow/engine.go:81-118 | the result map's keys are the smallest set with the trigger and closed under the edges its own outputs make live, and the log shows each running once |
| Engine.LiveEdgeExactly | internal/flow/nodes.go:210-218 | in every search an edge out of an executed condition is live exactly if its handle is "true" and the output is not null, false, the empty string or zero, or "false" and it is; out of any other node exactly if it has no handle |
| Engine.LiveTargetsRun | internal/flow/engine.go:81-118 | a successful run has run the trigger and the target of every such edge |
| Engine.ResultsAreReached | internal/flow/engine.go:81-118 | and every node in its result but the trigger is such a target |
| Engine.OutputVisitWrites | internal/flow/nodes.go:146-208 | right after an output node its cell holds its value, or its discoverer's output where the value says so |
| Engine.EndsExactly | internal/flow/engine.go:48-135 | a run succeeds exactly if every live edge leads to a node that ran; otherwise it has no outputs and is rolled back with the next node's error and a last log line saying so, or faulted |
| Engine.RunIsDetermined | internal/flow/engine.go:48-135 | however it ends, a run's visits, stopping node, result, log and store are determined by the document, the permissions, the outside answers and the store before |
| Engine.FailedRunIsAtomic | internal/flow/engine.go:122-135 | after a failure every key reads as before, the store is unchanged if and only if no touched entry held nil, and the undo log grew by one record for each effect |
| Engine.RunsStayPermitted | internal/flow/engine.go:74-106 | in every run of an accepted flow, however it ends, each effect is permitted |
| Engine.FaultsExactly | internal/flow/engine.go:81-108 | a run faults if and only if the next discovery is a condition that, on the output it gets, takes a short circuit skipping a chain in which an operand does not close |
| Engine.ClosedFlowsNeverFault | internal/flow/engine.go:48-120 | so a flow whose expressions are all closed never faults, whatever its values |
| FaultyFlow.FlowIsAccepted | internal/flow/graph.go:98-169 | a flow with an output node followed by an unclosed condition passes validation |
| FaultyFlow.FaultLeavesEffect | internal/flow/engine.go:97-101 | every run of that flow faults and leaves the output node's effect in the store |
| EngineTurns.TurnsKeepSound | internal/flow/engine.go:48-135 | in whatever order runs take turns on the store they share, each stays a breadth-first search of its own flow on its own answers, its outputs, log and call count are what the visits leave, its steps on the store are the visits' effects followed by the undos it has taken, and one that has returned ended as an execution does |
| EngineTurns.RunsReturn | internal/flow/engine.go:81-135 | whatever the others do, a run has returned once it has had two turns for each node of its flow and two more |
| ConcurrentRuns.CompanyIsInvisible | internal/flow/engine.go:13-21 | in any order of turns, at any moment, a run's visits and store steps are the first of those of any execution of the same flow, permissions and answers on an engine of its own; once it has returned they are all of them, with the same result and log |
| ConcurrentRuns.LeavingOut | internal/flow/engine.go:13-21 | leaving out a run's turns leaves out its steps on the store and changes nothing of any other run |
| ConcurrentRuns.RolledBackRunsLeaveNoTrace | internal/flow/engine.go:122-135 | at any moment of any order of turns, had the runs that rolled back undisturbed on keys they held never taken a turn, every key would read the same and every other run would stand where it stands with the same left to undo |
| ConcurrentRuns.ApartRunEndsAsAlone | internal/flow/engine.go:48-135 | a returned run on keys of its own leaves each of them holding exactly what an execution alone leaves there |
| ConcurrentRuns.ReturnedRunsAgree | internal/flow/engine.go:13-21 | runs on different keys commute: any two orders of turns in which all return end with the same store, visits and results |
| Sorting.SortInPlace | internal/orchestrator/decomposer.go:52-57 | in-place insertion sorting computes the stable sort |
| Sorting.SortKeepsTies | internal/orchestrator/decomposer.go:52-57 | elements tied with one another keep their order |
| Sorting.OrderedUnique | internal/orchestrator/decomposer.go:52-57 | orderings of the same elements agree when tied elements are equal |
| Decomposer.BuildDescription | internal/orchestrator/decomposer.go:76-82 | the subtask's description lists the matched skills' names |
| Decomposer.Decompose | internal/orchestrator/decomposer.go:28-63 | computes the decomposition function |
| Decomposer.MatchedExactly | internal/orchestrator/decomposer.go:35-40 | a skill is matched exactly if its name or tool occurs in the text as a keyword |
| Decomposer.MentionedExactly | internal/orchestrator/decomposer.go:68-74 | a keyword counts exactly if without the blanks around it at least two characters are left and they stand next to one another in the text, upper and lower case being the same |
| Decomposer.SubtaskExactly | internal/orchestrator/decomposer.go:30-50 | an agent has a subtask exactly if it is enabled and has a skill so mentioned; the subtask has its id, those skills in order, their number as score, and a description quoting the text and their names |
| Decomposer.DecomposedExactly | internal/orchestrator/decomposer.go:28-63 | never empty; the generic subtask exactly when no enabled agent has a matching skill; otherwise exactly those agents' subtasks, scores never rising along the list and, where equal, no id below the one before it by the first differing character |
| Decomposer.CanonicalExactlyWhen | internal/orchestrator/decomposer.go:52-57 | the output ignores the order of the agents if and only if agents tied on score and id yield the same subtask |
| Decomposer.DistinctIdsAreCanonical | internal/orchestrator/decomposer.go:28-63 | with distinct ids any reordering of the agents gives the same output |
| WorkerPool.StepKeepsInv | internal/orchestrator/task_distribution.go:118-136 | every step of launcher, goroutines or cancellation keeps the slot count, the wait group and every subtask's records consistent |
| WorkerPool.PoolIsSafe | internal/orchestrator/task_distribution.go:118-136 | in every reachable state at most `workers` subtasks hold the semaphore and each result is written at most once with its own index; when `execute` returns, exactly once |
| WorkerPool.StepsShrinkMeasure | internal/orchestrator/task_distribution.go:118-136 | every step decreases a natural measure |
| WorkerPool.RunsAreBounded | internal/orchestrator/task_distribution.go:118-136 | with n subtasks no run has more than 8n + 3 steps |
| WorkerPool.NeverStuck | internal/orchestrator/task_distribution.go:118-136 | with at least one worker some step is possible until `execute` has returned |
| WorkerPool.NoWorkersHang | internal/orchestrator/task_distribution.go:56-58 | without a worker no uncancelled run would launch a subtask or return, which the clamp prevents |
| WorkerPool.StatusesMoveForward | internal/orchestrator/task_distribution.go:141-157 | a status only moves pending, running, then success or failed, or straight from pending to failed, and only by its own subtask |
| WorkerPool.FinalStatuses | internal/orchestrator/task_distribution.go:118-220 | when `execute` returns, a status is success exactly if the outcome has no error, never running, and pending exactly if the subtask was passed over |
| WorkerPool.StatusesFollowPhases | internal/orchestrator/task_distribution.go:141-157 | in every reachable state a status is running exactly while its subtask works, pending exactly before that or if it is passed over, and final by its outcome afterwards |
| WorkerPool.LaunchedInOrder | internal/orchestrator/task_distribution.go:118-136 | subtasks are launched in order, and no more than `workers` of them are between getting a slot and giving it back |
| WorkerPool.CancelledStayOut | internal/orchestrator/task_distribution.go:122-133 | whenever a cancellation comes, no subtask the launcher had not looked at ever begins, its status stays pending and its result is the context's error with its own index; those launched are not passed over, and at most the one waiting for a slot may still start |
| Distribution.JoinNonEmpty | internal/orchestrator/task_distribution.go:259-271 | the non-empty parts joined by line breaks |
| Distribution.MarkStatus | internal/orchestrator/task_distribution.go:141-157 | records a status, and with a final one the result, whether or not the store accepts the update; only this subtask's record changes |
| Distribution.RunSkills | internal/orchestrator/task_distribution.go:181-210 | the answers up to the first skill that does not work, failing exactly if some skill does not work or the context is done |
| Distribution.RunSubtask | internal/orchestrator/task_distribution.go:138-220 | the outcome the outside world calls for, the record left with the matching status and result whatever updates the store refused, no other record touched, and the store's copy final if it accepted the last update |
| Distribution.CompletesExactly | internal/orchestrator/task_distribution.go:159-214 | a subtask has no error exactly if its agent is known and for each skill in turn the context is not done, the server usable and the call answered, and at the end the context is not done |
| Distribution.AnswersExactly | internal/orchestrator/task_distribution.go:181-218 | its text is the non-empty answers of its skills in order, up to the first that does not work, joined by line breaks |
| Distribution.Finalize | internal/orchestrator/task_distribution.go:222-257 | sorts the outcomes by index and sums them up |
| Distribution.BodyRunsInPool | internal/orchestrator/task_distribution.go:130-134 | what a subtask's body does is a run of the pool machine from a launched subtask |
| Distribution.PoolReturnsOutcomes | internal/orchestrator/task_distribution.go:118-136 | however goroutines interleave, `execute` returns each subtask's own outcome in its own place, or the cancellation's error for one passed over |
| Distribution.InterleavingIsInvisible | internal/orchestrator/task_distribution.go:118-136 | complete uncancelled runs end with the same results and statuses whatever the interleaving and the number of workers |
| Distribution.PoolSize | internal/orchestrator/task_distribution.go:44-60 | four workers by default, as many as requested, and one if fewer than one are requested |
| Distribution.StoppedMeansFinished | internal/orchestrator/task_distribution.go:56-136 | for any requested number of workers, a run that can take no further step has returned from `execute` |
| Distribution.SummaryExactly | internal/orchestrator/task_distribution.go:222-248 | completed plus failed is the number of outcomes, success exactly if none failed and the context was not done, and a line for exactly the outcomes with a result, in their order, the context's line last |
| Distribution.DistributionOutcome | internal/orchestrator/task_distribution.go:102-110 | over every run: the counts add up, the failures are exactly the subtasks whose status is not success, and the task succeeds exactly if there are none and the context was not done |
| Distribution.DistributedExactly | internal/orchestrator/task_distribution.go:102-257 | from a task's text to its summary, in every run of the pool: each result is its own subtask's outcome in the decomposition's order, the task succeeds exactly if the context is not done at the close, no subtask was passed over and every one completes, and the lines are exactly the non-empty joined answers of those run |
| Distribution.NoAgentsFails | internal/orchestrator/task_distribution.go:159-163 | a task no agent matches fails with one failed subtask, whatever the pool does |
| MessageHub.Hub.Register | internal/ws/hub.go:44-52 | adds a fresh client to both indexes |
| MessageHub.Hub.Deregister | internal/ws/hub.go:54-66 | removes a client from both, drops an emptied room and closes its channel once; a repeated call does nothing |
| MessageHub.Hub.Deliver | internal/ws/hub.go:81-87 | appends to a buffer with room and drops on a full one |
| MessageHub.Hub.Broadcast | internal/ws/hub.go:72-97 | every addressed client gets the message unless its buffer is full, in whatever order the clients are walked, and nobody else does |
| MessageHub.Hub.ClientCount | internal/ws/hub.go:100-104 | the number of clients in the union of the rooms |
| HubRuns.IndexesAgree | internal/ws/hub.go:44-97 | in every reachable state the clients are the disjoint union of non-empty rooms of their own tenants, channels are open exactly while registered, buffers are at most 64, and nothing has panicked |
| HubRuns.ReachableExactly | internal/ws/hub.go:44-97 | the same spelt out: a client is in a room exactly if it is registered and the room its tenant's, no room is empty, a channel is closed exactly if its client is not registered, and no buffer holds more than 64 |
| HubRuns.DeliveryOverRuns | internal/ws/hub.go:72-97 | over any run, what a client has consumed followed by what waits is a subsequence of what it was offered, and all of it if and only if its buffer was never full at a delivery |
| HubRuns.NeverFullExactly | internal/ws/hub.go:81-87 | never full means that each delivery found fewer than 64 messages waiting |
| HubRuns.TenantsAreIsolated | internal/ws/hub.go:88-96 | a client is only ever offered messages for its tenant or for all |
| HubRuns.BroadcastReachesItsAudienceOnce | internal/ws/hub.go:72-97 | however deliveries interleave, a broadcast is offered exactly once to each client then registered with its tenant, or to all if it names none, and to nobody else |
| HubRuns.LoneBroadcastIsAtomic | internal/ws/hub.go:72-97 | a broadcast nothing interrupts does what the hub's object does in one call, whatever the order of its deliveries: exactly the addressed clients with fewer than 64 waiting get it |
| RingBuffer.IndexIsModulo | internal/api/dashboard_history.go:168-170 | the truncated double remainder lands in the ring for every offset, negative ones included |
| RingBuffer.HistoryCollector.constructor | internal/api/dashboard_history.go:46-69 | an empty history with a capacity of at least one |
| RingBuffer.HistoryCollector.Write | internal/api/dashboard_history.go:159-165 | appends to the history while the ring keeps its last `capacity` samples |
| RingBuffer.HistoryCollector.Latest | internal/api/dashboard_history.go:98-105 | the last sample written, or the zero sample |
| RingBuffer.HistoryCollector.Snapshot | internal/api/dashboard_history.go:111-119 | the last min(n, capacity) samples written, oldest first |
| RingBuffer.HistoryCollector.Run | internal/api/dashboard_history.go:138-155 | after any sequence of captures a snapshot shows the last of the whole history, the same as dropping the oldest at each write |
| RingBuffer.KeepingTheLastIsEnough | internal/api/dashboard_history.go:159-165 | keeping only what a snapshot shows loses nothing a later snapshot needs, for any sequence of writes |

## Left out

- CursorBounds.ClosedNeverPanics: a condition on the tokens alone, for all variables, and so only sufficient; CursorBounds.PanicsExactly is the exact one for given variables. The same holds of Expressions.EvalPanicsOnlyOnUnclosed and Engine.ClosedFlowsNeverFault.
- CursorBounds.TruncatedInputAccepted: one input; CursorAcceptance.GrammaticalExactly says which accepted inputs are grammatical.
- SourceText.LexExactly: texts are one character per byte, and which digit strings are numbers is a parameter.
- Decomposer.DecomposedExactly: only ASCII letters and blanks are folded and trimmed in keywords.
- Distribution.RunSubtask: an accepted update hands the task back as it was given; if the very first update of the task is refused, the task has no tenant and its records stay untracked, which is the untracked case.
- Distribution.InterleavingIsInvisible: what a subtask meets outside does not depend on the interleaving.
- ConcurrentRuns.CompanyIsInvisible: what the outside world answers is fixed for each run, so a tool whose answers depend on other runs' calls is outside it.
- EngineTurns.TurnsKeepSound: a turn executes a whole node, because nothing but its one effect touches what runs share; flows that validation rejects never start.
- Sorting.SortInPlace: the library's sort switches to merging on long slices; both are stable, and only the result matters here.
- WorkerPool.NeverStuck: every subtask body is taken to return.
- Floating-point rounding, infinities and NaN: numbers are reals.
- JSON decoding of flows and encoding of results, statuses and messages; the flow model starts from a decoded document.
- Timestamps, generated ids, edge ids and target handles, effect metadata, and the wording of errors and log lines.
- Aliasing of a tool node's argument map, which a run extends in place.
- Effect stores that can fail, other than the in-memory one.
- Two overlapping status updates of one task writing the store's copy: the pool keeps one cell for each subtask.
- HTTP handlers, WebSocket upgrade, MCP clients, the database store, authentication, configuration, logging and metrics.
- The history collector's background goroutine and its CPU and memory samplers.
