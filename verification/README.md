# Verification of the Artcode toolchain

A Dafny model of the parts of Artcode that carry real algorithms, with proofs about them. Code that
works in place (the lowering engine, the graph searches, the mailbox, the scheduler, the parser's
cursor, the recorder) is modelled as classes whose methods are proved against functions of the old
state; the theorems are about those functions.

| files | what they model | main results |
|---|---|---|
| `Names`, `Ir`, `Source` | invented names; the IR and a small-step machine for it; the procedural subset and its big-step semantics | injectivity of names, a run halts in one way |
| `LowerFn`, `AotSubset`, `LowerFnCorrect`, `LowerFnWellFormed`, `LowerFnTheorem`, `Lowerer` | the general lowering of `let`/`if`/`while`/`return`/calls | which functions are taken, from the syntax alone; the IR returns, traps and diverges exactly as the source, and never gets stuck; the code is well formed |
| `Scoping` | blocks with a scope of their own, as the interpreter has them | a well-scoped function means the same in the lowering's flat store |
| `Ssa`, `PhiInsertion`, `Diamonds`, `PhiLowering` | the small lowerings with phi insertion and renaming, and the dispatcher | renaming is idempotent, injective exactly when the new names are free and then keeps every run; the phi path preserves meaning, an unguarded match exactly where it picks the right arm or what it picks gives the same, and agrees with the general path |
| `Finite`, `Graphs`, `Tarjan`, `Reactivity`, `Component` | dependency graphs, strongly connected components, dependents, Kahn ordering, the reactivity pass | exact components, exact dependents, exact answers of the ordering, exact cycle report |
| `ReactiveUpdate`, `ReactiveCoverage`, `References`, `ReactiveView`, `Rendered` | the setters generated for a component, the batching queue and the rendered view | one flush leaves everything as a full recomputation would, if and only if the graph covers every mention, which it does where memos hold no enum constructor; the whole rendered view, texts and attributes, is current if and only if no expression text and no dynamic attribute depends on a state, told by the path to each node |
| `Heap`, `HeapCycles` | cycle detection over the live heap | every cycle of two or more objects along followed handles reported once and nothing else; exactly when that is every such cycle of handles; a leak candidate is exactly an isolated cycle |
| `Promotion`, `Escape` | arena escape promotion | terminates, value kept, copies exactly the escaping handles; safe, and proof against dropping the newer arenas, if and only if no cell reached is newer |
| `Mailbox`, `Scheduler` | actors | one stable priority queue in both forms; every turn runs the actor's next statement on the interpreter as it stands; budget, program order, fairness, quiescence |
| `Codec`, `Utf8`, `Replay` | the binary format and record/replay | round trip exactly when lengths fit 32 bits, prefix-freeness; a log reads back exactly when its lengths do; faithful replay exactly when checkpoints are in order and no event follows a delta |
| `Parser`, `Grammar`, `GrammarExact`, `Layers` | operator-precedence parsing with its depth guard | the parser accepts exactly the grammar, also written out layer by layer with the tokens of each; the grammar is unambiguous |
| `Resolver` | concurrent exploration of imports, and emission | the same result and the same errors for every interleaving; a program exactly when there are none, each module once, after what it imports; emission ends exactly without an import cycle |
| `SourceMap` | VLQ digits and mappings | decoding undoes encoding; the digit loop ends exactly below 2^30 |

## Reading notes

- The source subset of the lowering has one flat store for a whole function, whose cells start at 0,
  as the slots the engine makes do; falling off the end or a bare `return` gives 0; a condition is
  true when it is not 0. Arithmetic is 64-bit two's complement, division truncates, and division by
  zero traps. A call is an oracle that may depend on every call made before it, so both sides must
  make the same calls in the same order. `Arith` stands for the four instructions `Add`, `Sub`,
  `Mul` and `Div`.
- Parameter names are spelled as the lexer spells identifiers, so they are not numbers and do not
  start with `%`.
- One `Tarjan` object serves both copies of the algorithm; `least` is the smallest component it
  reports, 1 for the reactivity pass and 2 for the heap.
- `topo_derived` is documented to return `None` exactly on cycles. The code also returns `None` on an
  acyclic graph when something that is not derived depends on a derived node, because that edge is
  counted and never released; `TopoDerived` states the exact condition.
- A test in the repository calls a memo that reads itself a cycle. The pass reports only components
  with two derived nodes or more; `ReportedExactlyWithAnother` says when a memo is named, and
  `SelfReaderIsUnreported` gives such a memo.
- Reference collection does not look into the arguments of an enum constructor.
  `UpToDateExactlyWhenCovered` gives the exact condition for incremental update to be right, and
  `EnumArgumentIsMissed` a component on which it is not.
- A match whose first arm is `false` branches the wrong way (`FalsePatternIsInverted`), and one whose
  first arm is a wildcard or a name skips it on 0; `MatchEndsExactly` says for which functions and
  arguments the code ends as the source does.
- Promotion follows strong handles only. The handle of an atomic or mutex escapes without its cell;
  `SafeExactly` and `SurvivesDropExactly` say when that does no harm and `NewerCellEscapes` gives a
  heap on which it does.
- The cycle detector looks at the handles an array, struct or enum holds directly, not at those inside
  a tuple, an optional or a nested composite; `ReportsAllExactlyWhenFollowed` says when its report
  covers every cycle of handles between different objects, and `TupleCycleIsMissed` gives one it
  misses. An object that holds itself is in no report (`SelfHolderIsUnreported`).
- A delta in a log has no type, so replay stops in front of it (`DeltaBlocks`).
- In `Parser`, lists also record whether a comma follows their last item; forgetting that gives the
  tree of the source. Constructs outside the operator, grouping, list and call fragment count as a
  diagnostic.
- In `Scheduler`, a statement is an arbitrary function of the interpreter's state that sends, parks,
  unparks and spawns, but edits no body and finishes or removes no actor.
- In `Resolver`, the workers are a multiset of pending steps and any of them may move next; a module
  that cannot be read or parsed is `Broken`, and an import that leads nowhere is `Import(None)`. Both
  are errors, and one error is enough for there to be no program.

## Model

| member | source | states |
|---|---|---|
| LowererObject.Lowerer.constructor | crates/ir/src/lower_fn.rs:26-36 | a fresh engine for a function name without its `@`, no code, all counters 0 |
| LowererObject.Lowerer.Tmp | crates/ir/src/lower_fn.rs:38-42 | the next temporary, and only the counter moves |
| LowererObject.Lowerer.NewLabel | crates/ir/src/lower_fn.rs:44-48 | the next label of a kind, and only the counter moves |
| LowererObject.Lowerer.SlotFor | crates/ir/src/lower_fn.rs:50-58 | one slot per name: the one there is, or a new one with its alloca |
| LowererObject.Lowerer.BrTo | crates/ir/src/lower_fn.rs:64-68 | a branch unless the block is closed already |
| LowererObject.Lowerer.StartBlock | crates/ir/src/lower_fn.rs:70-73 | a label, after which the block is open |
| LowererObject.Lowerer.LowerExpr | crates/ir/src/lower_fn.rs:75-134 | emits exactly the code, operand and counter of the lowering function, or gives up where it does |
| LowererObject.Lowerer.LowerStmt | crates/ir/src/lower_fn.rs:136-227 | emits exactly the code and state of the lowering function; nothing after a terminator |
| LowererObject.Lowerer.LowerIf | crates/ir/src/lower_fn.rs:175-203 | the blocks of an `if`, pushed one after another, are the nested listing |
| LowererObject.Lowerer.LowerWhile | crates/ir/src/lower_fn.rs:204-221 | the blocks of a loop, pushed one after another, are the nested listing |
| LowererObject.Lowerer.Finish | crates/ir/src/lower_fn.rs:229-236 | allocas first, and a final `ret 0` when the code can fall off its end |
| LowererObject.LowerFunction | crates/ir/src/lower_fn.rs:241-270 | takes a function exactly when its body stays in the subset and every name is bound by a parameter or a `let` emitted before; emits one with the same name, parameters and type `I64`, whose code is the one the theorems are about |
| AotSubset.TakenExactly | crates/ir/src/lower_fn.rs:75-270 | the same from the syntax alone: ten binary operators, unary minus, calls of named functions, `let`, `if`, `while`, `return` and blocks, and nothing behind a terminator is looked at |
| LowerFn.StripAtIs | crates/ir/src/lower_fn.rs:26-36 | the `@`s of a name are dropped and nothing else |
| LowerFnCorrect.ExprSim | crates/ir/src/lower_fn.rs:75-134 | running an expression's code gives its value in its operand, keeps older temporaries and makes the same calls, or traps with it |
| LowerFnCorrect.ArgsSim | crates/ir/src/lower_fn.rs:117-131 | arguments are evaluated left to right and their operands still hold their values at the call |
| LowerFnCorrect.StmtSim | crates/ir/src/lower_fn.rs:136-227 | running a statement's code keeps the slots equal to the store, or returns or traps as the statement does |
| LowerFnCorrect.IfSim | crates/ir/src/lower_fn.rs:175-203 | either branch, and the join, from a run's point of view |
| LowerFnCorrect.WhileSim | crates/ir/src/lower_fn.rs:204-221 | as many rounds as the source, or still running when the source is |
| LowerFnTheorem.FunctionSim | crates/ir/src/lower_fn.rs:241-270 | for every fuel, some number of steps matches the source's outcome |
| LowerFnTheorem.IrHaltsAsSource | crates/ir/src/lower_fn.rs:241-270 | a halted run of the code is the end of the source run |
| LowerFnTheorem.LoweringPreservesMeaning | crates/ir/src/lower_fn.rs:75-270 | for every accepted function and call: same value, or trap, after the same calls, both ways; divergence both ways; never stuck |
| LowerFnTheorem.LoweredFunctionIsWellFormed | crates/ir/src/lower_fn.rs:38-73 | labels unique, targets exist, each temporary defined once and used only later in its block, one terminator per block and no fall-through, allocas first with one per name |
| Scoping.FlatIsScoped | crates/ir/src/lower_fn.rs:50-58 | where no block binds a name of an enclosing one again and only bound names are read, one slot per name means the same as scoped blocks |
| Scoping.ShadowingDiffers | crates/ir/src/lower_fn.rs:50-58 | a function on which it does not: 2 in the flat store, 1 with scoped blocks |
| Scoping.CountingDiffers | crates/ir/src/lower_fn.rs:204-221 | a loop whose block binds its counter again: it counts in the flat store and runs for ever with scoped blocks |
| Names.LabelNameInjective | crates/ir/src/lower_fn.rs:44-48 | labels of one function differ when their counters do, whatever the names |
| Ssa.RenameIsIdempotent | crates/ir/src/ssa.rs:10-115 | renaming twice is renaming once, for every function |
| Ssa.InjectiveExactlyWhenFree | crates/ir/src/ssa.rs:10-58 | renaming keeps names apart if and only if no other name of the function is already one of the new ones |
| Ssa.NumberedByAppearance | crates/ir/src/ssa.rs:26-58 | a temporary first defined by some instruction becomes `%t<k>`, where k others are defined before it |
| Ssa.OthersKeepTheirNames | crates/ir/src/ssa.rs:60-68 | names that are no temporaries of the function's own stay |
| Ssa.RenamePreservesRuns | crates/ir/src/ssa.rs:60-115 | step for step the same run under the new names |
| PhiInsertion.FlattenSplit | crates/ir/src/ssa.rs:123-144 | splitting into blocks and flattening gives the code back |
| PhiInsertion.PredsAre | crates/ir/src/ssa.rs:150-173 | a block precedes another exactly when it ends on a branch to it |
| PhiInsertion.LastDefIs | crates/ir/src/ssa.rs:189-216 | the temporary a block ends on is the function's own defined last in it |
| PhiInsertion.PhiStandsFirst | crates/ir/src/ssa.rs:242-270 | the phi stands right behind the label, which is added where there is none; the block follows, rewritten |
| PhiInsertion.RewrittenReadsThePhi | crates/ir/src/ssa.rs:272-301 | operands of arithmetic, calls and branches that come in read the phi; nothing else changes |
| PhiInsertion.Unit.SplitBlocks | crates/ir/src/ssa.rs:126-144 | the loop computes the blocks |
| PhiInsertion.Unit.Predecessors | crates/ir/src/ssa.rs:146-174 | the predecessors of a block, one mention per edge |
| PhiInsertion.Unit.InsertPhiNodes | crates/ir/src/ssa.rs:123-314 | the pass in place computes the pass function, block after block |
| PhiInsertion.Unit.RenameTemps | crates/ir/src/ssa.rs:10-115 | the pass in place computes the renaming |
| Diamonds.SplitFlatten | crates/ir/src/ssa.rs:126-144 | blocks that start with their own label are found again |
| Diamonds.DiamondPhis | crates/ir/src/ssa.rs:213-306 | phi insertion leaves a diamond a diamond, with one more phi only when both sides define a temporary |
| Diamonds.DiamondRuns | crates/ir/src/lowering.rs:329-366 | a diamond returns the value of the side its condition takes, or traps with that side |
| PhiLowering.PieceMeans | crates/ir/src/lowering.rs:246-284 | the code of an arm computes what its `return` returns |
| PhiLowering.PlainPreservesMeaning | crates/ir/src/lowering.rs:23-178 | a single returned operation or call: the source's result, or its trap |
| PhiLowering.IfPreservesMeaning | crates/ir/src/lowering.rs:192-373 | a two-way `if`, through both passes: the source's result, or its trap |
| PhiLowering.MatchRuns | crates/ir/src/lowering.rs:408-671 | what the code of a two-arm match does for any patterns and guards: the first arm when its test holds, else the second |
| PhiLowering.MatchPreservesMeaning | crates/ir/src/lowering.rs:555-583 | a number and a wildcard, unguarded, through both passes: the source's result, or its trap |
| PhiLowering.ChoiceExact | crates/ir/src/lowering.rs:555-641 | exactly when the arm picked is the one whose pattern matches |
| PhiLowering.MatchEndsExactly | crates/ir/src/lowering.rs:408-671 | an unguarded match, through both passes, ends as the source does if and only if the arm picked is the right one and a name it may bind changes nothing there, or what is picked gives the same; a match without a matching arm gives 0 in the source |
| PhiLowering.FaithfulBeforeRest | crates/ir/src/lowering.rs:555-641 | before a wildcard that is: the right arm, or both the same |
| PhiLowering.FalsePatternIsInverted | crates/ir/src/lowering.rs:633-640 | a match on `false`: the source returns 1 and the code 2 |
| PhiLowering.PassesKeepRuns | crates/ir/src/lowering.rs:382-394 | both passes keep the run of an emitted diamond |
| PhiLowering.DispatcherPreservesMeaning | crates/ir/src/lowering.rs:376-400 | whichever lowering takes a function, the code returns and traps exactly as the source; for a match, on all arguments on which it can |
| PhiLowering.DispatcherTakesExactly | crates/ir/src/lowering.rs:23-400 | from the syntax alone: a function is taken exactly when it has one of the three small forms or stays in the general subset; what is emitted has its name, parameters and type |
| PhiLowering.PathsAgree | crates/ir/src/lowering.rs:376-400 | where the small and the general lowering both accept, their code ends alike |
| PhiLowering.LowerPlain | crates/ir/src/lowering.rs:23-178 | takes exactly a returned operation, grouped or not, or call on variables and numbers; what is emitted |
| PhiLowering.LowerIfFunction | crates/ir/src/lowering.rs:192-373 | takes exactly one two-way `if` on a variable or truth value whose branches return small operations; the blocks pushed are a diamond's, with temporaries in order |
| PhiLowering.LowerMatchFunction | crates/ir/src/lowering.rs:408-671 | takes exactly one two-arm `match` on a variable whose arms return small operations; the blocks pushed are a diamond's, inverted for a number |
| PhiLowering.LowerStmt | crates/ir/src/lowering.rs:376-400 | tries each form in turn and runs both passes on the phi forms; takes exactly those forms, under the function's own name |
| Tarjan.Tarjan.StrongConnect | crates/reactivity/src/lib.rs:157-187 | the search invariant, what a call visits, and the low link it leaves |
| Tarjan.Run | crates/reactivity/src/lib.rs:138-155 | reports exactly the strongly connected components with at least the given number of nodes, as duplicate-free lists |
| Tarjan.ComponentsExact | crates/reactivity/src/lib.rs:137-187 | the lists are the strongly connected components, all and only; two nodes share one exactly when each reaches the other |
| Tarjan.DependenciesFirst | crates/reactivity/src/lib.rs:157-187 | what a listed node reaches is in its list or an earlier one |
| Tarjan.CloseKeeps | crates/reactivity/src/lib.rs:173-186 | popping a root's component keeps the invariant and adds a maximal set |
| Tarjan.BlackenKeeps | crates/reactivity/src/lib.rs:161-172 | returning from a node that is no root keeps the invariant |
| Reactivity.DepGraph.AddNode | crates/reactivity/src/lib.rs:38-43 | a node at the end with no edges |
| Reactivity.DepGraph.AddEdge | crates/reactivity/src/lib.rs:45-50 | the edge is there once; nothing else changes |
| Reactivity.DepGraph.NodeByName | crates/reactivity/src/lib.rs:52-54 | the first node of that name, if any |
| Reactivity.DepGraph.DependentsOf | crates/reactivity/src/lib.rs:62-84 | exactly the other nodes that reach the root, each once |
| Reactivity.DepGraph.TopoDerived | crates/reactivity/src/lib.rs:88-122 | an order of the derived nodes, dependents first; it exists if and only if only derived nodes depend on derived ones and these are acyclic |
| Reactivity.OrderCertifies | crates/reactivity/src/lib.rs:88-122 | any such order shows the derived nodes acyclic |
| Reactivity.NoUnderflow | crates/reactivity/src/lib.rs:105-110 | a count about to be lowered is positive |
| Reactivity.SinkBlocksOrder | crates/reactivity/src/lib.rs:88-122 | an acyclic graph without an order: a view that shows a memo |
| Component.Analyse | crates/reactivity/src/lib.rs:199-281 | memos are the derived nodes; the graph's edges are exactly what memos read; one view node for each mention of a binding in the view, in order, with one edge, to it; the cycle report is exact |
| References.RefsByPaths | crates/reactivity/src/lib.rs:331-386 | the names collected from an expression are exactly those some path of operands, outside enum constructors, leads to |
| Rendered.ViewRefsByPaths | crates/reactivity/src/lib.rs:286-329 | the names collected from a view are exactly those an expression of some node mentions, event handlers and blocks included |
| Rendered.SinksAreMentions | crates/reactivity/src/lib.rs:222-233 | a binding has a view node exactly when some node of the view mentions it |
| Component.ReportedExactlyWithAnother | crates/reactivity/src/lib.rs:259-278 | a memo is named in a report exactly when it and another memo depend on each other |
| Component.SelfReaderIsUnreported | crates/reactivity/src/lib.rs:259-278 | a component whose memo reads itself: a cycle in no report |
| ReactiveUpdate.EmitSetter | crates/codegen_js/src/lib.rs:690-785 | a setter recomputes exactly the memos that depend on its state, in declaration order, and refreshes exactly the texts that show them or it |
| ReactiveUpdate.RunMemosGood | crates/codegen_js/src/lib.rs:749-757 | assigning memos in that order leaves each equal to its expression |
| ReactiveUpdate.CreatedIsSettled | crates/codegen_js/src/lib.rs:625-685 | a new page is up to date |
| ReactiveUpdate.CreatedValues | crates/codegen_js/src/lib.rs:625-672 | a prop starts with the value handed in, any other binding with that of its expression |
| ReactiveUpdate.FlushBringsUpToDate | cli/src/bundler.rs:28-41 | after any setter calls and one flush every memo equals its expression and every named text shows its binding |
| ReactiveUpdate.StatesAreWhatWasSet | crates/codegen_js/src/lib.rs:733-745 | after any setter calls and one flush each state has the value it was last set to, or the one it had |
| ReactiveUpdate.UpToDateIsRecomputed | crates/codegen_js/src/lib.rs:690-785 | an up-to-date page has the values a recomputation of everything would give |
| ReactiveUpdate.Page.SetState | crates/codegen_js/src/lib.rs:733-745 | assigns at once and queues the updater |
| ReactiveUpdate.Page.RunUpdaterOf | crates/codegen_js/src/lib.rs:745-766 | assigns the memos in order, then the texts |
| ReactiveUpdate.Page.FlushPending | cli/src/bundler.rs:36-40 | runs the queue in order and empties it |
| ReactiveCoverage.UpToDateExactlyWhenCovered | crates/reactivity/src/lib.rs:337-386 | incremental update always agrees with recomputation if and only if every state a memo mentions is one it depends on in the graph |
| References.EnumFreeIsUpToDate | crates/reactivity/src/lib.rs:235-257 | a component whose memos hold no enum constructor is covered by its graph, so incremental update always agrees with recomputation |
| ReactiveCoverage.EnumArgumentIsMissed | crates/reactivity/src/lib.rs:384 | a memo that mentions its state only inside an enum constructor goes stale |
| ReactiveView.ViewCurrentExactly | crates/codegen_js/src/lib.rs:825-922 | named texts, expression texts and attributes are always current if and only if no expression text and no dynamic attribute mentions anything that comes from a state |
| Rendered.NamedTextsAreBareBindings | crates/codegen_js/src/lib.rs:879-915 | by paths through elements: one named text for each bare binding rendered, in document order, and no other |
| Rendered.UnnamedAreTheOthers | crates/codegen_js/src/lib.rs:848-922 | written once are exactly the other texts rendered and the attributes that are no event handlers |
| Rendered.BareBindingsAreCurrent | crates/codegen_js/src/lib.rs:690-785 | every bare binding rendered anywhere shows its current value after any setter calls and one flush |
| Rendered.RenderedIsCurrentExactly | crates/codegen_js/src/lib.rs:825-922 | every text and attribute rendered anywhere always reads its expression's value if and only if no text but bare bindings, and no attribute, mentions anything that comes from a state |
| ReactiveView.AttributeGoesStale | crates/codegen_js/src/lib.rs:848-861 | an element whose attribute shows a state goes stale |
| HeapCycles.BuildEdges | crates/interpreter/src/interpreter/cycle_detection.rs:82-125 | the two tables hold exactly who points at whom among live objects |
| HeapCycles.PointsToByParts | crates/interpreter/src/interpreter/cycle_detection.rs:86-125 | an object points at another when both live and the one is an array, struct or enum with a handle to the other among its parts |
| HeapCycles.FindRoots | crates/interpreter/src/interpreter/cycle_detection.rs:126-136 | exactly the live objects nothing points at |
| HeapCycles.BuildGraph | crates/interpreter/src/interpreter/cycle_detection.rs:137-150 | live objects by position, with the same edges |
| HeapCycles.Search | crates/interpreter/src/interpreter/cycle_detection.rs:220-238 | marks only what the start reaches, and all successors of what it marks |
| HeapCycles.MarkReachable | crates/interpreter/src/interpreter/cycle_detection.rs:218-243 | marks exactly what some root reaches |
| HeapCycles.IsIsolated | crates/interpreter/src/interpreter/cycle_detection.rs:249-259 | true exactly when every owner is inside the component |
| HeapCycles.Suggestions | crates/interpreter/src/interpreter/cycle_detection.rs:265-283 | exactly the first object's handles that stay inside |
| HeapCycles.Classify | crates/interpreter/src/interpreter/cycle_detection.rs:244-321 | each flag of an entry means what it says |
| HeapCycles.IsolatedIsUnreachable | crates/interpreter/src/interpreter/cycle_detection.rs:249-264 | an isolated cycle is out of every root's reach, so leak candidate and isolated coincide |
| HeapCycles.DetectCycles | crates/interpreter/src/interpreter/cycle_detection.rs:82-330 | every cycle of two or more live objects along followed handles once and nothing else, each classified, with at least one suggestion; the leak count |
| HeapCycles.ReportsAllExactlyWhenFollowed | crates/interpreter/src/interpreter/cycle_detection.rs:82-125 | that is every cycle of handles between different objects, however deep inside values, if and only if each handle that closes one is followed or bypassed |
| Heap.HandlesByPaths | crates/interpreter/src/interpreter.rs:970-1006 | a value holds a handle exactly when some path through composites of any shape leads to it |
| HeapCycles.DirectIsReported | crates/interpreter/src/interpreter/cycle_detection.rs:82-330 | where handles between different objects are direct parts of arrays, structs and enums, the report covers every cycle of them |
| HeapCycles.LinkedPairIsReported | crates/interpreter/src/interpreter/cycle_detection.rs:101-120 | two objects, structs say, that hold each other are reported together |
| HeapCycles.TupleCycleIsMissed | crates/interpreter/src/interpreter/cycle_detection.rs:82-125 | two objects that hold each other, one through a tuple |
| HeapCycles.SelfHolderIsUnreported | crates/interpreter/src/interpreter/cycle_detection.rs:197 | an object that holds itself: followed, but in no report |
| Promotion.Memory.HeapRegister | crates/interpreter/src/interpreter.rs:906-916 | a live object without arena under the next id |
| Promotion.Memory.HeapRegisterInArena | crates/interpreter/src/interpreter.rs:917-929 | a live object in the arena under the next id |
| Promotion.Memory.PushImplicitArena | crates/interpreter/src/interpreter.rs:934-940 | the new arena is newer than all that is in the heap |
| Promotion.Memory.HeapifyComposite | crates/interpreter/src/interpreter.rs:1045-1065 | arrays, structs and enums go to the current arena and stand for the same value; the heap stays disciplined |
| Promotion.Memory.HeapCreateAtomic | crates/interpreter/src/interpreter.rs:1067-1095 | an atomic goes to the current arena and is held by its cell handle |
| Promotion.Memory.PromoteIfEscaping | crates/interpreter/src/interpreter.rs:949-1009 | terminates; same value from outside, cells as they were; no strong handle newer than the target; old objects untouched; one copy per escaping handle and none otherwise |
| Promotion.PromotedShowsTheSame | crates/interpreter/src/interpreter.rs:949-1009 | through its handles, a promoted value shows at every path the shape or value it showed before |
| Escape.NothingNewerReached | crates/interpreter/src/interpreter.rs:949-1009 | along strong handles alone nothing reachable from a promoted value is newer than the target |
| Escape.SafeExactly | crates/interpreter/src/interpreter.rs:949-1009 | along handles and cells nothing reachable from a promoted value is newer than the target, if and only if no cell reached before the call was |
| Escape.SurvivesDropExactly | crates/interpreter/src/interpreter.rs:942-1009 | whichever newer objects are dropped, the promoted value looks as it did, cells opened to any depth, if and only if no cell reached before the call was newer |
| Escape.NewerCellEscapes | crates/interpreter/src/interpreter.rs:1007 | a heap with one atomic on which promotion hands on a newer cell and dropping its arena shows |
| Mailbox.Mailbox.Insert | crates/interpreter/src/interpreter/actors.rs:115-144 | behind everything of its priority or higher, in either form; buckets exactly when the list would exceed 64 |
| Mailbox.Mailbox.PopFront | crates/interpreter/src/interpreter/actors.rs:97-113 | takes the oldest of the highest priority and nothing else |
| Mailbox.Mailbox.Front | crates/interpreter/src/interpreter/actors.rs:68-79 | the head of the queue in either form |
| Mailbox.Mailbox.Len | crates/interpreter/src/interpreter/actors.rs:57-62 | the length of the queue in either form |
| Mailbox.Mailbox.ToVec | crates/interpreter/src/interpreter/actors.rs:81-95 | the queue in either form |
| Mailbox.Migrate | crates/interpreter/src/interpreter/actors.rs:131-138 | the buckets stand for the list they were filled from, and none is empty |
| Mailbox.SortedIsUnique | crates/interpreter/src/interpreter/actors.rs:48-149 | order by priority and order within each priority determine the queue |
| Mailbox.Mailbox.ContentsSorted | crates/interpreter/src/interpreter/actors.rs:48-149 | in either form the queue is in order of priority |
| Mailbox.FirstInFirstOut | crates/interpreter/src/interpreter/actors.rs:97-144 | over any run, within each priority, taken followed by left is exactly what was put in, in that order |
| Mailbox.Drive | crates/interpreter/src/interpreter/actors.rs:48-149 | a mailbox under any run of operations holds that run's queue |
| Scheduler.Interpreter.Visit | crates/interpreter/src/interpreter/actors.rs:425-512 | one turn: the actor's next statement run by the interpreter in the actor's environment and the actor put back, with its statement if that parked it; nothing for a parked or idle one |
| Scheduler.TurnedTook | crates/interpreter/src/interpreter/actors.rs:425-512 | whatever a statement does, a turn takes one statement off the actor's body, or none, and keeps everybody else's program |
| Scheduler.RunsInItsEnvironment | crates/interpreter/src/interpreter/actors.rs:461-500 | the statement is run while its actor is out of the table, in the actor's own environment, which afterwards is what the statement left, or the old one if it parked the actor; the interpreter has its own back |
| Scheduler.CompletedByPosition | crates/interpreter/src/interpreter/actors.rs:456-500 | an actor's completed statements are those of the turns that ran one for it, in order |
| Scheduler.Interpreter.RunActorsRoundRobin | crates/interpreter/src/interpreter/actors.rs:395-531 | terminates within the budget; each turn starts from the interpreter the one before left and is a real turn of an unfinished actor; completed statements and the remaining body make up the original; passes follow one another, each with at most one turn per actor, in id order, and one for everybody not finished by its end; stops early only when nobody can move; only finished actors are removed |
| Scheduler.TurnKeeps | crates/interpreter/src/interpreter/actors.rs:403-517 | every turn keeps all of that |
| Codec.Writer.EncodeVal | crates/interpreter/src/interpreter/actors.rs:151-252 | appends the encoding, or fails exactly on a value outside the format |
| Codec.Cursor.DecodeVal | crates/interpreter/src/interpreter/actors.rs:254-392 | reads one value and stops right behind it, or fails, as the decoding function says |
| Codec.RoundTrip | crates/interpreter/src/interpreter/actors.rs:151-392 | decoding an encoding, whatever follows it, gives the value back and leaves what follows |
| Codec.DecodedIsSound | crates/interpreter/src/interpreter/actors.rs:254-392 | any bytes decode only to well-typed values within the 32-bit lengths |
| Codec.DecodedIsNoLonger | crates/interpreter/src/interpreter/actors.rs:151-392 | a decoded value, written again, takes no more bytes than were read for it |
| Utf8.WellFormedExactly | crates/interpreter/src/interpreter/actors.rs:268-276 | text is accepted exactly when it is the octets of Unicode scalar values (RFC 3629, section 3) |
| Codec.InsertedReplaces | crates/interpreter/src/interpreter/actors.rs:300-308 | a key decoded again gets the new value, and every other key keeps its own |
| Codec.FaithfulExactlyWhenSized | crates/interpreter/src/interpreter/actors.rs:168-170 | the round trip holds if and only if every length fits 32 bits |
| Codec.LongBufferIsCut | crates/interpreter/src/interpreter/actors.rs:168-170 | a buffer of 2^32 bytes comes back empty |
| Codec.EncodingIsPrefixFree | crates/interpreter/src/interpreter/actors.rs:151-252 | no encoding is a prefix of another, and encoding is injective |
| Codec.EncodingsSpelled | crates/interpreter/src/interpreter/actors.rs:151-252 | tags, counts and contents byte by byte, on values with short parts |
| Replay.EventFields | crates/interpreter/src/tracer.rs:27-38 | type, tick and payload are found again in whatever order the table is walked |
| Replay.KeysAreSpelled | crates/interpreter/src/tracer.rs:17-107 | the magic number and the keys, spelled out |
| Replay.Tracer.RecordEvent | crates/interpreter/src/tracer.rs:27-55 | one frame, or nothing when the payload is outside the format |
| Replay.Tracer.RecordCheckpoint | crates/interpreter/src/tracer.rs:98-107 | a checkpoint frame |
| Replay.LogReadsBack | crates/interpreter/src/replayer.rs:14-43 | a log of recorded events reads back as the same events |
| Replay.LogReadsBackExactly | crates/interpreter/src/replayer.rs:14-43 | a log of any values, deltas among them, reads back as written if and only if all lengths in it, those of the frames included, fit 32 bits |
| Replay.DamagedFrames | crates/interpreter/src/replayer.rs:27-43 | a frame that does not decode is passed over, one cut short is an error |
| Replay.Record | crates/interpreter/src/tracer.rs:17-55 | recording any run of events leaves the log that reads back as them |
| Replay.Replayer.ConsumeIntercept | crates/interpreter/src/replayer.rs:48-82 | serves the next event if type and tick match, past checkpoints no later, and otherwise leaves it |
| Replay.ConsumedExactly | crates/interpreter/src/replayer.rs:48-82 | a request passes over the checkpoints in front that are no later, takes the entry behind them if it has the type and tick asked for, and otherwise leaves it |
| Replay.Replayer.FindCheckpointBefore | crates/interpreter/src/replayer.rs:84-106 | the last checkpoint no later than the tick, if any |
| Replay.CheckpointFields | crates/interpreter/src/replayer.rs:84-106 | a recorded checkpoint is found again with its tick and the generator's state, and nothing else recorded is taken for one |
| Replay.FaithfulExactlyInOrder | crates/interpreter/src/replayer.rs:48-82 | asking for the recorded events in turn returns their payloads if and only if no checkpoint is later than the event after it |
| Replay.AskedByPosition | crates/interpreter/src/replayer.rs:48-82 | what is asked for again: the recorded items that are no checkpoints, in order |
| Replay.FaithfulExactlyWhenClear | crates/interpreter/src/replayer.rs:48-82 | the same for logs with deltas: if and only if, besides, no event follows a delta |
| Replay.LateCheckpointBlocks | crates/interpreter/src/replayer.rs:65-70 | a log whose checkpoint is later than the event behind it |
| Replay.DeltaBlocks | crates/interpreter/src/tracer.rs:60-96 | a log with a delta in front of an event |
| Replay.ReplayIsFaithful | crates/interpreter/src/replayer.rs:14-82 | with a clock that does not run backwards, what was recorded is replayed |
| Parser.Cursor.PushDepth | crates/parser/src/parser.rs:154-169 | one level more, or a diagnostic at the limit |
| Parser.Cursor.AdvanceToken | crates/parser/src/parser.rs:463-468 | past the token, or at the end the token before it again |
| Parser.Cursor.ParsePrecedence | crates/parser/src/expressions.rs:10-24 | terminates, restores the depth, and yields the tree, position and diagnostics of the parse function |
| Parser.Cursor.ParsePrefix | crates/parser/src/expressions.rs:26-113 | leaves, arrays, groupings, tuples and prefix operators |
| Parser.Cursor.ParseInfix | crates/parser/src/expressions.rs:178-326 | calls, fields, postfix and infix operators |
| Parser.Cursor.ParseItems | crates/parser/src/expressions.rs:328-338 | items with their commas, up to the closing token |
| Grammar.Completes | crates/parser/src/expressions.rs:10-24 | the tokens of a tree that fits, followed by anything that binds no tighter, parse to that tree, stop behind it and add no diagnostic |
| GrammarExact.PrecedenceSound | crates/parser/src/expressions.rs:10-326 | what parses without a diagnostic is a tree that fits, spelled by the tokens passed, within the depth |
| GrammarExact.ParsesExactly | crates/parser/src/expressions.rs:10-344 | both directions: the parser accepts exactly the grammar |
| GrammarExact.Unambiguous | crates/parser/src/parser.rs:397-415 | two trees that fit at the same place are the same |
| Layers.FitsIsLayer | crates/parser/src/parser.rs:397-415 | precedence written out: `or`, `and`, `==` and `!=`, the four comparisons, `+` and `-`, `*` and `/`, prefix operators, then calls, fields, `!` and `?`, each layer with its tokens and left-associative; at every level the trees are those of that layer |
| Layers.ParsesLayers | crates/parser/src/expressions.rs:6-24 | the parser yields a tree without a diagnostic and stops behind it exactly when it is one of the layered grammar, spelled there, no deeper than 200, and the next token does not carry it on |
| Layers.ParseExpression | crates/parser/src/expressions.rs:6-8 | `expression` reports nothing exactly when such a tree stands at the cursor, and then gives it |
| Resolver.Context.ClaimModule | cli/src/resolver.rs:232-248 | one worker gets a module, the first |
| Resolver.Context.ParseProgram | cli/src/resolver.rs:250-290 | the imports that resolve, in order, and one error for each that does not, or one for a module that does not parse |
| Resolver.TargetsByPosition | cli/src/resolver.rs:263-277 | the imports of a module that lead somewhere, in order, and no other |
| Resolver.NowhereByPosition | cli/src/resolver.rs:278-288 | one error for each position of an import that leads nowhere |
| Resolver.Context.CollectModuleGraph | cli/src/resolver.rs:223-299 | terminates in whatever order the workers move, with exactly the reachable modules, each parsed once, their imports and their errors |
| Resolver.ExplorationIsExact | cli/src/resolver.rs:223-299 | every complete interleaving collects that |
| Resolver.SchedulesAgree | cli/src/resolver.rs:223-299 | any two complete interleavings leave the same tables and the same errors |
| Resolver.StepShrinks | cli/src/resolver.rs:232-299 | whichever worker moves, less is left to do |
| Resolver.Emitter.EmitModule | cli/src/resolver.rs:301-326 | comes out as the emission function says; new modules are reachable, each once, after what they import; fails only on one that does not parse |
| Resolver.CodeByPosition | cli/src/resolver.rs:317-323 | the statements of a module other than imports, in order |
| Resolver.EmissionEndsExactly | cli/src/resolver.rs:301-326 | where exploration found no error, emission ends if and only if no module reached imports itself, directly or through others |
| Resolver.SelfImportNeverEnds | cli/src/resolver.rs:301-326 | a module that imports itself, on which emission never ends |
| Resolver.Resolve | cli/src/resolver.rs:223-397 | there is a program if and only if every module reached parses and all its imports resolve; it is the code of every module reached once, after its imports |
| SourceMap.LoopEndsExactlyBelowHalf | crates/codegen_js/src/sourcemap.rs:7-22 | the digit loop ends if and only if the magnitude is below 2^30 |
| SourceMap.HalfNeverEnds | crates/codegen_js/src/sourcemap.rs:7-22 | at 2^30 it does not |
| SourceMap.EncodeVlq | crates/codegen_js/src/sourcemap.rs:7-22 | the loop pushes the digits of the register |
| SourceMap.VlqRoundTrip | crates/codegen_js/src/sourcemap.rs:7-22 | a decoder recovers every integer, whatever follows |
| SourceMap.SortedIs | crates/codegen_js/src/sourcemap.rs:58-60 | generated-position order, stable, nothing lost |
| SourceMap.SortedRearranges | crates/codegen_js/src/sourcemap.rs:58-60 | by line and then column; the same mappings, as often |
| SourceMap.SmallIsChained | crates/codegen_js/src/sourcemap.rs:62-93 | positions below 2^30 in order are within 2^30 of the ones before |
| SourceMap.EncodingEndsExactlyWhenChained | crates/codegen_js/src/sourcemap.rs:53-95 | for 31-bit positions every digit loop of the encoder ends if and only if each mapping is within 2^30 of the one before |
| SourceMap.EncodedDecodes | crates/codegen_js/src/sourcemap.rs:62-93 | decoding the text of mappings each near the one before yields them with absolute positions |
| SourceMap.MappingsSpelled | crates/codegen_js/src/sourcemap.rs:118-132 | the digits of the repository's own tests; three mappings on two lines, character by character |
| SourceMap.SourceMapBuilder.EncodeMappings | crates/codegen_js/src/sourcemap.rs:53-95 | for 31-bit positions within 2^30 of the ones before, a decoder gets back every mapping added, in generated order |

## Left out

- The C and LLVM emitters, the textual form of the IR, its loader, analyzer and trampolines: the IR is run by its own machine.
- Typed values of the interpreter: the lowering's own semantics (flat store, 64-bit integers) is the source side; `Scoping` relates the flat store to scoped blocks.
- Scoping.FlatIsScoped: the condition is sufficient, not exact; whether the two differ where it fails may depend on the run, as `CountingDiffers` and `ShadowingDiffers` show.
- `for` loops, strings, floats and collections in lowered code: both lowerings reject them.
- PhiLowering.MatchPreservesMeaning: enum patterns and other patterns the model folds into `OtherPattern` are not lowered here; for guards `MatchRuns` says what the code does, which is not what the source does.
- PhiLowering.MatchEndsExactly: an arm that reads the name its own pattern binds, when no parameter has that name, is left out; the emitted code would read an undefined temporary.
- PhiLowering.DispatcherPreservesMeaning: guarded matches are excluded, and for the small forms, names that are neither parameters nor numbers are excluded; the emitted code would read an undefined temporary.
- PhiInsertion.Unit.InsertPhiNodes: outside diamonds only what it computes is stated; rewriting uses is justified by the diamonds the lowerings emit.
- Instruction lists are values rebuilt by each push, so aliasing of the vectors is not modelled.
- ReactiveUpdate.FlushBringsUpToDate: `on_update` callbacks, event handlers and DOM calls are left out; values are integers and operators arbitrary functions of their operands.
- Component.Analyse: binding names are distinct and none starts with `view:`, as identifiers do not.
- Actor bodies inside expressions are not searched for references, in the code or the model.
- ReactiveUpdate.Page.RunUpdaterOf: the notification of `on_update` listeners at its end is left out.
- HeapCycles.Classify: the ranking of break suggestions is left out.
- HeapCycles.DetectCycles: the lists of dead weak and dangling unowned references and the ranking of break suggestions are left out.
- Promotion.Memory.PromoteIfEscaping: strong counts, arena finalisation, reusable arenas, and values holding maps, sets or deques are left out; it relies on objects referring only to older objects and never into a newer arena, which a store into a cell can break.
- Escape.SafeExactly: weak and unowned handles, which may outlive what they refer to, do not count as reaching it.
- Scheduler.Interpreter.RunActorsRoundRobin: actors spawned during a run get no turn in it, as in the code; statements are not interpreted.
- Mailbox limits and back-pressure belong to the sending builtin and are left out.
- Codec: allocation of buffers for large counts is not modelled.
- Replay: which keys a delta holds is left out; the generator's state is given as its decimal text; file errors are left out.
- Replay.FaithfulExactlyWhenClear: in a log with deltas, event types are not empty.
- Parser.Cursor.ParsePrefix: template, f-string, enum and spawn expressions count as diagnostics.
- Parser.Cursor.ParseInfix: cast, generic-argument, pipeline and enum-constructor expressions count as diagnostics.
- Parser.IsTypeName: knows ASCII capitals only, where the code asks for Unicode upper case.
- Resolver: path normalisation, the package cache, the lock file and the text of diagnostics are left out, and the several diagnostics of one module that does not parse count as one.
- Resolver.Resolve: import cycles are excluded where there is no error, because emission does not end on them (`EmissionEndsExactly`).
- SourceMap.EncodeVlq: magnitudes from 2^30 on are excluded, as its loop does not end on them.
- SourceMap.SourceMapBuilder.EncodeMappings: positions a signed 32-bit integer does not hold are excluded; the JSON around the mappings is left out.
- The interpreter's evaluator, garbage collection, FFI, shell, CLI, LSP, DAP, docs, linter, formatter and profile tools.
