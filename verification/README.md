# Verification of lax and its vendored libraries

A Dafny model of six stateful components of the repository, with proofs about all their runs.

- **Catch's section tracker** (`SectionTree`, `SectionTracker`, `SectionRuns`). `SectionTracker` holds the
  heap objects: tracker context, trackers with parent and child references, and the part of the run context
  that opens and closes them. A test body is a finite tree of sections, distinct among siblings, and any body
  may throw at its end. `SectionTree` defines by recursion which visits a body is still owed, given its partly
  discovered trackers; `RunTest` is proved to perform exactly those. `SectionRuns` draws the conclusions for
  leaves and cycles.
- **The hierarchical state machine** (`StateShape`, `StatePaths`, `StateRuns`, `StateGrowth`, `StateMachine`).
  `StateMachine` holds the objects; `StateShape` is the hierarchy as a value, `StatePaths` the declarative form
  of transition paths, `StateRuns` what transitions and executions do, `StateGrowth` what adding a state does.
  A callback is an event in a trace.
- **nanodbc transactions** (`TransactionRuns`, `Transactions`) over an abstract data source with SQLEndTran and
  the autocommit attribute, and **the rowset cursor** (`RowsetCursor`) over an abstract SQLFetchScroll.
- **The task scheduler** (`Dispatch`, `SchedulerRuns`, `TaskScheduler`). Queues push and pop in one step. A
  runner takes its next task, executes it under its own id and passes it back.
- **The object pool** (`PoolRuns`, `ObjectPool`). A `Slot` object stands for an address; that it holds a
  constructed object is a field, so every placement new and every destructor call is proved to be in order.
- **Two loops of Catch** (`CatchLoops`): replacing text and sizing the totals divider.

Each stateful component has objects with methods close to the source, and a value that represents them;
theorems about whole runs are about the value. VERIFY is empty, as it is in a release build without checks.

## Where the code falls short

These are properties that a reader may expect and that the code does not have. Each has its exact condition.

- A section that has subsections and whose own body throws is marked failed for good, so its remaining
  subsections never run. `SectionRuns.AllLeavesRunIff` says, from the sections alone, exactly when all leaves
  run; `SectionRuns.InnerFailureLosesLeaf` is an example.
- `state::add` looks for a duplicate key only below the receiving state, so keys need not be unique in the
  machine (`StateGrowth.StaysUniqueIff`; an example is `StateGrowth.DuplicateKey`). Claims that need unique
  keys say so.
- `connection::transactions()` is documented (include/lax/db/nanodbc.h:854) as the number of transactions held.
  It is minus that number, modulo the word, so it is that number only for 0 and 2^63
  (`TransactionRuns.CounterIsCountIff`; an example is `TransactionRuns.OneCountsAsAll`). All tests against zero
  still work (`TransactionRuns.CounterZero`).
- A rolled back inner transaction does not keep an outer commit from making its work durable
  (`TransactionRuns.LastOneDecides`; an example is `TransactionRuns.InnerRollbackIsLost`).
- A task without affinity is pushed at the 1-based id of the least loaded runner, one place too far
  (src/task/task_scheduler.cpp:128). `Dispatch.PlainOutOfBounds` and `Dispatch.PlainCallOutOfBounds` say exactly
  when that leaves the vector (with one runner always: `Dispatch.OneRunnerFails`), `Dispatch.PlainOnLeastIff`
  when it meets a least loaded runner all the same. The model keeps the index as written.
- Assigning over a ref that owns an object abandons the object (`PoolRuns.NothingLostIff`; an example is
  `PoolRuns.AssigningLoses`).
- `replaceInPlace` never ends for an empty pattern and a string that is not empty (`CatchLoops.EndsIff`;
  `CatchLoops.EmptyPatternGoesOn` says what it does instead).

## Model

| member | source | states |
|---|---|---|
| `SectionTree.PendingEmpty` | ext/catch/catch.hpp:10022-10025 | nothing is owed to a body's sections from the i-th on exactly when each of them has a tracker and that tracker is complete |
| `SectionTree.PendingSkip` | ext/catch/catch.hpp:10089-10092 | complete sections contribute nothing: a body stands before its first incomplete section |
| `SectionTree.PendingStep` | ext/catch/catch.hpp:10071-10092 | opening the first incomplete section uses up exactly the first visit the body is owed |
| `SectionTree.FoundAligned` | ext/catch/catch.hpp:9980-9985 | while a body runs, the search by name finds the tracker of the i-th section at position i, or none there |
| `SectionTree.SectionOpened` | ext/catch/catch.hpp:8477-8490 | what running one section inside a cycle does to the visits owed to the enclosing body, with and without an exception |
| `SectionTree.SectionPassed` | ext/catch/catch.hpp:10084-10085 | once the cycle is complete, later sections are only discovered and owed visits stay the same |
| `SectionTree.BodyEnds` | ext/catch/catch.hpp:8607-8646 | how a body that reaches its end, and fails there or not, leaves its tracker |
| `SectionTree.LastKidDecides` | ext/catch/catch.hpp:10022-10025 | in every state in which a body can end, the last discovered child is complete exactly when all its sections are discovered and complete |
| `SectionTree.SectionEnds` | ext/catch/catch.hpp:10009-10047 | closing or failing a section leaves it at rest, owed exactly the visits it was owed before, less the first, and completes the innermost tracker the visit entered and no other |
| `SectionTree.TestCaseEnds` | ext/catch/catch.hpp:8643-8644 | the same for the test case, which is always closed and never failed |
| `SectionTree.KidAdvanced` | ext/catch/catch.hpp:10080-10086 | running a section completes, among the trackers below the body, exactly one more: the innermost one entered; complete ones stay as they are |
| `SectionTree.StaysComplete` | ext/catch/catch.hpp:10089-10092 | a tracker that is complete stays complete, at its place and with the same state, as the trackers grow |
| `SectionTree.CompleteForGood` | ext/catch/catch.hpp:8416-8420 | over a whole run, what a cycle entered last was not complete before that cycle and is complete in every later one |
| `SectionTracker.TrackerContext.StartRun` | ext/catch/catch.hpp:9916-9921 | a fresh root tracker, nothing current |
| `SectionTracker.TrackerContext.StartCycle` | ext/catch/catch.hpp:9929-9932 | the root is current and the cycle is not complete |
| `SectionTracker.TrackerContext.CompleteCycle` | ext/catch/catch.hpp:9933-9935 | only the run state changes |
| `SectionTracker.Tracker.constructor` | ext/catch/catch.hpp:9954-9958 | a tracker not started, without children, that keeps its parent |
| `SectionTracker.Tracker.FindChild` | ext/catch/catch.hpp:9980-9985 | the first child with the name, or none |
| `SectionTracker.Tracker.AddChild` | ext/catch/catch.hpp:9976-9978 | the child is appended and the tree stays well formed |
| `SectionTracker.Tracker.FindOrAdd` | ext/catch/catch.hpp:10074-10083 | the child with the name, appended as a fresh tracker when there is none |
| `SectionTracker.Tracker.OpenChild` | ext/catch/catch.hpp:9991-9997 | marks the chain of ancestors up to the first that already executes children, and nothing else |
| `SectionTracker.Tracker.Open` | ext/catch/catch.hpp:10002-10007 | the tracker executes and is current; its ancestors execute children |
| `SectionTracker.Tracker.TryOpen` | ext/catch/catch.hpp:10089-10092 | opens exactly when not complete |
| `SectionTracker.Tracker.Acquire` | ext/catch/catch.hpp:10071-10087 | finds or adds the child of the current tracker, and opens it exactly when the cycle is not complete and the child is not |
| `SectionTracker.Tracker.Close` | ext/catch/catch.hpp:10009-10037 | the new state is the one `Closed` names, the internal error is raised exactly where it names none, the parent is current and the cycle complete |
| `SectionTracker.Tracker.Conclude` | ext/catch/catch.hpp:10015-10034 | the switch on the state: the new state is the one `Closed` names, and the internal error is raised exactly where it names none |
| `SectionTracker.Tracker.Fail` | ext/catch/catch.hpp:10038-10044 | the tracker is failed, its parent needs another run and is current, the cycle is complete |
| `SectionTracker.Tracker.MarkAsNeedingAnotherRun` | ext/catch/catch.hpp:10045-10047 | only the state changes |
| `SectionTracker.Tracker.MoveToThis` | ext/catch/catch.hpp:10053-10055 | this tracker is current |
| `SectionTracker.Tracker.MoveToParent` | ext/catch/catch.hpp:10049-10052 | the parent is current |
| `SectionTracker.RunContext.SectionStarted` | ext/catch/catch.hpp:8477-8490 | the section is included, and pushed on the active sections, exactly when its tracker was opened |
| `SectionTracker.RunContext.SectionEnded` | ext/catch/catch.hpp:8504-8515 | closes and pops the innermost active section; does nothing without one |
| `SectionTracker.RunContext.SectionEndedEarly` | ext/catch/catch.hpp:8517-8525 | fails the innermost active section when it is the first to end early and closes it otherwise; pops it and records it as unfinished |
| `SectionTracker.RunContext.EndEarly` | ext/catch/catch.hpp:8518-8521 | fails or closes the tracker, depending on whether it is the first to end early |
| `SectionTracker.RunContext.RunSection` | ext/catch/catch.hpp:8788-8807 | one SECTION of a body: its tracker, the active sections and the sections entered, whether or not it is included and whether or not it throws |
| `SectionTracker.RunContext.EnterSection` | ext/catch/catch.hpp:8788-8797 | the constructor: included exactly when the cycle is not complete and the tracker is not |
| `SectionTracker.RunContext.StartSection` | ext/catch/catch.hpp:8477-8490 | the same for the tracker that stands at the section's own position |
| `SectionTracker.RunContext.RunIncluded` | ext/catch/catch.hpp:8799-8807 | an included section is entered, run and ended, and is owed one visit less: the one just made |
| `SectionTracker.RunContext.LeaveSection` | ext/catch/catch.hpp:8799-8807 | the destructor ends the section early exactly while unwinding |
| `SectionTracker.RunContext.RunBody` | ext/catch/catch.hpp:8653-8657 | what one execution of a body leaves behind, with the active sections the chain from the test case to the current tracker before and after |
| `SectionTracker.RunContext.HandleUnfinishedSections` | ext/catch/catch.hpp:8659-8668 | with no section active the deferred ends close nothing, and the list is emptied |
| `SectionTracker.RunContext.InvokeActiveTestCase` | ext/catch/catch.hpp:8653-8657 | one call of the test function: the visit made, and that the tracker is in a state that can be closed |
| `SectionTracker.RunContext.CloseTestCase` | ext/catch/catch.hpp:8643-8644 | closing the test case's tracker uses up exactly the cycle just made |
| `SectionTracker.RunContext.RunCurrentTest` | ext/catch/catch.hpp:8607-8646 | one cycle performs exactly the first cycle the test case is owed |
| `SectionTracker.RunContext.RunCycle` | ext/catch/catch.hpp:8416-8420 | the same for the loop's body, including finding the test case's tracker; the innermost tracker entered becomes complete, and no complete one changes |
| `SectionTracker.RunContext.RunTest` | ext/catch/catch.hpp:8401-8439 | the loop ends; the cycles performed, each with the sections it entered and whether it threw, are exactly those of the recursive definition `Cycles`, or the first ones up to the limit on failures; each completes the tracker it entered last, for good; none is repeated; a run to the end runs all leaves in order exactly under the condition of `AllLeavesRunIff`; the internal error is never raised |
| `SectionTracker.RunContext.RunCycles` | ext/catch/catch.hpp:8416-8420 | the loop: at least one cycle, as many as are owed or until the limit on failures is reached |
| `SectionTracker.RunAmountsTo` | ext/catch/catch.hpp:8401-8439 | what the cycles of a run amount to for leaves, their order and their number |
| `SectionRuns.VisitBound` | ext/catch/catch.hpp:8416-8420 | no section is owed more visits than the sections in it plus one |
| `SectionRuns.CycleBound` | ext/catch/catch.hpp:8416-8420 | whatever throws, a test case takes at least one cycle and at most one more than it has sections |
| `SectionRuns.CyclesDistinct` | ext/catch/catch.hpp:10002-10037 | whatever throws, no two cycles enter the same path of sections, so no leaf body runs twice |
| `SectionRuns.CycleThrewIff` | ext/catch/catch.hpp:8607-8646 | a cycle ends by an exception exactly when the test case's own body throws, or that of a section it enters |
| `SectionRuns.SectionLeaves` | ext/catch/catch.hpp:8517-8525 | the visits of a section run all its leaves in order when nothing in it is cut off, and fewer otherwise |
| `SectionRuns.NarrowIff` | ext/catch/catch.hpp:8517-8525 | a body is narrow exactly when no visit but its last reaches its end without an exception |
| `SectionRuns.AllLeavesRunIff` | ext/catch/catch.hpp:8517-8525 | every leaf runs, once and in depth-first order, if and only if each section whose own body throws is narrow: all its subsections but the last throw too, and the last throws or is narrow itself |
| `SectionRuns.OnlyLeavesThrowIsUncut` | ext/catch/catch.hpp:10038-10047 | failures in leaf bodies never meet that exception |
| `SectionRuns.EveryLeafRunsOnce` | ext/catch/catch.hpp:8416-8420 | when only leaf bodies fail, every leaf runs exactly once, in depth-first order |
| `SectionRuns.OneCyclePerLeaf` | ext/catch/catch.hpp:8416-8420 | when no section fails there are as many cycles as leaves, one without sections, and cycle k enters exactly the sections on the path to leaf k |
| `SectionRuns.InnerFailureLosesLeaf` | ext/catch/catch.hpp:8517-8525 | a test case in which a failure at the end of a section that has subsections keeps a passing leaf from ever running |
| `StateShape.Shape.Down` | include/lax/util/state.hpp:154-172 | the state that find returns has the key and lies at or below the start |
| `StateShape.Shape.ChildWith` | include/lax/util/state.hpp:303-311 | the first child, in key order, whose subtree has the key |
| `StateShape.Shape.HasIff` | include/lax/util/state.hpp:174-190 | `has` answers whether some state at or below has the key |
| `StateShape.Shape.FindsFirst` | include/lax/util/state.hpp:154-172 | of all states with the key, the one found comes first in depth-first key order |
| `StatePaths.Nearest` | include/lax/util/state.hpp:281-293 | going up stops at the nearest ancestor-or-self that contains the target |
| `StatePaths.Destination` | include/lax/util/state.hpp:237-314 | the state a path ends in has the target key |
| `StatePaths.PathIsRoute` | include/lax/util/state.hpp:237-314 | the recursion yields exits innermost first, one noop, then enters outermost first ending in the target, exactly for the states off the chain of the nearest containing ancestor; no path for an absent key |
| `StatePaths.NoPath` | include/lax/util/state.hpp:281-296 | an absent key yields no path from any state |
| `StatePaths.TurnsAtLowestCommonAncestor` | include/lax/util/state.hpp:237-314 | the noop stands at the lowest common ancestor of the current state and the destination |
| `StatePaths.RouteIsTrip` | include/lax/util/state.hpp:237-314 | every path goes from one chain of states to another that share a prefix |
| `StateRuns.StepBalanced` | include/lax/util/state_machine.hpp:147-177 | each step keeps enter_count minus exit_count at 1 for active states and 0 for others, modulo 2^32 |
| `StateRuns.ActiveAfter` | include/lax/util/state_machine.hpp:147-177 | which states are active after a step |
| `StateRuns.PathTrace` | include/lax/util/state_machine.hpp:147-177 | the callbacks of a path happen in the order of its steps |
| `StateRuns.RouteOk` | include/lax/util/state_machine.hpp:139-177 | every enter of a path finds its parent active and itself not, every exit finds the innermost active state |
| `StateRuns.TranSettles` | include/lax/util/state_machine.hpp:125-178 | a transition is all or nothing: a key in the hierarchy leaves a current state with that key and the callbacks listed; an absent key changes nothing; either way exactly the ancestors-or-self of the current state are active |
| `StateRuns.ThereAndBack` | include/lax/util/state_machine.hpp:125-178 | with unique keys, going to another state and back restores the current state and the active chain |
| `StateRuns.DestinationUnique` | include/lax/util/state.hpp:154-172 | with unique keys the destination does not depend on where the search starts |
| `StateRuns.TranFirstSettles` | include/lax/util/state_machine.hpp:111-122 | the active chain survives any sequence of transitions |
| `StateRuns.TranKeepsRoot` | include/lax/util/state_machine.hpp:125-178 | the callbacks of a transition contain no exit of the root |
| `StateRuns.RootNeverExited` | include/lax/util/state_machine.hpp:111-122 | nor do those of any sequence of transitions |
| `StateRuns.ExecuteOnce` | include/lax/util/state.hpp:107-120 | execution calls back each active state once, from the root down, adds one to the execution count of each, modulo 2^32, and changes nothing else |
| `StateRuns.ExecuteSettles` | include/lax/util/state_machine.hpp:36-42 | execution keeps the machine settled |
| `StateRuns.QueuedAsImmediate` | include/lax/util/state_machine.hpp:36-59 | queuing transitions and executing ends like making any first part of them at once, in order, and executing with the rest queued |
| `StateRuns.CountsAreCallbacks` | include/lax/util/state.hpp:101-139 | over any sequence of transitions and executions, each state's enter, exit and execution counts grow by the number of its own callbacks of that kind, modulo 2^32 |
| `StateGrowth.AddedValid` | include/lax/util/state.hpp:73-86 | adding a state gives a hierarchy again, and no state's chain changes |
| `StateGrowth.AddedSettles` | include/lax/util/state_machine.hpp:67-78 | adding a state leaves the machine settled |
| `StateGrowth.InsertedSorted` | include/lax/util/state.hpp:81 | the children stay sorted by key |
| `StateGrowth.StaysUniqueIff` | include/lax/util/state.hpp:78-79 | `add` keeps keys unique exactly when they were and the new key is nowhere in the hierarchy; it checks less |
| `StateGrowth.DuplicateKey` | include/lax/util/state.hpp:78-79 | a settled machine with unique keys to which `add` adds a key that it already has elsewhere |
| `StateMachine.State.constructor` | include/lax/util/state.hpp:63-67 | a state that is inactive, without parent, children and history |
| `StateMachine.State.OnEnter` | include/lax/util/state.hpp:208 | the callback is recorded |
| `StateMachine.State.OnExecute` | include/lax/util/state.hpp:209 | the callback is recorded |
| `StateMachine.State.OnExit` | include/lax/util/state.hpp:210 | the callback is recorded |
| `StateMachine.State.Enter` | include/lax/util/state.hpp:88-104 | active, the parent's active child, enter_count one more modulo 2^32, called back |
| `StateMachine.State.Exit` | include/lax/util/state.hpp:123-140 | inactive, no longer the parent's active child if it was, called back, exit_count one more modulo 2^32 |
| `StateMachine.State.Execute` | include/lax/util/state.hpp:107-120 | an inactive state does nothing; an active one makes the callback, then the active child's execution, then the count, for the rest of the active chain |
| `StateMachine.State.Insert` | include/lax/util/state.hpp:81 | the child stands after the children with smaller keys |
| `StateMachine.State.Has` | include/lax/util/state.hpp:174-190 | true exactly when the key is at or below |
| `StateMachine.State.Find` | include/lax/util/state.hpp:154-172 | the first state with the key in depth-first key order, null exactly when there is none |
| `StateMachine.State.GetTransitionPath` | include/lax/util/state.hpp:237-297 | appends the path, and reports failure exactly when there is none; the recursion up and then down ends |
| `StateMachine.State.GetChildPath` | include/lax/util/state.hpp:300-314 | goes on in the first child that has the target, and reports failure when there is none |
| `StateMachine.StateMachine.constructor` | include/lax/util/state_machine.hpp:29-34 | a machine with its root entered and current |
| `StateMachine.StateMachine.Switch` | include/lax/util/state_machine.hpp:147-177 | the fields each kind of step changes, in every state |
| `StateMachine.StateMachine.EnterState` | include/lax/util/state_machine.hpp:152-163 | what entering a state changes in every state |
| `StateMachine.StateMachine.ExitState` | include/lax/util/state_machine.hpp:164-168 | what exiting a state changes in every state |
| `StateMachine.StateMachine.Step` | include/lax/util/state_machine.hpp:147-177 | a step of the objects is a step of the value that represents them |
| `StateMachine.StateMachine.TranTo` | include/lax/util/state_machine.hpp:125-178 | the objects end as the value of the transition says |
| `StateMachine.StateMachine.ProcessTransitions` | include/lax/util/state_machine.hpp:111-122 | the queue is emptied and its transitions take effect in order |
| `StateMachine.StateMachine.Tran` | include/lax/util/state_machine.hpp:44-59 | an immediate transition takes effect, a safe one is queued and changes nothing else; the machine stays valid and the statistics count the callbacks made |
| `StateMachine.StateMachine.Execute` | include/lax/util/state_machine.hpp:36-42 | the queued transitions and then the execution, as a value; the statistics count the callbacks made |
| `StateMachine.StateMachine.Find` | include/lax/util/state_machine.hpp:80-83 | the first state with the key below the root |
| `StateMachine.StateMachine.Add` | include/lax/util/state_machine.hpp:67-78 | adds below the state found, unless its subtree has the key, and keeps the machine valid; otherwise changes nothing |
| `StateMachine.StateMachine.Attach` | include/lax/util/state.hpp:73-86 | child and parent are linked and the hierarchy is well formed |
| `TransactionRuns.CounterZero` | src/db/nanodbc.cpp:976-984 | though it counts downwards, the counter is zero exactly when no live transaction is uncommitted |
| `TransactionRuns.CounterIsCountIff` | src/db/nanodbc.cpp:866-869 | the counter is the number of uncommitted transactions only when that is 0 or 2^63 |
| `TransactionRuns.OneCountsAsAll` | src/db/nanodbc.cpp:976-979 | with one transaction begun the counter is 2^64 - 1 |
| `TransactionRuns.StepKeeps` | src/db/nanodbc.cpp:1028-1101 | every operation keeps the invariant of counter, mark, autocommit and pending work |
| `TransactionRuns.RunKeeps` | src/db/nanodbc.cpp:1028-1101 | so does every interleaving of them |
| `TransactionRuns.RunFromStart` | src/db/nanodbc.cpp:1028-1101 | in every run the counter is minus the uncommitted transactions modulo the word; if connected, autocommit is off while there is one, and with no transaction object alive all is back to the start; if not connected, the data source is never reached |
| `TransactionRuns.Untouched` | src/db/nanodbc.cpp:1031-1085 | without a connection no operation reaches the data source |
| `TransactionRuns.NothingDurableWhileOpen` | src/db/nanodbc.cpp:1048-1094 | durable data does not change while some transaction is uncommitted; the work waits in order |
| `TransactionRuns.LastOneDecides` | src/db/nanodbc.cpp:1048-1094 | the operation that brings the uncommitted count to zero decides: a commit makes everything durable, also what was rolled back inside; a destruction discards everything |
| `TransactionRuns.InnerRollbackIsLost` | src/db/nanodbc.cpp:1077-1101 | a run in which work rolled back by an inner transaction becomes durable with the outer commit |
| `TransactionRuns.LiveCounts` | src/db/nanodbc.cpp:1028-1101 | how many live transactions are uncommitted and committed, told from the operations alone |
| `TransactionRuns.MarkedIff` | src/db/nanodbc.cpp:1048-1101 | after every run a connected connection is marked exactly when a rollback, or the destruction of an uncommitted transaction, came after the last destruction that left none uncommitted |
| `TransactionRuns.MarkStays` | src/db/nanodbc.cpp:1056-1066 | without a connection a mark is never cleared |
| `TransactionRuns.AutocommitOffIff` | src/db/nanodbc.cpp:1031-1074 | autocommit is off exactly when a transaction was begun after that destruction |
| `TransactionRuns.RunIsLedger` | src/db/nanodbc.cpp:1028-1101 | what is durable and what waits after any run, told from the operations alone, without counter, mark and autocommit |
| `TransactionRuns.LastDestroyed` | src/db/nanodbc.cpp:1056-1074 | a committed object that is destroyed last discards the work that waits if and only if the connection is marked, and makes it durable otherwise |
| `TransactionRuns.WrittenLate` | src/db/nanodbc.cpp:1056-1074 | work written after the last commit, before its object is destroyed, waits in order |
| `Transactions.Connection.RefTransaction` | src/db/nanodbc.cpp:976-979 | decrements modulo the word |
| `Transactions.Connection.UnrefTransaction` | src/db/nanodbc.cpp:981-984 | increments modulo the word |
| `Transactions.Connection.Release` | src/db/nanodbc.cpp:1056-1074 | the tail of the destructor |
| `Transactions.Transaction.constructor` | src/db/nanodbc.cpp:1028-1046 | a step Begin; the object is among the uncommitted ones |
| `Transactions.Transaction.Destroy` | src/db/nanodbc.cpp:1048-1075 | a step of destruction, for committed and uncommitted objects |
| `Transactions.Transaction.Commit` | src/db/nanodbc.cpp:1077-1094 | a step Commit, or nothing the second time |
| `Transactions.Transaction.Rollback` | src/db/nanodbc.cpp:1096-1101 | marks the connection unless committed, and does nothing else |
| `RowsetCursor.ReadsInOrder` | src/db/nanodbc.cpp:1982-1988 | call k of `next` succeeds and stands on row k, for k up to the number of rows |
| `RowsetCursor.StaysPast` | src/db/nanodbc.cpp:1982-1988 | every later call fails |
| `RowsetCursor.AgreesWithRowCount` | src/db/nanodbc.cpp:1982-2041 | `next` succeeds exactly for the calls 1 to n, and `position` is then the call's number |
| `RowsetCursor.AgreesWithRowAtATime` | src/db/nanodbc.cpp:1982-2041 | any rowset size reads like a rowset size of one |
| `RowsetCursor.FetchCount` | src/db/nanodbc.cpp:2256-2274 | up to and including the first failure exactly floor(n / size) + 1 rowsets are fetched |
| `RowsetCursor.AtEndIff` | src/db/nanodbc.cpp:2266-2270 | the end flag is set exactly by the fetch that finds no rows: once `next` was called more often than the rowsets have places |
| `RowsetCursor.PositionAlways` | src/db/nanodbc.cpp:2013-2041 | `position` is the call's number up to there, also on the unused places of the last rowset, and 0 afterwards |
| `RowsetCursor.Statement.FetchNext` | src/db/nanodbc.cpp:2260-2265 | the driver's SQL_FETCH_NEXT |
| `RowsetCursor.Result.constructor` | src/db/nanodbc.cpp:1905-1937 | a result before its first row |
| `RowsetCursor.Result.Next` | src/db/nanodbc.cpp:1982-1988 | moves as the value's `Advance` does |
| `RowsetCursor.Result.Fetch` | src/db/nanodbc.cpp:2256-2274 | fetches the next rowset, or sets the end flag |
| `RowsetCursor.Result.GetPosition` | src/db/nanodbc.cpp:2013-2041 | the row's number, or 0 where the driver has none |
| `Dispatch.FirstMin` | src/task/task_scheduler.cpp:148-165 | the least loaded runner is the first with the smallest queue |
| `Dispatch.SumIsCount` | src/task/task_scheduler.cpp:136-146 | the sum of the loads is the number of tasks in the queues |
| `Dispatch.Balanced` | src/task/task_scheduler.cpp:101-122 | dispatching first-time bound tasks always succeeds, places all of them, and leaves each runner that received one at most one above the least load |
| `Dispatch.LoadBound` | src/task/task_scheduler.cpp:101-122 | no load exceeds the larger of what it was and the mean rounded up: all queued tasks, old and new, over the runners |
| `Dispatch.PlainOutOfBounds` | src/task/task_scheduler.cpp:124-129 | a task without affinity is pushed out of bounds exactly when the last runner is the only least loaded one |
| `Dispatch.OneRunnerFails` | src/task/task_scheduler.cpp:124-129 | with a single runner that is always so |
| `Dispatch.PlainPileUp` | src/task/task_scheduler.cpp:124-129 | all tasks without affinity in a queue go to the runner after the first least loaded one, however many they are; without such a runner the call fails as soon as there is one |
| `Dispatch.PlainCallOutOfBounds` | src/task/task_scheduler.cpp:107-132 | a whole call on such tasks leaves the vector exactly when there is a task and, before the call, the last runner is the only least loaded one |
| `Dispatch.PlainOnLeastIff` | src/task/task_scheduler.cpp:124-129 | such a task lands on a least loaded runner exactly when the runner after the first least loaded one carries as little |
| `SchedulerRuns.ScheduleKeeps` | src/task/task_scheduler.cpp:59-62 | scheduling adds the task once and keeps the invariant |
| `SchedulerRuns.DispatchKeeps` | src/task/task_scheduler.cpp:101-131 | dispatching neither loses nor duplicates a task, and hands a bound task that has run only to its own runner |
| `SchedulerRuns.ExecuteKeeps` | src/task/task.cpp:30-42 | a runner's step keeps every task; every bound task in its queue has run on no other runner, so the affinity exception is never met, and its runner never changes |
| `SchedulerRuns.StepKeeps` | src/task/task_scheduler.cpp:49-170 | the same for every step |
| `SchedulerRuns.RunKeeps` | src/task/task_scheduler.cpp:49-170 | over every interleaving tasks are conserved apart from newly scheduled ones, each in one queue; a bound task that ran keeps its runner; no runner's queue holds a bound task that another one ran |
| `SchedulerRuns.FirstComeFirstServed` | src/task/task_scheduler.cpp:101-131 | over every interleaving a runner executes what waits for it in the order in which it came |
| `TaskScheduler.Task.Start` | src/task/task.cpp:18-28 | ready when the callback agrees; reports whether the task is ready |
| `TaskScheduler.Task.Execute` | src/task/task.cpp:30-60 | the affinity exception exactly for a ready bound task that another runner ran last, the other one exactly for a task that is not ready, and then without effect; otherwise the runner and the count are recorded |
| `TaskScheduler.TaskScheduler.constructor` | src/task/task_scheduler.cpp:19-47 | runners with ids from 1 and empty queues |
| `TaskScheduler.TaskScheduler.GetTaskCount` | src/task/task_scheduler.cpp:136-146 | the number of tasks queued anywhere |
| `TaskScheduler.TaskScheduler.GetTargetRunnerId` | src/task/task_scheduler.cpp:148-165 | the first least loaded runner's id; the random fallback exactly when every load reaches the initial minimum |
| `TaskScheduler.TaskScheduler.Round` | src/task/task_scheduler.cpp:107-132 | one round of the loop |
| `TaskScheduler.TaskScheduler.Target` | src/task/task_scheduler.cpp:111-129 | the index at which `runners_` is accessed, in each branch |
| `TaskScheduler.TaskScheduler.Drain` | src/task/task_scheduler.cpp:107-132 | the loop succeeds exactly when no index is out of bounds, and then places every task as the value says |
| `TaskScheduler.TaskScheduler.RunSchedule` | src/task/task_scheduler.cpp:101-134 | the same for the whole scheduler, which stays valid |
| `TaskScheduler.TaskScheduler.Offer` | src/task/task_scheduler.cpp:51-66 | starts a constructed task if configured, and queues it exactly when ready |
| `TaskScheduler.TaskScheduler.Schedule` | src/task/task_scheduler.cpp:49-72 | then dispatches if configured |
| `TaskScheduler.TaskScheduler.RunIfConfigured` | src/task/task_scheduler.cpp:68-71 | dispatches exactly if configured |
| `TaskScheduler.TaskScheduler.Pass` | src/task/task_scheduler.cpp:167-170 | appends to the scheduler's queue |
| `TaskScheduler.TaskScheduler.RunNext` | src/task/task.cpp:30-60 | a runner takes its next task, executes it and passes it back; no exception occurs |
| `PoolRuns.StepKeeps` | include/lax/util/object_pool.hpp:57-180 | the addresses stay apart; a construction gets an address without an object, and a destructor runs only where there is one |
| `PoolRuns.RunKeeps` | include/lax/util/object_pool.hpp:57-180 | in every reachable state each address is free once, or holds an object behind exactly one ref, a raw handle, or nothing that remembers it |
| `PoolRuns.CallsArePeak` | include/lax/util/object_pool.hpp:100-115 | the allocator is called exactly as often as the largest number of objects that existed at one time, abandoned ones included |
| `PoolRuns.ReusedInOrder` | include/lax/util/object_pool.hpp:100-115 | addresses are used again in the order in which they were freed, and before the allocator is asked |
| `PoolRuns.DestroyedOnce` | include/lax/util/object_pool.hpp:87-92 | between two destructions at one address there is a construction |
| `PoolRuns.ConstructedOnce` | include/lax/util/object_pool.hpp:57-85 | between two constructions at one address there is a destruction |
| `PoolRuns.LostForever` | include/lax/util/object_pool.hpp:169-180 | an abandoned object is never destroyed |
| `PoolRuns.NothingLostIff` | include/lax/util/object_pool.hpp:169-180 | objects are abandoned exactly by assigning over a ref that owns one |
| `PoolRuns.AssigningLoses` | include/lax/util/object_pool.hpp:169-180 | a run in which an object that exists has no owner left |
| `PoolRuns.AllReturned` | include/lax/util/object_pool.hpp:112-115 | with no owning ref and no raw handle left, everything but the abandoned is free again |
| `PoolRuns.MovedFromInert` | include/lax/util/object_pool.hpp:144-180 | dropping a moved-from ref changes nothing else, and moving back changes the two refs only: it abandons nothing |
| `ObjectPool.Slot.Construct` | include/lax/util/object_pool.hpp:62 | placement new, only where no object exists |
| `ObjectPool.Slot.Destruct` | include/lax/util/object_pool.hpp:89 | the destructor, only where an object exists |
| `ObjectPool.Allocator.Allocate` | include/lax/util/object_pool.hpp:109 | an address not handed out before |
| `ObjectPool.Ref.constructor` | include/lax/util/object_pool.hpp:135-142 | a ref that owns what it is given |
| `ObjectPool.Ref.Move` | include/lax/util/object_pool.hpp:169-180 | takes the other's object and empties it; moving onto itself does nothing; what was owned is not destroyed |
| `ObjectPool.Ref.MoveFrom` | include/lax/util/object_pool.hpp:33 | the copy constructor moves |
| `ObjectPool.Ref.Assign` | include/lax/util/object_pool.hpp:34 | assignment moves, and abandons what the target owned |
| `ObjectPool.Ref.Drop` | include/lax/util/object_pool.hpp:144-151 | the destructor destroys exactly what the ref still owns |
| `ObjectPool.ObjectPool.constructor` | include/lax/util/object_pool.hpp:48 | an empty pool |
| `ObjectPool.ObjectPool.Alloc` | include/lax/util/object_pool.hpp:100-110 | the oldest free address, or a new one |
| `ObjectPool.ObjectPool.Build` | include/lax/util/object_pool.hpp:70-72 | the address obtained holds the new object |
| `ObjectPool.ObjectPool.Construct` | include/lax/util/object_pool.hpp:67-75 | a fresh ref owns the new object |
| `ObjectPool.ObjectPool.ConstructRaw` | include/lax/util/object_pool.hpp:57-65 | the object is behind a raw handle |
| `ObjectPool.ObjectPool.Dealloc` | include/lax/util/object_pool.hpp:112-115 | the address is appended to the free queue |
| `ObjectPool.ObjectPool.DestroyObject` | include/lax/util/object_pool.hpp:87-92 | the destructor runs and the address is free |
| `ObjectPool.ObjectPool.Destroy` | include/lax/util/object_pool.hpp:87-92 | the same for a raw handle, as a step of the pool |
| `ObjectPool.ObjectPool.Cleanup` | include/lax/util/object_pool.hpp:117-125 | every free address goes back; the allocator is left with exactly the addresses that still hold objects |
| `CatchLoops.Find` | ext/catch/catch.hpp:9423 | the first occurrence at or after a position, or none |
| `CatchLoops.FirstReplaced` | ext/catch/catch.hpp:9426 | replacement up to and including the first occurrence |
| `CatchLoops.NoneReplaced` | ext/catch/catch.hpp:9424 | without an occurrence nothing is replaced |
| `CatchLoops.ReplacedBySelf` | ext/catch/catch.hpp:9421-9433 | replacing a pattern by itself changes nothing |
| `CatchLoops.RoundKeeps` | ext/catch/catch.hpp:9424-9431 | one round of the loop finishes the text up to the next occurrence and never looks at inserted text again |
| `CatchLoops.RoundReplaces` | ext/catch/catch.hpp:9426 | one round replaces exactly the occurrence found, behind text that is finished |
| `CatchLoops.Round` | ext/catch/catch.hpp:9424-9431 | the code of a round does that |
| `CatchLoops.ReplaceInPlace` | ext/catch/catch.hpp:9421-9433 | for a non-empty pattern the loop ends with the left-to-right replacement without overlaps; the flag tells whether the pattern occurred |
| `CatchLoops.EmptyPatternGoesOn` | ext/catch/catch.hpp:9424-9431 | for an empty pattern and a string that is not empty the loop never ends, and what the string is in each round |
| `CatchLoops.EndsIff` | ext/catch/catch.hpp:9421-9433 | the loop ends if and only if the pattern is not empty or the string is |
| `CatchLoops.AddToMax` | ext/catch/catch.hpp:11411-11418 | adds to the last of the largest bars, in the order failed, failed but ok, passed |
| `CatchLoops.RatioBounds` | ext/catch/catch.hpp:11406-11409 | a ratio is zero exactly when its count is, and never above the width, also where the product wraps |
| `CatchLoops.RatioSum` | ext/catch/catch.hpp:11406-11409 | without wrapping the three ratios add up to the width, give or take two |
| `CatchLoops.EqualCounts` | ext/catch/catch.hpp:11835-11843 | as many failed as passed, and no other, give bars of 40 and 39 |
| `CatchLoops.ThreeEqualCounts` | ext/catch/catch.hpp:11835-11843 | three equal counts give bars of 26, 26 and 27 |
| `CatchLoops.Adjust` | ext/catch/catch.hpp:11840-11843 | both loops end with the bars that adding to the last of the largest leads to, of the right sum, no bar becoming or ceasing to be zero, and no bar further off than the sum was |
| `CatchLoops.PrintTotalsDivider` | ext/catch/catch.hpp:11835-11857 | three bars of total length 79, fixed by the counts, each empty exactly when its count is zero and, without wrapping, within three of its ratio; 40 and 39 for equal numbers failed and passed |

## Left out

- SectionTracker.Tracker.TryOpen: models no section filters, so every tracker that is not complete is opened.
- SectionTracker.Tracker.Close: requires the tracker to be the current one, so the loop that closes children left open does not occur. Generators leave children open; in a run of sections every call meets this, and the model proves it at each.
- SectionTracker.RunContext.SectionEnded: models no assertion totals, so neither the test for missing assertions nor the clearing of messages, which change no tracker.
- SectionTracker.RunContext.RunCurrentTest: models no assertion totals and no redirected output.
- SectionTracker.RunContext.RunTest: models no section filters, no fatal signals and no totals, so the limit on failures is a parameter; sections have distinct names among siblings and are entered at most once under one parent in a cycle, and a name stands for name and source location.
- SectionTree.BodyEnds: a body behaves alike in every cycle and throws after its last section or not at all; sections written after a throw are never reached in any cycle, so such a body is modelled without them.
- StateMachine.StateMachine.Add: adds a state that has no children yet; larger subtrees are built by adding their states one at a time, so moving a ready-made subtree into a machine is not modelled. A state that already belongs to a hierarchy is not added again.
- StateMachine.StateMachine.Attach: the same.
- StateMachine.State.Enter: callbacks only leave events in a trace; callbacks that use the machine again are not modelled, nor is the state's reference to its machine.
- Transactions.Transaction.constructor: ODBC calls succeed, the connection neither connects nor disconnects while a transaction object is alive, and fewer than 2^64 transactions are uncommitted at one time.
- RowsetCursor.Result.Next: prior, skip, first, last and move are not modelled: prior and skip ignore the position inside the rowset, so they do not refine stepping by rows.
- TaskScheduler.Task.Execute: execution times are not modelled.
- TaskScheduler.TaskScheduler.constructor: every runner starts, so ids and positions agree.
- TaskScheduler.TaskScheduler.Target: the first runner holds fewer than 2^32 - 1 tasks, so the random fallback of the least-load search is never needed.
- TaskScheduler.TaskScheduler.Round: the same.
- TaskScheduler.TaskScheduler.Drain: the scheduler's queue and the first runner's together hold fewer than 2^32 - 1 tasks, for the same reason.
- TaskScheduler.TaskScheduler.RunSchedule: the same; where an index leaves the vector the call reports failure and nothing is said about the state.
- TaskScheduler.TaskScheduler.Schedule: the task is in no queue yet, and its affinity does not change once it is scheduled; `finish` is not modelled.
- TaskScheduler.TaskScheduler.RunNext: threads, and thread interleaving inside the concurrent queue, are not modelled; the task runner's source file is not part of this model.
- ObjectPool.Ref.Assign: both refs belong to one pool.
- ObjectPool.ObjectPool.Destroy: a raw handle is destroyed only by its holder, and a ref's pointer is not passed to `destroy` by hand.
- ObjectPool.ObjectPool.Construct: also stands for the shared form, whose reference count is not modelled; constructors do not throw.
- CatchLoops.PrintTotalsDivider: requires that the three counts add up to less than 2^64; colours are not modelled.
- The ODBC driver, binding, type conversion, asynchronous calls and the catalog of nanodbc.
- Catch's reporters, matchers, text flow, generators and command line.
- Channels, sessions, the network service, JSON configuration, logging, timers and the code generator.
