# Canonizing sets, uniquely Hamiltonian graphs and the solver below them

This project models the algorithmic core of a thesis repository on symmetry in graph search and proves what that core
promises. It has four parts, each in the form the program itself has: classes with the program's fields where objects
are updated in place, loops where the program loops, and specification functions with lemmas beside them.

* **The clause-learning solver** (`Cnf`, `SolverSpec`, `Redundancy`, `Analysis`, `ImplicationPoint`, `SearchSpec`,
  `SmallStates`, `Reloc`, `Heap`, `Solver`). The class `Cdcl.Solver` has the trail, the decision levels, the clause
  store, both kinds of watch lists with blockers and lazy deletion, reasons, marks and the clause lists as fields, and
  one method per step of the program. `State` packs these fields as a value; `Structure`, `Meaning` and `Done` are the
  invariants every step keeps. Heuristics (activities, restarts, which learnt clauses go, when to collect) are
  arbitrary choices, so the results hold for every run. The copying clause collector takes part in these runs: it is
  invoked wherever the program may invoke it. What a conflict teaches is not arbitrary: `LearntFrom` determines the
  learnt clause. Nor is the end of a search: `Rank` reads the trail as a number that every round raises.
* **The preprocessor** (`SimpSpec`, `Simp`). Variable elimination by resolution, with its packed undo log, subsumption
  and strengthening over occurrence lists with lazy deletion. `Rebuilds` says that every model of what is left
  becomes, through the log, a model of everything added; `Follows` says that what is left follows from what was added.
* **Canonizing sets** (`Graphs`, `Orbits`, `Matrix`, `Encode`, `GraphCnf`, `LexCnf`, `Constraints`, `CanonSpec`,
  `Canonizing`, `PermSet`). Graph constraints as clauses in the solver above, and the two counterexample-guided loops
  on top. `Step(f, nv, f', phi)` is the meaning of an encoding step: projected to the first nv variables, the new
  clauses are exactly the old ones together with phi. The end results are about graphs: a set of implications (or
  permutations) accepts exactly the graphs whose string is least among all their permuted copies.
* **Uniquely Hamiltonian graphs** (`Hamilton`, `PathSearch`, `Uhg`, `Dihedral`, `UhgRun`, `UhgClasses`, `Paths`). The
  propagator with its chord rules and its pruned explicit-stack search over residual degrees, the symmetry breaking by
  the dihedral group, runs of the whole search, and the path enumerations. The graph is a symmetric matrix of three
  values.

## Reading the main results

* The solver: `Cdcl.Solver.Solve`, with `Search` and `SearchStep` for the runs, `Analyze`, `Propagate` and
  `GarbageCollect` for the hardest steps, `SearchSpec.PropagationComplete` and `FullModel` for what propagation gives,
  and `ImplicationPoint.LearntUnique` for what analysis gives.
* The preprocessor: `Simp.SimpSolver.EliminateVar`, `BackwardSubsumptionCheck`, `Eliminate` and `Solve`, with
  `SimpSpec.ElimKeeps` and `ModelExtends`.
* Canonizing sets: `Compute`, `Extend` and `ExtendSubgraph` of `CanonizingLexImplicationsAlg`,
  `Canonize.RunIncremental`, `CanonizingPermutationSetAlg.Compute`, `CanonSpec.EncodingExact` and
  `CanonSpec.OnePerClass`.
* Uniquely Hamiltonian graphs: `Uhg.PropOptimized.PropagateEdge` and `PropagateAll`, `UhgRun.OnlyBaseCycle`,
  `AcceptedCycles` and `RunAgrees`, `UhgClasses.ExactlyOne`, `Dihedral.ListedOnce`, `Paths.OnePerPath`.

## Where the code differs from what is said about it

* The comment at incremental/algorithm/core/Solver.cc:778-779 promises an empty queue even after a conflict. The
  return at lines 801-802 leaves `qhead` where it is. `Propagate` states the exact condition: after a conflict the
  queue is empty if and only if the conflicting clause has more than two literals. `SmallStates.QueueNotEmpty` is a
  state where it is not.
* `boolOrReif` (incremental/algorithm/core/ConstraintSolver.cc:269-273) does not fix its output when both inputs are
  true: `Encode.OrReifExactness` gives the exact condition. The disjunction chain built on it fixes a fresh output
  exactly under the assignments that make at most one input true (`BoolArrayOrReif`, `GraphCnf.ChainPins`;
  `GraphCnf.ThreeInputs` is an input on which it fails), and with a single input it only bounds its output
  (`GraphCnf.OrReifAlone`). `isomorphic` is exact all the same, because the permutation clauses make its inputs
  exclusive (`GraphCnf.TermsExclusive`).
* `removeClause` (incremental/algorithm/core/Solver.cc:324) clears the reason of the first literal only. A removed
  clause is still named as a reason exactly where, being binary, it implied its second literal at the root
  (`RemoveClause`, `SearchSpec.DanglingExact`); `SmallStates.DanglingReason` is such a state. Analysis never looks at
  reasons of level 0, and the collector keeps the clause (`RelocReasons`).
* The loop of rule 2 (uniquely-hamiltonian-graphs/PropOptimized.java:71) is entered only when the chord's larger end
  is close enough to n for the index to wrap around; otherwise it does nothing, although the comment above it names
  edges that close a second Hamiltonian cycle (`Hamilton.Rule2`). `Uhg.Rule2Misses` is such a graph, and `ApplyRule2`
  states when every edge the comment names is excluded.
* Permutations of a smaller graph are extended by the identity when used on a larger one
  (incremental/algorithm/mtl/Matrix.h:77-78); `CanonSpec.LeastSat` is what makes this sound.

## Model

| member | source | states |
|---|---|---|
| `Cdcl.Solver.Solve` | incremental/algorithm/core/Solver.cc:1202-1283 | after any sequence of calls: False only if the clauses ever added have no model; True with a value for every decision variable, and a total model of all clauses whenever every variable that occurs in them is a decision variable; Undef only when at least as many conflicts as the budget allows have been met; the solver is ready for the next call |
| `Cdcl.Solver.Search` | incremental/algorithm/core/Solver.cc:1030-1162 | terminates on its own, over every run of propagate, learn, backjump, simplify, reduce and collect steps: True with everything propagated and every decision variable assigned, False only if the clauses are unsatisfiable, Undef only at a restart, which takes a full window of 50 conflicts since the last one |
| `Cdcl.Solver.SearchStep` | incremental/algorithm/core/Solver.cc:1039-1161 | one round keeps all invariants whatever the heuristics choose and raises the rank of the trail; False at a root conflict only, True only when no decision variable is free, Undef only at a restart with a full window |
| `SearchSpec.RankLearn` | incremental/algorithm/core/Solver.cc:1066-1096 | going back to a lower level and asserting one more literal there raises the rank of the trail, a number in base 3 that reads later positions as less significant |
| `SearchSpec.RankDecide` | incremental/algorithm/core/Solver.cc:1158-1159 | opening a level with a free literal raises the rank |
| `SearchSpec.RankBelow` | incremental/algorithm/core/Solver.cc:1030-1162 | the rank is bounded by the number of variables alone, so the search ends whatever clauses are learnt or deleted |
| `Cdcl.Solver.HandleConflict` | incremental/algorithm/core/Solver.cc:1066-1096 | after a conflict below the root: the learnt clause is the one that the analysis of this conflict determines; it is stored last, the trail is that of the lower levels with its first literal behind, and all invariants are restored |
| `Cdcl.Solver.Propagate` | incremental/algorithm/core/Solver.cc:781-888 | no conflict: the queue is empty and every processed watcher has a literal true at no later level; conflict: the returned clause is false with a literal of the current level, all lower levels are propagated, and the queue is empty if and only if that clause has more than two literals; after a binary conflict its head is just behind the literal whose watchers conflict |
| `SolverSpec.BinQueue` | incremental/algorithm/core/Solver.cc:798-802 | a binary conflict always leaves the other literal of the clause waiting in the queue |
| `SmallStates.QueueNotEmpty` | incremental/algorithm/core/Solver.cc:778-802 | a state with a binary conflict and a queue that is not empty |
| `SearchSpec.PropagationComplete` | incremental/algorithm/core/Solver.cc:781-888 | with everything propagated, no stored clause is false or an unpropagated unit |
| `Cdcl.Solver.PropagateBin` | incremental/algorithm/core/Solver.cc:794-808 | each binary watcher is satisfied, enqueues its blocker with a correct reason, or is a conflict |
| `Cdcl.Solver.VisitLong` | incremental/algorithm/core/Solver.cc:812-881 | one long watcher: kept satisfied, moved to a non-false literal, unit, or conflict; lists, blockers and clause contents up to order are preserved |
| `Cdcl.Solver.MoveWatcher` | incremental/algorithm/core/Solver.cc:858-863 | the watcher leaves this list for that of the new literal, and both watches of every stored clause are still listed |
| `SolverSpec.MoveWatchOk` | incremental/algorithm/core/Solver.cc:858-863 | re-watching keeps every list well-formed and every stored long clause watched by its first two literals |
| `SolverSpec.UnitOrConflict` | incremental/algorithm/core/Solver.cc:867-879 | with no other watch to be found, the first literal may be enqueued with this reason, or the clause is a conflict |
| `Cdcl.Solver.CleanAll` | incremental/algorithm/core/SolverTypes.h:315-336 | lists of dirty literals lose exactly their deleted watchers, other lists are unchanged, and nothing is dirty afterwards |
| `SolverSpec.CleanStep` | incremental/algorithm/core/SolverTypes.h:326-336 | cleaning one list keeps all invariants of the solver state |
| `Cdcl.Solver.UncheckedEnqueue` | incremental/algorithm/core/Solver.cc:761-767 | the new state is the old one with the literal pushed, assigned, at the current level, with the given reason |
| `SolverSpec.EnqueueReason` | incremental/algorithm/core/Solver.cc:761-767 | enqueueing a forced literal keeps every reason: its clause has the literal true and all others false and earlier on the trail |
| `Cdcl.Solver.Analyze` | incremental/algorithm/core/Solver.cc:507-679 | the learnt clause follows from the clauses added, is false, has exactly one literal of the current level, at index 0, and at index 1 one of the highest remaining level, which is returned; it is exactly the first implication point, negated, with the literals of lower levels reached by resolution, less those that recursive minimisation finds redundant and those that binary clauses refute; marks are cleared |
| `ImplicationPoint.LearntUnique` | incremental/algorithm/core/Solver.cc:507-679 | the literals of the learnt clause and the one in front are determined by the conflict and the state |
| `ImplicationPoint.PointUnique` | incremental/algorithm/core/Solver.cc:517-581 | a conflict has one first implication point |
| `Cdcl.Solver.FirstUip` | incremental/algorithm/core/Solver.cc:517-581 | resolution ends at the first implication point: the only variable of the current level left among those reached from the conflict, with a second one left at every later position; the marks are exactly the reached variables of lower levels; the formula entails the negated point together with their literals |
| `ImplicationPoint.ReachedGap` | incremental/algorithm/core/Solver.cc:570-573 | walking back past unmarked literals of the trail reaches nothing new |
| `ImplicationPoint.ResolveReached` | incremental/algorithm/core/Solver.cc:548-577 | resolving on a literal that is no implication point marks exactly what its reason reaches |
| `Analysis.ResolveEntailed` | incremental/algorithm/core/Solver.cc:548-577 | one resolution step: replacing a marked literal by the others of its reason keeps the marked clause entailed |
| `Analysis.LearntEntailed` | incremental/algorithm/core/Solver.cc:574-581 | when one marked literal of the current level is left, the clause of marked literals is entailed |
| `Cdcl.Solver.LitRedundant` | incremental/algorithm/core/Solver.cc:684-715 | true if and only if the literal is redundant relative to the marks: it was implied, and every other literal of its reason is a root fact, marked, or implied at an admitted level and redundant itself, by recursion on trail position; the marks left behind are on redundant variables only, and on refusal they are as before |
| `Redundancy.RedundantMemo` | incremental/algorithm/core/Solver.cc:684-715 | marks left behind for redundant variables change nothing about what is redundant, in either direction |
| `Analysis.AllRedundant` | incremental/algorithm/core/Solver.cc:684-715 | when the stack runs empty everything marked on the way is redundant relative to the marks at the start |
| `Analysis.AgreesWithTrail` | incremental/algorithm/core/Solver.cc:590-600 | an assignment that falsifies the kept literals agrees with the trail on everything marked: well-founded on trail order although many literals go at once |
| `Analysis.MinimisedEntailed` | incremental/algorithm/core/Solver.cc:590-619 | the clause without all redundant literals is still entailed |
| `Cdcl.Solver.MinimiseDeep` | incremental/algorithm/core/Solver.cc:590-619 | exactly the literals that are not redundant relative to the marks at the implication point stay, in order; the clause is still entailed, with the negated implication point as its only literal of the current level, and every mark is listed for clearing |
| `Cdcl.Solver.MinimiseBinary` | incremental/algorithm/core/Solver.cc:407-445 | exactly the literals that a binary watcher of the first literal refutes go, from a clause of at most 30 literals and 6 levels and from no other; the clause is still entailed behind the same first literal |
| `Analysis.BinMinimised` | incremental/algorithm/core/Solver.cc:420-428 | dropping literals that binary clauses of the first literal imply keeps the clause entailed |
| `Cdcl.Solver.PartitionFlagged` | incremental/algorithm/core/Solver.cc:429-443 | the in-place exchange loop keeps exactly the flagged literals, whatever their order, and never runs past the moving end |
| `Cdcl.Solver.BacktrackLevel` | incremental/algorithm/core/Solver.cc:634-647 | the same literals with the same one in front; a literal of the highest remaining level is at index 1, and that level is returned |
| `Analysis.AssertingMany` | incremental/algorithm/core/Solver.cc:634-647 | the rearranged clause is asserting |
| `Cdcl.Solver.CancelUntil` | incremental/algorithm/core/Solver.cc:449-461 | the trail is cut to the given level; what is left keeps its values, levels and reasons, is propagated, and every freed decision variable is back in the heap |
| `SearchSpec.CutStep` | incremental/algorithm/core/Solver.cc:449-461 | backtracking keeps all invariants: a clause satisfied early enough stays satisfied |
| `SearchSpec.AssertingUnitAfterCut` | incremental/algorithm/core/Solver.cc:1068-1074 | after backtracking to the returned level the learnt clause is unit and its first literal free |
| `SearchSpec.LearnStep` | incremental/algorithm/core/Solver.cc:1086-1095 | attaching the learnt clause and enqueueing its first literal restores the watch invariant and the meaning of the database |
| `Cdcl.Solver.LearnClause` | incremental/algorithm/core/Solver.cc:1086-1095 | all search invariants hold again with the learnt clause stored |
| `Cdcl.Solver.AttachClause` | incremental/algorithm/core/Solver.cc:267-279 | the clause is watched by its first two literals, in the list its length calls for, each with the other as blocker |
| `SearchSpec.AttachStructure` | incremental/algorithm/core/Solver.cc:267-279 | attaching a new clause keeps the structure of the whole state |
| `Cdcl.Solver.RemoveClause` | incremental/algorithm/core/Solver.cc:284-327 | the clause is only marked; its lists become dirty; everything propagated stays propagated; afterwards it is still named as a reason exactly where, being binary, it implied its second literal |
| `SearchSpec.DanglingExact` | incremental/algorithm/core/Solver.cc:322-325 | clearing the reason of the first literal leaves exactly that of an implied second one |
| `SmallStates.DanglingReason` | incremental/algorithm/core/Solver.cc:322-325 | a state at the root in which removing a satisfied clause leaves a deleted clause as a reason, with all invariants intact |
| `SearchSpec.RemoveStep` | incremental/algorithm/core/Solver.cc:284-327 | marking an unlocked clause deleted keeps structure, reasons and watches |
| `Cdcl.Solver.ReduceDb` | incremental/algorithm/core/Solver.cc:923-955 | as many learnt clauses are left as the list without the chosen unlocked long ones has; all invariants and the meaning of the database stay |
| `Cdcl.Solver.DropLearnts` | incremental/algorithm/core/Solver.cc:937-953 | the learnt clauses left are exactly those that are not chosen, or locked, or binary, in order |
| `Cdcl.Solver.RemoveSatisfiedLearnts` | incremental/algorithm/core/Solver.cc:958-972 | the learnt clauses left are exactly those without a true literal, in order |
| `Cdcl.Solver.RemoveSatisfiedClauses` | incremental/algorithm/core/Solver.cc:958-972 | exactly the problem clauses true at the root go, the others keep their order; stored clauses and root facts still say everything that was added |
| `SearchSpec.DropSatisfied` | incremental/algorithm/core/Solver.cc:958-972 | leaving out a clause that a root fact satisfies loses no meaning |
| `Cdcl.Solver.Simplify` | incremental/algorithm/core/Solver.cc:993-1014 | false only if the clauses are unsatisfiable; otherwise settled again at the root |
| `Cdcl.Solver.PickBranchLit` | incremental/algorithm/core/Solver.cc:468-487 | None only if every decision variable is assigned; otherwise an unassigned variable, at random or taken off the heap, and the only one that may be missing there |
| `Cdcl.Solver.RebuildOrderHeap` | incremental/algorithm/core/Solver.cc:975-982 | the heap holds exactly the unassigned decision variables |
| `Cdcl.Solver.Decide` | incremental/algorithm/core/Solver.cc:1158-1159 | a new level opened with a free literal, ready to propagate |
| `SearchSpec.FullModel` | incremental/algorithm/core/Solver.cc:1260-1263 | everything propagated and every variable that occurs in the clauses added assigned: the assignment satisfies every clause ever added, whatever other variables are free |
| `Cdcl.Solver.AddClause` | incremental/algorithm/core/Solver.cc:214-264 | the clause joins the formula; false exactly when the solver is no longer considered satisfiable, which is then proved; from a propagated state success leaves everything propagated |
| `Cdcl.Solver.Reduce` | incremental/algorithm/core/Solver.cc:220-239 | sorting and one pass remove exactly the repeated and root-false literals; None only for a satisfied clause or a tautology |
| `SearchSpec.AddClauseStep` | incremental/algorithm/core/Solver.cc:258-261 | storing the reduced clause says, with the root facts, what the added clause says |
| `SearchSpec.AddUnit` | incremental/algorithm/core/Solver.cc:254-256 | a clause reduced to one literal becomes a root fact that carries its meaning |
| `Cdcl.Solver.NewVar` | incremental/algorithm/core/Solver.cc:192-210 | a fresh variable disturbs neither invariants nor formula |
| `Cdcl.Solver.constructor` | incremental/algorithm/core/Solver.cc:88-160 | a solver without clauses satisfies all invariants |
| `Reloc.Collector.Reloc` | incremental/algorithm/core/SolverTypes.h:256-275 | the first request copies the clause and leaves a forwarding reference, later ones follow it; each clause is copied at most once, with the same literals, flags and attributes |
| `Cdcl.Solver.RelocAll` | incremental/algorithm/core/Solver.cc:1366-1403 | every watcher, clause-list entry and reason denotes the same clause in the new region |
| `Cdcl.Solver.RelocReasons` | incremental/algorithm/core/Solver.cc:1385-1392 | the reason of every assigned variable is redirected: each is a locked clause, even one that was removed |
| `Cdcl.Solver.GarbageCollect` | incremental/algorithm/core/Solver.cc:1406-1417 | the state after collection is the old one with all references redirected, no stored clause is lost, and all solver invariants and the meaning of the database hold again |
| `Reloc.Transparent` | incremental/algorithm/core/SolverTypes.h:256-275 | two references denote one clause afterwards exactly if they did before, and the same literals in the same order |
| `Reloc.AllLiveMoved` | incremental/algorithm/core/Solver.cc:1373-1383 | every stored clause is reached through its watchers, so no live clause is lost |
| `Reloc.CollectedSound` | incremental/algorithm/core/Solver.cc:1366-1417 | redirecting all references keeps structure, reasons, watches, meaning and what is propagated |
| `Heaps.Heap.PercolateUp` | incremental/algorithm/mtl/Heap.h:44-57 | from a heap with one element out of place: tables inverse, same elements, and that element no longer before its parent; in order if its children were fine |
| `Heaps.Heap.PercolateDown` | incremental/algorithm/mtl/Heap.h:60-73 | tables inverse, same elements, in order from the given position on |
| `Heaps.Heap.Insert` | incremental/algorithm/mtl/Heap.h:99-107 | the element is added; order and inverse tables are kept |
| `Heaps.Heap.RemoveMin` | incremental/algorithm/mtl/Heap.h:110-119 | the element taken out is one that no other is before; the rest is the old content without it |
| `Heaps.Heap.Build` | incremental/algorithm/mtl/Heap.h:123-134 | exactly the given elements, in heap order, with inverse tables |
| `Heaps.Heap.Decrease` | incremental/algorithm/mtl/Heap.h:84-84 | after an element moved towards the front of the order, the heap is in order again |
| `Heaps.Heap.Increase` | incremental/algorithm/mtl/Heap.h:85-85 | after an element moved towards the end of the order, the heap is in order again |
| `Heaps.Heap.Update` | incremental/algorithm/mtl/Heap.h:89-96 | inserts a missing element or repairs one that moved either way |
| `Heaps.Heap.Clear` | incremental/algorithm/mtl/Heap.h:136-141 | empty, and no element is recorded as present |
| `Heaps.Heap.InHeap` | incremental/algorithm/mtl/Heap.h:80-80 | membership is read off the index table exactly |
| `Heaps.RootLeast` | incremental/algorithm/mtl/Heap.h:110-119 | heap order makes the root least |
| `Heaps.UpStep` | incremental/algorithm/mtl/Heap.h:49-53 | moving past a parent leaves only the moved element possibly out of place, and only upwards |
| `Heaps.DownStep` | incremental/algorithm/mtl/Heap.h:63-69 | moving past the lesser child leaves only the moved element possibly out of place, and only downwards |
| `Heaps.ActivityOrder` | incremental/algorithm/core/Solver.h:354-363 | activities order variables weakly; a bump moves one variable forward only and rescaling changes no comparison |
| `Constraints.ConstraintSolver.NewModel` | incremental/algorithm/core/ConstraintSolver.cc:456-468 | everything is discarded; what is left is the constant true |
| `Constraints.ConstraintSolver.NewBoolVar` | incremental/algorithm/core/ConstraintSolver.cc:29-32 | a fresh reference, no clause |
| `Constraints.ConstraintSolver.BoolArrayOr` | incremental/algorithm/core/ConstraintSolver.cc:55-57 | adds exactly: one of the references holds |
| `Constraints.ConstraintSolver.AtMostOneOf` | incremental/algorithm/core/ConstraintSolver.cc:91-97 | the pairwise clauses say exactly that at most one reference holds |
| `Constraints.ConstraintSolver.ExactlyOneOf` | incremental/algorithm/core/ConstraintSolver.cc:99-102 | adds exactly: one and only one reference holds |
| `Constraints.ConstraintSolver.BoolIffReif` | incremental/algorithm/core/ConstraintSolver.cc:59-64 | adds exactly: t is the equality of the inputs |
| `Constraints.ConstraintSolver.BoolIffReifOf` | incremental/algorithm/core/ConstraintSolver.cc:66-80 | the memoised equality: the result equals the inputs' equality in every model, also on a cache hit with swapped inputs, and no old assignment is excluded |
| `Constraints.ConstraintSolver.BoolAndReif` | incremental/algorithm/core/ConstraintSolver.cc:227-232 | adds exactly: t is the conjunction |
| `Constraints.ConstraintSolver.BoolAnd3Reif` | incremental/algorithm/core/ConstraintSolver.cc:234-244 | adds exactly: t is the conjunction of three |
| `Constraints.ConstraintSolver.BoolArrayAndReif` | incremental/algorithm/core/ConstraintSolver.cc:246-254 | the chain says, on the old variables, exactly that t is the conjunction |
| `Constraints.ConstraintSolver.BoolOrReif` | incremental/algorithm/core/ConstraintSolver.cc:269-273 | t is the disjunction unless both inputs are true, when it is free |
| `Encode.OrReifExactness` | incremental/algorithm/core/ConstraintSolver.cc:269-273 | over any references, the clauses fix t to the disjunction if and only if not both inputs are true |
| `Constraints.ConstraintSolver.BoolArrayOrReif` | incremental/algorithm/core/ConstraintSolver.cc:281-289 | with two or more inputs, the formula projected on the old variables gains exactly: if at most one input is true, t is the disjunction; for a fresh t, an old assignment pins t to the disjunction if and only if it makes at most one input true |
| `GraphCnf.ChainEnd` | incremental/algorithm/core/ConstraintSolver.cc:281-289 | the links allow exactly the disjunction where at most one input is true and both values otherwise |
| `GraphCnf.ChainPins` | incremental/algorithm/core/ConstraintSolver.cc:281-289 | with t outside the old formula and inputs, exactly the old assignments with at most one true input pin t to the disjunction |
| `GraphCnf.ChainExclusive` | incremental/algorithm/core/ConstraintSolver.cc:281-289 | for exclusive inputs the chain is the disjunction |
| `GraphCnf.ThreeInputs` | incremental/algorithm/core/ConstraintSolver.cc:281-289 | three true inputs satisfy the chain with the output false |
| `GraphCnf.OrReifAlone` | incremental/algorithm/core/ConstraintSolver.cc:281-289 | with a single input the chain leaves t free whenever the input holds |
| `Constraints.ConstraintSolver.SetBoolVar` | incremental/algorithm/core/ConstraintSolver.cc:410-417 | adds exactly: the reference has the given value |
| `Constraints.ConstraintSolver.NewIntVar` | incremental/algorithm/core/ConstraintSolver.cc:256-266 | an integer variable is a row of fresh references of which exactly one holds |
| `Constraints.ConstraintSolver.NewPermutation` | incremental/algorithm/core/ConstraintSolver.cc:291-310 | adds exactly: every row and every column has one true reference |
| `Constraints.ConstraintSolver.NewAdjMatrix` | incremental/algorithm/core/ConstraintSolver.cc:317-328 | a symmetric matrix of distinct fresh references with a false diagonal |
| `Constraints.ConstraintSolver.Isomorphic` | incremental/algorithm/core/ConstraintSolver.cc:382-406 | given the permutation clauses, the formula projected on the old variables gains exactly: the first graph is the second renamed |
| `GraphCnf.TermsExclusive` | incremental/algorithm/core/ConstraintSolver.cc:389-403 | the permutation clauses make the terms of one entry exclusive, which is what the disjunction chain needs |
| `CanonSpec.EncodingExact` | incremental/algorithm/core/ConstraintSolver.cc:291-406 | the clauses hold exactly when the rows spell a bijection and the second graph is the first renamed by it |
| `Constraints.ConstraintSolver.BoolArraysLexLtImplication` | incremental/algorithm/core/ConstraintSolver.cc:152-166 | adds exactly: equal before the position, and there first false, second true |
| `Constraints.ConstraintSolver.BoolArraysLexImplication` | incremental/algorithm/core/ConstraintSolver.cc:136-150 | adds, on the old variables, exactly: if equal before the position, not above there; unequal lengths are refused |
| `Constraints.ConstraintSolver.BoolArraysLex` | incremental/algorithm/core/ConstraintSolver.cc:111-135 | adds, on the old variables, exactly: no first difference downwards at any position |
| `Constraints.ConstraintSolver.BoolArraysLexLt` | incremental/algorithm/core/ConstraintSolver.cc:198-224 | adds, on the old variables, exactly: there is a first difference, and it is upwards |
| `LexCnf.LexBelowStep` | incremental/algorithm/core/ConstraintSolver.cc:198-224 | reified equalities, located first differences and their disjunction together are the strict order |
| `LexCnf.LexLeNext` | incremental/algorithm/core/ConstraintSolver.cc:122-134 | one more Horn clause covers one more position |
| `Constraints.ConstraintSolver.Solve` | incremental/algorithm/core/ConstraintSolver.cc:419-428 | True comes with a model of every clause, False means there is none, Undef comes only when the budget of conflicts is used up |
| `Constraints.ConstraintSolver.GetBoolAssignment` | incremental/algorithm/core/ConstraintSolver.cc:430-432 | the value of a reference, negated or not, in the model found |
| `Constraints.ConstraintSolver.GetIntAssignment` | incremental/algorithm/core/ConstraintSolver.cc:434-445 | the value whose reference is the first true one, offset by the lower bound |
| `Constraints.ConstraintSolver.DecodeIntArray` | incremental/algorithm/core/ConstraintSolver.cc:447-454 | the whole array decoded in order |
| `Encode.StepTrans` | incremental/algorithm/core/ConstraintSolver.cc:111-406 | conservative extensions compose: what two encoding steps say together |
| `Encode.Define` | incremental/algorithm/core/ConstraintSolver.cc:66-80 | a fresh variable defined by clauses excludes no assignment of the old variables |
| `Matrices.Matrix.Set` | incremental/algorithm/mtl/Matrix.h:56-59 | the one entry changes, all others stay |
| `Matrices.Matrix.Permute` | incremental/algorithm/mtl/Matrix.h:73-83 | entry ij is the old entry at the images, the permutation extended by the identity |
| `Matrices.Matrix.UpperTriangle` | incremental/algorithm/mtl/Matrix.h:87-95 | the entries above the diagonal row by row: entry ij at index i*n - i*(i+1)/2 + j - i - 1, and n*(n-1)/2 of them |
| `Matrices.Matrix.LowerTriangle` | incremental/algorithm/mtl/Matrix.h:98-106 | the entries below the diagonal, which are the columns above it in order: entry ij at index i*(i-1)/2 + j, and n*(n-1)/2 of them |
| `Graphs.Position` | incremental/algorithm/core/CanonizingLexImplicationsAlg.cc:35-40 | where each pair of vertices stands in the two orders, in closed form |
| `Canonize.CanonizingLexImplicationsAlg.Compute` | incremental/algorithm/core/CanonizingLexImplicationsAlg.cc:43-104 | the set returned is canonizing: a graph satisfies all its implications if and only if its string is least among all its permuted copies; None only after a call of the solver that used up its budget |
| `Canonize.CanonizingLexImplicationsAlg.Extend` | incremental/algorithm/core/CanonizingLexImplicationsAlg.cc:109-175 | the given set with the additions is canonizing, also when the given implications are about fewer vertices; None only after a call of the solver that used up its budget |
| `Canonize.CanonizingLexImplicationsAlg.ExtendSubgraph` | incremental/algorithm/core/CanonizingLexImplicationsAlg.cc:183-261 | canonizing among the graphs with the given subgraph on their first vertices |
| `Canonize.CanonizingLexImplicationsAlg.Setup` | incremental/algorithm/core/CanonizingLexImplicationsAlg.cc:52-61 | the models of the clauses, on the named variables, are the graphs and permutations that break the order first at this position |
| `Canonize.CanonizingLexImplicationsAlg.EmbedSubgraph` | incremental/algorithm/core/CanonizingLexImplicationsAlg.cc:202-206 | adds exactly: the edges among the first vertices are those of the string |
| `Canonize.CanonizingLexImplicationsAlg.EncodeImp` | incremental/algorithm/core/CanonizingLexImplicationsAlg.cc:74-75 | the models lose exactly the graphs that break the implication |
| `Canonize.CanonizingLexImplicationsAlg.FindCounter` | incremental/algorithm/core/CanonizingLexImplicationsAlg.cc:72-79 | False: no graph satisfying all implications is broken at this position by any permutation; True: the decoded permutation is one, and new; Undef: the budget is used up |
| `Canonize.CanonizingLexImplicationsAlg.FindAll` | incremental/algorithm/core/CanonizingLexImplicationsAlg.cc:72-81 | terminates because no permutation is found twice at one length, and leaves no counterexample |
| `Canonize.CanonizingLexImplicationsAlg.Level` | incremental/algorithm/core/CanonizingLexImplicationsAlg.cc:50-82 | after a level every first difference at its position is excluded; additions have its length and are pairwise different |
| `CanonSpec.IndexingOf` | incremental/algorithm/core/CanonizingLexImplicationsAlg.cc:35-40 | the string of references in the chosen order |
| `Canonize.RunIncremental` | incremental/algorithm/core/Main.cc:10-20 | after every round the accumulated set is canonizing for its number of vertices; None only after a call of the solver that used up its budget |
| `Canonize.RunIncrementalSubgraph` | incremental/algorithm/core/Main.cc:23-33 | the same around a fixed subgraph |
| `Canonize.ReduceCovers` | incremental/algorithm/core/CanonizingLexImplicationsAlg.cc:83-90 | a reducer that keeps the conjunction equivalent keeps what is excluded |
| `CanonSpec.CounterSound` | incremental/algorithm/core/CanonizingLexImplicationsAlg.cc:72-79 | a model is a graph that satisfies all implications and a permutation that breaks it at this position |
| `CanonSpec.CounterComplete` | incremental/algorithm/core/CanonizingLexImplicationsAlg.cc:72-79 | every such graph and permutation is the projection of a model |
| `CanonSpec.NoModelNoCounter` | incremental/algorithm/core/CanonizingLexImplicationsAlg.cc:72-81 | unsatisfiable clauses mean that no counterexample is left |
| `CanonSpec.FoundCounter` | incremental/algorithm/core/CanonizingLexImplicationsAlg.cc:72-81 | a permutation read off a model is a permutation and not in the set at this length |
| `CanonSpec.CoversCanonizing` | incremental/algorithm/core/CanonizingLexImplicationsAlg.cc:46-81 | excluding all but the last position makes the set canonizing |
| `CanonSpec.LeastSat` | incremental/algorithm/core/Main.cc:10-20 | a least graph satisfies every implication, also of permutations of fewer vertices extended by the identity |
| `CanonSpec.OnePerClass` | incremental/algorithm/core/CanonizingLexImplicationsAlg.cc:43-104 | a canonizing set accepts exactly one graph of every isomorphism class, and such a graph exists |
| `Graphs.LastNeverDecides` | incremental/algorithm/core/CanonizingLexImplicationsAlg.cc:46-46 | permuting keeps the number of edges, so two copies never first differ at the last position |
| `Graphs.LeastShort` | incremental/algorithm/core/CanonizingLexImplicationsAlg.cc:46-46 | least on all positions but the last is least |
| `Graphs.CornerLeast` | incremental/algorithm/core/Main.cc:10-20 | column by column, the subgraph on the first vertices of a least graph is least |
| `Graphs.LexByPosition` | incremental/algorithm/core/ConstraintSolver.cc:111-166 | the lexicographic order is the absence of a first difference downwards |
| `Orbits.LeastExists` | incremental/algorithm/core/CanonizingLexImplicationsAlg.cc:43-104 | among finitely many copies there is a least one |
| `PermSet.CanonizingPermutationSetAlg.Compute` | incremental/algorithm/core/CanonizingPermutationSetAlg.cc:17-61 | a graph is least among all copies if and only if it is not above its copies under the returned permutations, which are pairwise different; None only when the solver has used up its budget |
| `PermSet.CanonizingPermutationSetAlg.Setup` | incremental/algorithm/core/CanonizingPermutationSetAlg.cc:18-35 | the models are two isomorphic graphs with the second strictly smaller |
| `PermSet.CanonizingPermutationSetAlg.EncodePerm` | incremental/algorithm/core/CanonizingPermutationSetAlg.cc:47-55 | the models lose exactly the graphs above this copy |
| `PermSet.CanonizingPermutationSetAlg.FindRival` | incremental/algorithm/core/CanonizingPermutationSetAlg.cc:40-46 | False: the set is canonizing; True: a permutation not found before; Undef: the budget is used up |
| `PermSet.RivalSound` | incremental/algorithm/core/CanonizingPermutationSetAlg.cc:40-46 | a model is an accepted graph with a strictly smaller copy under a new permutation |
| `PermSet.RivalComplete` | incremental/algorithm/core/CanonizingPermutationSetAlg.cc:40-46 | every accepted graph with a strictly smaller copy is the projection of a model |
| `PermSet.LexMeaning` | incremental/algorithm/core/ConstraintSolver.cc:111-135 | the encoded orders are the order of the strings |
| `Uhg.PropOptimized.PropagateEdge` | uniquely-hamiltonian-graphs/PropOptimized.java:53-206 | no contradiction: every Hamiltonian path from the edge is kept from closing, the rules are applied, and every edge newly excluded would have closed a second Hamiltonian cycle; contradiction only if there is one |
| `Uhg.PropOptimized.PropagateAll` | uniquely-hamiltonian-graphs/PropOptimized.java:38-45 | succeeds if and only if the present edges contain no second Hamiltonian cycle; then for every chord that was present all that propagating it does is done: its rules are applied and every Hamiltonian path from it is kept from closing |
| `Uhg.PropOptimized.SearchPaths` | uniquely-hamiltonian-graphs/PropOptimized.java:121-205 | the pruned search terminates and closes every Hamiltonian path that starts with the edge |
| `Uhg.PropOptimized.Round` | uniquely-hamiltonian-graphs/PropOptimized.java:121-205 | one round loses no path: each is closed or still continues the stack, and the remaining work shrinks |
| `Uhg.PropOptimized.Scan` | uniquely-hamiltonian-graphs/PropOptimized.java:157-183 | dead prefixes are cut and the candidate list is that of the definition, from the recorded degrees alone |
| `Uhg.PropOptimized.TryNext` | uniquely-hamiltonian-graphs/PropOptimized.java:185-196 | the path goes on to the candidate, or no Hamiltonian path does |
| `Uhg.PropOptimized.Push` | uniquely-hamiltonian-graphs/PropOptimized.java:188-193 | the longer path with residual degrees of all unvisited neighbours exact again |
| `Uhg.PropOptimized.Leave` | uniquely-hamiltonian-graphs/PropOptimized.java:198-204 | stepping back restores exact residual degrees |
| `Uhg.PropOptimized.CloseFull` | uniquely-hamiltonian-graphs/PropOptimized.java:124-134 | a complete path has its closing edge excluded, or the graph has a second Hamiltonian cycle |
| `Uhg.PropOptimized.MakesNeighborUnreachable` | uniquely-hamiltonian-graphs/PropOptimized.java:253-260 | true exactly if some unvisited neighbour has residual degree below two |
| `Uhg.PropOptimized.SortByDegrees` | uniquely-hamiltonian-graphs/PropOptimized.java:208-225 | the array is a rearrangement in order of falling degree |
| `Uhg.PropOptimized.Prepare` | uniquely-hamiltonian-graphs/PropOptimized.java:90-113 | neighbour lists that hold exactly the present edges, each once, and exact residual degrees once the first two vertices are visited |
| `Uhg.PropOptimized.ApplyRule1` | uniquely-hamiltonian-graphs/PropOptimized.java:66-66 | the edge of rule 1 is absent afterwards, and was excludable |
| `Uhg.PropOptimized.ApplyRule2` | uniquely-hamiltonian-graphs/PropOptimized.java:71-75 | all edges of rule 2 below the bound are absent afterwards, and were excludable; every edge the rule names is absent afterwards if and only if the loop can wrap around (y + 2 >= n) or it was absent before |
| `Uhg.Rule2Misses` | uniquely-hamiltonian-graphs/PropOptimized.java:68-75 | a graph of eight vertices in which the rule names an edge that closes a second Hamiltonian cycle, and the loop leaves it unknown |
| `Uhg.PropOptimized.ApplyRule3` | uniquely-hamiltonian-graphs/PropOptimized.java:80-84 | all edges of rule 3 above the bound are absent afterwards, and were excludable |
| `Hamilton.Rule1` | uniquely-hamiltonian-graphs/PropOptimized.java:64-66 | with the chord, the excluded edge closes a second Hamiltonian cycle |
| `Hamilton.Rule2` | uniquely-hamiltonian-graphs/PropOptimized.java:68-75 | with the chord and the other edge, the edge the rule names closes a second Hamiltonian cycle, on both sides of the wrap-around |
| `Hamilton.Rule3` | uniquely-hamiltonian-graphs/PropOptimized.java:77-84 | the mirrored case of rule 2 |
| `Hamilton.ModIs` | uniquely-hamiltonian-graphs/Utils.java:26-30 | truncated remainder with correction is the mathematical one |
| `Hamilton.CycleDistBase` | uniquely-hamiltonian-graphs/Utils.java:329-331 | distance one is exactly being neighbours on the base cycle |
| `PathSearch.DeadIsDead` | uniquely-hamiltonian-graphs/PropOptimized.java:162-171 | no Hamiltonian path continues a prefix with an unvisited neighbour of degree zero or three of degree one |
| `PathSearch.CandidatesComplete` | uniquely-hamiltonian-graphs/PropOptimized.java:180-182 | with two neighbours of degree one, every Hamiltonian path continues with one of them |
| `PathSearch.StrandsIsDead` | uniquely-hamiltonian-graphs/PropOptimized.java:187-187 | no Hamiltonian path goes to a vertex that strands a neighbour |
| `PathSearch.PushAccounted` | uniquely-hamiltonian-graphs/PropOptimized.java:187-195 | going on loses no path |
| `PathSearch.SkipAccounted` | uniquely-hamiltonian-graphs/PropOptimized.java:185-196 | skipping a hopeless candidate loses no path |
| `PathSearch.PopAccounted` | uniquely-hamiltonian-graphs/PropOptimized.java:198-204 | stepping back loses no path |
| `PathSearch.EndAccounted` | uniquely-hamiltonian-graphs/PropOptimized.java:121-205 | back at the first vertex, every Hamiltonian path is closed |
| `PathSearch.ThroughEdge` | uniquely-hamiltonian-graphs/PropOptimized.java:121-134 | a Hamiltonian cycle through the edge leaves a Hamiltonian path from it whose closing edge is present |
| `Uhg.UnknownGraph.FixEdgeValue` | uniquely-hamiltonian-graphs/UnknownGraph.java:45-47 | both entries get the value; contradiction exactly if the edge has the other one |
| `Uhg.UnknownGraph.NeighborsOf` | uniquely-hamiltonian-graphs/UnknownGraph.java:101-103 | exactly the neighbours along present edges, each once |
| `Uhg.PropagatedExcludes` | uniquely-hamiltonian-graphs/PropOptimized.java:53-206 | after propagation no Hamiltonian cycle of present edges uses the chord |
| `UhgRun.OnlyBaseCycle` | uniquely-hamiltonian-graphs/UHGSearch.java:25-41 | over every run in which each present chord is propagated after it was set, the final graph has no second Hamiltonian cycle |
| `UhgRun.AcceptedCycles` | uniquely-hamiltonian-graphs/UHGSearch.java:25-41 | its Hamiltonian cycles are exactly the traversals of the base cycle |
| `UhgRun.RunAgrees` | uniquely-hamiltonian-graphs/UHGSearch.java:31-32 | a run whose decisions agree with a uniquely Hamiltonian graph never excludes one of its edges nor meets a contradiction |
| `UhgRun.UHGSearch.FixHamCycle` | uniquely-hamiltonian-graphs/UHGSearch.java:37-41 | the base cycle is present and every other edge unknown |
| `Dihedral.DihedralGroupPermutations` | uniquely-hamiltonian-graphs/Utils.java:8-23 | the list of n rotations and n reflections in the order of the loop |
| `Dihedral.GroupIsAutomorphisms` | uniquely-hamiltonian-graphs/Utils.java:8-23 | for n >= 3 the rotations and reflections are exactly the automorphisms of the base cycle |
| `Dihedral.ListedOnce` | uniquely-hamiltonian-graphs/Utils.java:8-23 | for n >= 3 each automorphism is listed once |
| `Dihedral.SymmetryBreaking` | uniquely-hamiltonian-graphs/UHGSearch.java:85-100 | the posted constraints hold of a graph exactly if its edge vector is not above any dihedral renaming |
| `Dihedral.VectorPositions` | uniquely-hamiltonian-graphs/UHGSearch.java:85-100 | each pair of vertices stands at its place in the row order in the one vector, its image at the same place in the other |
| `Dihedral.IsomorphismIsAutomorphism` | uniquely-hamiltonian-graphs/UHGSearch.java:85-100 | two uniquely Hamiltonian graphs on the base cycle are isomorphic only by its automorphisms |
| `Dihedral.KeptExists` | uniquely-hamiltonian-graphs/UHGSearch.java:85-100 | every isomorphism class has a graph that is kept |
| `Dihedral.KeptUnique` | uniquely-hamiltonian-graphs/UHGSearch.java:85-100 | two kept isomorphic graphs are equal |
| `UhgClasses.ExactlyOne` | uniquely-hamiltonian-graphs/UHGSearch.java:25-100 | for every graph with exactly one Hamiltonian cycle some complete accepted run that satisfies the posted constraints ends with an isomorphic graph, and all such runs end with the same edges |
| `UhgClasses.SolutionExists` | uniquely-hamiltonian-graphs/UHGSearch.java:25-100 | every isomorphism class of uniquely Hamiltonian graphs has such a run |
| `UhgClasses.SolutionOnce` | uniquely-hamiltonian-graphs/UHGSearch.java:85-100 | such runs for isomorphic graphs end with the same edges |
| `UhgClasses.SolutionUnique` | uniquely-hamiltonian-graphs/UHGSearch.java:25-41 | the final graph of such a run is uniquely Hamiltonian |
| `UhgClasses.GraphUnique` | uniquely-hamiltonian-graphs/UHGSearch.java:30-32 | a decided matrix has no second Hamiltonian cycle exactly if its graph is uniquely Hamiltonian |
| `UhgClasses.Reached` | uniquely-hamiltonian-graphs/UHGSearch.java:25-41 | every uniquely Hamiltonian graph on the base cycle is the end of an accepted run |
| `UhgClasses.NothingToForce` | uniquely-hamiltonian-graphs/PropOptimized.java:53-206 | on a decided graph without a second Hamiltonian cycle the propagator may leave everything as it is |
| `Paths.PathsFromRec` | uniquely-hamiltonian-graphs/Utils.java:148-162 | appends all completions in order and restores the tables |
| `Paths.PathsIter` | uniquely-hamiltonian-graphs/Utils.java:97-133 | terminates and emits, in the same order, exactly the recursive paths that end above their start |
| `Paths.AllPaths` | uniquely-hamiltonian-graphs/Utils.java:33-39 | the enumeration from every start vertex |
| `Paths.EmittedOnce` | uniquely-hamiltonian-graphs/Utils.java:97-133 | what one call emits are exactly the simple paths from the vertex that end above it, without repeats |
| `Paths.OnePerPath` | uniquely-hamiltonian-graphs/Utils.java:33-39 | of every simple path of an undirected graph and its reversal exactly one is emitted, once |
| `Paths.RecExact` | uniquely-hamiltonian-graphs/Utils.java:148-162 | the recursion lists exactly the simple continuations |
| `Paths.PathIterator.constructor` | uniquely-hamiltonian-graphs/PathIterator.java:17-28 | what is to come is the sequence of the recursion, filtered |
| `Paths.PathIterator.Next` | uniquely-hamiltonian-graphs/PathIterator.java:36-41 | returns the first of what is to come and leaves the rest; nothing once exhausted |
| `Paths.PathIterator.HasNext` | uniquely-hamiltonian-graphs/PathIterator.java:31-33 | true exactly if something is to come |
| `Paths.PathIterator.PrepareNext` | uniquely-hamiltonian-graphs/PathIterator.java:44-77 | runs to the next kept path without losing, repeating or reordering any |
| `Simp.SimpSolver.EliminateVar` | incremental/algorithm/simp/SimpSolver.cc:488-547 | satisfiability is kept and every model of the rest still rebuilds, through the log, to a model of all clauses added; eliminated exactly if the resolvents of its two sides, each clause taken once, stay within the limits; otherwise nothing changes |
| `SimpSpec.ElimKeeps` | incremental/algorithm/simp/SimpSolver.cc:513-540 | one elimination keeps both directions: the rest follows from what was added, and models of the rest rebuild |
| `SimpSpec.RebuildSat` | incremental/algorithm/simp/SimpSolver.cc:518-526 | with only one side stored, the default or the forced value satisfies the clauses of both sides |
| `SimpSpec.SatisfiabilityKept` | incremental/algorithm/simp/SimpSolver.cc:488-547 | after any sequence of eliminations the clauses added have a model exactly if what is left has one |
| `SimpSpec.ModelExtends` | incremental/algorithm/simp/SimpSolver.cc:584-598 | a model of what is left, read through the packed log, is a total model of every clause added |
| `SimpSpec.ReadAll` | incremental/algorithm/simp/SimpSolver.cc:584-598 | reading the log backwards computes the rebuilding of all eliminations, last first |
| `Simp.SimpSolver.ExtendModel` | incremental/algorithm/simp/SimpSolver.cc:584-598 | the loop over the packed integers reads exactly the entries written, backwards |
| `Simp.SimpSolver.Solve` | incremental/algorithm/simp/SimpSolver.cc:93-131 | eliminates, searches what is left with the clause-learning solver, which decides no eliminated variable, and extends its model: False only if the clauses added have no model, True only with a total model of all of them, Undef only when the solver below has used up its budget |
| `Simp.SimpSolver.Handover` | incremental/algorithm/simp/SimpSolver.cc:117-118 | the solver below holds exactly what is left, mentions no eliminated variable, and decides exactly the others |
| `Simp.SimpSolver.ExtendFound` | incremental/algorithm/simp/SimpSolver.cc:122-123 | a model of the rest, extended, satisfies every clause ever added |
| `Simp.SimpSolver.constructor` | incremental/algorithm/simp/SimpSolver.cc:46-69 | a preprocessor without clauses satisfies all invariants |
| `Simp.SimpSolver.MkElimClause` | incremental/algorithm/simp/SimpSolver.cc:462-484 | the clause is written with the literal on the variable first and its length last |
| `Simp.SimpSolver.MkElimUnit` | incremental/algorithm/simp/SimpSolver.cc:455-459 | a unit entry is written |
| `Simp.SimpSolver.StoreSide` | incremental/algorithm/simp/SimpSolver.cc:518-525 | the clauses of one side are written one after the other, each with its literal on the variable first |
| `Simp.SimpSolver.LogElimination` | incremental/algorithm/simp/SimpSolver.cc:513-526 | the smaller side and the default for the other are logged and the variable counts as eliminated |
| `Simp.SimpSolver.WithinLimits` | incremental/algorithm/simp/SimpSolver.cc:504-511 | true exactly if the resolvents are few and short enough |
| `Simp.SimpSolver.AddResolvents` | incremental/algorithm/simp/SimpSolver.cc:529-534 | every resolvent of the two sides is covered by the database; false only without models |
| `Simp.SimpSolver.Split` | incremental/algorithm/simp/SimpSolver.cc:496-499 | the occurrences split into exactly the positive and the negative ones, each once |
| `Simp.SimpSolver.Resolve` | incremental/algorithm/simp/SimpSolver.cc:529-540 | resolvents added and clauses with the variable removed eliminate it |
| `Simp.Merge` | incremental/algorithm/simp/SimpSolver.cc:235-262 | false exactly for a tautological resolvent; otherwise the resolvent without repeated literals, from either parent order |
| `Simp.MergeSize` | incremental/algorithm/simp/SimpSolver.cc:266-292 | the length that the other form would produce |
| `SimpSpec.MergeEntailed` | incremental/algorithm/simp/SimpSolver.cc:235-262 | a resolvent follows from its parents |
| `Simp.Subsumes` | incremental/algorithm/core/SolverTypes.h:394-423 | for clauses without repeats and complements: decides exactly subsumption, strengthening by one literal, or neither |
| `Simp.FilterSafe` | incremental/algorithm/core/SolverTypes.h:400-401 | the size and mask filter never rejects a pair to which either applies |
| `Simp.CalcAbstraction` | incremental/algorithm/core/SolverTypes.h:168-173 | the mask is the set of variables modulo 32 |
| `Simp.SimpSolver.BackwardSubsumptionCheck` | incremental/algorithm/simp/SimpSolver.cc:344-408 | the formula stays logically equivalent; false only without models; the queue is emptied; and nothing is missed within the limit on the size of candidates, whatever it is: if every clause outside the queue was of no further use on any other within the limit, so is every clause and root fact afterwards |
| `Simp.SimpSolver.ScanCandidates` | incremental/algorithm/simp/SimpSolver.cc:382-404 | the models stay, and the clause is afterwards of no use on any live clause below the size limit, although only the list of its rarest variable is looked at, which changes meanwhile |
| `Simp.SimpSolver.TryCandidate` | incremental/algorithm/simp/SimpSolver.cc:389-403 | a subsumed clause goes, a strengthened one loses the flipped literal and is queued, and nothing is left to do on it; all other clauses stay as they are |
| `Simp.StrengthenedQuiet` | incremental/algorithm/simp/SimpSolver.cc:394-403 | after losing the flipped literal a clause can be neither subsumed nor strengthened again by the same clause |
| `Simp.ClearedShift` | incremental/algorithm/simp/SimpSolver.cc:400-402 | when the candidate leaves the list being read, staying at the index misses no other candidate |
| `Simp.ReducedClause` | incremental/algorithm/simp/SimpSolver.cc:351-405 | what was of no further use stays so while other clauses go or get shorter |
| `SimpSpec.StrengthenImplied` | incremental/algorithm/simp/SimpSolver.cc:394-398 | the shorter clause follows from the pair |
| `SimpSpec.SubsumedImplied` | incremental/algorithm/simp/SimpSolver.cc:392-393 | the removed clause follows from the one that subsumes it |
| `Simp.SimpSolver.StrengthenClause` | incremental/algorithm/simp/SimpSolver.cc:195-231 | the models stay the same; a binary clause becomes a root fact; false only without models |
| `Simp.SimpSolver.RemoveClause` | incremental/algorithm/simp/SimpSolver.cc:180-192 | marks the clause; occurrence lists stay correct for live clauses |
| `Simp.SimpSolver.Lookup` | incremental/algorithm/core/SolverTypes.h:326-336 | the occurrence list holds exactly the live clauses that mention the variable |
| `Simp.SimpSolver.AddClauseInternal` | incremental/algorithm/simp/SimpSolver.cc:135-177 | the database gains exactly what the clause says at the root |
| `Simp.SimpSolver.AddClause` | incremental/algorithm/simp/SimpSolver.cc:135-177 | the clause joins those that the log promises to satisfy; over variables not eliminated |
| `Simp.SimpSolver.Eliminate` | incremental/algorithm/simp/SimpSolver.cc:601-690 | for any number of rounds, every choice of touched clauses, every order of elimination and every set of frozen variables: frozen variables stay, the invariants are kept, the last variable tried is gone unless its resolvents exceed the limits, nothing waits to be used for subsumption, and false only if the clauses added have no model |

## Left out

- Cdcl.Solver.Solve: takes a budget of conflicts, as the original can be given one, and returns Undef only when it is used up; that the loop of restarts ends without a budget is not stated, as it rests on floating-point averages and on clause deletion.
- Cdcl.Solver.Sort: selection sort for every length; the library sort switches to quicksort above 15 elements.
- Cdcl.Solver.PickBranchLit: the order heap is the set of its elements here and any of them may be taken; the heap itself is `Heaps.Heap`.
- Cdcl.Solver.Search: when to restart is an arbitrary choice in place of the two averages, but only once the window of the last 50 conflicts is full.
- Constraints.ConstraintSolver.Solve: may return Undef, when the search below it has used up its budget.
- Simp.SimpSolver.Solve: the search runs on a solver of its own, which decides the variables that are not eliminated. Assumptions and the option that keeps the preprocessor running are left out.
- Canonize.ReducerOk: the external reducer is assumed to return indices of a part whose conjunction is equivalent; it is a program outside the repository.
- UhgRun.Run: one branch of the constraint engine's search; its backtracking, event queue and the other constraints are arbitrary decisions in the run.
- Uhg.UnknownGraph.NeighborsOf: increasing order; the engine's linked sets give neighbours in some other order, on which no result depends.
- Simp.SimpSolver.Propagate: root propagation scans the clauses instead of watching them; the watched form is proved in the solver.
- Simp.SimpSolver.Eliminate: the number of rounds, the touched clauses of each, the elimination orders and the frozen variables are parameters; the elimination heap, touched variables and occurrence counts choose among them.
- Simp.SimpSolver.CalcAbstraction: the 32-bit mask is the set of its bits.
- Compaction loops over watch lists and clause lists are modelled as a kept part followed by the part still to visit.
- Assumptions, selectors and incremental mode, certified output, propagation budgets and interrupts, minimisation mode 1 and 0.
- Activity decay and rescaling arithmetic, updates of block distances during analysis, restart averages and the progress estimate only choose among steps.
- `asymm`, `implied`, `substitute` and clause limits taken from options other than the growth and length limits of elimination.
- The copy of the solver with an adjacency matrix, the unused three-input disjunction, `notLexLeader` and `countSolutions`.
- Other Hamiltonian propagators, girth, chord and degree constraints, `isSameCycle`, and the enumerations through a given edge, none of which the posted search reaches.
- Readers, writers, printing, timing, command lines and raw memory growth.
