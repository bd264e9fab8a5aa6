# Dafny models of SVF's harder algorithms

SVF is a static value-flow analysis framework for C and C++. This project models six of its
algorithms and proves what each is for. The models take the form of the C++ code: objects with
fields that methods update are classes, loops are loops, recursive queries are functions. The
specifications (reachability, least solutions, execution of instructions, flattened lists, classes
of types) are independent of that code, and lemmas connect the two.

- **Strongly connected components** (`Reachability`, `SCCInvariant`, `SCCClosing`, `SCCVisit`,
  `SCCDetection`): the one-pass depth-first search with representatives, discovery numbers and two
  stacks. Its results are exact: the partition, the first-discovered representative, sub-node sets,
  cycle tests and a topological order.
- **Demand-driven points-to analysis** (`PointsToTransfer`, `LeastSolution`, `ValueFlowRuns`,
  `DDAState`, `DDASolver`): the recursive solver with marks, caches, re-evaluation of demands that are
  still on the call stack, strong updates and a step budget. It computes the least solution of the
  transfer equations for what it looked at, and it ends. A query out of budget falls back on
  Andersen's set for its demand, and later queries build on that: no answer ever loses a fact or
  exceeds Andersen's. How many evaluations a query can need is bounded, so a large enough budget is
  never spent. The least solution itself is exactly what runs of the program show along the edges of
  the value-flow graph.
  The methods carry the two finite sets of the termination measure as ghost parameters.
- **Breaking constant expressions** (`ConstantExprIR`, `ConstantExprSplit`, `ConstantExprStep`,
  `BreakConstantExpr`): the worklist pass that turns nested constant expressions into instructions.
  It reaches a normal form, ends, and preserves the meaning of every path.
- **Flattened types** (`TypeFlattening`, `TypeInfo`, `GepOffset`, `GlobalInitializer`): the layout
  of nested arrays and structs as one list, collected with 32- and 64-bit arithmetic, and its two
  users, `getelementptr` offsets and global initializers, which agree with the list.
- **Canonical types and class hierarchy** (`DITypes`, `ClassHierarchy`, `DCHG`): an equivalence of
  debug-information types, its incremental quotient, one graph node for each class, and remembered
  descendants.
- **Smaller loops** (`CppUtil`, `CHGBuilder`, `CFLSolver`): innermost brackets, ancestors and
  descendants, and edge tables kept from both ends.

`dafny verify dfyconfig.toml` checks everything.

## Where a stated property does not hold

- An in-bounds `getelementptr` index can make a lookup fail when arrays are modelled: an array of
  empty arrays has one dummy entry, so its second element has no place. `TypeFlattening.Placed` is
  the exact condition (`GepOffset.GepWalkIsOffset`), which depends only on the types and the indices;
  `GepOffset.EmptyElementsHaveOnePlace` is a concrete case.
- For the same reason an initializer can make a lookup fail. `GlobalInitializer.Indexed` is the exact
  condition (`SVFIRBuilder.InitialGlobal`), and it means that every part visited is `Placed`
  (`GlobalInitializer.IndexedIffPlaced`). `GlobalInitializer.EmptyPartsHaveOnePlace` is a concrete
  case: an array of two empty arrays, spelled out. LLVM keeps such a constant spelled out only if its
  operands differ, one zero and the other undefined; equal ones become one constant, which the code
  does not take apart.
- Different leaves share an offset when arrays are not modelled, which is the default
  (`svf/lib/Util/Options.cpp:550-554`): exactly those whose paths agree on every struct index
  (`TypeFlattening.LeavesShareOffset`, `GlobalInitializer.FieldsShared`).
- `DCHG.cpp` remembers descendants and never forgets them, so an edge added later can make a
  remembered set wrong. `ClassHierarchy.AnswerSurvivesEdge` says exactly when it does not, and
  `ClassHierarchy.AnswerGoesStale` is a concrete case. It takes a caller that asks before the graph
  is built: every call of `addEdge` (`svf-llvm/lib/DCHG.cpp:61`, `:81`, `:104`, `:530`, `:538`) is in
  `buildCHG` or in a handler that it calls, and none of these asks for descendants.

## Where code and comments disagree

The models follow the code.

- `svf-llvm/include/SVF-LLVM/DCHG.h` says that `teq` compares tags, and basic and composite types by
  pointer; the code compares basic types by kind, size and alignment, composite types by name or
  place, and makes pointers, references, arrays and members of one base type equivalent.
- `svf/include/Graphs/SCC.h:155` says that an empty sub-node set gets the node itself; the code
  returns the set as it is, which for a node other than a representative is empty.
- `svf/include/Graphs/SCC.h:293-294` speaks of visiting nodes without incoming edges; the code visits
  every node not yet visited.
- `svf-llvm/lib/BreakConstantExpr.cpp:151-160` describes `runOnFunction`; the code beneath it runs on
  a module.

## Model

| member | source | states |
|---|---|---|
| SCCDetector.SCCDetection.Visit | svf/include/Graphs/SCC.h:232-276 | a visit keeps the whole invariant of the search (stack of open non-roots, representatives, finished nodes, completed components, sub-node sets with their stale entries, topological stack) and, seen from outside, visits exactly a part reached from `v`, leaving earlier nodes' numbers, flags and representatives alone |
| SCCDetector.SCCDetection.VisitChild | svf/include/Graphs/SCC.h:243-256 | one round of the loop over the children: a recursive visit if needed, then the earlier of the two representatives |
| SCCDetector.SCCDetection.Close | svf/include/Graphs/SCC.h:257-273 | a root closes precisely itself and the nodes discovered after it, and the invariant holds again |
| SCCDetector.SCCDetection.PopMembers | svf/include/Graphs/SCC.h:260-271 | the loop pops exactly the stack above where the root found it |
| SCCInvariant.SetRepLowers | svf/include/Graphs/SCC.h:201-211 | `rep(n, r)` on open nodes only lowers `n`: its representative becomes `r`, the other nodes keep theirs, and no visit, stack entry or number changes |
| SCCInvariant.LowerKeepsInv | svf/include/Graphs/SCC.h:201-211 | giving a node in progress an earlier open representative that it reaches keeps the whole invariant |
| SCCVisit.SetRepPops | svf/include/Graphs/SCC.h:260-271 | `rep(n, r)` on the node just popped closes that node and enters it among the sub-nodes of the root |
| SCCDetector.SCCDetection.Find | svf/include/Graphs/SCC.h:291-314 | after a full search every node is visited and the search is complete: all the results below apply |
| SCCDetector.SCCDetection.FindFrom | svf/include/Graphs/SCC.h:317-331 | after a search from candidates exactly the nodes reached from them are visited, and the search is complete |
| SCCDetector.SCCDetection.RepNodesPartition | svf/include/Graphs/SCC.h:122-128 | `repNode` of two visited nodes is the same exactly if each reaches the other; the representative was discovered first |
| SCCDetector.SCCDetection.IsInCycle | svf/include/Graphs/SCC.h:132-153 | true exactly if a non-empty path leads from the node to itself |
| SCCClosing.OpenReachesGray | svf/include/Graphs/SCC.h:232-276 | every open node reaches a node whose visit is in progress |
| SCCClosing.TailIsMutual | svf/include/Graphs/SCC.h:257-273 | the nodes a root is about to close and the root reach each other |
| SCCClosing.TailIsClosed | svf/include/Graphs/SCC.h:257-273 | no edge leads from the component being closed to another open node |
| SCCResult.SameRepIsMutual | svf/include/Graphs/SCC.h:232-276 | on completion two nodes have one representative if and only if they are mutually reachable |
| SCCResult.RepIsFirstDiscovered | svf/include/Graphs/SCC.h:232-276 | the representative is in its own component and no member was discovered before it |
| SCCResult.SearchesAgree | svf/include/Graphs/SCC.h:291-331 | any two completed searches, whole or from candidates, give the same partition on the nodes both visited |
| SCCResult.SubNodesAreComponent | svf/include/Graphs/SCC.h:156-161 | `subNodes` of a representative is its component and of any other node is empty |
| SCCResult.RepNodesAreCyclicReps | svf/include/Graphs/SCC.h:164-167 | `getRepNodes` is exactly the set of representatives of components with two or more nodes |
| SCCResult.TopoHoldsEachRepOnce | svf/include/Graphs/SCC.h:90-98 | the topological stack holds each representative once and nothing else |
| SCCResult.TopoOrdersPaths | svf/include/Graphs/SCC.h:232-276 | along any path between different components the source's representative is popped before the target's |
| SCCResult.CycleTest | svf/include/Graphs/SCC.h:132-153 | a node is on a cycle exactly if its component has two members or it is its own child |
| DDASolver.DDAVFSolver.ComputeDDAPts | svf/lib/DDA/FlowDDA.cpp:15-52 | over any run of queries, in budget or not, the answer misses nothing of the least solution for the graph and has nothing beyond Andersen's result; within budget it is the least solution of the current equations, and every demand left marked holds it; a query is out of budget only after evaluating exactly `maxBudget` statements, and never if `maxBudget` is at least a bound in the numbers of demands, variables and edges, which no query exceeds; then the answer is Andersen's set, which becomes the equation of that demand; the cache only grows and stays below the least solution; always ends |
| DDASolver.DDAVFSolver.HandleOutOfBudgetDpm | svf/lib/DDA/FlowDDA.cpp:44-51 | the fallback: caches Andersen's set, passes the growth on and exempts the demand, and the invariant between queries holds for the equations in which that set is given |
| LeastSolution.GivenIsBetween | svf/lib/DDA/FlowDDA.cpp:44-51 | whatever sets are taken from Andersen's result, the least solution lies between that of the graph itself and Andersen's |
| DDAState.FallBackRests | svf/lib/DDA/FlowDDA.cpp:44-51 | demands settled before a fallback stay settled under the new equations, and the demand that fell back is settled too |
| DDASolver.DDAVFSolver.FindPT | svf/include/DDA/DDAVFSolver.h:110-138 | the invariant and the step relation are kept through nested re-evaluation; the demand is settled afterwards; terminates by (missing facts, unmarked demands) |
| DDASolver.DDAVFSolver.UpdateCachedPointsTo | svf/include/DDA/DDAVFSolver.h:535-543 | after the update the demand is settled among the traversed demands, whether the cache grew or not |
| DDASolver.DDAVFSolver.ReCompute | svf/include/DDA/DDAVFSolver.h:227-245 | every traversed demand that the growth may affect is settled again |
| DDASolver.DDAVFSolver.ReComputeForEdge | svf/include/DDA/DDAVFSolver.h:248-286 | the same along one edge, re-evaluating only demands for the same object on indirect edges into non-loads |
| DDASolver.DDAVFSolver.HandleSingleStatement | svf/include/DDA/DDAVFSolver.h:142-224 | the result lies between the equation's value at the start and at the end of the evaluation, and everything it read is traversed |
| DDASolver.DDAVFSolver.HandleLoad | svf/include/DDA/DDAVFSolver.h:164-175 | the same for a load, over all pointees of its operand |
| DDASolver.DDAVFSolver.HandleStore | svf/include/DDA/DDAVFSolver.h:176-217 | the same for a store, with strong and weak updates |
| DDASolver.DDAVFSolver.BacktraceAlongIndirectVF | svf/include/DDA/DDAVFSolver.h:324-344 | gathers exactly the sources along guarded indirect edges |
| DDASolver.DDAVFSolver.BacktraceAlongDirectVF | svf/include/DDA/DDAVFSolver.h:346-360 | gathers exactly the sources along direct edges |
| DDASolver.DDAVFSolver.BackwardPropDpm | svf/include/DDA/DDAVFSolver.h:398-419 | adds the set of one more demand, recording the load it came from on indirect edges |
| DDASolver.DDAVFSolver.GetDPImWithOldCond | svf/include/DDA/DDAVFSolver.h:560-573 | the recorded load variable of an indirect demand is the demand's own variable |
| DDASolver.DDAVFSolver.TestOutOfBudget | svf/include/DDA/DDAVFSolver.h:696-702 | counts a step; the budget is spent exactly if that many statements have been evaluated, and the test whether the demand itself is out of budget never decides, because such a demand stays marked and is not traversed again |
| DDASolver.DDAVFSolver.ClearbkVisited | svf/include/DDA/DDAVFSolver.h:519-523 | the assertion that the demand is marked holds at every call |
| DDASolver.DDAVFSolver.ResetQuery | svf/include/DDA/DDAVFSolver.h:296-306 | after it the demands still marked are settled among themselves, also after a query out of budget and its fallback |
| DDASolver.DDAVFSolver.OOBResetVisited | svf/include/DDA/DDAVFSolver.h:308-317 | un-marks exactly the demands traversed by the last query, except those out of budget |
| PointsToTransfer.FlowsMonotone | svf/include/DDA/DDAVFSolver.h:142-224 | more cached facts never take a fact away, strong updates included |
| PointsToTransfer.ReadsAffect | svf/include/DDA/DDAVFSolver.h:227-286 | whatever an equation reads has an outgoing edge along which re-computation finds the reader |
| PointsToTransfer.FlowsLocal | svf/include/DDA/DDAVFSolver.h:142-224 | an equation depends on nothing but the sets it reads |
| LeastSolution.LeastIsLeastSolution | svf/include/DDA/DDAVFSolver.h:142-224 | the intersection of all post-fixpoints solves the equations and is below every solution |
| ValueFlowRuns.RunsAreCovered | svf/include/DDA/DDAVFSolver.h:142-224 | whatever a run shows, as the value of a statement or the contents of a cell of memory, the least solution has: the equations are sound, strong updates included |
| ValueFlowRuns.LeastIsSeen | svf/include/DDA/DDAVFSolver.h:142-224 | whatever the least solution has, some run shows: the equations are as precise as the value-flow graph allows |
| ValueFlowRuns.LeastIsWhatValuesAre | svf/include/DDA/DDAVFSolver.h:142-224 | a pointer is in the least solution for a statement's value if and only if some run shows it there |
| ValueFlowRuns.LeastIsWhatCellsHold | svf/include/DDA/DDAVFSolver.h:142-224 | the same for the contents of a cell behind a store or a memory region |
| LeastSolution.SettledIsLeast | svf/include/DDA/DDAVFSolver.h:110-138 | a set of demands settled among itself, below the least solution, holds the least solution though the rest of the graph was never looked at |
| DDAState.StepTrans | svf/include/DDA/DDAVFSolver.h:110-286 | the step relation (each traversed demand is settled afterwards or nothing it depends on has changed) composes over nested calls |
| DDAState.GrowthIsStep | svf/include/DDA/DDAVFSolver.h:535-543 | a growth of the cache followed by the re-evaluation of all it may affect is a step again |
| DDAState.GrowthShrinks | svf/include/DDA/DDAVFSolver.h:535-543 | growth removes a missing fact: the measure that ends re-computation |
| DDAState.GrowthPays | svf/include/DDA/DDAVFSolver.h:227-286 | growth of the cache lowers what a query can still spend by as many evaluations as it can cause |
| DDAState.PotentialIsBounded | svf/include/DDA/DDAVFSolver.h:110-286 | what a query can spend in evaluations is bounded in the numbers of demands, variables and edges |
| DDAState.QueryRests | svf/include/DDA/DDAVFSolver.h:296-317 | at the end of a query the marked demands are closed under dependencies and hold the least solution |
| BreakConstantExpr.RunOnModule | svf-llvm/lib/BreakConstantExpr.cpp:161-260 | in every function no `getelementptr`, binary or unary expression occurs in any operand any more, and the function is split from its original; the answer says exactly whether one occurred before; nothing changes otherwise |
| ConstantExprIR.HasConstantExprIffOccurs | svf-llvm/lib/BreakConstantExpr.cpp:60-128 | the tests hold exactly if a `getelementptr`, binary or unary expression occurs in the value, at whatever depth |
| BreakConstantExpr.IRFunction.RunOnFunction | svf-llvm/lib/BreakConstantExpr.cpp:166-256 | the worklist ends (total size of constant expressions, then worklist length) with no operand left in which a GEP, binary or unary expression occurs at any depth, and the answer says whether there was one |
| BreakConstantExpr.IRFunction.ProcessInstruction | svf-llvm/lib/BreakConstantExpr.cpp:239-255 | splits the operands of one instruction in place, the new instructions before it, one for equal operands |
| BreakConstantExpr.IRFunction.ProcessPhi | svf-llvm/lib/BreakConstantExpr.cpp:214-238 | splits the operands of a phi before the terminators of the incoming blocks, once for all entries of one block |
| ConstantExprStep.InsertSplits | svf-llvm/lib/BreakConstantExpr.cpp:137-149 | inserting the instruction for an expression leaves a function that is split from the same original, with every use of a new instruction after it |
| BreakConstantExpr.PassPreservesMeaning | svf-llvm/lib/BreakConstantExpr.cpp:161-260 | on every path, for every meaning of the opcodes, each original instruction computes the same value and memory ends the same |
| ConstantExprSplit.SplitPreservesRuns | svf-llvm/lib/BreakConstantExpr.cpp:203-256 | the simulation behind it: runs agree on original instructions and every new instruction executed holds the value of its expression |
| ConstantExprSplit.OldInstrAgrees | svf-llvm/lib/BreakConstantExpr.cpp:203-256 | an original instruction, phi or not, computes what it did before |
| ConstantExprStep.SplitKeepsMeaning | svf-llvm/lib/BreakConstantExpr.cpp:203-256 | splitting one operand keeps: erasing new instructions gives the original back, and every new instruction comes before its uses |
| ConstantExprStep.SplitShrinks | svf-llvm/lib/BreakConstantExpr.cpp:203-256 | splitting one operand makes the constant expressions smaller in total |
| ConstantExprStep.SplitIsValid | svf-llvm/lib/BreakConstantExpr.cpp:203-256 | splitting one operand keeps the function well-formed |
| BreakConstantExpr.PhiSplittable | svf-llvm/lib/BreakConstantExpr.cpp:214-238 | entries of a phi before the current one for the same block need no replacement |
| TypeInfoCollector.LLVMModuleSet.CollectTypeInfo | svf-llvm/lib/LLVMModule.cpp:1141-1170 | the memo table holds for each type its true layout, an entry never changes, the struct recorded as the largest is one with the most flattened fields of all in the table, and only a larger one replaces it |
| TypeInfoCollector.LLVMModuleSet.GetSVFType | svf-llvm/lib/LLVMModule.cpp:1074-1085 | after the call the type and what it needs have their layouts |
| TypeInfoCollector.LLVMModuleSet.CollectArrayInfo | svf-llvm/lib/LLVMModule.cpp:1242-1299 | the layout of an array from its innermost elements, with a dummy for an array without elements |
| TypeInfoCollector.LLVMModuleSet.CollectStructInfo | svf-llvm/lib/LLVMModule.cpp:1305-1356 | the layout of a struct, field by field, with 32-bit counters |
| TypeInfoCollector.LLVMModuleSet.CollectSimpleTypeInfo | svf-llvm/lib/LLVMModule.cpp:1362-1374 | one field, one element |
| TypeInfoCollector.CountElements | svf-llvm/lib/LLVMModule.cpp:1244-1251 | the 64-bit product of the dimensions is the number of innermost elements |
| TypeInfoCollector.IndexElements | svf-llvm/lib/LLVMModule.cpp:1276-1283 | the stored index of every element is its true position, cut off to 32 bits |
| TypeInfoCollector.StrideIndex | svf-llvm/lib/LLVMModule.cpp:1276-1283 | the division is exact and nothing exceeds 64 bits even when the product of index and element size wraps at 32 bits |
| TypeInfoCollector.LLVMModuleSet.GetFlattenedElemIdx | svf/lib/Graphs/IRGraph.cpp:117-140 | what a lookup returns, in terms of the true layout, and when its assertion fails |
| TypeInfoCollector.ElemIdxIsOffset | svf/lib/Graphs/IRGraph.cpp:117-140 | within bounds the lookup is the true position, except past the dummy entry of an array of empty arrays, where it fails: both directions |
| TypeInfoCollector.ElemIdxOutside | svf/lib/Graphs/IRGraph.cpp:117-140 | exactly which lookups out of bounds succeed, with zero |
| TypeFlattening.FlatArray | svf-llvm/lib/LLVMModule.cpp:1242-1299 | a non-empty array flattens to its element type's list once per element, or once in all if arrays are not modelled |
| TypeFlattening.DummyElement | svf-llvm/lib/LLVMModule.cpp:1252-1273 | the one dummy of an array without elements is of the type below all its dimensions, whichever of them is zero |
| TypeFlattening.PathSlice | svf-llvm/lib/LLVMModule.cpp:1242-1356 | the summed offsets of an index path start a slice of the flattened list that is the flattened list of the part reached |
| TypeFlattening.LeafOffset | svf-llvm/lib/LLVMModule.cpp:1242-1356 | a leaf's offset is the position of its type |
| TypeFlattening.LeavesApart | svf-llvm/lib/LLVMModule.cpp:1242-1356 | with arrays modelled, different leaves have different offsets |
| TypeFlattening.LeavesShareOffset | svf-llvm/lib/LLVMModule.cpp:1242-1356 | without arrays modelled, which is the default, two leaves have the same offset if and only if their paths agree on every struct index |
| TypeFlattening.EveryPositionIsALeaf | svf-llvm/lib/LLVMModule.cpp:1242-1356 | with arrays modelled and no empty arrays, every position is that of a leaf: with the two rows above, a bijection |
| GepOffset.SVFIRBuilder.ComputeGepOffset | svf-llvm/lib/SVFIRBuilder.cpp:612-680 | the loop's offset, constness and failure for all operands, vector indices included, and the access path: every operand in order, each with the type inside which it is applied |
| GepOffset.PairsFollow | svf-llvm/lib/SVFIRBuilder.cpp:627-638 | the recorded types lead from one to the next: element of an array, named field of a struct, lane of a vector |
| GepOffset.PairsOfPath | svf-llvm/lib/SVFIRBuilder.cpp:627-638 | for constant operands within bounds, each is recorded with the type that the indices before it lead to |
| GepOffset.GepWalkIsOffset | svf-llvm/lib/SVFIRBuilder.cpp:612-680 | the offset is that of the path followed; a lookup fails exactly if that path has no place in the flattened list |
| GepOffset.GepSelectsItsPart | svf-llvm/lib/SVFIRBuilder.cpp:612-680 | for an in-bounds constant path the offset starts the slice that is the flattened part reached, the code having cut the indices to 32 bits; leaves always have a place |
| GepOffset.EmptyElementsHaveOnePlace | svf-llvm/lib/SVFIRBuilder.cpp:612-680 | a concrete in-bounds index for which the lookup fails |
| GlobalInitializer.SVFIRBuilder.InitialGlobal | svf-llvm/lib/SVFIRBuilder.cpp:843-916 | adds exactly these edges: for each path through what is looked into to a scalar, a store of it into the variable's field at the offset of the path, or the address of a constant object for the address of a block, and null for a pointer other than null; fails exactly on initializers that are not `Indexed` |
| GlobalInitializer.EdgesInitialize | svf-llvm/lib/SVFIRBuilder.cpp:843-916 | the same for the list of edges in visiting order: an edge is in it if and only if some path calls for it |
| GlobalInitializer.LeadsToIffLookedInto | svf-llvm/lib/SVFIRBuilder.cpp:883-911 | the parts visited are those on paths through arrays and structs, unless of a class's table that is not modelled, and through packed data if constants are modelled |
| GlobalInitializer.IndexedIffPlaced | svf-llvm/lib/SVFIRBuilder.cpp:883-911 | no lookup fails if and only if every part visited has a place in the flattened type |
| GlobalInitializer.EmptyPartsHaveOnePlace | svf-llvm/lib/SVFIRBuilder.cpp:883-911 | a concrete initializer for which a lookup fails |
| GlobalInitializer.EveryLeafIsStored | svf-llvm/lib/SVFIRBuilder.cpp:883-911 | each scalar reached through visited parts is stored at the offset of its path, whatever siblings are skipped |
| GlobalInitializer.EveryStoreHasAPath | svf-llvm/lib/SVFIRBuilder.cpp:883-911 | nothing else is stored |
| GlobalInitializer.StoredAtItsPosition | svf-llvm/lib/SVFIRBuilder.cpp:883-911 | a scalar is stored at the position of its type in the flattened list |
| GlobalInitializer.LeavesIncrease | svf-llvm/lib/SVFIRBuilder.cpp:883-911 | with arrays modelled the offsets increase from leaf to leaf |
| GlobalInitializer.FieldsApart | svf-llvm/lib/SVFIRBuilder.cpp:816-830 | with arrays modelled, two of the added edges store to one field if and only if they are for one leaf |
| GlobalInitializer.FieldsShared | svf-llvm/lib/SVFIRBuilder.cpp:816-830 | without arrays modelled, two of the added edges store to one field if and only if the paths to their leaves agree on every struct index |
| DITypes.StripQualifiers | svf-llvm/lib/DCHG.cpp:765-814 | the loop finds the type beneath all qualifiers |
| DITypes.TeqIffSameClass | svf-llvm/lib/DCHG.cpp:830-940 | the comparison holds exactly between members of one class, classes being described independently of it |
| DITypes.TagsDecide | svf-llvm/lib/DCHG.cpp:779-803 | by name of the tag: const, atomic, volatile, restrict and typedef are transparent; a pointer, reference or member is not stripped and never equivalent to its base |
| DITypes.TeqIsAnEquivalence | svf-llvm/lib/DCHG.cpp:830-940 | reflexive, symmetric, transitive, blind to qualifiers |
| DITypes.AnswersOverARun | svf-llvm/lib/DCHG.cpp:724-763 | over any sequence of calls two answers are the same exactly if the questions are equivalent |
| DCHG.DCHGraph.GetCanonicalType | svf-llvm/lib/DCHG.cpp:724-763 | answers with an equivalent representative; representatives stay pairwise inequivalent and are never dropped, in whatever order they are tried |
| DCHG.DCHGraph.GetOrCreateNode | svf-llvm/lib/DCHG.cpp:408-424 | one node for each class |
| DCHG.DCHGraph.SameNodeIffEquivalent | svf-llvm/lib/DCHG.cpp:408-424 | two types have one node exactly if they are equivalent |
| DCHG.DCHGraph.AddEdge | svf-llvm/lib/DCHG.cpp:435-450 | adds the one edge unless it is there; both ends know it |
| DCHG.DCHGraph.HasEdge | svf-llvm/lib/DCHG.cpp:452-469 | finds the edge if there is one between the two classes, else there is none |
| DCHG.DCHGraph.Cha | svf-llvm/lib/DCHG.cpp:225-268 | on a hierarchy without cycles the remembered and the new answers are exactly the nodes that reach the type along counted edges |
| DCHG.DCHGraph.IsBase | svf-llvm/lib/DCHG.cpp:677-686 | whether one node is reached from the other, or the failed assertion |
| ClassHierarchy.ChaStep | svf-llvm/lib/DCHG.cpp:239-262 | a node's descendants are itself and those of its in-neighbours: both directions |
| ClassHierarchy.AllowedByKind | svf-llvm/lib/DCHG.cpp:239-254 | the edges followed are those of inheritance and standard definitions, and first fields if asked for |
| ClassHierarchy.ChaIsAPreorder | svf-llvm/lib/DCHG.cpp:677-686 | being a base is reflexive and transitive |
| ClassHierarchy.FirstFieldsOnlyAdd | svf-llvm/lib/DCHG.cpp:250-254 | without first-field edges the descendants are a subset of those with them |
| ClassHierarchy.AnswerSurvivesEdge | svf-llvm/lib/DCHG.cpp:225-268 | a remembered answer is still right after an edge is added if and only if the edge does not count, leads outside the answer, or starts inside it |
| ClassHierarchy.AnswerGoesStale | svf-llvm/lib/DCHG.cpp:225-268 | a concrete remembered answer that one more edge makes wrong |
| CppUtil.FindInnermostBrackets | svf-llvm/lib/CppUtil.cpp:706-750 | the search with a stack and used marks returns one text for each pair of a closing bracket and the bracket before it, left to right, and each text with its brackets around it is the input there |
| CppUtil.InnermostPairsAreAll | svf-llvm/lib/CppUtil.cpp:706-750 | these are exactly the pairs with no bracket in between |
| CppUtil.InnermostPairsInOrder | svf-llvm/lib/CppUtil.cpp:706-750 | they are disjoint and in order |
| CppUtil.InnermostIffAlone | svf-llvm/lib/CppUtil.cpp:706-750 | they are exactly the balanced pairs that contain no other |
| CppUtil.EnclosesInnermost | svf-llvm/lib/CppUtil.cpp:706-750 | every pair of an opening and a later closing bracket encloses one |
| CppUtil.TextHasNoBrackets | svf-llvm/lib/CppUtil.cpp:744-749 | the texts contain no `<`, and any `>` in them ends an arrow |
| CppUtil.GetBeforeBrackets | svf-llvm/lib/CppUtil.cpp:99-116 | cuts off the shortest balanced bracket group at the end, or nothing |
| CHGBuilder.Builder.BuildClassNameToAncestorsDescendantsMap | svf-llvm/lib/CHGBuilder.cpp:239-270 | the ancestors are exactly the classes reached by one or more inheritance edges, cycles included, and the descendants are the converse |
| CHGBuilder.Builder.CloseNode | svf-llvm/lib/CHGBuilder.cpp:245-268 | the worklist for one class ends with exactly its ancestors, in whatever order it is emptied |
| CFLSolver.POCRSolver.AddEdge | svf/include/CFL/CFLSolver.h:187-191 | adds one edge to both tables, which stay mirrors; true exactly if it is new |
| CFLSolver.POCRSolver.AddEdgesFrom | svf/include/CFL/CFLSolver.h:194-204 | adds the same edges as one call each would, and returns exactly the new targets |
| CFLSolver.POCRSolver.AddEdgesTo | svf/include/CFL/CFLSolver.h:207-217 | adds the same edges as one call each would, and returns exactly the new sources |
| CFLSolver.POCRSolver.HasEdge | svf/include/CFL/CFLSolver.h:220-231 | exactly the edges of the table of targets |

## Left out

- Strongly connected components: `revTopoNodeStack`, whose order depends on `Util/WorkList.h`, which
  is not part of this model. Node numbers are below UINT_MAX, the code's mark for "no
  representative"; the branch of `find` for nodes merged before the search is never taken, because
  `clear` has just removed all representatives.
- Points-to analysis: the graph is fixed (no indirect-call resolution, no graph growth), as in
  `DDAVFSolver` itself `isMustAlias` is false and `handleBKCondition` is true. `processGepPts` is any
  monotone function; which objects may be updated strongly is any fixed relation. Contexts, the
  re-keying of caches by subclasses and statistics are not modelled.
- Andersen's analysis is not part of this model: its result is a parameter, which is required to
  account for all flows of the graph (`LeastSolution.AndersenIsSound`).
- Runs of the program (`ValueFlowRuns`) follow the edges of the value-flow graph; which of its paths
  control flow can take, and how the graph is built, are not modelled. That runs show all of the least
  solution assumes that objects not updated strongly have more than one address, that contents flow
  from stores and memory regions only, and that `processGepPts` treats each object by itself.
- ReCompute: does not model the edges that a newly resolved indirect call adds, the graph being fixed.
- ReComputeForEdge: models `indirectCall == false` only, which is how it is called without such edges.
- HandleSingleStatement: does not model `resolveFunPtr`, which only resolves indirect calls.
- Breaking constant expressions: opcodes are arbitrary pure operations; traps, poison, landing pads
  and the counters for statistics are not modelled. A phi names one value for each incoming block,
  as LLVM requires.
- CollectStructInfo: requires flattened struct lists below 2^32, which the code's own assertion on
  its 32-bit counters needs.
- CollectArrayInfo: requires that an array with elements has fewer than 2^32 innermost ones, without
  which its loop with a 32-bit counter does not end.
- GetSVFType: does not model the `SVFType` objects, byte sizes, and the parameter types of function
  types; it states that the type has its layout.
- Types: the record of a struct's original element types is not collected. `StInfo` objects are
  values, since nothing changes them once they are in the table.
- GepOffset: byte offsets, which the code ignores, are not modelled.
- InitialGlobal: does not model the edges that `processCE` adds for a constant expression's own
  operands.
- GlobalInitializer: initializers are below 2^32 flattened entries.
- DCHG: `flatten`, `gatherAggs`, virtual tables, typedefs and edge offsets; nodes are table rows
  rather than objects. The hierarchy has no cycles when descendants are asked for: the code's
  recursion does not end on one.
- DITypes: fields and elements of structs and classes, which the comparison does not look at.
- CHGBuilder: class names are unique in the graph, as its map from names to nodes needs; instances
  of templates are not modelled.
- CFLSolver: `clearEdges`, which clears one side of the tables only; the solvers built on them.
- Loading and linking of modules, demangling, statistics, graph printing and everything else outside
  the six algorithms.
