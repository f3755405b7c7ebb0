# A verified model of the Overflow Tool

The Overflow Tool (OFT) looks for integers that overflow only when an MPI application is run at large
scale. Starting from marked *scale variables* it traces everything they influence through a whole LLVM
module into a *scale graph*, lists the 32-bit arithmetic in that graph, and inserts runtime calls that
record the largest value each listed instruction takes on each rank. This project models that pipeline
and proves what its stages promise.

The modules follow the source:

| files | what they model |
|---|---|
| Collections, Reachability, IR | shared small types; finite graphs over values; the part of an LLVM module the analyses read |
| ScaleGraph | the mutable, cyclic heap graph with its value index and doubly linked adjacency |
| TraceClosure, ForwardTracing | recursive tracing up to call sites, call expansion, and their closed form |
| BackwardTracing, IndexComparison, IndexTermination, GepSearch, ReferenceSearch, ReferenceExamples | from a marked value back to the location it stands for, with structures whose marked field is told from another, found in a called function, or lost |
| ScaleVariableTracing, TraceTheorems, CallExpansion, ExpansionExamples, LoopTracing | tracing as a whole, provenance, the fixpoint of call expansion with a program it is missed on, loops |
| OverflowDetection, TracePrinting, Pipeline, LoopExample | detection, printed traces, and the analyses in sequence, with a program that loops leave open under data flow |
| Code, Instrumentation, Execution, ExecutionExample, RecordedMaxima | the transformation, a small-step semantics with a run that shows it at work, the simulation and the recorded maxima |
| Runtime, RankGather, GatheredMaxima, WholeTool | the C runtime of one rank; all ranks with the gather (section 5.5 of MPI 3.1); instrumented programs on all ranks; analysis, transformation and output together |

The analyses get MemorySSA, LoopInfo, the call resolver and the users of each value as given finite data
(`IR.Program`). Heap nodes, traces, the module under instrumentation and the runtime's globals are
classes whose methods update them in place; each method is tied to a function of the old state, and the
theorems are about those functions. What each rule of the code decides is stated once more in terms of the
module alone, without the function that computes it: where a trace goes (`TraceGoesTo`), what is a constant
(`ConstantsByIdentity`), what a call takes in (`FormalsAreMatched`), where the search for GEPs leads
(`GepLinksAre`), what a root is (`ScanMeans`), what a loop is entered from (`LoopLinksAre`), which operators
are detected (`Perform`), and where each runtime call stands (`WeaveInstruments`, `WeavePrints`).

## What is proved

**Tracing is a closure.** Whatever the order of users, references, vertices and call sites, `trace`
leaves exactly this graph: the marked values, the links to their references, all def-use and memory
edges out of everything reachable from the references, and one round of links from calls to formal
arguments with everything reachable from those (`Trace`). Every vertex is reached by child edges from a
marked value (`TraceRooted`, `ScaleGraphRooted`), so what detection finds by traversal is a plain filter
of the graph (`Analyse`).

**The single round of call expansion.** The comment above the loop in `trace` describes a loop until
nothing changes, but the loop's counter is updated at the end of its body, so the body runs once. The
model follows the code. Iterating the round until the graph is stable gives the least set closed under
data flow and argument passing, for any marked values (`FixpointIsLeast`). What the code computes lies
within it, and equals it if and only if steps lead nowhere new from the formals left over, which are those
that the formals followed by the round are passed on as; this is read off the graph before the loop
(`SingleRoundComplete`, `SingleRoundNothingLeft`, `TraceIsBelowFixpoint`). Two nested calls already fail it
(`SingleRoundMisses`). Stopping when no *vertex* was added, which is what the loop's test asks, would not be
enough either once formals are marked themselves (`CountStopMisses`); it is enough if no marked formal is
fed by a call before it was traced (`ExpandByCountComplete`).

**The comparison of indices.** The source asks whether the mutual recursion of `indicesAreEqual` and
`naiveCompare` can run into a loop, and suggests remembering the equalities assessed so far. It ends if and
only if no pair of values is compared again while it is being compared (`ReturnsIff`), so remembering the
pairs under way would be enough. A caller can check that no cycle lies below one of the two indices, which
suffices whatever the other is (`AcyclicReturns`, and so `DivergenceNeedsCycles`); a rank below it bounds
the depth (`RankedTerminates`). Two additions that are their own operands, as unreachable code may contain,
do not end (`SelfAdditionsDiverge`). The comparison is reflexive and symmetric. It is transitive if and only
if all variables have traces of one length or all compare equal (`TransitiveIff`), because traces of
different length always count as equal; three indices show the failure (`NotTransitive`).

**The marked location.** References look like the marked GEP: they never differ from it in a constant index,
so one field of a structure does not stand for another (`ReferencesShareConstants`, `FieldsAreApart`); but i
+ 1 and i are equal as indices (`SuccessorEqual`). With one GEP on a backward trace, the marked GEP is among
the references if and only if it can be found below the root (`MarkedGepKept`). In a nest of GEPs the levels
share their visited marks. A nest of any depth keeps its marked GEP if each GEP can be found below the one
further out and what they lead to is out of reach from the root and from look-alikes further out
(`NestKept`); with two levels it is kept exactly if some value that uses it is reached from look-alikes of
the outer GEP and not from the root (`TwoLevelsKept`). A structure that stores a pointer into itself loses
it (`NestedGepLost`).

**Instrumentation preserves meaning.** Inserting calls one by one equals a single-pass rewrite
(`Instrument`). For every meaning of the instructions, a run of the instrumented module is, without its
runtime calls, a run of the original with the same registers, control, memory and visible events, and
conversely (`RunsErase`, `RunsLift`). It prints directly before each call that finalises MPI and at no other
time (`PrintsBeforeFinalize`). Throughout such a run the table holds, for each id, the maximum of
-1 and everything its instruction has produced since `main` was last entered (`InstrumentedRun`).

**All ranks.** Ranks do not influence each other's tables (`RanksAreIndependent`), and for every
interleaving of ranks that each initialise, store and print, the root's output lists every rank and id
exactly once with that rank's maximum at its print (`OutputIsMaxima`). Put together: when every rank runs
the instrumented program and prints once, the output lists for every rank and detected instruction the
maximum of -1 and what that instruction produced on that rank before the print
(`OutputIsProducedMaxima`), and with the analysis in front this covers every vertex of the scale graph that is
one of the operators looked for on at most 32 bits, and nothing else (`ToolOutput`).

## Model

| member | source | states |
|---|---|---|
| ScaleGraphs.ScaleGraph.AddVertex | lib/ScaleGraph.cpp:12-28 | keeps the representation invariant; a value already there changes nothing, a new one gets one fresh unlinked node and becomes a root only if asked to |
| ScaleGraphs.ScaleGraph.AddEdge | lib/ScaleGraph.cpp:30-48 | keeps the representation invariant (children and parents mirror each other, no duplicates); a new edge between vertices is appended to the children of one end and the parents of the other and changes no other list; an edge already there, or a missing end, changes nothing |
| ScaleGraphs.ScaleGraph.GetVertex | lib/ScaleGraph.cpp:50-56 | the node of the value, null exactly if it is no vertex |
| ForwardTracing.GetCallArgs | lib/Analysis/ScaleVariableTracing.cpp:134-161 | one formal for each position the value is passed in, in order; none for declarations and variadic functions |
| ForwardTracing.CallArgsMean | lib/Analysis/ScaleVariableTracing.cpp:134-161 | as a set, these are exactly the formals that a call edge leads to |
| ForwardTracing.FormalsAreMatched | lib/Analysis/ScaleVariableTracing.cpp:134-161 | read off the module, what enters a called body: nothing for declarations and variadic functions, otherwise exactly the formals at the positions of matching operands, the called value included |
| ForwardTracing.AddChild | lib/Analysis/ScaleVariableTracing.cpp:180-184 | adds one vertex and one edge, and if the graph was exactly what its edges reach from some marked values, it still is; every addition made while tracing is one of these |
| ForwardTracing.AddFlow | lib/Analysis/ScaleVariableTracing.cpp:179-196 | links a value to its users and, for a store, to the loads that read it, and to nothing else |
| ForwardTracing.TraceUpToCalls | lib/Analysis/ScaleVariableTracing.cpp:168-201 | terminates on cyclic code; newly visits only what the start reaches and leaves no newly visited value with an unvisited successor; adds exactly the flow edges of newly visited values |
| Reachability.SearchExact | lib/Analysis/ScaleVariableTracing.cpp:168-201 | from closed marks such a search ends with the old marks plus everything reachable from its start |
| TraceClosure.SearchSaturates | lib/Analysis/ScaleVariableTracing.cpp:168-201 | past values traced before, the graph still gains all edges out of everything reachable from the start |
| TraceClosure.ExtendTwice | lib/Analysis/ScaleVariableTracing.cpp:57-74 | tracing from one set of links and then another equals tracing from both, so the order of references is immaterial |
| Reachability.ReachSetLeast | lib/Analysis/ScaleVariableTracing.cpp:168-201 | the reachable set is below every set that contains the sources and is closed |
| ForwardTracing.TraceCallInstruction | lib/Analysis/ScaleVariableTracing.cpp:109-126 | adds to one call exactly its call edges; values that are no calls get none |
| ForwardTracing.SameParents | lib/Analysis/ScaleVariableTracing.cpp:81-90 | links added for some calls do not change the links due to another call |
| ForwardTracing.ConnectCalls | lib/Analysis/ScaleVariableTracing.cpp:80-90 | walking the index while vertices are added to it connects every call exactly as the graph before the loop demands |
| ForwardTracing.FollowAll | lib/Analysis/ScaleVariableTracing.cpp:92-97 | tracing each collected formal with fresh marks adds everything reachable from all of them |
| ForwardTracing.TraceRound | lib/Analysis/ScaleVariableTracing.cpp:79-100 | one pass of the expansion loop is one round of the closed form |
| BackwardTracing.ValueTrace.Clone | include/OverflowTool/Analysis/ScaleVariableTracing.hpp:30 | a copy with the same values that does not alias the original |
| BackwardTracing.ValueTrace.AddValue | include/OverflowTool/Analysis/ScaleVariableTracing.hpp:32 | appends in place |
| BackwardTracing.FollowBwdUpToArg | lib/Analysis/ScaleVariableTracing.cpp:293-342 | keeps the given trace as a prefix and appends the backward chain of its tail |
| BackwardTracing.FollowArithmeticBwd | lib/Analysis/ScaleVariableTracing.cpp:548-599 | the same along the chain that goes on through arithmetic |
| BackwardTracing.TraceGoesTo | lib/Analysis/ScaleVariableTracing.cpp:548-599 | read off the module, where a trace goes from each of its values: to the operand of a cast, the base of a GEP, the value of a store, the defining store of a load or else its pointer, and for the six operators, only where arithmetic is followed, to the left operand or, behind a constant, the right one; always if it has not passed it yet |
| BackwardTracing.TraceEndsAt | lib/Analysis/ScaleVariableTracing.cpp:293-342 | it ends exactly where there is no such operand or it has passed it: at once with both operands constant, another opcode, arithmetic not followed, or no rule |
| BackwardTracing.FullTraceWellFormed | lib/Analysis/ScaleVariableTracing.cpp:293-342 | the chain has no duplicates, each value is one step back from the one before, and it stops only where a further step repeats a value |
| BackwardTracing.FullTraceUnique | lib/Analysis/ScaleVariableTracing.cpp:293-342 | it is the only trace with these properties from its first value |
| BackwardTracing.FollowArg | lib/Analysis/ScaleVariableTracing.cpp:280-290 | all call sites of the argument's function, in module order |
| BackwardTracing.FollowBwd | lib/Analysis/ScaleVariableTracing.cpp:255-278 | the chain itself or, if it ends in an argument, one copy per call site continued with the call and the chain of the actual argument; one call level only |
| BackwardTracing.BackTracesAre | lib/Analysis/ScaleVariableTracing.cpp:255-290 | read off the module, a marked value's traces: its own or, ending in an argument, one through every call of the argument's function and the operand at the argument's position, and no others |
| IndexTermination.RankedTraceEnds | lib/Analysis/ScaleVariableTracing.cpp:548-599 | above a rank a trace ends where no rule applies, never by coming round in a circle |
| IndexComparison.IndicesAreEqual | lib/Analysis/ScaleVariableTracing.cpp:629-660 | whenever the recursion as the code runs it comes to an end, the method returns its result, and that result is the equality below |
| IndexComparison.IndicesEqualIff | lib/Analysis/ScaleVariableTracing.cpp:629-660 | constants compare by identity, other indices by their traces, value by value up to the naive comparison; traces of different length always compare equal |
| IndexComparison.ConstantsByIdentity | lib/Analysis/ScaleVariableTracing.cpp:631-656 | read off the module, what is compared by identity: globals, functions, other constants and constant expressions, against anything; two of the others with traces of different length are equal |
| IndexComparison.NaiveCompare | lib/Analysis/ScaleVariableTracing.cpp:602-626 | whenever the recursion comes to an end, its result |
| IndexComparison.NaiveEqualIff | lib/Analysis/ScaleVariableTracing.cpp:602-626 | loads compare by their pointer, binary operators by opcode and operands, nothing else is equal |
| IndexComparison.IndicesReflexive | lib/Analysis/ScaleVariableTracing.cpp:629-660 | an index equals itself, and comparing it with itself ends, on any code |
| IndexComparison.IndicesSymmetric | lib/Analysis/ScaleVariableTracing.cpp:602-660 | neither the result nor whether the comparison ends depends on the order of its arguments |
| IndexComparison.TransitiveIff | lib/Analysis/ScaleVariableTracing.cpp:629-660 | the comparison is transitive exactly if all variables of the module have traces of one length, or all compare equal |
| IndexComparison.NotTransitive | lib/Analysis/ScaleVariableTracing.cpp:644-652 | a program with three indices of which two equal the third but not each other |
| IndexComparison.SuccessorEqual | lib/Analysis/ScaleVariableTracing.cpp:571-589 | a program in which the trace of i + 1 goes on to i, so that the two indices count as equal |
| IndexTermination.RankedTerminates | lib/Analysis/ScaleVariableTracing.cpp:602-660 | with a rank below one index the recursion ends within 2 * rank + 2 nested calls, whatever the other index is |
| IndexTermination.AcyclicReturns | lib/Analysis/ScaleVariableTracing.cpp:602-660 | it ends if no cycle lies below one of the two indices |
| IndexTermination.ReturnsIff | lib/Analysis/ScaleVariableTracing.cpp:614-622 | the recursion ends if and only if no pair of values that it comes to compare leads back to itself, so remembering the pairs under way is exactly what would end it |
| IndexTermination.CalledReturns | lib/Analysis/ScaleVariableTracing.cpp:618-622 | a pair that a returning comparison goes on to compare returns itself, two nested calls deeper |
| IndexTermination.ReturnsIfCalledDo | lib/Analysis/ScaleVariableTracing.cpp:618-651 | a comparison whose further comparisons all return, returns |
| IndexTermination.SelfAdditionsDiverge | lib/Analysis/ScaleVariableTracing.cpp:614-622 | on two additions that are their own operands no number of nested calls is enough |
| GepSearch.FindGEPs | lib/Analysis/ScaleVariableTracing.cpp:477-507 | terminates, and appends the GEPs in the order and as often as the depth-first search meets them |
| GepSearch.SearchMeans | lib/Analysis/ScaleVariableTracing.cpp:477-507 | that search visits exactly what its start reaches past the marks, and finds exactly the GEP users of the values it newly visits |
| GepSearch.FindGEPsExact | lib/Analysis/ScaleVariableTracing.cpp:477-507 | from no marks it finds exactly the GEPs that use a value which the links of the search lead to from the root |
| GepSearch.GepLinksAre | lib/Analysis/ScaleVariableTracing.cpp:487-506 | read off the module, these links: to each user that is no GEP, store or call, through a store to the loads that read it, through a call to the formals that the value is passed as |
| GepSearch.NeverThroughGep | lib/Analysis/ScaleVariableTracing.cpp:488-490 | whatever the search reaches beyond its root is no GEP |
| GepSearch.GepsAreEqual | lib/Analysis/ScaleVariableTracing.cpp:663-687 | true exactly for the same root, the same number of indices, and indices that compare equal one by one, whenever the comparisons it makes come to an end |
| GepSearch.GepsReflexive | lib/Analysis/ScaleVariableTracing.cpp:663-687 | a GEP looks like itself |
| GepSearch.GepsSymmetric | lib/Analysis/ScaleVariableTracing.cpp:663-687 | the order of two GEPs with their roots does not matter |
| GepSearch.AcyclicSettled | lib/Analysis/ScaleVariableTracing.cpp:663-687 | comparing a GEP with any other ends if no cycle lies below its indices |
| ReferenceSearch.SettledIsEnough | lib/Analysis/ScaleVariableTracing.cpp:404-438 | the analysis of a trace ends if comparing each GEP of the trace with any GEP does |
| ReferenceSearch.ScanTrace | lib/Analysis/ScaleVariableTracing.cpp:348-385 | the root of a trace and the GEPs before it, as the scan functions say |
| ReferenceSearch.ScanMeans | lib/Analysis/ScaleVariableTracing.cpp:351-385 | the root is the first local, global or call of malloc on the trace, and there is none if and only if the trace has none of these; the GEPs are exactly those before it |
| ReferenceSearch.FindMatching | lib/Analysis/ScaleVariableTracing.cpp:402-411 | appends the look-alikes among the GEPs that the search from the root finds, in order |
| ReferenceSearch.AlikeMatches | lib/Analysis/ScaleVariableTracing.cpp:405-411 | as a set, these are exactly the GEPs found that look like the given one |
| ReferenceSearch.UnrollLevel | lib/Analysis/ScaleVariableTracing.cpp:426-442 | one level of a nest: the look-alikes found from each of the current roots in turn |
| ReferenceSearch.LevelMeans | lib/Analysis/ScaleVariableTracing.cpp:426-442 | as a set, exactly the look-alikes below what the roots reach and no earlier level visited |
| ReferenceSearch.AnalyseTrace | lib/Analysis/ScaleVariableTracing.cpp:345-449 | the list of references: none without a root, the root without GEPs, otherwise the GEPs of the trace unrolled from the root; only comparisons with GEPs that the search finds need to end |
| ReferenceSearch.RefListMeans | lib/Analysis/ScaleVariableTracing.cpp:345-449 | as a set, the list is what unrolling the trace by reachability gives |
| ReferenceSearch.MarkedGepKept | lib/Analysis/ScaleVariableTracing.cpp:396-412 | with one GEP: it is a reference if and only if it can be found below the root, and the references are exactly its look-alikes found there |
| ReferenceSearch.OneLevelReferences | lib/Analysis/ScaleVariableTracing.cpp:396-412 | read off the module, the references with one GEP: exactly the GEPs found below the root with as many indices, each equal to the marked one's at its position |
| ReferenceSearch.NestKept | lib/Analysis/ScaleVariableTracing.cpp:413-444 | a nest of any depth keeps its marked GEP if each GEP is below the one further out and what it leads to is out of reach from the root and from look-alikes further out |
| ReferenceSearch.TwoLevelsKept | lib/Analysis/ScaleVariableTracing.cpp:413-444 | with two GEPs, exactly if some user value of the inner one is reached from look-alikes of the outer one below the root and not from the root itself |
| ReferenceSearch.UnrollAlike | lib/Analysis/ScaleVariableTracing.cpp:413-444 | in a nest of any depth every reference looks like the marked GEP |
| ReferenceSearch.ReferencesShareConstants | lib/Analysis/ScaleVariableTracing.cpp:677-684 | of any listed reference and the marked GEP, at any depth of nesting, neither has a constant index at a position where the other has anything else |
| ReferenceExamples.NestedGepLost | lib/Analysis/ScaleVariableTracing.cpp:418-443 | a program whose marked GEP is below the root and yet not a reference |
| ReferenceExamples.FieldsAreApart | lib/Analysis/ScaleVariableTracing.cpp:677-684 | two fields of one structure do not look alike, and the one is no reference of the other |
| ReferenceExamples.FieldIsFoundInCallee | lib/Analysis/ScaleVariableTracing.cpp:497-501 | a field that is indexed in the function to which the address of its structure is passed is found from the structure, and is its own reference |
| ScaleVariableTracing.CreateScaleGraph | lib/Analysis/ScaleVariableTracing.cpp:43-51 | a valid graph whose vertices and roots are the marked values, without edges or flags |
| ScaleVariableTracing.TraceReference | lib/Analysis/ScaleVariableTracing.cpp:66-72 | extends the graph by one link to a reference and everything reachable from it, keeping the shared marks saturated |
| ScaleVariableTracing.TraceVariable | lib/Analysis/ScaleVariableTracing.cpp:57-74 | extends the graph by the links to all references of the marked value and everything reachable from them, although marks are shared between references |
| ScaleVariableTracing.TraceVariables | lib/Analysis/ScaleVariableTracing.cpp:57-74 | the same for all marked values at once |
| ScaleVariableTracing.Trace | lib/Analysis/ScaleVariableTracing.cpp:53-103 | the closed form: all links to references traced, then exactly one round of call expansion, the sizes being compared modulo 2^32 |
| TraceTheorems.ExtendRooted | lib/Analysis/ScaleVariableTracing.cpp:64-72 | tracing from links that leave vertices keeps every vertex reachable from the marked values |
| TraceTheorems.TraceRooted | lib/Analysis/ScaleVariableTracing.cpp:43-103 | before and after call expansion the vertices are exactly what child edges reach from the marked values |
| TraceClosure.LinkRooted | lib/Analysis/ScaleVariableTracing.cpp:752-755 | so they are after links are added without tracing on |
| TraceTheorems.TraceFlowClosed | lib/Analysis/ScaleVariableTracing.cpp:168-201 | before loops are added, every vertex that is no marked value has all its def-use and memory edges in the graph |
| TraceTheorems.TraceMono | lib/Analysis/ScaleVariableTracing.cpp:53-103 | more marked values and links give a larger graph, if the truncated size of the larger one tells it from the empty graph |
| TraceTheorems.TraceMonoIff | lib/Analysis/ScaleVariableTracing.cpp:53-103 | the graph grows exactly if the larger size counts, or the smaller one is truncated to zero too, or the round on the smaller graph adds nothing that is not in the larger one before its loop |
| TraceTheorems.FewDataCounted | lib/Analysis/ScaleVariableTracing.cpp:78-79 | it does in any module with fewer than 2^32 data values |
| CallExpansion.StageSound | lib/Analysis/ScaleVariableTracing.cpp:76-100 | after any number of rounds only values of the least closed set have been traced |
| CallExpansion.StageRound | lib/Analysis/ScaleVariableTracing.cpp:76-100 | a round keeps this |
| CallExpansion.StepsReach | lib/Analysis/ScaleVariableTracing.cpp:76-100 | what data flow and argument passing reach is what data flow reaches, and on from the formals that this is passed as |
| CallExpansion.StageCompleteIff | lib/Analysis/ScaleVariableTracing.cpp:76-100 | after any number of rounds the least closed set is reached exactly if steps lead from the formals that the edges feed to vertices only |
| CallExpansion.StageComplete | lib/Analysis/ScaleVariableTracing.cpp:76-100 | it is reached once all formals that the edges feed have been traced |
| CallExpansion.StableComplete | lib/Analysis/ScaleVariableTracing.cpp:76-100 | it is reached once a round changes nothing |
| CallExpansion.ExpandIsComplete | lib/Analysis/ScaleVariableTracing.cpp:76-100 | iterating rounds until nothing changes terminates with the least closed set, from any stage |
| CallExpansion.FixpointIsLeast | lib/Analysis/ScaleVariableTracing.cpp:76-100 | and so it does from the start, for any marked values and links among data |
| CallExpansion.ExpandByCountIff | lib/Analysis/ScaleVariableTracing.cpp:78-99 | iterating until no vertex is added stays within the least closed set, and reaches it exactly if steps lead from the formals its edges feed to vertices only |
| CallExpansion.ExpandByCountComplete | lib/Analysis/ScaleVariableTracing.cpp:78-99 | it reaches it if every marked formal that calls may feed is reached by data flow from the references |
| ExpansionExamples.CountStopMisses | lib/Analysis/ScaleVariableTracing.cpp:78-99 | a program with marked formals on which counting vertices stops too early |
| CallExpansion.SingleRoundComplete | lib/Analysis/ScaleVariableTracing.cpp:76-100 | the code's single round stays within the least closed set and reaches it if and only if steps from the formals it leaves over lead to vertices only, all read off the graph before the loop |
| CallExpansion.SingleRoundNothingLeft | lib/Analysis/ScaleVariableTracing.cpp:76-100 | if no untraced marked value is left over, if and only if every formal left over is a vertex |
| CallExpansion.TraceIsBelowFixpoint | lib/Analysis/ScaleVariableTracing.cpp:53-103 | trace's vertices are among those of the loop until nothing changes, and the same exactly on that condition |
| ExpansionExamples.SingleRoundMisses | lib/Analysis/ScaleVariableTracing.cpp:77-100 | a program with two nested calls whose inner formal the single round misses |
| LoopTracing.CollectControlled | lib/Analysis/ScaleVariableTracing.cpp:710-748 | for a conditional branch exactly the instructions of the loops its successors are in or are top-level preheaders of; nothing for other values |
| LoopTracing.CollectLoopNodes | lib/Analysis/ScaleVariableTracing.cpp:690-751 | terminates, visits each node reachable from the roots exactly once, and collects exactly the branch-to-instruction links of those nodes |
| LoopTracing.VisitedAll | lib/Analysis/ScaleVariableTracing.cpp:696-705 | reached nodes that include the roots and all their children are all reachable nodes |
| LoopTracing.TraceLoops | lib/Analysis/ScaleVariableTracing.cpp:690-756 | the old graph plus exactly the links of reachable conditional branches, not traced further |
| LoopTracing.LoopLinksAre | lib/Analysis/ScaleVariableTracing.cpp:710-748 | read off the module, these links: from a conditional branch to the instructions of the innermost loop around a successor or, for a successor in no loop, of the top-level loops of the function that it is the preheader of |
| OverflowDetection.FindInstructions | lib/Analysis/ScaleOverflowIntegerDetection.cpp:48-63 | terminates on cyclic graphs; adds exactly the newly visited nodes that may overflow |
| OverflowDetection.NodesExact | lib/Analysis/ScaleOverflowIntegerDetection.cpp:48-63 | without marks it visits exactly the nodes reachable from its start |
| OverflowDetection.FindAll | lib/Analysis/ScaleOverflowIntegerDetection.cpp:72-75 | over all roots: exactly the nodes reachable from some root that may overflow |
| OverflowDetection.Perform | lib/Analysis/ScaleOverflowIntegerDetection.cpp:30-86 | lists, in order and without duplicates, exactly the binary operators on integers of at most 32 bits, with one of the opcodes looked for, that can be reached from the marked values; sets their flags and changes no other flag |
| TracePrinting.PrintTraces | lib/UtilFuncs.cpp:98-109 | prints each newly visited node once, at a depth that is the length of a path to it, below an earlier line for a neighbour one level up; children in their order, each with everything below it before the next |
| TracePrinting.PrintBwdTraces | lib/UtilFuncs.cpp:131-142 | the same along parent links, parents in their order |
| TracePrinting.PrintTracesOf | lib/UtilFuncs.cpp:80-84 | a whole forward print shows exactly the descendants of its start, each once |
| TracePrinting.PrintBwdTracesOf | lib/UtilFuncs.cpp:114-118 | a whole backward print shows exactly the ancestors, each once |
| TracePrinting.AlarmExplained | lib/UtilFuncs.cpp:131-142 | the backward print of anything reachable from a marked value shows a marked value, at the length of a path from it |
| Pipeline.ScaleGraphRooted | lib/Analysis/ScaleVariableTracing.cpp:758-792 | with or without loops, every vertex of the scale graph is reached from a marked value |
| Pipeline.LoopsFlowClosedIff | lib/Analysis/ScaleVariableTracing.cpp:752-755 | with loops the graph is closed under data flow if and only if nothing uses or reads what only a loop brought in |
| LoopExample.LoopUserMissed | lib/Analysis/ScaleVariableTracing.cpp:752-755 | a program in which a loop brings in an instruction whose use behind the loop is missed |
| Pipeline.Trace | lib/Analysis/ScaleVariableTracing.cpp:777-791 | the scale graph is a function of the set of marked values: order and repetition in the list do not matter |
| Pipeline.Analyse | lib/Analysis/Passes/ScaleOverflowIntegerDetectionPass.cpp:47-83 | what is detected by traversal is exactly every vertex of the scale graph that is such an operator, and exactly those are flagged |
| Pipeline.PipelineMonotone | lib/Analysis/ScaleVariableTracing.cpp:758-792 | marking more values only enlarges the scale graph and what is detected, if the larger size counts |
| Pipeline.PrintHistories | lib/Transform/Passes/OverflowInstrumentationPass.cpp:51-57 | every detected instruction's history is a whole backward print and shows a marked value it depends on |
| Pipeline.PrintUsedefs | lib/Analysis/Passes/ScaleVariableTracingPass.cpp:60-62 | the forward prints of the marked values together show exactly the vertices of the graph |
| Code.WeaveBlockErases | lib/Transform/OverflowInstrumentation.cpp:47-77 | leaving runtime calls out of a rewritten block gives the block back |
| Code.WeaveEntryErases | lib/Transform/OverflowInstrumentation.cpp:82-100 | and so it does for the entry block with its initialisation |
| Code.WeaveEntryShape | lib/Transform/OverflowInstrumentation.cpp:93-95 | the entry block keeps its PHIs first and its terminator last |
| Code.WeavePrints | lib/Transform/OverflowInstrumentation.cpp:107-141 | in a rewritten module a print stands directly before every call of one of the three finalisation functions, and nowhere else |
| Instrumentation.InsertOnce | lib/Transform/OverflowInstrumentation.cpp:65-72 | where exactly one instruction of a block matches, inserting at it equals inserting at every match |
| Instrumentation.SpliceIsPass | lib/Transform/OverflowInstrumentation.cpp:65-72 | an insertion in place at an instruction that occurs once in the module equals a pass over all blocks |
| Instrumentation.StoresSnoc | lib/Transform/OverflowInstrumentation.cpp:167-171 | one more store inserted, with the next id, is the pass for one more detected instruction |
| Instrumentation.PassesAreWeave | lib/Transform/OverflowInstrumentation.cpp:158-188 | stores, initialisation and prints after each other equal the single-pass rewrite |
| Instrumentation.FinalizeCallsDistinct | lib/Transform/OverflowInstrumentation.cpp:112-122 | no finalisation call is collected twice |
| Instrumentation.FinalizeCallsMeans | lib/Transform/OverflowInstrumentation.cpp:114-122 | the collected calls are exactly the module's calls of the three finalisation functions |
| Instrumentation.OverflowInstrumentation.InstrumentInstruction | lib/Transform/OverflowInstrumentation.cpp:47-77 | puts one store of the result with this id right behind the instruction and changes nothing else |
| Instrumentation.OverflowInstrumentation.InitInstrumentation | lib/Transform/OverflowInstrumentation.cpp:82-100 | puts one initialisation into the entry block of the first main function, behind PHIs and debug intrinsics, and changes nothing else |
| Instrumentation.OverflowInstrumentation.FinaliseInstrumentation | lib/Transform/OverflowInstrumentation.cpp:107-141 | puts one print right before every finalisation call and changes nothing else: in each block without earlier prints they then stand exactly there |
| Instrumentation.OverflowInstrumentation.Instrument | lib/Transform/OverflowInstrumentation.cpp:158-188 | the module becomes its single-pass rewrite for the list, with a print directly before every finalisation call and nowhere else |
| Execution.RunsErase | lib/Transform/OverflowInstrumentation.cpp:158-188 | every run of code with added runtime calls is, without them, a run of the original: same events, registers, control and world |
| Execution.RunsLift | lib/Transform/OverflowInstrumentation.cpp:158-188 | every run of the original is matched by a run of the code with runtime calls, which never hold it up |
| RecordedMaxima.IdsAreBijective | lib/Transform/OverflowInstrumentation.cpp:167-171 | the ids are the positions of the detected instructions, one each |
| RecordedMaxima.WeaveInstruments | lib/Transform/OverflowInstrumentation.cpp:158-188 | in the rewritten module stores stand exactly behind the detected instructions with their ids, prints exactly before the finalisation calls, and the only initialisation, with the list's length, directly behind the PHIs and debug intrinsics that the entry block starts with |
| RecordedMaxima.WeaveKeepsShape | lib/Transform/OverflowInstrumentation.cpp:158-188 | every block keeps its PHIs first and its terminator last |
| RecordedMaxima.StoresTypedIff | lib/Transform/OverflowInstrumentation.cpp:55-72 | every inserted store passes a 32-bit value, as the declared parameter demands, if and only if every detected instruction computes one |
| RecordedMaxima.MaxProducedIsMax | runtime/src/instrumentation_functions.c:42-46 | the recursively computed maximum bounds every value produced since main was entered, and is one of them or -1 |
| RecordedMaxima.StepKeeps | runtime/src/instrumentation_functions.c:26-50 | every single step keeps the invariant between the table and the history of produced values |
| RecordedMaxima.RunKeeps | runtime/src/instrumentation_functions.c:26-50 | so does every run |
| RecordedMaxima.InstrumentedRun | runtime/src/instrumentation_functions.c:26-50 | an instrumented run from main simulates an original run, its table holds the maximum of -1 and all values produced for each id unless a store is about to happen, and that store is inside the table |
| RecordedMaxima.OriginalRun | lib/Transform/OverflowInstrumentation.cpp:158-188 | an original run from main is simulated by an instrumented one |
| RecordedMaxima.PrintsBeforeFinalize | lib/Transform/OverflowInstrumentation.cpp:107-141 | in an instrumented run a print is executed directly before each call that finalises MPI and at no other time |
| Runtime.OftRuntime.InitVals | runtime/src/instrumentation_functions.c:26-40 | a fresh table of the given length filled with -1, rank unknown, both flags cleared |
| Runtime.OftRuntime.StoreMaxVal | runtime/src/instrumentation_functions.c:42-50 | the entry becomes the maximum of old and new value, other entries stay, and a store after a print sets the warning flag |
| Runtime.OftRuntime.PrintMaxVals | runtime/src/instrumentation_functions.c:52-73 | sends the table as it is, remembers rank and finalisation, and writes the output at rank 0 only |
| Runtime.OftRuntime.FinalCheck | runtime/src/instrumentation_functions.c:16-24 | the warning is written exactly if the flag is set and the rank is 0 or unknown |
| Runtime.WriteOutput | runtime/src/instrumentation_functions.c:62-70 | the nested loops write all entries in order, and the index stays within the buffer and within 32 bits |
| Runtime.EntriesListAll | runtime/src/instrumentation_functions.c:64-68 | each pair of rank and id is listed at the computed index and nowhere else |
| Runtime.IndexInRange | runtime/src/instrumentation_functions.c:66 | rows and columns address the gathered values without gap or overlap |
| RankGather.RanksAreIndependent | runtime/src/instrumentation_functions.c:26-50 | in any interleaving a rank ends where its own calls lead it |
| RankGather.TableIsMax | runtime/src/instrumentation_functions.c:26-46 | after any calls each entry is the maximum of -1 and what was stored for it since the last initialisation |
| RankGather.ActiveIff | runtime/src/instrumentation_functions.c:37-50 | the warning flag is set if and only if some store follows a print with no initialisation after the print |
| RankGather.FlagInInterleaving | runtime/src/instrumentation_functions.c:48-49 | the same for each rank in any interleaving |
| RankGather.RankIsLastPrinted | runtime/src/instrumentation_functions.c:37-55 | a rank remembers the number that its last print since its initialisation passed on; before there is one it is unknown |
| RankGather.WarnedIff | runtime/src/instrumentation_functions.c:16-24 | a rank that has printed warns at exit exactly if it stored after that and is rank 0, or unknown |
| RankGather.ScriptSends | runtime/src/instrumentation_functions.c:52-60 | what a rank contributes to the gather is its maxima up to its print |
| RankGather.BufferAt | runtime/src/instrumentation_functions.c:59-66 | entry j of rank i is at i * TABLE_LEN + j of the gathered values |
| RankGather.OutputIsMaxima | runtime/src/instrumentation_functions.c:52-73 | for every interleaving of ranks that follow a script, the output lists every rank and id exactly once with that rank's maximum at its print, a rank's warning flag is set exactly if it stored after its print, and only rank 0 then warns |
| GatheredMaxima.CallsLead | runtime/src/instrumentation_functions.c:26-73 | the runtime's state during a run of the program is what its runtime calls make of it |
| GatheredMaxima.RankContributes | runtime/src/instrumentation_functions.c:52-60 | an instrumented run that prints once sends, for each id, the maximum of -1 and what the instruction produced before the print, as the original program does |
| GatheredMaxima.RankFinalizes | lib/Transform/OverflowInstrumentation.cpp:107-141 | such a rank prints as itself, directly before it finalises MPI |
| GatheredMaxima.OutputIsProducedMaxima | runtime/src/instrumentation_functions.c:42-73 | for ranks that all run the instrumented program from main and print once, in any interleaving, the output lists every rank and id exactly once with the maximum that the instruction produced on that rank before its print |
| WholeTool.InstrumentProgram | lib/Transform/Passes/OverflowInstrumentationPass.cpp:32-38 | analysis and transformation in sequence instrument exactly the vertices of the scale graph that are binary operators on integers of at most 32 bits with one of the opcodes looked for |
| WholeTool.ToolOutput | lib/Transform/Passes/OverflowInstrumentationPass.cpp:32-38 | every such vertex has an id under which the output lists, for every rank exactly once, the maximum it produced there before the print; nothing else is listed |
| WholeTool.StoresTypedForProgram | lib/Analysis/ScaleOverflowIntegerDetection.cpp:32-33 | all inserted calls are well typed if and only if every detected operator is one on 32-bit integers |

## Left out

- LLVM itself: MemorySSA, LoopInfo, alias analysis, types and pointer casts are given finite data. Assumed of them (`IR.Program.WellFormed`): calls resolve and pass as many arguments as a followed function takes, data never flows into a function, and every load has a defining store or a pointer operand (no memory PHI).
- Marked values are taken to be data, not functions, because a callee is also an operand of its call and `getCallArgs` compares all operands.
- IndexComparison.IndicesAreEqual: no claim that equal indices have equal values at run time; the comparison is a heuristic.
- ScaleVariableTracing.Trace: requires that the index comparisons made for the marked values come to an end, as the code then does too; code that the traces do not meet may be as cyclic as it likes.
- ReferenceSearch.NestKept: a condition that is enough at any depth; exact ones are stated for one level (`MarkedGepKept`) and two (`TwoLevelsKept`).
- TraceTheorems.TraceMono: one condition that is enough; `TraceMonoIff` states the exact one. Instructions brought in by loops are not traced on; `LoopsFlowClosedIff` says when that matters.
- Instrumentation.OverflowInstrumentation.Instrument: inserts the call whatever the width of the operand, as the code does; `canIntegerOverflow` accepts narrower integers than the declared `i32` parameter (`NarrowAccepted`), `StoresTypedIff` says when no call is mistyped, and the semantics gives mistyped calls the same meaning.
- Instrumentation.OverflowInstrumentation.InitInstrumentation: requires the first main function to have a body, as its entry block is taken without a check.
- Execution.RunsErase: instructions have arbitrary meanings over registers and one world; exceptions, threads and instructions inside the runtime are not modelled, and printing leaves the world as it is.
- RecordedMaxima.InstrumentedRun: values are integers without a width, so it does not state that products wrap; it holds for every meaning of the instructions, wrapping ones included.
- Runtime.OftRuntime.PrintMaxVals: the gathered values are a parameter, and the number of ranks times the table length is required to fit 32 bits, as `i * TABLE_LEN + j` is computed in `int`.
- WholeTool.ToolOutput: the two views of a module, the values of the analyses and the blocks of the transformation, are related by its binary operators only (each computed once, with its width); users, memory and loops are not derived from the blocks.
- RankGather.OutputIsMaxima: the buffer is every rank's contribution in rank order; the transport and the waiting inside the collective call are not modelled.
- The two-argument `gepsAreEqual` and null roots of the four-argument one, which `analyseTrace` does not use.
- Library and annotation scanning and the config parser: flat scans.
- Pass registration, command-line options (the opcodes looked for are a parameter), debug output, text formatting, file handling, allocation failure and `atexit` failure.
