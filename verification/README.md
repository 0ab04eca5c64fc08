# The middle of a C-minus compiler

The compiler turns a syntax tree into an LLVM-like intermediate representation
and then rewrites that. This project models the generator and the passes behind
it, over 32-bit integers, and proves what they are for.

* **Control flow and dominance** (`Cfg`, `PostOrder`, `Climb`, `Dominators`). A basic block
  is its position in the block list; a graph has successor and predecessor lists.
  Dominance is defined by paths. The dominator pass is the class with its four
  loops.
* **The intermediate representation** (`Arithmetic`, `Ir`, `Runs`, `Printing`). Blocks
  hold phis, a body and a terminator. Runs are counted in blocks and end in a
  returned value, in a halt (trap, undefined value, a callee that does not come
  back) or unfinished, always with the global memory and what has been printed. A
  called function is part of the machine: it may depend on everything exchanged so
  far. `ArrayIr` is the same with pointers: local and argument arrays, elements
  computed by geps, and a memory of global objects and of the arrays of every
  active call; `ArraySsa` is its SSA form and what that means for all states of all
  runs.
* **Promotion of stack slots to SSA values** (`Ssa`, `SsaValues`, `SsaMeaning`,
  `Coverage`, `Rename`, `RenameCode`, `RenameWalk`, `Mem2Reg`, `WalkOrders`,
  `Definedness`, `Uninitialised`). First what a promoted function is and why its runs
  are those of the original, independently of how it is made; then the pass: work
  list, renaming walk with value stacks, removal of the allocas; then when the pass
  fails, and when no run uses an undefined value.
* **Loop discovery** (`Scc`, `Tarjan`, `LoopForest`, `LoopRounds`, `LoopSearch`).
  Tarjan's traversal with its node fields and stack, repeated on the graph
  without the bases found.
* **Code generation** (`Ast`, `SourceLaws`, `ExprMeaning`, `StmtMeaning`, `CodeShape`,
  `FunMeaning`, `Visits`, `Codegen`, `Pipeline`, `Linked`). The source language with
  scopes and calls has a meaning of its own; the generator is a class whose visitors
  move an insert point. What a visitor leaves is stated over every function that
  the code may still become, so it survives while code is added. In the end whole
  programs are generated, promoted and linked.
* **Rewriting** (`Liveness`, `UseSets`, `Rescan`, `ActiveVars`; `BlockMerge`, `ConstPropagation`,
  `PromotedLayout`; `SideEffects`, `EffectCode`, `SideEffectFuncs`, `DeadCode`,
  `NeededCode`, `SweptProgram`, `DeadCodeEliminate`; `CseTables`, `CseFacts`,
  `CseFinds`, `CseSteps`, `CseMeaning`,
  `CommonSubExper`, `CseOrder`, `CseCalls`, `RecursiveMain`; `UseLists`). Live
  variables by rescanning, path compression, dead code and common subexpressions in
  whole programs with local arrays, and the use lists under them.

Sets that the compiler iterates in pointer order are iterated in any order here,
so nothing depends on it.

## What was found

* Renaming keeps a stack for every slot. Where a look-up finds no stack, the load
  stays or the phi gets no pair for the edge, and the function is still right; where
  it finds a stack that other blocks have made and emptied, an assertion fails (an
  edge) or `back()` of an empty vector is read (a load). `Mem2Reg.Mem2Reg.Run` fails
  if and only if that happens in the order of its walk (`Coverage.NoStale`), and some
  order it can take makes it happen if and only if a block that looks up a slot in
  vain does not dominate every block that defines it (`WalkOrders.SafeIsExact`).
  `Uninitialised` holds two functions all of whose runs are defined: one is promoted
  with a phi that lacks a pair, the other makes the pass fail in one of its two
  orders.
* The liveness loop clears the set of a block before it reads the sets of the
  successors, so a block that leads to itself contributes nothing to its own
  live-out set. The live-in sets are exact all the same. A live-out set is exact if
  and only if nothing is live only round its block (`Liveness.OutIsRight`);
  `ActiveVars.MissesSelfLoop` runs the pass on a function where something is.
* The liveness loop is seeded with the use sets. A block that stores to an alloca of its
  own has that value in both its use and its definition set; so it is seeded where it
  is not live, and blocks in front take it over. The loop ends with exactly what is
  live if and only if no such value comes round to a block it has passed
  (`Rescan.CleanIsExact`, `ActiveVars.ActiveVars.Run`); it never does if only the entry
  has such a value (`Rescan.UnenteredIsClean`). Otherwise the loop may never end
  (`ActiveVars.OwnStoreRuns`), or end with a value that is live nowhere
  (`ActiveVars.OwnStoreIsWrong`); which of the two is told by `Rescan.EndsIff`.
* Setting an operand keeps the use lists exact if and only if it is the first time:
  the value named before keeps an entry (`UseLists.Value.SetOperand`).
* The reuse of expressions does not come back from a block with two predecessors that
  stand before it: the loop that merges the table of the second tests an iterator that
  nothing moves. The pass finishes on a function if and only if no block has two
  predecessors in front (`CommonSubExper.CommonSubExper.Run`), and on a program if and
  only if it does on every function (`CseCalls.Run`). A plain `if` whose body falls
  through has such a block (`CseOrder.PlainIfHangs`).
* Where it finishes, it goes through the blocks in the order of the list, and a block
  takes over what its one predecessor in front ends with, though others may stand
  behind. An entry can so come to a block that is also reached round where it was made:
  `CseOrder.NestedFails` has a loop within the then-side of an if with else, behind
  which a sum is replaced by the one of the else-side, which was not computed. The
  pass uses only what has been computed, in all functions on a graph it finishes on, if
  and only if the order of the list keeps entries below where they were made
  (`CseOrder.FlowsDownIsExact`); then it preserves every run.
* The reuse of expressions counts a `main` without parameters as free of side
  effects, so a load behind a call of it can be taken for one in front:
  `RecursiveMain.PassIsWrong` has a run that puts out something else afterwards.
  Some call relies on that exemption if and only if some function calls `main`
  (`CseCalls.MainMatters`); if none does, every call does what it did
  (`CseCalls.CallsStay`).

## Model

| member | source | states |
|---|---|---|
| `Dominators.Dominators.PostOrderVisit` | src/optimization/Dominators.cpp:74-83 | the traversal numbers every block it leaves once, after all blocks it leads to that were unvisited, and leaves no edge from a numbered block to an unvisited one |
| `Dominators.Dominators.CreateReversePostOrder` | src/optimization/Dominators.cpp:65-72 | all blocks, each once, in descending post-order number; the entry has the highest, and every other block has a predecessor with a higher number |
| `Dominators.Dominators.Intersect` | src/optimization/Dominators.cpp:130-143 | the result lies on both idom chains and every block on both lies on its chain; the walks end and both asserts hold |
| `Dominators.Dominators.NewIdom` | src/optimization/Dominators.cpp:102-119 | a predecessor with a dominator exists, and the result is the meeting point of the chains of all such predecessors |
| `PostOrder.MeetIsSound` | src/optimization/Dominators.cpp:112-123 | a stored meeting point is above the block on the tree of first predecessors and is dominated by every strict dominator of the block |
| `PostOrder.MeetIsSettled` | src/optimization/Dominators.cpp:96-124 | if all stored dominators lie on every path of at most k edges, the new one lies on every path of at most k + 1 edges |
| `PostOrder.NoLateChange` | src/optimization/Dominators.cpp:120-123 | once k reaches the number of blocks, a visit changes nothing |
| `PostOrder.StableIsExact` | src/optimization/Dominators.cpp:85-127 | a table that no visit changes holds the immediate dominators, and the chain of each block is exactly its set of dominators |
| `Climb.MeetMovesUp` | src/optimization/Dominators.cpp:120-123 | the dominator found for a block that has one lies on the chain of the old one |
| `Climb.ChainAfter` | src/optimization/Dominators.cpp:120-123 | an update takes from each chain through the block exactly what lies between the block and its new dominator |
| `Climb.TurnStep` | src/optimization/Dominators.cpp:96-124 | in reverse post-order each visit keeps what makes later updates climb |
| `Dominators.Dominators.Visit` | src/optimization/Dominators.cpp:97-123 | an update of a block that has a dominator moves it strictly up its old chain, and every chain becomes a part of what it was |
| `Dominators.Dominators.Pass` | src/optimization/Dominators.cpp:96-124 | one pass keeps the table sound, shortens chains only, settles paths one edge longer, and changes nothing only when the table is stable |
| `Dominators.Dominators.CreateIdom` | src/optimization/Dominators.cpp:85-127 | the loop ends within one pass more than there are blocks, with exactly the immediate dominators |
| `Cfg.DomAntisym` | src/optimization/Dominators.cpp:85-127 | two reachable blocks that dominate each other are one |
| `Cfg.DomChain` | src/optimization/Dominators.cpp:129-143 | any two dominators of a block are ordered, so chains are chains |
| `Dominators.Dominators.WalkUp` | src/optimization/Dominators.cpp:150-154 | the runner stops at the immediate dominator and adds the block to the frontiers of exactly the blocks passed |
| `Dominators.Dominators.CreateDominanceFrontier` | src/optimization/Dominators.cpp:145-158 | the frontier of b is exactly the blocks y such that b dominates a predecessor of y and not strictly y |
| `Dominators.Dominators.CreateDomTreeSucc` | src/optimization/Dominators.cpp:160-169 | the children of b are exactly the blocks whose immediate dominator is b, without the entry |
| `Dominators.Dominators.Run` | src/optimization/Dominators.cpp:5-26 | dominators, frontiers and tree of a well-formed function, all exact |
| `Mem2Reg.Mem2Reg.FindStores` | src/optimization/Mem2Reg.cpp:28-54 | the slots stored to, each with exactly the blocks that store it |
| `Mem2Reg.Mem2Reg.SpreadFrom` | src/optimization/Mem2Reg.cpp:60-77 | the growing work list of one slot ends with the frontiers of all its members filled, one phi for each block and slot |
| `Mem2Reg.Mem2Reg.GeneratePhi` | src/optimization/Mem2Reg.cpp:26-79 | the blocks given a phi are closed under frontiers and contained in every closed placement: the iterated dominance frontier |
| `Rename.ReplaceLoad` | src/optimization/Mem2Reg.cpp:97-110 | replacing a load by the value its slot has there keeps the values of the blocks walked so far consistent |
| `SsaValues.Promotion.JoinAgrees` | src/optimization/Mem2Reg.cpp:60-77 | where two ways meet without a phi, both carry the same value of the slot |
| `SsaValues.Promotion.CurrentAvailable` | src/optimization/Mem2Reg.cpp:81-123 | the value a slot has at a point is defined on every way to that point |
| `Mem2Reg.Mem2Reg.WalkLoadInstr` | src/optimization/Mem2Reg.cpp:97-110 | without a stack for the slot the load stays; with an empty one the walk fails; otherwise the top is the value of the slot, and all uses of the load become uses of it |
| `Mem2Reg.Mem2Reg.LinkSuccessors` | src/optimization/Mem2Reg.cpp:125-141 | every phi of every successor whose slot has a stack gets the pair for this block, with the value at its end, the others none; the assert fails if and only if such a stack is empty |
| `Mem2Reg.Mem2Reg.PopAll` | src/optimization/Mem2Reg.cpp:148-167 | pops as often as the block has pushed, slot by slot |
| `Mem2Reg.Mem2Reg.ReName` | src/optimization/Mem2Reg.cpp:81-173 | walks exactly the dominator subtree, leaves every stack with the contents it had, and makes the values of the subtree consistent; or stops at the first look-up that finds an emptied stack |
| `Mem2Reg.Mem2Reg.RemoveAlloca` | src/optimization/Mem2Reg.cpp:175-198 | no alloca of a slot is left and nothing else changes |
| `SsaMeaning.BodyMatches` | src/optimization/Mem2Reg.cpp:95-123 | the body of a block and what is left of it lead from related states to related states, or halt alike |
| `SsaMeaning.EnterRelated` | src/optimization/Mem2Reg.cpp:125-141 | an edge with its phis, those without a pair for it included, leads from related states to related states |
| `SsaMeaning.PromotionPreservesRuns` | src/optimization/Mem2Reg.cpp:26-198 | for any arguments, memory, callees and number of blocks the promoted function, with loads left and pairs left out where a slot has no value, has the same outcome: value, memory and output; only a run that uses an undefined value may go on |
| `RenameWalk.PromotionDone` | src/optimization/Mem2Reg.cpp:81-198 | after the walk each phi holds a pair for exactly those predecessors at whose end the slot has a value, and no operand names a deleted load |
| `RenameCode.OnePairEach` | src/optimization/Mem2Reg.cpp:125-141 | a phi with a pair for every predecessor has exactly one for each, and no other |
| `Mem2Reg.Mem2Reg.Run` | src/optimization/Mem2Reg.cpp:9-24 | fails if and only if, in the order of its walk, a look-up finds a stack made by a block walked before and no value; otherwise least placement, promoted form, stacks restored, and the outcome of the load/store function in every run |
| `Coverage.FullIffCovered` | src/optimization/Mem2Reg.cpp:104-137 | no load is left and every phi has a pair for every predecessor if and only if every look-up finds a value |
| `Coverage.CoveredIsSafe` | src/optimization/Mem2Reg.cpp:104-137 | a function in which every look-up finds a value meets the condition of the next row |
| `Coverage.SafeNeverStale` | src/optimization/Mem2Reg.cpp:81-173 | if blocks that look up a slot in vain dominate all that define it, no order of the walk fails |
| `WalkOrders.SafeIsExact` | src/optimization/Mem2Reg.cpp:81-173 | and only then: otherwise some order of all blocks that the recursion over the tree can take makes a look-up fail |
| `WalkOrders.Complete` | src/optimization/Mem2Reg.cpp:143-146 | what the walk has done at any moment can be completed to a walk of all blocks |
| `Coverage.InitialisedIsCovered` | src/optimization/Mem2Reg.cpp:104-137 | slots stored in the entry before any load always have a value |
| `RenameWalk.InitialisedIsCoverable` | src/optimization/Mem2Reg.cpp:26-173 | a function whose slots are initialised in the entry finds a value at every look-up, so it is promoted in every order |
| `RenameWalk.CoverableIsPromotable` | src/optimization/Mem2Reg.cpp:81-173 | a function with a value at every look-up is one the pass never fails on |
| `Definedness.PromotionIsExact` | src/optimization/Mem2Reg.cpp:26-198 | where every look-up finds a value no run uses an undefined one, and promotion changes no outcome at all |
| `Definedness.InitialisedIsExact` | src/optimization/Mem2Reg.cpp:26-198 | so it is for functions that store all their slots in the entry, behind the allocas and before any load |
| `Uninitialised.TriangleForm` | src/optimization/Mem2Reg.cpp:125-141 | a function with a variable assigned on one way has the form the pass is given |
| `Uninitialised.TriangleRuns` | src/optimization/Mem2Reg.cpp:125-141 | all its runs are defined and return the value assigned |
| `Uninitialised.PlaceIsLeast` | src/optimization/Mem2Reg.cpp:26-79 | its only phi stands where the two ways meet |
| `Uninitialised.TriangleIsSafe` | src/optimization/Mem2Reg.cpp:132-138 | and the pass promotes it in every order, though the edge round the assignment brings no value |
| `Uninitialised.DiamondForm` | src/optimization/Mem2Reg.cpp:125-141 | a function with a variable assigned on one of two sides has that form too |
| `Uninitialised.DiamondRuns` | src/optimization/Mem2Reg.cpp:125-141 | its runs return 0, unless a call does not come back |
| `Uninitialised.DiamondPlace` | src/optimization/Mem2Reg.cpp:26-79 | its placement |
| `Uninitialised.DiamondFails` | src/optimization/Mem2Reg.cpp:132-138 | and yet the pass fails if it walks the assigning side first, and does not if it walks it last; both are orders of the walk |
| `Tarjan.EnterKeeps` | src/optimization/LoopSearch.cpp:68-71 | numbering and pushing a node keeps the invariant of the traversal |
| `Tarjan.FollowNew` | src/optimization/LoopSearch.cpp:75-80 | after the visit of a new successor the lowest number known is still one that the node reaches |
| `Tarjan.FollowOld` | src/optimization/LoopSearch.cpp:81-85 | so it is after looking at a numbered successor, on the stack or not |
| `Tarjan.TopIsScc` | src/optimization/LoopSearch.cpp:88-99 | when nothing below it is reached, the node and all above it on the stack are one strongly connected component |
| `Tarjan.PopKeeps` | src/optimization/LoopSearch.cpp:88-104 | taking that component off keeps the invariant, and the components recorded stay exactly the finished ones of two nodes or more |
| `LoopSearch.LoopSearch.Traverse` | src/optimization/LoopSearch.cpp:64-105 | a visit finishes everything reachable that was not numbered, keeps the stack below, and records exactly the components finished |
| `LoopSearch.LoopSearch.PopComponent` | src/optimization/LoopSearch.cpp:90-103 | the loop takes off exactly the node and what lies above it, clears their flags, and drops a component of one |
| `LoopSearch.LoopSearch.StronglyConnectedComponents` | src/optimization/LoopSearch.cpp:51-63 | the result is exactly the components with at least two nodes; the stack is empty afterwards |
| `LoopSearch.LoopSearch.BuildCfg` | src/optimization/LoopSearch.cpp:18-47 | one cleared node for each block, with the block's edges |
| `LoopSearch.LoopSearch.FindLoopBase` | src/optimization/LoopSearch.cpp:106-137 | returns a node of the set entered from a node outside or from a reserved one, and none only if there is no such node |
| `LoopSearch.ComponentHasEntry` | src/optimization/LoopSearch.cpp:110-137 | on a reachable graph with a predecessor-free entry a component always has an entry, so the base is never null |
| `LoopForest.EnteredFromOutside` | src/optimization/LoopSearch.cpp:110-133 | an edge of the graph leads into every component of two nodes or more |
| `LoopSearch.LoopSearch.Erase` | src/optimization/LoopSearch.cpp:216-224 | the base leaves the lists of its neighbours and nothing else changes |
| `LoopRounds.RemoveKeeps` | src/optimization/LoopSearch.cpp:213-224 | after that the nodes left have exactly the edges among themselves, and the reserved ones still lead to them |
| `LoopForest.NestedInSplit` | src/optimization/LoopSearch.cpp:165-225 | a component of a later round is disjoint from an earlier loop or inside it without its base |
| `LoopRounds.ComponentIsLoop` | src/optimization/LoopSearch.cpp:169-213 | a recorded loop is strongly connected within itself and entered from outside at its base |
| `LoopRounds.CycleStep` | src/optimization/LoopSearch.cpp:169-225 | every cycle of two blocks or more stays among the nodes left, or a recorded loop holds it and has its base on it |
| `LoopRounds.TablesStep` | src/optimization/LoopSearch.cpp:183-211 | the four tables agree with the loops recorded after one more is stored |
| `LoopRounds.TablesInnermost` | src/optimization/LoopSearch.cpp:190-211 | `bb2base` names the base of the smallest loop around a block, for exactly the blocks of loops |
| `LoopSearch.LoopSearch.Round` | src/optimization/LoopSearch.cpp:169-233 | one round records every component and takes at least one base out |
| `LoopSearch.LoopSearch.Run` | src/optimization/LoopSearch.cpp:138-247 | the loops form a forest, each is a loop, every cycle of two blocks or more is held by one and passes its base, and the tables describe them; the rounds end |
| `SourceLaws.RelationMeans` | src/cminusfc/cminusf_builder.cpp:706-731 | a relation is evaluated from left to right and gives 1 if the two integers are so related, and otherwise 0, for each of the six |
| `SourceLaws.SumMeans` | src/cminusfc/cminusf_builder.cpp:735-817 | a sum or difference is the 32-bit number congruent to it modulo 2^32 |
| `SourceLaws.ProductMeans` | src/cminusfc/cminusf_builder.cpp:819-890 | so is a product |
| `SourceLaws.DivisionMeans` | src/cminusfc/cminusf_builder.cpp:819-899 | a quotient leaves a rest smaller than the divisor and with the sign of the dividend; it traps if and only if the divisor is 0 or the quotient is 2^31 |
| `SourceLaws.FitsOnce` | src/cminusfc/cminusf_builder.cpp:735-899 | there is one such number |
| `SourceLaws.DividesOnce` | src/cminusfc/cminusf_builder.cpp:819-899 | and one such quotient |
| `SourceLaws.OperandFails` | src/cminusfc/cminusf_builder.cpp:643-652 | the first operand that fails decides, and the right one is not evaluated before |
| `SourceLaws.LevelIs` | include/cminusf_builder.hpp:38-47 | a name is looked for from the innermost scope outwards |
| `SourceLaws.LocalRead` | src/cminusfc/cminusf_builder.cpp:489-583 | a name denotes the innermost variable so called |
| `SourceLaws.GlobalRead` | src/cminusfc/cminusf_builder.cpp:489-583 | or else the global one, which is 0 at first |
| `SourceLaws.LocalAssign` | src/cminusfc/cminusf_builder.cpp:584-616 | an assignment changes that variable and no other, and has the value as its own |
| `SourceLaws.GlobalAssign` | src/cminusfc/cminusf_builder.cpp:584-616 | the same for a global variable |
| `SourceLaws.FirstArgument` | src/cminusfc/cminusf_builder.cpp:929-969 | arguments are evaluated from the first on, each in the state behind the one before |
| `SourceLaws.InvokeMeans` | src/cminusfc/cminusf_builder.cpp:970-976 | a call passes their values in the memory they leave, and its output comes behind theirs |
| `SourceLaws.FirstStatement` | src/cminusfc/cminusf_builder.cpp:303-310 | statements run from the first on, and none behind one that leaves |
| `SourceLaws.BlockMeans` | src/cminusfc/cminusf_builder.cpp:294-312 | a block runs with names of its own, without values at first, that are gone behind it |
| `SourceLaws.IfMeans` | src/cminusfc/cminusf_builder.cpp:345-402 | an if runs its first side if and only if the condition is not zero |
| `SourceLaws.LoopMeans` | src/cminusfc/cminusf_builder.cpp:405-441 | a loop that goes on runs its body once and then does what the loop does |
| `SourceLaws.ReturnMeans` | src/cminusfc/cminusf_builder.cpp:443-487 | a return ends the call with the value of its expression |
| `SourceLaws.ParameterMeans` | src/cminusfc/cminusf_builder.cpp:219-233 | a function that returns a parameter returns the argument at its place; of two with one name, the last |
| `SourceLaws.FallsOff` | src/cminusfc/cminusf_builder.cpp:245-255 | a body that runs to its end returns 0, or nothing |
| `SourceLaws.CompareExec` | src/lightir/IRprinter.cpp:32-58 | each comparison instruction defines 1 or 0 as its name says, and nothing else changes |
| `SourceLaws.BinaryExec` | src/lightir/Instruction.cpp:50-69 | so it is with the arithmetic instructions |
| `SourceLaws.BranchExec` | src/lightir/Instruction.cpp:273-290 | a conditional branch goes to its first target if and only if its value is not zero |
| `SourceLaws.PhiExec` | src/lightir/Instruction.cpp:607-640 | a phi takes the value of its pair for the edge, and all phis of a block what was there before any of them |
| `SourceLaws.ArrayCompareExec` | src/lightir/IRprinter.cpp:32-58 | comparisons do the same where pointers occur |
| `SourceLaws.ArrayBinaryExec` | src/lightir/Instruction.cpp:50-69 | so does arithmetic |
| `SourceLaws.ArrayGepExec` | src/lightir/Instruction.cpp:360-402 | a gep moves on within one object |
| `SourceLaws.ArrayStoreExec` | src/lightir/Instruction.cpp:424-460 | what is stored through a pointer is loaded through every pointer to the same element, and all other elements stay |
| `Codegen.CminusfBuilder.Append` | include/lightir/IRBuilder.h:21-57 | an instruction goes to the end of the insert block |
| `Codegen.CminusfBuilder.CreateTerminator` | src/lightir/Instruction.cpp:273-290 | a branch enters its edges in the lists of both ends |
| `CodeShape.TerminateKeeps` | src/lightir/Instruction.cpp:273-290 | the lists keep mirroring each other without repetition, and no edge leads to the entry |
| `ExprMeaning.ReadMatches` | include/cminusf_builder.hpp:38-47 | the address found for a name holds the value of the variable the name means |
| `ExprMeaning.WriteMatches` | src/cminusfc/cminusf_builder.cpp:595-615 | a store to it changes that variable and no other |
| `ExprMeaning.TwoInOrder` | src/cminusfc/cminusf_builder.cpp:643-652 | the left operand is computed and loaded before the right one |
| `ExprMeaning.CombineMeans` | src/cminusfc/cminusf_builder.cpp:705-731 | the instruction chosen computes what the operator means, traps included |
| `ExprMeaning.ArgumentMeans` | src/cminusfc/cminusf_builder.cpp:929-969 | arguments are evaluated from left to right and keep their values |
| `ExprMeaning.InvokeMeans` | src/cminusfc/cminusf_builder.cpp:970-976 | the call happens once, with those values, in that memory |
| `Codegen.CminusfBuilder.VisitExpr` | src/cminusfc/cminusf_builder.cpp:489-976 | the code added does what the expression means, and `ret` denotes its value |
| `Codegen.CminusfBuilder.VisitTwo` | src/cminusfc/cminusf_builder.cpp:618-899 | so it is for relations, sums and products, with operands widened where they are one bit |
| `Codegen.CminusfBuilder.VisitCall` | src/cminusfc/cminusf_builder.cpp:901-976 | and for calls |
| `Codegen.CminusfBuilder.VisitCondition` | src/cminusfc/cminusf_builder.cpp:338-344 | the bit branched on is set if and only if the condition is not zero |
| `Codegen.CminusfBuilder.VisitVarDeclaration` | src/cminusfc/cminusf_builder.cpp:62-108 | a slot of its own; the first declaration of a name in a scope stays |
| `StmtMeaning.SequenceMeans` | src/cminusfc/cminusf_builder.cpp:303-310 | code of statements one after the other does what the sequence means |
| `StmtMeaning.SelectionMeans` | src/cminusfc/cminusf_builder.cpp:387-402 | code of an if without else |
| `StmtMeaning.SelectionElseMeans` | src/cminusfc/cminusf_builder.cpp:353-386 | code of an if with else, whichever sides return |
| `StmtMeaning.LoopRuns` | src/cminusfc/cminusf_builder.cpp:405-441 | code of a loop, by the number of iterations; where the loop has not ended yet, neither has the run, and it comes to the same memory and output |
| `StmtMeaning.ReturnMeans` | src/cminusfc/cminusf_builder.cpp:443-487 | code of a return |
| `Codegen.CminusfBuilder.VisitStmt` | src/cminusfc/cminusf_builder.cpp:294-487 | from where code was added to where it goes on, every completion does what the statement means; `return_flag` is set if and only if the insert block has its terminator; only new blocks and the insert block change |
| `Codegen.CminusfBuilder.VisitCompound` | src/cminusfc/cminusf_builder.cpp:294-312 | a scope of its own, statements behind a return emit nothing |
| `Codegen.CminusfBuilder.VisitIf` | src/cminusfc/cminusf_builder.cpp:387-402 | the same for an if without else |
| `Codegen.CminusfBuilder.VisitIfElse` | src/cminusfc/cminusf_builder.cpp:353-386 | the same for an if with else: the block that follows exists only if a side needs it |
| `Codegen.CminusfBuilder.VisitIteration` | src/cminusfc/cminusf_builder.cpp:405-442 | the same for a loop |
| `Codegen.CminusfBuilder.VisitReturn` | src/cminusfc/cminusf_builder.cpp:443-488 | the same for a return that fits the function |
| `FunMeaning.ParamStored` | src/cminusfc/cminusf_builder.cpp:219-233 | each argument is stored in the slot of its parameter, in order |
| `FunMeaning.CallMeans` | src/cminusfc/cminusf_builder.cpp:151-258 | a run of the function ends as the call of the source function does, in value, memory and output; where the call has not ended after some iterations, the run comes to the same memory and output without ending |
| `FunMeaning.GraphOk` | src/cminusfc/cminusf_builder.cpp:151-258 | all blocks are reachable, the entry has no predecessors, the lists mirror each other |
| `FunMeaning.FinishedIsSource` | src/cminusfc/cminusf_builder.cpp:151-258 | every result is computed once and used only behind that: the form promotion expects |
| `Codegen.AllFinished` | src/cminusfc/cminusf_builder.cpp:151-258 | every block has its terminator, and at most two predecessors |
| `Codegen.CminusfBuilder.VisitFunDeclaration` | src/cminusfc/cminusf_builder.cpp:151-258 | all of this for every declared function |
| `Pipeline.Generate` | src/cminusfc/cminusfc.cpp:97-100 | the generator on one function: form and meaning |
| `Pipeline.Promote` | src/cminusfc/cminusfc.cpp:101-108 | a generated function still means what the source means after its slots are promoted; promotion fails only if a look-up can fail |
| `Pipeline.CorrectPrints` | src/cminusfc/cminusfc.cpp:97-108 | a call that never uses an undefined variable puts out the same in the source and in the code, whether it ends or not |
| `Linked.CallsCompiled` | src/cminusfc/cminusfc.cpp:97-108 | a call that returns in the source program returns in the compiled one, with the same value, memory and output, at any depth of calls |
| `Linked.CallsReturn` | src/cminusfc/cminusfc.cpp:97-108 | where no variable is used undefined, a call that returns in the compiled program returns in the source, with the same |
| `Linked.CallsMatch` | src/cminusfc/cminusfc.cpp:97-108 | so the one returns if and only if the other does |
| `Linked.Compile` | src/cminusfc/cminusfc.cpp:97-108 | all functions generated and promoted give such a program |
| `UseSets.SetsFromCode` | src/optimization/ActiveVars.cpp:3-86 | a value is in the use set of a block if and only if an instruction takes it (an own value as any operand, anything a load reads, the base of a gep) that comes behind no definition of it in the block, or stores to it directly; in the definition set if and only if an instruction makes it and none up to there takes it, or an alloca does; and the phi filter lets it pass an edge if and only if no phi of the block takes it from elsewhere only |
| `UseSets.LiveFromCode` | src/optimization/ActiveVars.cpp:3-170 | so a value is live where a way leads to an instruction that takes it |
| `ActiveVars.ActiveVars.InitSet` | src/optimization/ActiveVars.cpp:3-86 | the pass computes exactly those sets; what is used is live at first |
| `ActiveVars.ActiveVars.ScanOperands` | src/optimization/ActiveVars.cpp:35-66 | the operands an instruction adds to the use set, unless defined before |
| `ActiveVars.ActiveVars.Update` | src/optimization/ActiveVars.cpp:121-168 | one block gets what its equation gives from the others, and tells whether that is new |
| `Rescan.ScansGrow` | src/optimization/ActiveVars.cpp:114-170 | where no block both uses and defines a value, the sets only grow from scan to scan and hold only what is live |
| `Liveness.Facts.SolvedHolds` | src/optimization/ActiveVars.cpp:114-170 | a solution holds everything live |
| `Rescan.LiveAfterScans` | src/optimization/ActiveVars.cpp:114-170 | what is live along a way of so many blocks is found after as many scans |
| `Rescan.StrayFrom` | src/optimization/ActiveVars.cpp:124-160 | what a set holds and is not live has come along edges the phi filter lets pass, past no definition, from a block that both uses and defines it, and went on in the list once for each scan |
| `Rescan.StrayTo` | src/optimization/ActiveVars.cpp:124-160 | and all that comes along so is in the set |
| `Rescan.RoundStays` | src/optimization/ActiveVars.cpp:114-170 | if such a value comes round, some set holds it, where it is not live, after any number of scans |
| `Rescan.CleanIsExact` | src/optimization/ActiveVars.cpp:114-170 | after as many scans as there are blocks, or more, the sets hold exactly what is live if and only if no such value comes round |
| `Rescan.EndsRight` | src/optimization/ActiveVars.cpp:114-170 | a scan that changes nothing leaves the sets right if and only if none comes round |
| `Rescan.CleanEnds` | src/optimization/ActiveVars.cpp:114-170 | if none does, the scan after as many as there are blocks changes nothing |
| `Rescan.EndsIff` | src/optimization/ActiveVars.cpp:114-170 | some scan changes nothing if and only if from some number on each block is reached by such walks of every length, counted in steps on in the list, or of none |
| `Rescan.UnenteredIsClean` | src/optimization/ActiveVars.cpp:114-170 | none comes round if blocks that both use and define a value have no predecessor in front |
| `ActiveVars.ActiveVars.Scan` | src/optimization/ActiveVars.cpp:117-170 | every block is recomputed once, from blocks before it that have been; another scan follows if and only if a set has changed |
| `ActiveVars.ActiveVars.Solve` | src/optimization/ActiveVars.cpp:114-170 | the loop ends if and only if some scan changes nothing; if no value comes round that is after no more scans than blocks and one; then all that is live is found: a value is in `live_in` of a block if a way leads from there to a use, past no definition and along edges the phi filter lets pass, and only then if and only if none comes round |
| `ActiveVars.ActiveVars.Run` | src/optimization/ActiveVars.cpp:88-196 | the same for every function, with the sets its instructions make; then a live-out set is exact if and only if nothing is live only round the block; empty sets are dropped |
| `Liveness.TidyIsSeparate` | src/optimization/ActiveVars.cpp:21-85 | where a caller can see that blocks are tidy, no value is in both the use and the definition set of one |
| `Liveness.OutIsRight` | src/optimization/ActiveVars.cpp:124-145 | the live-out set the loop computes is exact if and only if nothing is live round the block and nowhere else behind it; so it is for a block that does not lead to itself |
| `Liveness.SelfLoopMissed` | src/optimization/ActiveVars.cpp:124-145 | a function on which it is not exact |
| `ActiveVars.MissesSelfLoop` | src/optimization/ActiveVars.cpp:88-196 | the pass run on it leaves out a value that is live behind the block |
| `Rescan.OwnStoreNeverEnds` | src/optimization/ActiveVars.cpp:28-32 | a function with a ring of three blocks whose last block stores to its own alloca: every scan changes a set, though nothing is live |
| `ActiveVars.OwnStoreRuns` | src/optimization/ActiveVars.cpp:88-170 | the pass on it has not ended after any number of scans |
| `Rescan.OwnStoreEndsWrong` | src/optimization/ActiveVars.cpp:28-32 | with a ring of two the third scan changes nothing, and a set holds what is live nowhere |
| `ActiveVars.OwnStoreIsWrong` | src/optimization/ActiveVars.cpp:88-196 | the pass on that one ends, and takes the value for live |
| `BlockMerge.StillAwaits` | src/optimization/ConstPropagation.cpp:575-608 | a block that waits for merging keeps one predecessor that leads nowhere else, whichever block is merged before it |
| `BlockMerge.NoNewAwaits` | src/optimization/ConstPropagation.cpp:575-608 | merging makes no other block ready |
| `BlockMerge.MergedOk` | src/optimization/ConstPropagation.cpp:587-606 | after a merge the lists mirror each other, labels are predecessors, and all blocks are reached |
| `BlockMerge.EnterMerged` | src/optimization/ConstPropagation.cpp:596-605 | a phi receives the same value under its new label |
| `BlockMerge.MergedResults` | src/optimization/ConstPropagation.cpp:587-606 | a merged function comes to exactly the same results |
| `BlockMerge.MergedPrints` | src/optimization/ConstPropagation.cpp:587-606 | and prints exactly the same, whether it ends or not |
| `BlockMerge.AwaitsIs` | src/optimization/ConstPropagation.cpp:577-586 | the blocks to merge are told by the lists alone |
| `ConstPropagation.ConstPropagation.Collect` | src/optimization/ConstPropagation.cpp:577-586 | exactly the blocks with one predecessor whose list of successors has one entry |
| `ConstPropagation.ConstPropagation.Merge` | src/optimization/ConstPropagation.cpp:587-606 | one merge, step by step, is that transformation |
| `BlockMerge.MergedPhis` | src/optimization/ConstPropagation.cpp:587-606 | a merge leaves no phi in a block with one predecessor |
| `ConstPropagation.ConstPropagation.CompressPath` | src/optimization/ConstPropagation.cpp:575-608 | in any order: same results, same output also of runs that do not end, lists right; exactly those blocks have left the list, and no block in it has one predecessor that leads nowhere else |
| `PromotedLayout.FrontierMeets` | src/optimization/Mem2Reg.cpp:65-75 | a block in a dominance frontier never has one predecessor |
| `PromotedLayout.PromotedIsOk` | src/optimization/ConstPropagation.cpp:575-608 | a promoted function meets what compression expects |
| `SideEffects.ClosedHolds` | src/optimization/DeadCodeEliminate.cpp:196-220 | a set that holds the roots and the callers of its members holds every function with effects |
| `EffectCode.StoreCounts` | src/optimization/DeadCodeEliminate.cpp:93-113 | a store counts if and only if its address is not made by a gep, with any offset, on what an alloca of the function makes |
| `EffectCode.EffectsAreHarmful` | src/optimization/DeadCodeEliminate.cpp:162-221 | the functions left out are harmless together: each is exempt, or defined, not main, with stores to its own arrays only and calls of such functions; and every harmless set is left out |
| `SideEffectFuncs.SideEffectScan.Init` | src/optimization/DeadCodeEliminate.cpp:162-221 | the scan ends, with exactly the functions from which a chain of calls leads to one with effects of its own; all others, and no more, are harmless |
| `DeadCodeEliminate.DeadCodeDelete.InitSets` | src/optimization/DeadCodeEliminate.cpp:162-221 | exactly the functions from which a chain of calls leads to a declaration, main or a store that is not to an array of the function itself; the others are the largest harmless set |
| `SideEffects.NoEffects` | src/optimization/DeadCodeEliminate.cpp:93-113 | a call of any other function that returns leaves all memory of its callers alone, globals, arrays passed to it and arrays of active calls, and prints nothing, at any depth of calls |
| `SideEffects.InsideQuiet` | src/optimization/DeadCodeEliminate.cpp:162-221 | so a machine whose calls run the program is quiet about those functions |
| `DeadCodeEliminate.DeadCodeDelete.CompleteWorklist` | src/optimization/DeadCodeEliminate.cpp:263-275 | marks an instruction and what it needs, directly or not, and nothing else |
| `NeededCode.ClosedNeeds` | src/optimization/DeadCodeEliminate.cpp:277-283 | closed marks hold the operands of stores, terminators and calls of functions of the set, the results of those calls, and what makes them |
| `DeadCodeEliminate.MarksAreLeast` | src/optimization/DeadCodeEliminate.cpp:263-283 | the marks lie in every set that does |
| `DeadCodeEliminate.DeadCodeDelete.Mark` | src/optimization/DeadCodeEliminate.cpp:277-283 | the marked set is the least set that holds these |
| `DeadCode.KeptStep` | src/optimization/DeadCodeEliminate.cpp:277-293 | a marked instruction does the same where only marked values agree |
| `DeadCode.SweepPreservesRuns` | src/optimization/DeadCodeEliminate.cpp:277-293 | every run keeps its outcome, unless it halts at a removed instruction; then all it has printed by then is printed |
| `DeadCode.TotalSweepIsExact` | src/optimization/DeadCodeEliminate.cpp:277-293 | if removed divisions cannot trap and removed callees come back, every run that uses no undefined value keeps its outcome |
| `NeededCode.SweptLeaves` | src/optimization/DeadCodeEliminate.cpp:277-294 | what is left is, in its order, exactly the stores, the terminators and what makes a marked result |
| `DeadCodeEliminate.DeadCodeDelete.DeleteDeadInst` | src/optimization/DeadCodeEliminate.cpp:277-294 | the pass leaves exactly that, for the least marked set, and preserves every run that does not halt at a removed instruction |
| `SweptProgram.CallsKept` | src/optimization/DeadCodeEliminate.cpp:3-25 | in a program swept function by function every call that comes back still does, with the same value, memory and output |
| `DeadCodeEliminate.DeadCodeDelete.DeleteInProgram` | src/optimization/DeadCodeEliminate.cpp:3-25 | every function becomes what the sweep leaves, with the set the scan computes and the least marks, and every call that comes back does what it did, at every depth of calls |
| `ArraySsa.SsaFunc.EquationsHold` | src/optimization/CommonSubExper.cpp:31-135 | in every state of every run each result that is available is there, and one that depends on operands only is what its instruction would compute now |
| `ArraySsa.SsaFunc.MeetsLater` | src/optimization/CommonSubExper.cpp:31-166 | two results that are equal where the later one is made are equal wherever it is available |
| `CseFacts.KillsAliases` | src/optimization/CommonSubExper.cpp:167-194 | two pointers that meet are always taken for aliases by the store that goes through one |
| `CseFacts.PairEqual` | src/optimization/CommonSubExper.cpp:31-166 | a replaced result holds what its replacement holds, wherever it is available |
| `CseSteps.HitPair` | src/optimization/CommonSubExper.cpp:31-166 | where the table has an entry, its result holds what the instruction would compute, and is of the same kind |
| `CseSteps.CachedStore` | src/optimization/CommonSubExper.cpp:167-200 | a load left behind a store equals memory |
| `CseSteps.CachedNext` | src/optimization/CommonSubExper.cpp:201-207 | so does one left behind a call or any other instruction |
| `CseSteps.InheritedCached` | src/optimization/CommonSubExper.cpp:223-251 | where the pass finishes, a load that a block inherits equals memory on whatever edge the block is entered |
| `CseSteps.PassIsOk` | src/optimization/CommonSubExper.cpp:350-369 | where the pass finishes and entries flow down, at every block all replacements made are right and all tables hold, in every state of every run |
| `CseMeaning.PassPreservesRuns` | src/optimization/CommonSubExper.cpp:350-369 | where the pass finishes and entries flow down, the whole function afterwards has the outcome it had, for any arguments, memory and callees, after any number of blocks |
| `CseFinds.OperationFound` | src/optimization/CommonSubExper.cpp:31-135 | of two equal operations or geps in a block the second is replaced |
| `CseFinds.NoKill` | src/optimization/CommonSubExper.cpp:167-200 | a store to another variable, or to another array unless one of the two came as an argument and the other is not local, keeps a load |
| `CseFinds.LoadFound` | src/optimization/CommonSubExper.cpp:136-207 | of two loads of one address the second is replaced, if only such stores and calls outside the set stand between |
| `CseFinds.FarReplaced` | src/optimization/CommonSubExper.cpp:223-251 | the same for the second in another block, along predecessors in front, if the operands were made up to the first; for loads, if no other edge leads to the blocks on the way |
| `CseFinds.NothingIsMissed` | src/optimization/CommonSubExper.cpp:350-369 | no such repetition is left in the function |
| `CommonSubExper.CommonSubExper.InitSets` | src/optimization/CommonSubExper.cpp:223-348 | comes back if and only if no two predecessors have been dealt with before, since the loop over the others never moves its iterator; then the block begins with exactly the entries of the one that has, and with loads only if all predecessors have |
| `CommonSubExper.CommonSubExper.ReplaceAllUseWith` | src/lightir/Value.cpp:22-29 | all uses of one result in the function become uses of another |
| `CommonSubExper.CommonSubExper.CommonSubExperDelete` | src/optimization/CommonSubExper.cpp:28-221 | replacing in place and deleting at the end gives the block, the table and the replacements of one look from front to back |
| `CommonSubExper.CommonSubExper.Run` | src/optimization/CommonSubExper.cpp:350-369 | finishes if and only if no block has two predecessors in front of it in the list; then the function is the original under all replacements, without what they replace and with no repetition left, and every run is preserved where entries flow down |
| `CseOrder.PlainFits` | src/cminusfc/cminusf_builder.cpp:387-402 | a plain if has the form the pass is given |
| `CseOrder.PlainHangs` | src/optimization/CommonSubExper.cpp:255-347 | and the block behind it has two predecessors in front |
| `CseOrder.PlainIfHangs` | src/optimization/CommonSubExper.cpp:255-347 | so the pass does not come back from it, however long one waits |
| `CseOrder.FlowsDownIsExact` | src/optimization/CommonSubExper.cpp:234-254 | on a graph the pass finishes on, every replacement has been computed on every way to what it replaces, in all functions, if and only if entries only come to blocks that cannot be reached round them |
| `CseOrder.RoundMisplaces` | src/optimization/CommonSubExper.cpp:234-254 | for every other graph it finishes on, a function in which one is not |
| `CseOrder.NestedFits` | src/cminusfc/cminusf_builder.cpp:353-442 | a loop within the then-side of an if with else, in the block order of the generator, has the form the pass is given |
| `CseOrder.NestedFinishes` | src/optimization/CommonSubExper.cpp:255-347 | and the pass finishes on it |
| `CseOrder.NestedFails` | src/optimization/CommonSubExper.cpp:234-254 | there a sum is replaced by one that was not computed: a run that returned it uses an undefined result |
| `CseOrder.NestedGoesWrong` | src/optimization/CommonSubExper.cpp:350-369 | the pass itself, run on it, leaves such a function |
| `CseCalls.InitSideEffectFunc` | src/optimization/CommonSubExper.cpp:371-451 | exactly the functions from which calls lead to a store others see, or to main or a declaration with parameters; the others are the largest harmless set |
| `SideEffects.ExemptMain` | src/optimization/CommonSubExper.cpp:376-381 | leaving main out loses exactly the functions from which calls lead to it and to no other effect |
| `CseCalls.MainMatters` | src/optimization/CommonSubExper.cpp:376-381 | for a main without parameters: some function calls it if and only if some call relies on what its exemption hides |
| `CseCalls.SetIsQuiet` | src/optimization/CommonSubExper.cpp:201-207 | a function outside the set from which no calls lead to main leaves memory alone |
| `CseCalls.CallsStay` | src/optimization/CommonSubExper.cpp:350-369 | if no function calls main, every call in the rewritten program does what it did, at any depth, where the pass finishes on all functions |
| `CseCalls.Run` | src/optimization/CommonSubExper.cpp:350-369 | the pass on a program finishes if and only if it does on every function; then every function becomes what its tables give, with the set the scan computes, and the calls stay |
| `RecursiveMain.SideIsOutput` | src/optimization/CommonSubExper.cpp:376-381 | a main that stores to a global and calls itself is not in the set |
| `RecursiveMain.MainRewritten` | src/optimization/CommonSubExper.cpp:350-369 | what the pass makes of it: the load behind the call is the one in front |
| `RecursiveMain.RecursiveMainStale` | src/optimization/CommonSubExper.cpp:376-381 | a run of that main puts out 1 before the pass and 0 behind it, though the pass finishes and all else it relies on is given |
| `RecursiveMain.PassIsWrong` | src/optimization/CommonSubExper.cpp:350-381 | the pass itself, run on that program, comes back with one that puts out 0 |
| `UseLists.Value.AddOperand` | src/lightir/User.cpp:30-35 | keeps every exact list exact |
| `UseLists.Value.InitOperand` | src/lightir/User.cpp:22-28 | so does setting an operand for the first time |
| `UseLists.Value.SetOperand` | src/lightir/User.cpp:22-28 | keeps exact lists exact if and only if the operand was null before |
| `UseLists.Value.ReplaceAllUseWith` | src/lightir/Value.cpp:22-29 | redirects all operands that name the value and only those; every other exact list stays exact |
| `UseLists.Value.RemoveUseOfOps` | src/lightir/User.cpp:42-47 | the lists are exact about the users that are left |

## Left out

- Floats: every value is a 32-bit integer; real numbers would not match the code.
- Arrays in promotion and generation: a slot is a scalar alloca, and elements of global arrays are cells; local and argument arrays and their geps occur where they matter, in the passes over `ArrayIr`.
- Geps on argument arrays: the generator gives them two operands, and the reuse of expressions reads a third (src/optimization/CommonSubExper.cpp:120); the model gives every gep a base and an offset.
- Array indexing in the generator: the address is computed in a block that does not dominate the block it is used in.
- Codegen.CminusfBuilder.VisitReturn: a value return in a void function, which the generator reports and answers with a void return without setting `return_flag`, so that code behind it lands behind the terminator; `Ast.DeclOk` excludes it, as it does undeclared names and wrong argument counts.
- The checks of `return_flag` inside expression visitors and of a pointer left in an argument: they never apply, since statements check first and a variable always sets `argload`.
- FunMeaning.CallMeans: nothing is promised for source runs that use an undefined variable.
- Linked.CallsCompiled: a compiled call may return where the source call has used an undefined variable somewhere below, so the converse is only for programs without one (`Linked.CallsReturn`); what an inner call puts out that does not return is not compared.
- SweptProgram.CallsKept: what calls put out that do not come back is not compared.
- Self-loops: the loop search drops a block that leads to itself alone.
- A phi without a pair for an edge, printed with an undefined value there, has no value in the model: reading it halts.
- An alloca that is passed again denotes the same slot. In `Ir` it makes the slot undefined, in `ArrayIr` the array keeps its elements.
- Mem2Reg.Mem2Reg.Run: each function begins with no stacks; the pass keeps those of earlier functions, which are for other slots.
- Mem2Reg.Mem2Reg.FindStores: the test that a stored value is not a slot stored to before is always true, since stored values are never slot addresses here.
- ActiveVars.ActiveVars.Run: the loop is cut off after a number of scans that the caller chooses, as it need not end. The phi sets of earlier functions are not kept; their keys belong to other blocks.
- DeadCode.SweepPreservesRuns: a removed division may have trapped and a removed call may not have returned; then only what was printed before is compared.
- CommonSubExper.CommonSubExper.Run: the loop that merges tables is cut off after a number of turns that the caller chooses, as it does not end. The maps of the pass are one map with tagged keys; those for floats are not modelled. Local scalars have been promoted before: loads and stores go to global scalars and through geps.
- UseLists.Value.ReplaceAllUseWith: a value replaced by itself, which does not end, and `remove_operands`, which shifts operands under their entries, are excluded.
- `create_doms`, naming, printing, dumping of graphs, logging and the command line.
- `deleteDeadStore`, `deleteDeadRet`, `DeleteFuncDeadArg`, `deleteDeadFunc`: they would add members about single rewrites.
- Constant folding and branch pruning in `ConstPropagation::run`, loop-invariant hoisting and tail recursion.
