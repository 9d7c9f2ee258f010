# Verified model of the Pointer Ownership Model tools

The repository decides whether C code follows an ownership discipline: a generator walks LLVM IR and
writes propositional clauses about which pointers are responsible, mutable, good, null or zombies at
each program point; a SAT solver looks for an assignment; scripts explain an unsatisfiable core. This
project models the algorithms behind that in Dafny and proves what they promise.

## What is modelled

**Ownership constraints** (`DataFlow`, `PointerIR`, `OwnershipClauses`, `Execution`, `LiveFacts`,
`CopyValues`, `OwnershipSoundness`, `LostBlocks`, `OwnershipTheorem`, `OwnershipLimits`, `DeadDefinitions`,
`EqualTargets`, `OwnershipExample`). A fragment of the IR (malloc, free, fclose,
`__pom_var_store`, non-pointer loads and stores, comparisons, null branches, returns, any control-flow
graph), the clauses the generator emits for it, and a concrete machine with a heap. The main theorem: when
an assignment satisfies all clauses of a function, no run of it frees a block twice or dereferences NULL or
a freed block through *any* pointer, and a finished run leaks exactly when a definition that is dead on
arrival has taken over a block that is not returned; where all blocks can be reached, that is exactly when
a malloc whose result is never used returned a block. Null branches whose two targets are the same block
are the other family that the generator lets through.

**What the clauses ask for** (`ClauseMeaning`, `FunctionMeaning`, `Mutability`). For every kind of
instruction, for deaths and for edges: an assignment satisfies the clauses if and only if it obeys a
discipline that is stated on the assignment, the live values, the borrows and the aliases alone. From it
follows what `mut` is for: no run writes or frees a value that is not mutable or was not copied from a
mutable one, and while a value is written or freed nothing that was copied from it is in use.

**What the generator computes on the way** (`CopyBorrows`, `CopySites`, `BorrowPasses`, `BorrowPaths`,
`SettledBorrows`, `TooFewPasses`, `ConstraintGen`, `LoopExample`). Passes over the blocks in layout order, each joining
what the predecessors ended with in this pass or the one before; two dry runs, or one for a function
without names, and then the last pass, which writes. What the borrows should be is defined by the copies
in the program alone, and the last pass works with exactly those if and only if one pass more would work
with the same, in particular wherever some path with at most two steps backwards in the layout leads.
With the aliases found by the search among them the main theorem holds of what the generator itself
computes. `ConstraintGen.Generator` is the generator as the object it is: current live set, indexed
borrows, seen names, postponed deaths, block ends and output; it is proved to write exactly the modelled
clauses for that last pass.

**Liveness** (`BitVector`, `LiveWorklist`, `Liveness`). Packed bitvectors as a class that refines
finite sets, the gen/kill worklist, and the backward scan for last uses; the result is the least
solution the ownership theorem needs, and liveness is characterised by paths. The 64-bit words are
numbers below 2^64 with the bitwise operators defined digit by digit.

**Borrows** (`BorrowGraph`, `BorrowIndex`, `BorrowSearch`, `BorrowAliases`). C-paths are sequences of
part numbers. Killing a variable by splicing its borrows, the two ordered indexes with their
sentinel-bounded scans, the alias-aware search that flags cycles, and the two-directional alias
closure.

**Function pointers** (`PointsTo`, `PointsToSoundness`, `PointsToPrecision`, `CallExpansion`, `ProgramRuns`,
`CallResolution`). The points-to iteration with constraints that appear as callees are discovered, the
annotations made from its result, what that says about runs, that every fact has a chain of possible flows
behind it, and the rewriting of an indirect call into a chain of comparisons. Whole programs run on a
stack of frames; the program that is rewritten is the one that the analysis is about, seen through an
abstraction. That settles when the abort block can be reached, and that with the callees that the analysis
lists the expanded program has the runs of the original and no others.

**Algorithms bundled with the solver** (`Sorting`, `InsertionSort`, `Merging`, `TimSort`, `MergeSort`,
`HeapSort`, `IndexedHeap`, `QuickSelect`). In place on arrays; elements are compared by an integer
key. Timsort's run stack is a growable sequence. Stability is stated per key, and implies permutation.

**Cores and clause files** (`UnitPropagation`, `FlowClauses`, `CollapseFlow`, `FlowClash`, `Dimacs`,
`SplitConstraints`, `CPathText`). Prioritised unit propagation with its explanation, the collapse of flow
chains with the table of clause information that is shared between clauses of the same literals, variable
numbering and the way back, splitting a constraint file, and C-paths as text.

**Tree dumps** (`TreeStreaming`, `TextTree`, `JsonReading`, `TextLines`). The one-child-lookahead printers;
the deferred closures are records of a label, a node and whether the child was the first. What is printed
nests and reads back as the tree, or is one line for each node with the columns of its ancestors.

## Where the code does less than one might expect

These are results of the proofs; each has a lemma.

- A malloc result that is dead on arrival gets no "killed" clause: the leak is accepted
  (`OwnershipLimits.UnusedMallocAcceptedButLeaks`). That is all that can go wrong with dead definitions: no
  run makes a memory error, and it leaks exactly when such a malloc returned a block
  (`DeadDefinitions.LeaksIffDeadMalloc`, `SettledBorrows.CheckedRunsLeakIff`).
- A null branch with both targets equal is treated as the true edge only: its clauses are sound exactly
  when the targets differ (`OwnershipLimits.NullBranchSoundIff`), and a function with such a branch is
  accepted and leaks (`EqualTargets.AcceptedButLeaks`).
- The number of passes does not depend on the borrows, because the flag for changed borrows is cleared
  right before it is tested. For a function laid out backwards the last pass misses a borrow, and the
  clause against freeing a borrowed value is not written (`TooFewPasses.BorrowIsMissed`): the function is
  accepted, and a run of it reads freed memory (`TooFewPasses.AcceptedUseAfterFree`). The passes suffice
  exactly when one more would change nothing (`SettledBorrows.StartsExactIffStable`).
- Killing a C-path longer than a base variable can lose borrows; killing is safe for every set of
  borrows exactly for base variables (`BorrowGraph.LosesNothingIffBase`). A base variable survives its own
  death exactly when a borrow from it into itself meets another of its borrows (`BorrowGraph.LoopKeepsDead`,
  `BorrowGraph.DeadIsGoneIff`).
- The lookup of borrows by destination scans between two keys of the other index and always finds nothing:
  right exactly when there is nothing to find (`BorrowIndex.BorrowInfo.GetBorrowsByDestRootedAt`,
  `BorrowIndex.DestScanMisses`).
- The two directions of the alias search share their set of seen paths: on cycles aliases can be missed
  (`BorrowAliases.MissedAlias`), and are missed exactly when what a path reached both ways borrows from has
  not been found otherwise (`BorrowAliases.NothingMissedIff`).
- A call through a value that is flagged unknown contributes no constraints for the functions it may
  reach (`PointsToSoundness.FlaggedCalleeEscapes`); a run stays inside the sets exactly when every value
  passed at such a call, and every value returned from it, was tracked at the other side
  (`PointsToSoundness.RunIsTrackedIff`).
- The clause that replaces a flow chain is filed under its two literals, without their order: two chains
  with swapped ends overwrite each other, and the collapsed core can become satisfiable
  (`FlowClash.OppositeChainIsLost`). What is read back is the collapsed core exactly when no two chains have
  swapped ends and no kept clause has the two literals of a chain's ends (`CollapseFlow.ReadBackIsCollapsedIff`).

## Model

| member | source | states |
|---|---|---|
| OwnershipTheorem.NoRunGoesWrong | src/constraint_gen/ConstraintGenPass.cpp:2544-2661 | if an assignment satisfies every clause of a function, no state of any run is about to free twice, free what is not its own, pass NULL to fclose, or dereference NULL or a freed block; and a finished run has an unfreed block that is not returned if and only if a definition that is dead on arrival took over such a block on that run |
| OwnershipTheorem.NothingLost | src/constraint_gen/ConstraintGenPass.cpp:2544-2661 | where no definition is dead on arrival, no run makes a memory error or ends with a lost block |
| DeadDefinitions.LeaksIffDeadMalloc | src/constraint_gen/ConstraintGenPass.cpp:2111-2158 | whatever results of malloc are dead: no state of any run is a memory error, and a finished run leaks if and only if a malloc whose result is not live right after it returned a block on that run |
| DeadDefinitions.ReachedUsesAreLive | src/constraint_gen/ConstraintGenPass.cpp:1212-1247 | where all blocks can be reached, whatever has uses is live right after its definition, so that only unused values are dead on arrival |
| LostBlocks.OwnDrops | src/constraint_gen/ConstraintGenPass.cpp:2111-2158 | an owner that leaves the live set without a clause takes its block with it and nothing else: the rest keeps the ownership invariant as if that block had been freed |
| SettledBorrows.CheckedRunsAreSafe | src/constraint_gen/ConstraintGenPass.cpp:1861-2316 | the same theorem for the borrows and aliases that the generator itself computes: for a function in strict SSA form whose blocks can all be reached and whose null branches have two targets, if the last pass is stable, no state of any run is about to make a memory error, whether or not definitions are dead |
| SettledBorrows.CheckedRunsLeakIff | src/constraint_gen/ConstraintGenPass.cpp:2111-2158 | for such a function a finished run leaks if and only if, on that run, a malloc whose result is never used returned a block |
| SettledBorrows.CheckedRunsLoseNothing | src/constraint_gen/ConstraintGenPass.cpp:1861-2316 | in particular no run loses a block where every malloc result has a use |
| SettledBorrows.LaidOutRunsAreSafe | src/constraint_gen/ConstraintGenPass.cpp:1874-1882 | in particular for every function whose blocks are all at most two steps backwards in the layout from the entry, whatever the borrows: no memory error, and a leak exactly where an unused malloc returned a block |
| SettledBorrows.CheckedIsCompliant | src/constraint_gen/ConstraintGenPass.cpp:1861-2316 | borrows and aliases of a stable last pass meet every premise of the ownership theorems, where null branches have two targets |
| SettledBorrows.StartsExactIffStable | src/constraint_gen/ConstraintGenPass.cpp:1874-1882 | the last pass starts every block with exactly the borrows that copies account for if and only if one pass more would start them with the same |
| SettledBorrows.WithinIsStable | src/constraint_gen/ConstraintGenPass.cpp:1874-1882 | at most two steps backwards from the entry to every block are enough for that |
| SettledBorrows.BorrowsAreExact | src/constraint_gen/ConstraintGenPass.cpp:1443-1562 | in a stable last pass a value borrows, at every point of every block, from exactly the nearest values still kept that it was copied from |
| SettledBorrows.AliasesAreCopies | src/constraint_gen/ConstraintGenPass.cpp:4285-4292 | every alias found for a tested value is a copy of the same original |
| BorrowPasses.ExactIffSame | src/constraint_gen/ConstraintGenPass.cpp:1874-1882 | for any pass that starts below the true borrows: it works with exact borrows everywhere if and only if one pass more would work with the same |
| BorrowPasses.PassReaches | src/constraint_gen/ConstraintGenPass.cpp:1976-2300 | each pass stays below the true borrows and makes the ends exact for routes with one more step backwards |
| CopyBorrows.KillAll | src/constraint_gen/ConstraintGenPass.cpp:1443-1562 | splicing out dead values one by one leaves exactly the borrows among the others that copies account for, in any order |
| CopySites.ReachedIsFresh | src/constraint_gen/ConstraintGenPass.cpp:4095-4143 | in strict SSA form nothing that dominates a reachable definition is a copy, direct or not, of what it defines |
| TooFewPasses.BorrowIsMissed | src/constraint_gen/ConstraintGenPass.cpp:1874-1882 | a function laid out backwards for which the last pass misses a borrow, so that the last pass is not exact and the clause against freeing a borrowed value is absent |
| TooFewPasses.IsAccepted | src/constraint_gen/ConstraintGenPass.cpp:1861-2316 | the generator accepts that function: an assignment satisfies all clauses of the analysis it computes, every other demand of SettledBorrows.Checked is met and its null branch has two targets, but its last pass is not stable |
| TooFewPasses.AcceptedUseAfterFree | src/constraint_gen/ConstraintGenPass.cpp:1874-1882 | a run of that accepted function, from its entry, reads through the copy after the original has been freed: stability cannot be dropped from SettledBorrows.CheckedRunsAreSafe |
| OwnershipTheorem.StatesAreCovered | src/constraint_gen/ConstraintGenPass.cpp:4393-4440 | along every run the state of each tracked pointer, one that is live or an argument, is one the assignment allows at that point, and each unfreed block that no dead definition has taken over has exactly one good responsible owner, which is tracked |
| OwnershipTheorem.ReturnIsSummarised | src/constraint_gen/ConstraintGenPass.cpp:3759-3860 | the state of the returned pointer is one the assignment allows for func::return at the end, for every return of every run |
| OwnershipTheorem.StepKeepsInv | src/constraint_gen/ConstraintGenPass.cpp:2055-2296 | one step of any kind, including the flow to the next instruction or block and the deaths there, keeps the ownership invariant and is no memory error |
| OwnershipTheorem.EdgeKeepsOwn | src/constraint_gen/ConstraintGenPass.cpp:4267-4388 | crossing an edge, with the null test deciding the states of all aliases, the postponed deaths and the joined borrows, keeps the invariant at the successor's start |
| OwnershipTheorem.ReturnHandsOver | src/constraint_gen/ConstraintGenPass.cpp:3759-3860 | at a return every unfreed block is the one handed to the caller, and its state is carried to func::return |
| ClauseMeaning.MallocMeans | src/constraint_gen/ConstraintGenPass.cpp:2544-2568 | the clauses of a malloc hold if and only if the result is responsible, may be good, may be null and is no zombie, and the state of every other live name carries over |
| ClauseMeaning.FreeMeans | src/constraint_gen/ConstraintGenPass.cpp:2601-2661 | those of a free hold if and only if the pointer is responsible and no zombie, for fclose not null, nothing borrows from it, good becomes zombie and null stays null, and the other states carry over |
| ClauseMeaning.CopyMeans | src/constraint_gen/ConstraintGenPass.cpp:4095-4143 | those of a used copy hold if and only if a responsible or mutable copy has a responsible or mutable original, only a responsible one takes a zombie, a good original becomes a zombie exactly for a responsible copy, the copy has the state of the original and is not mutable if something borrows from it already, and the other states carry over |
| ClauseMeaning.LoadMeans | src/constraint_gen/ConstraintGenPass.cpp:3279-3312 | those of a read hold if and only if the pointer is good, not null and no zombie, nothing that borrows from it is mutable, and the states carry over |
| ClauseMeaning.StoreMeans | src/constraint_gen/ConstraintGenPass.cpp:3390-3400 | those of a write hold if and only if the pointer is mutable, good, not null and no zombie, nothing borrows from it, and the states carry over |
| ClauseMeaning.ReturnMeans | src/constraint_gen/ConstraintGenPass.cpp:3759-3860 | those of a return hold if and only if func::return is responsible exactly like the value, mutable only if it is, and in its state at the end, and the other states carry over |
| FunctionMeaning.EdgeMeans | src/constraint_gen/ConstraintGenPass.cpp:4267-4388 | the clauses of an edge hold if and only if every live name carries its states over it, but a tested name and its aliases only NULL on the NULL side and only the other states on the other side |
| FunctionMeaning.DeathsMean | src/constraint_gen/ConstraintGenPass.cpp:1990-2012 | the clauses at a block start hold if and only if no responsible name is good there that was live at the start or end of a predecessor and no longer is, arguments excepted |
| FunctionMeaning.ClausesMean | src/constraint_gen/ConstraintGenPass.cpp:1861-2316 | an assignment satisfies all clauses of a function if and only if it obeys these conditions at every instruction, last use, edge and block start, NULL is null at the entry, and every responsible name is mutable |
| Mutability.ChangesAreMutable | src/constraint_gen/ConstraintGenPass.cpp:3390-3400 | whenever a run is about to write through a value or to free it, that value and the one it was copied from in the first place are mutable |
| Mutability.ImmutableIsLeftAlone | src/constraint_gen/ConstraintGenPass.cpp:3390-3400 | no run writes or frees an argument that is not mutable, under its own name or that of any copy |
| Mutability.AccessIsExclusive | src/constraint_gen/ConstraintGenPass.cpp:3390-3400 | in a checked function with a stable last pass: where a value is written or freed no value in use was copied from it, directly or not, and where it is read only values that are not mutable were |
| OwnershipSoundness.AfterMalloc | src/constraint_gen/ConstraintGenPass.cpp:2544-2568 | malloc gives the new block one owner in whatever state it returned |
| OwnershipSoundness.AfterFree | src/constraint_gen/ConstraintGenPass.cpp:2601-2661 | free of a responsible pointer leaves a zombie, no owner and no live borrower of the block, and frees only a block that is there |
| OwnershipSoundness.AfterCopy | src/constraint_gen/ConstraintGenPass.cpp:4095-4143 | a copy moves ownership to a responsible destination and makes the source a zombie, or borrows |
| OwnershipSoundness.DerefIsSafe | src/constraint_gen/ConstraintGenPass.cpp:3390-3400 | a pointer the clauses allow to be dereferenced points to a block that has not been freed, whether it owns it or borrows it |
| OwnershipSoundness.OwnFlows | src/constraint_gen/ConstraintGenPass.cpp:4393-4440 | preservation clauses carry the invariant to the next point |
| OwnershipSoundness.OwnKills | src/constraint_gen/ConstraintGenPass.cpp:2024-2049 | values that die without being good owners can leave the live set |
| OwnershipSoundness.OwnSplices | src/constraint_gen/ConstraintGenPass.cpp:1443-1562 | splicing a dead value out of the borrows keeps every live borrower safe |
| CopyValues.AliasesAgree | src/constraint_gen/ConstraintGenPass.cpp:4277-4327 | in strict SSA form all copies of a tested pointer hold its value at the test |
| CopyValues.DefinitionIsFresh | src/constraint_gen/ConstraintGenPass.cpp:4277-4327 | when a definition executes, again or for the first time, nothing that dominates it is a copy of what it defines |
| LiveFacts.CurLiveIsScan | src/constraint_gen/ConstraintGenPass.cpp:2111-2133 | where whatever has uses is live once defined, the generator's running set of live values is what the backward scan computes |
| LiveFacts.LiveAcrossEdge | src/constraint_gen/ConstraintGenPass.cpp:1990-2012 | where whatever has uses is live once defined, what is live at a block's end is live at the successor's start, an argument, or dies there |
| LiveFacts.TrackedAcrossEdge | src/constraint_gen/ConstraintGenPass.cpp:1990-2012 | without that premise the same holds of what is both in the running set and an argument or live by the backward scan |
| LiveFacts.LiveIsDominated | src/constraint_gen/ConstraintGenPass.cpp:1165-1210 | in the least solution every live value is defined on all paths to the point |
| OwnershipLimits.DeadMallocLeaks | src/constraint_gen/ConstraintGenPass.cpp:2111-2158 | in a run that allocates into a value that is dead right after its definition, the block leaks, whatever the clauses say |
| OwnershipLimits.UnusedMallocAcceptedButLeaks | src/constraint_gen/ConstraintGenPass.cpp:2544-2568 | a concrete function whose clauses are satisfiable and which leaks |
| OwnershipLimits.NullBranchSoundIff | src/constraint_gen/ConstraintGenPass.cpp:3904-3920 | the clauses of a null branch's edges are sound for the tested name exactly when the two targets differ |
| EqualTargets.AcceptedButLeaks | src/constraint_gen/ConstraintGenPass.cpp:3904-3920 | a function with a null branch of equal targets that the generator accepts, with a stable last pass and no unused malloc, and a run of it from its entry that leaks: the two targets cannot be dropped from the premises either |
| OwnershipExample.PremisesCanBeMet | src/constraint_gen/ConstraintGenPass.cpp:2544-2661 | the ownership theorems are not empty: a function that allocates and then frees satisfies every premise, with the analysis that the generator computes, an assignment satisfying all its clauses and a run in which the block is allocated and later freed |
| LoopExample.LoopIsChecked | src/constraint_gen/ConstraintGenPass.cpp:4267-4388 | nor with a loop, a copy that borrows and a null test: with the analysis that the generator computes, all clauses of such a function can be satisfied |
| LoopExample.TestFindsBoth | src/constraint_gen/ConstraintGenPass.cpp:4285-4292 | testing the copy decides the original too, because the alias search finds it among the borrows of the last pass |
| LoopExample.LoopIsSafe | src/constraint_gen/ConstraintGenPass.cpp:1861-2316 | a run of it that reads through the original after the test of the copy and comes back to the test, and is safe by the theorem |
| ConstraintGen.Generator.RunOnFunction | src/constraint_gen/ConstraintGenPass.cpp:1861-2316 | dry runs as long as new names are seen, then the last pass: what is written is exactly the set of modelled clauses for the settled analysis, and an assignment satisfies it if and only if it obeys the discipline of FunctionMeaning.ClausesMean |
| ConstraintGen.Generate | src/constraint_gen/ConstraintGenPass.cpp:1666-2330 | for any function in strict SSA form in which every operand is defined: liveness, passes and alias search together write the clauses of the settled analysis over the least liveness solution, and an assignment satisfies what is written if and only if it obeys the discipline |
| ConstraintGen.Generator.VisitInstruction | src/constraint_gen/ConstraintGenPass.cpp:2056-2158 | one instruction: the flow into it, its clauses, what dies by the table of last uses, and afterwards the live set, the indexed borrows and the postponed deaths the next instruction starts from |
| ConstraintGen.Generator.ProcessBlock | src/constraint_gen/ConstraintGenPass.cpp:1976-2300 | a block, from joining the ends of its predecessors to its own end: its clauses in the last pass, nothing in a dry run, and the end that its successors will join |
| ConstraintGen.Generator.RunPass | src/constraint_gen/ConstraintGenPass.cpp:1976-2300 | one pass leaves the block ends that the pass function defines, each block joining ends of this pass or the one before |
| ConstraintGen.Generator.FindTested | src/constraint_gen/ConstraintGenPass.cpp:4285-4292 | the live names that the alias search over the indexed borrows returns for the tested value |
| ConstraintGen.CollectOver | src/constraint_gen/ConstraintGenPass.cpp:4393-4440 | a loop over the seen names writes the union of the clauses for each |
| BitVector.PackingIsUnique | src/constraint_gen/bitvector.h:70-81 | comparing words compares sets, because unused bits are zero |
| BitVector.SameBits | src/constraint_gen/bitvector.h:70-81 | two words with the same bits are equal |
| BitVector.BitVector.Write | src/constraint_gen/bitvector.h:84-97 | writing a bit adds or removes exactly one number |
| BitVector.BitVector.Read | src/constraint_gen/bitvector.h:100-109 | the masked test is membership |
| BitVector.BitVector.Equals | src/constraint_gen/bitvector.h:70-81 | equality of the sets |
| BitVector.BitVector.OrWith | src/constraint_gen/bitvector.h:112-122 | union, also with itself |
| BitVector.BitVector.AndWith | src/constraint_gen/bitvector.h:125-135 | intersection |
| BitVector.BitVector.Negate | src/constraint_gen/bitvector.h:138-150 | complement, with the unused bits clear again |
| LiveWorklist.Solve | src/constraint_gen/ConstraintGenPass.cpp:1165-1210 | the worklist over packed sets terminates with the least solution of the liveness equations, and the stored sets at block ends are those of that solution |
| LiveWorklist.LiveIffUsedOnPath | src/constraint_gen/ConstraintGenPass.cpp:1165-1210 | in the least solution a value is live at a block start exactly when some control-flow path reaches a use of it with no definition in the blocks before |
| Liveness.LiveMeansUsed | src/constraint_gen/ConstraintGenPass.cpp:1094-1210 | in terms of instructions: a value is live at a block start if and only if control can come from there to an instruction that uses it, with no definition of it on the way; a return uses every argument |
| LiveWorklist.PendingStep | src/constraint_gen/ConstraintGenPass.cpp:1172-1209 | one visit, with the predecessors queued again on a change, keeps the equations satisfied outside the queue and the sets below every closed assignment |
| LiveWorklist.MissingDrops | src/constraint_gen/ConstraintGenPass.cpp:1199-1209 | a changed set strictly reduces what is still missing: the worklist terminates |
| Liveness.ComputeLiveness | src/constraint_gen/ConstraintGenPass.cpp:1037-1248 | for any function in SSA form: the least solution by name, what is live at the ends, and the last uses the generator works with |
| Liveness.BlockGenKill | src/constraint_gen/ConstraintGenPass.cpp:1094-1163 | the bitvectors of a block hold what it uses before defining it, the arguments at a return, and what it defines |
| Liveness.LastUses | src/constraint_gen/ConstraintGenPass.cpp:1212-1247 | the backward scan finds for each instruction the operands not live after it |
| Liveness.LeastRenamed | src/constraint_gen/ConstraintGenPass.cpp:1055-1082 | numbering the values injectively keeps the least solution |
| BorrowGraph.SpliceIsExact | src/constraint_gen/ConstraintGenPass.cpp:1443-1562 | after a splice every chain of extended borrows between surviving paths still exists, nothing mentions the dead path, and nothing is connected that was not connected before |
| BorrowGraph.LosesNothingIffBase | src/constraint_gen/ConstraintGenPass.cpp:1383-1415 | the splice loses nothing for every set of borrows exactly when the dead path is a base variable |
| BorrowGraph.LoopKeepsDead | src/constraint_gen/ConstraintGenPass.cpp:1443-1520 | with a borrow from the dead variable into itself the spliced borrows still mention it |
| BorrowGraph.DeadIsGoneIff | src/constraint_gen/ConstraintGenPass.cpp:1443-1562 | after the death of a base variable nothing mentions it, if and only if no borrow from it into itself meets a borrow into it, a borrow out of it, or a partner in the third case, to make a borrow between different paths |
| BorrowPaths.SpliceIsKill | src/constraint_gen/ConstraintGenPass.cpp:1443-1562 | on base variables the splice is the joining of each pair of borrows through the dead one that the ownership theorem reasons with |
| BorrowGraph.StepThrough | src/constraint_gen/ConstraintGenPass.cpp:1466-1495 | a step into the dead path followed by one out of it is a single step afterwards, or none |
| BorrowGraph.NewIsConnected | src/constraint_gen/ConstraintGenPass.cpp:1466-1520 | each new borrow, in all three cases, joins paths that were connected |
| BorrowGraph.RenamingKeepsChains | src/constraint_gen/ConstraintGenPass.cpp:3245-3277 | renaming a base variable to a fresh one keeps exactly the chains there were, with the rest of every path as it was |
| BorrowIndex.BorrowInfo.HandleCPathBecomingDead | src/constraint_gen/ConstraintGenPass.cpp:1383-1562 | the two indexes stay equal and ordered; the result is the splice, or, for the address of a local from which others still borrow while nothing borrows into it, an entry in the waiting list, for a base variable under the new name that replaces it, and only it, at the head of paths |
| BorrowIndex.BorrowInfo.RootedAt | src/constraint_gen/ConstraintGenPass.cpp:1389-1415 | the scans of a dying path, each with bounds of its own side, return exactly the borrows from, or into, the path and what is below it |
| BorrowIndex.BorrowInfo.GetBorrowsBySrcRootedAt | src/constraint_gen/ConstraintGenPass.cpp:3098-3108 | returns exactly the borrows from the path and what is below it |
| BorrowIndex.BorrowInfo.GetBorrowsByDestRootedAt | src/constraint_gen/ConstraintGenPass.cpp:3110-3120 | returns nothing, whatever there is, and so what it should if and only if no borrow ends at the path or below it |
| BorrowIndex.BorrowInfo.GetBorrowCPathsRootedAt | src/constraint_gen/ConstraintGenPass.cpp:3122-3134 | returns the lending paths only |
| BorrowIndex.DestScanMisses | src/constraint_gen/ConstraintGenPass.cpp:3110-3120 | any single borrow into the path is missed by the scan by destination |
| BorrowIndex.BorrowInfo.EndingAt | src/constraint_gen/ConstraintGenPass.cpp:3064-3081 | the scan of the alias search returns exactly the borrows whose from (or to) is the path |
| BorrowIndex.PrefixRange | src/constraint_gen/ConstraintGenPass.cpp:1391-1401 | between d and d followed by the greatest part lie exactly the extensions of d |
| BorrowIndex.EqualRange | src/constraint_gen/ConstraintGenPass.cpp:3064-3072 | between d and d followed by part 0 lies only d |
| BorrowIndex.PrefixScan | src/constraint_gen/ConstraintGenPass.cpp:1389-1415 | the two lower bounds cut out exactly the borrows below a path from an ordered index |
| BorrowIndex.BorrowInfo.RenameBase | src/constraint_gen/ConstraintGenPass.cpp:3245-3277 | both indexes hold, for each borrow, the one with the base variable replaced where it heads a path and every other part as it was, and nothing else |
| BorrowIndex.BorrowInfo.JoinFrom | src/constraint_gen/ConstraintGenPass.cpp:1335-1342 | joining predecessors gives the union of their borrows in both indexes |
| BorrowSearch.HasPathAliasAware | src/constraint_gen/ConstraintGenPass.cpp:506-545 | the search terminates and returns true exactly when an alias-aware chain links start to target |
| BorrowSearch.FlagIsExact | src/constraint_gen/ConstraintGenPass.cpp:548-552 | adding a borrow to cycle-free borrows keeps them cycle-free exactly when it is not flagged |
| BorrowSearch.ConflictMeans | src/constraint_gen/ConstraintGenPass.cpp:506-545 | the joints of these chains: two paths conflict if and only if some path lies under both |
| BorrowSearch.AddBorrow | src/constraint_gen/ConstraintGenPass.cpp:643-652 | the borrow is added in any case, and the flag tells whether it closes a cycle |
| BorrowAliases.GetAliasesOf | src/constraint_gen/ConstraintGenPass.cpp:3002-3086 | terminates and returns, without duplicates and starting with the path itself, exactly what borrows from it and what it borrows from outside that, through paths of at most 8 parts |
| BorrowAliases.NothingMissedIff | src/constraint_gen/ConstraintGenPass.cpp:3002-3086 | nothing is missed if and only if what every other path reached in both directions borrows from directly is returned as well; nothing wrong is ever returned |
| BorrowAliases.AliasesAreExact | src/constraint_gen/ConstraintGenPass.cpp:3002-3086 | in particular when no other path is reached in both directions |
| BorrowAliases.MissedAlias | src/constraint_gen/ConstraintGenPass.cpp:3006-3012 | borrows on a cycle for which the shared seen set hides an alias |
| BorrowAliases.Explore | src/constraint_gen/ConstraintGenPass.cpp:3012-3085 | one direction: the worklist finds exactly what is reached outside the paths already seen |
| PointsTo.FuncPtrPass.RunOnModule | src/constraint_gen/FuncPtrPass.cpp:62-88 | the iteration terminates with the least set of facts closed under the inclusion constraints, including those of callees discovered on the way |
| PointsTo.MovedIsGrown | src/constraint_gen/FuncPtrPass.cpp:186-206 | a merge along a constraint adds only what every closed set contains |
| PointsTo.EverythingIsClosed | src/constraint_gen/FuncPtrPass.cpp:70-88 | all facts over the program's values are closed, which bounds the iteration |
| PointsTo.AnnotationOf | src/constraint_gen/FuncPtrPass.cpp:256-285 | an annotation is missing if and only if no function and no flag is known of the value; otherwise it lists exactly the functions in its set, and has the unknown mark if and only if the value is flagged |
| PointsTo.FuncPtrPass.StripPointerCasts | src/constraint_gen/FuncPtrPass.cpp:246-254 | going back through casts ends at a function if and only if some number of casts leads back to one, circles of casts included |
| PointsTo.FuncPtrPass.AnnotateCall | src/constraint_gen/FuncPtrPass.cpp:251-285 | a call of a function by name, through casts or not, gets no annotation, any other what is known of the value it calls |
| PointsTo.FuncPtrPass.Annotate | src/constraint_gen/FuncPtrPass.cpp:90-104 | exactly the calls that do not name their function, and of whose callee something is known, are annotated, each with all that is known; a change is reported if there is one |
| PointsToPrecision.LeastIsDerived | src/constraint_gen/FuncPtrPass.cpp:62-88 | a function is in the set of a value if and only if a chain of flows leads there from its address, and a value is flagged if and only if one leads there from the result of a load or of a cast from an integer |
| PointsToPrecision.FlowIsPossible | src/constraint_gen/FuncPtrPass.cpp:118-183 | every flow by an instruction other than a call is one that executions of it can make, whatever the values |
| PointsToPrecision.CallFlowIsPossible | src/constraint_gen/FuncPtrPass.cpp:153-244 | every flow by a call hands an argument to the formal in its place of a function that the call may reach, or takes what that function returns |
| PointsToPrecision.OriginYieldsAnything | src/constraint_gen/FuncPtrPass.cpp:118-183 | what is flagged to begin with may come up with any function |
| PointsTo.FuncPtrPass.PropagateInstruction | src/constraint_gen/FuncPtrPass.cpp:118-183 | reports a change exactly when a fact was added, and otherwise the instruction's constraints hold |
| PointsToSoundness.EveryRunIsTracked | src/constraint_gen/FuncPtrPass.cpp:118-244 | when the arguments and results of every call through a flagged value are copied for every function of the program, every function a value holds in any run is in its set, or the value is flagged |
| PointsToSoundness.RunIsTrackedIff | src/constraint_gen/FuncPtrPass.cpp:118-244 | the values of all active calls stay inside their sets along a run if and only if every step passes only values tracked where they arrive |
| PointsToSoundness.StepSoundIff | src/constraint_gen/FuncPtrPass.cpp:153-183 | the same for one step, of any kind |
| PointsToSoundness.CallSoundIff | src/constraint_gen/FuncPtrPass.cpp:153-161 | after a call, resolved or not, the new frame is inside the sets if and only if every argument is tracked at its formal |
| PointsToSoundness.RunSound | src/constraint_gen/FuncPtrPass.cpp:118-244 | the same for any run whose calls through flagged values stay inside the sets, for the whole stack of active calls |
| PointsToSoundness.CalleeIsAnnotated | src/constraint_gen/FuncPtrPass.cpp:251-285 | what is known of the value that an executed call goes through is something, and it lists the callee or has the unknown mark |
| PointsToSoundness.FlaggedCalleeEscapes | src/constraint_gen/FuncPtrPass.cpp:153-161 | a program and a run where a formal holds a function that is neither in its set nor excused by a flag |
| CallExpansion.RunsAreMatched | src/constraint_gen/FuncPtrExpander.cpp:88-274 | every run of the expanded function makes the same calls with the same arguments in the same order as a run of the original, and ends in a corresponding state |
| CallExpansion.StepIsMatched | src/constraint_gen/FuncPtrExpander.cpp:97-267 | each step of the expanded function is a step of the original or one of boundedly many silent steps of the chain |
| CallExpansion.FromCalling | src/constraint_gen/FuncPtrExpander.cpp:186-208 | the chain calls the function the original calls, once, with the same arguments |
| CallExpansion.FromMerging | src/constraint_gen/FuncPtrExpander.cpp:253-268 | the phi takes up the result of whichever call was made |
| CallExpansion.StepIsFollowed | src/constraint_gen/FuncPtrExpander.cpp:97-267 | each step of the original, with its callee listed, is followed by steps of the expanded function with the same visible event |
| CallExpansion.RunsAreFollowed | src/constraint_gen/FuncPtrExpander.cpp:88-274 | every run of the original along which the callees are listed is a run of the expanded function with the same visible events: with CallExpansion.RunsAreMatched, the expansion has the same behaviour |
| CallExpansion.AbortIsUnlisted | src/constraint_gen/FuncPtrExpander.cpp:210-251 | along any run, without an unknown mark, the expanded function stands in the abort block if and only if the original stands at the call with a callee that is not listed |
| ProgramRuns.ProgramRunsAreMatched | src/constraint_gen/FuncPtrExpander.cpp:88-274 | every run of the whole program with the expanded function is matched by a run of the whole program without |
| ProgramRuns.ProgramStepMatched | src/constraint_gen/FuncPtrExpander.cpp:97-267 | one step, in any frame of the stack, is a step of the original program or keeps the stacks matched |
| ProgramRuns.ProgramRunsAreFollowed | src/constraint_gen/FuncPtrExpander.cpp:88-274 | the converse: every run of the whole program along which the expanded call enters listed functions only, or the unknown mark is set, is matched by a run of the program with the expanded function |
| ProgramRuns.ProgramStepFollowed | src/constraint_gen/FuncPtrExpander.cpp:97-267 | each such step of the original program, a call, a return or a move in any function, is a step of the expanded program after finitely many silent ones of the frame on top |
| CallResolution.RunAgrees | src/constraint_gen/FuncPtrPass.cpp:118-244 | every run of a program that is expanded is a run of the program that is analysed |
| CallResolution.AnalysisListsCallees | src/constraint_gen/FuncPtrPass.cpp:251-285 | at a site that carries what is known, no more and no less, every run calls a listed function, or something that is no function of the program, unless the mark is there |
| CallResolution.AbortNeverEntered | src/constraint_gen/FuncPtrExpander.cpp:210-251 | a call that carries the annotation of the analysis, without an unknown mark, expanded: whenever a run of the program stands in the abort block, a run of the original stands at the call about to call something that is none of its functions |
| CallResolution.NoRunIsLost | src/constraint_gen/FuncPtrExpander.cpp:88-274 | with the annotation of the analysis every run of the program is matched by a run of the program with the call expanded |
| CallExpansion.NeverStuck | src/constraint_gen/FuncPtrExpander.cpp:97-267 | wherever the original can step, with its callee listed, so can the expanded function, with the same event or a silent one |
| CallExpansion.Function.ExpandIndirectCall | src/constraint_gen/FuncPtrExpander.cpp:88-274 | the rewriting builds exactly the blocks of the expansion, and does nothing without known callees |
| TimSort.TimSort | src/constraint_gen/ghostq/sort.h:549-583 | sorts the whole array, stably, for every size |
| TimSort.Collapse | src/constraint_gen/ghostq/sort.h:490-547 | keeps sorted runs that tile the array's beginning; joins runs only where the lengths are out of balance, the middle of the topmost three to its shorter neighbour, and ends where nothing has to be joined; shrinks the stack when the invariant was off |
| TimSort.TimSortMerge | src/constraint_gen/ghostq/sort.h:431-488 | merges two neighbouring runs with at most the smaller length in temporary cells |
| TimSort.PushRun | src/constraint_gen/ghostq/sort.h:361-390 | pushes the run that is there, extended to minrun elements or to what is left, sorted |
| TimSort.MinrunInRange | src/constraint_gen/ghostq/sort.h:351-359 | the minimum run length is between 32 and 64 for 64 elements and more |
| TimSort.MinrunIsExact | src/constraint_gen/ghostq/sort.h:351-359 | it is the size divided by the power of two that brings it between 32 and 64, rounded up |
| TimSort.CountRun | src/constraint_gen/ghostq/sort.h:313-349 | finds the rising run at a position, or the strictly falling one and reverses it, as far as it goes and no further, the last element of the array counting only in the last two; keeps stability |
| TimSort.ReversedFalling | src/constraint_gen/ghostq/sort.h:302-311 | reversing a strictly falling run sorts it stably |
| TimSort.JoinedTiles | src/constraint_gen/ghostq/sort.h:490-547 | joining two runs of the stack keeps the runs adjacent and covering |
| TimSort.JoinedSorted | src/constraint_gen/ghostq/sort.h:490-547 | and leaves all runs sorted |
| Merging.MergeLeft | src/constraint_gen/ghostq/sort.h:442-464 | merging upwards from temporary storage sorts the range stably and touches nothing else |
| Merging.MergeRight | src/constraint_gen/ghostq/sort.h:466-487 | the same for filling from the top |
| Merging.MergedIsSorted | src/constraint_gen/ghostq/sort.h:442-464 | the merge of sorted runs is sorted |
| Merging.MergedIsStable | src/constraint_gen/ghostq/sort.h:442-464 | elements taken so far are a stable rearrangement of the two prefixes |
| Merging.TakenFromTop | src/constraint_gen/ghostq/sort.h:466-487 | deciding from the top by a strict comparison makes the same merge as deciding from the bottom |
| Sorting.StableSortIsUnique | src/constraint_gen/ghostq/sort.h:549-583 | sortedness and stability leave only one result |
| Sorting.StableIsPermutation | src/constraint_gen/ghostq/sort.h:549-583 | a stable rearrangement is a permutation |
| InsertionSort.BinaryInsertionFind | src/constraint_gen/ghostq/sort.h:129-177 | finds the place after all elements not greater than x, without running past the end |
| InsertionSort.BinaryInsertionSortStart | src/constraint_gen/ghostq/sort.h:180-198 | sorts a range whose beginning is sorted, stably |
| InsertionSort.InsertionIsStable | src/constraint_gen/ghostq/sort.h:186-197 | inserting there keeps the range sorted and stable |
| MergeSort.MergeSort | src/constraint_gen/ghostq/sort.h:221-257 | sorts the range, stably |
| HeapSort.HeapSort | src/constraint_gen/ghostq/sort.h:618-629 | sorts, permuting, although root 0 has only one child |
| HeapSort.SiftDown | src/constraint_gen/ghostq/sort.h:589-606 | restores the heap from a node on, permuting only the cells of the heap |
| HeapSort.RootIsGreatest | src/constraint_gen/ghostq/sort.h:618-629 | nothing in the heap is greater than its root |
| IndexedHeap.Heap.Insert | src/constraint_gen/ghostq/Heap.h:98-106 | adds exactly one number, in order, with exact positions |
| IndexedHeap.Heap.RemoveMin | src/constraint_gen/ghostq/Heap.h:109-118 | returns a number with the least key and removes only it |
| IndexedHeap.Heap.Update | src/constraint_gen/ghostq/Heap.h:88-95 | restores the order after the key of one number changed in either direction, or inserts it |
| IndexedHeap.Heap.Build | src/constraint_gen/ghostq/Heap.h:122-133 | makes a heap of any list of different numbers in range, forgetting the old contents |
| IndexedHeap.Heap.PercolateUp | src/constraint_gen/ghostq/Heap.h:44-57 | leaves the heap in order except, possibly, below a number that did not move |
| IndexedHeap.Heap.PercolateDown | src/constraint_gen/ghostq/Heap.h:60-72 | restores the order from a node on, positions exact |
| IndexedHeap.MoveUp | src/constraint_gen/ghostq/Heap.h:49-54 | moving past a greater parent keeps order everywhere but around the new place |
| IndexedHeap.MoveDown | src/constraint_gen/ghostq/Heap.h:63-69 | moving past the smaller child keeps order everywhere but around the new place |
| IndexedHeap.KeyChanged | src/constraint_gen/ghostq/Heap.h:83-95 | a change of one key disturbs the order around its number only |
| IndexedHeap.RootIsLeast | src/constraint_gen/ghostq/Heap.h:109-118 | the root has the least key |
| QuickSelect.Select | src/constraint_gen/ghostq/quickselect.cpp:11-59 | for every array that is not empty: terminates, permutes, and returns the element of rank (n-1)/2 |
| QuickSelect.Partition | src/constraint_gen/ghostq/quickselect.cpp:38-52 | both scans stay in the range; afterwards the pivot separates it, with only pivots in a gap left by crossing scans |
| QuickSelect.NarrowedByPartition | src/constraint_gen/ghostq/quickselect.cpp:53-57 | the kept side brackets the median, or the median's cell is settled |
| QuickSelect.SettledIsRank | src/constraint_gen/ghostq/quickselect.cpp:18-26 | a cell with nothing greater before and nothing smaller after holds what the sorted array has there |
| UnitPropagation.Propagate | src/constraint_gen/examine_core.py:160-203 | terminates; each line forces by the unit clause with the smallest priority and, among those, the smallest position in the core; a line that ends it has no such clause before it either; with a whole assignment asked for, each falsified clause is noted once, in that order, before anything scanned after it is forced, and at the end all are; ends with a broken clause or with no unit clause left |
| UnitPropagation.PropagationIsSound | src/constraint_gen/examine_core.py:168-203 | every assigned literal has its value in all models of the core, and a broken clause means there is none |
| UnitPropagation.ForcedIsEntailed | src/constraint_gen/examine_core.py:187-203 | in any explanation whose lines use only earlier lines, what is forced holds in every model |
| UnitPropagation.SubstUnderAsgn | src/constraint_gen/examine_core.py:86-98 | satisfied, falsified, or the unassigned literals in order |
| UnitPropagation.ScanAll | src/constraint_gen/examine_core.py:171-203 | finds the clause at which the scan stops, such that none with a smaller priority, or the same and a smaller position, would have stopped it, and the falsified clauses passed over, in that order |
| UnitPropagation.GroupByPriority | src/constraint_gen/examine_core.py:153-157 | each priority gets exactly its clauses, in the order of the core |
| CollapseFlow.CollapseFlow | src/constraint_gen/conv_dimacs.py:375-458 | an assertion trips if and only if some clause can be joined to a next one but lies on no chain; otherwise the literals that are returned and the table they are read back with are those of the clauses outside chains and one implication for each chain |
| CollapseFlow.ReadBackIsCollapsedIff | src/constraint_gen/conv_dimacs.py:447-453 | what is read back is the collapsed core if and only if no two chains have swapped different ends and no kept clause has the two literals of a chain's ends |
| CollapseFlow.ReadBackIsEquisatisfiable | src/constraint_gen/conv_dimacs.py:375-458 | under that condition what is read back is satisfiable exactly when the core is, and each of its models extends to the core |
| CollapseFlow.AllFoundIsNoTrip | src/constraint_gen/conv_dimacs.py:393-413 | a core whose collapsible clauses lie on chains trips no assertion |
| FlowClauses.ReadBackIff | src/constraint_gen/conv_dimacs.py:447-453 | filing implications under their literals without order reads back as they were if and only if none overwrites another or a kept clause |
| FlowClash.OppositeChainIsLost | src/constraint_gen/conv_dimacs.py:447-453 | an unsatisfiable core with two chains of swapped ends that trips nothing and reads back satisfiable |
| CollapseFlow.CollapseIsEquisatisfiable | src/constraint_gen/conv_dimacs.py:375-458 | the collapsed core, with its implications as such, is satisfiable exactly when the core is |
| CollapseFlow.CollapseExtends | src/constraint_gen/conv_dimacs.py:375-458 | every model of the collapsed core, changed on inner variables only, is a model of the core |
| CollapseFlow.CollapseIsImplied | src/constraint_gen/conv_dimacs.py:431-458 | every model of the core is a model of the collapsed core |
| CollapseFlow.StepBack | src/constraint_gen/conv_dimacs.py:393-413 | a step along a chain can be taken back, except from a clause a -> a, where the assertion trips |
| CollapseFlow.WalksMakeChain | src/constraint_gen/conv_dimacs.py:417-446 | the two walks from a clause make one maximal chain without repetition |
| Dimacs.ConvToDimacs | src/constraint_gen/conv_dimacs.py:136-344 | the variables that occur are numbered one-to-one onto 1..n, in the order in which they first come up, and each clause is encoded with these numbers |
| Dimacs.DecodeClause | src/constraint_gen/conv_dimacs.py:461-500 | decoding an encoded clause gives the clause back |
| Dimacs.ModelSatisfies | src/constraint_gen/conv_dimacs.py:346-361 | a numbered clause holds in a solution exactly when the named clause holds in the converted model |
| SplitConstraints.SplitAgrees | src/constraint_gen/split_constraints.py:33-88 | for a well-formed file, with blank and comment lines anywhere between its blocks, converting the split file of a function takes the same clauses, as a multiset, as converting the whole file for it; a function with the name that stands for all of them is the exception |
| SplitConstraints.TakenIsWanted | src/constraint_gen/conv_dimacs.py:160-277 | the line state machine takes exactly the clauses of the target, or of all functions under the name for all, and the common ones |
| SplitConstraints.TakenMeans | src/constraint_gen/conv_dimacs.py:160-277 | in any file, well-formed or not: a clause is taken if and only if the last line before it that opens a function from outside, or begins or ends common lines, begins common lines or opens a function that is meant |
| SplitConstraints.TakeClauses | src/constraint_gen/conv_dimacs.py:160-277 | the loop over the lines takes just these clauses |
| SplitConstraints.CommonMeans | src/constraint_gen/split_constraints.py:33-52 | in any file the common lines are those outside functions that are not blank, in order |
| SplitConstraints.FileOf | src/constraint_gen/split_constraints.py:53-83 | the file of a function holds its block followed by the common lines |
| CPathText.ParseOfPrint | src/constraint_gen/ConstraintGenPass.cpp:762-806 | reading a written path gives the path back, with and without stars |
| CPathText.PrintIsNormal | src/constraint_gen/ConstraintGenPass.cpp:673-715 | writing what was read gives a normal form |
| CPathText.PrintMeans | src/constraint_gen/ConstraintGenPass.cpp:762-775 | the text with stars begins with exactly as many as dereferences end the path, not counting its base, and goes on with the parts before those; the text without begins with none and has all parts |
| CPathText.NoDerefLeft | src/constraint_gen/ConstraintGenPass.cpp:762-775 | the text with stars never ends in a dereference |
| CPathText.CPathTable.ParseCPath | src/constraint_gen/ConstraintGenPass.cpp:673-715 | succeeds if and only if the numbers suffice for the parts not numbered before, and then gives the numbers of the parts, through a cache that always agrees with parsing afresh |
| CPathText.CPathTable.PartId | src/constraint_gen/ConstraintGenPass.cpp:654-671 | the numbering stays one-to-one and never uses 0 or the greatest number |
| CPathText.CPathTable.CPathToStr | src/constraint_gen/ConstraintGenPass.cpp:762-806 | writes the text of the numbered parts: stars for the dereferences that end the path if asked for, and the other parts in order |
| TreeStreaming.NodeStreamer.Dump | clang-code/JSONNodeDumper.h:79-136 | for every tree the events are its recursive print, one array for each parent named by the first child's label, and nothing stays pending |
| TreeStreaming.NodeStreamer.RunTask | clang-code/JSONNodeDumper.h:98-128 | a deferred child prints itself with the brackets due to a first and to a last child |
| TreeStreaming.PrintedLast | clang-code/JSONNodeDumper.h:98-128 | the pieces printed child by child make up the array |
| JsonReading.DumpIsBalanced | clang-code/JSONNodeDumper.h:79-136 | the events of a dump are balanced, what ends is what was opened last, and attributes stand in objects and have one value each |
| JsonReading.DumpReadsBack | clang-code/JSONNodeDumper.h:79-136 | reading the events gives the tree back: every text and every child in its place, and each array under the label of its first child |
| TextTree.TextTreeStructure.Dump | clang-code/TextNodeDumper.h:84-148 | the text of the tree, with the prefix of each line telling which ancestors were last children, and restored |
| TextTree.AllIsNotLastAndLast | clang-code/TextNodeDumper.h:100-148 | printing every child but one as not last, and that one as last, prints them all |
| TextLines.DumpIsLines | clang-code/TextNodeDumper.h:84-148 | the dump is the text of the root and one line for each other node, in preorder; in a line, column 2k is a bar if the ancestor at depth k+1 has a later sibling and else blank, column 2k+1 is blank, and the corner tells whether the node is the last child |
| TextLines.EveryNodeHasItsLine | clang-code/TextNodeDumper.h:84-148 | each node but the root has its line |
| TextLines.AsManyAsNodes | clang-code/TextNodeDumper.h:84-148 | and there are as many lines as nodes below the root |

## Left out

- OwnershipTheorem.NoRunGoesWrong: like the other lemmas of its module it takes stable borrows and aliases that are copies as premises; SettledBorrows.CheckedIsCompliant discharges them for what the generator computes, under the condition of SettledBorrows.StartsExactIffStable.
- SettledBorrows.Checked: blocks that cannot be reached from the entry are excluded.
- SettledBorrows.CheckedRunsAreSafe: the stable last pass and the two targets of null branches are premises, because accepted functions without the one or the other go wrong (TooFewPasses.AcceptedUseAfterFree, EqualTargets.AcceptedButLeaks).
- SettledBorrows.CheckedRunsLeakIff: a run starts from a state in which every pointer names a block of the heap, as in the other statements that count lost blocks.
- OwnershipSoundness.AfterCopy: leaves out the clauses that make other borrowers of the same value immutable while it is dynamically exclusive (src/constraint_gen/ConstraintGenPass.cpp:4003-4006), and those for local variables; more clauses only make the premise stronger.
- OwnershipTheorem.ReturnIsSummarised: speaks of the returned pointer itself, not of what it points to.
- OwnershipSoundness.OwnSplices: speaks of borrows between values; C-paths with dereferences and fields are in BorrowGraph.
- PointsToSoundness.CalleeIsAnnotated: needs the earlier calls through flagged values to be resolved inside their sets; PointsToSoundness.RunIsTrackedIff is the exact condition.
- CallResolution.AbortNeverEntered: calls are expanded one at a time, each in the program of which the annotation speaks; a call of something that is no function of the program is not excluded by the analysis.
- Calls with summaries, realloc, phi of pointers, pointers to pointers and struct fields in the ownership theorem: they need a full memory model and whole-program summaries. The clauses left out of the fragment only strengthen the demands on an assignment.
- ConstraintGen.Generator.VisitInstruction: leaves out the clauses on a loaded value itself (`mut`, `responsible`), which is data here, those that tie a copy to the source-level local variable it came from, realloc, and blocks that end in `unreachable`.
- ConstraintGen.Generate: the numbers of values have to fit into 32 bits, which the program takes for granted; the order of clauses in the output file is not modelled.
- Liveness.ComputeLiveness: leaves out the kills of other values with the same source name.
- Liveness.BlockGenKill: leaves out the same kills.
- A branch tests the pointer at the branch itself, not at the comparison before it; in SSA form the value is the same.
- BorrowIndex.BorrowInfo.HandleCPathBecomingDead: whether the path is an alloca or a phi are flags; which borrows must be in effect and which are dynamically exclusive is left out, except that the set of must-borrows is a parameter of the alias search.
- The repeated check on C-paths waiting to die.
- A dead block pointer's metadata, debug locations, calling conventions and attributes in the call expansion; calls and other instructions are events answered by the environment.
- Annotations are sets of functions; their order and the lookup of functions by name are not modelled.
- Sorting with a comparator that is not an order, the bound of 128 on timsort's stack, and the quick, bubble and shell sorts.
- Malformed function tags, nested functions and files without the function in the clause-file scripts; they print errors.
- Parts of C-path names that the code aborts on (empty parts) are excluded by a precondition, as are bitvectors of different sizes and positions out of range.
- Printing lines, colours and file names in the explanation of a core.
- What each kind of AST node prints about itself; a node is its text and its children.
- Compiler interfaces, file formats, caching, language-model prompting and the property-file conversions.
