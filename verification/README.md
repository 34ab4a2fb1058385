# OPcache: optimizer passes, shared memory and restarts

A Dafny model of the parts of the OPcache extension that rewrite code and share memory between processes, and proofs of
what they keep. The variant modelled is the non-ZTS, POSIX build for the PHP 5.4 extension API.

| files | what they model |
|---|---|
| `Machine.dfy`, `Simulation.dfy`, `OpArray.dfy` | a small instruction set over op arrays, its step semantics, what is visible of a run (`Runs`), and simulation between machines |
| `Rewrite.dfy`, `Pass2.dfy`, `FoldedBranches.dfy`, `Pass3.dfy`, `NopRemoval.dfy`, `NopsGone.dfy`, `LiveRanges.dfy`, `TempVars.dfy` | passes 2, 3, NOP removal and the renaming of temporaries |
| `Cfg.dfy`, `CfgEdit.dfy`, `Redirect.dfy`, `BlockDeletion.dfy`, `StripNops.dfy`, `JmpOptimization.dfy`, `JumpsOptimized.dfy`, `Reach.dfy`, `Pruning.dfy`, `Layout.dfy`, `FindBlocks.dfy`, `BlockPass.dfy`, `BlockPassSteps.dfy`, `CodeBlocks.dfy`, `SettledCode.dfy`, `BlockPassLimits.dfy` | the block pass: the graph and its invariant, each rewriting and what it achieves, the search, assembly, the whole pass on the blocks' fields, code it is right for, and code it is wrong for |
| `AccelHash.dfy`, `InternedStrings.dfy`, `SharedAlloc.dfy` | the shared hash with aliases, the interned string table with snapshot and restore, the allocator |
| `PersistSize.dfy`, `PersistCalc.dfy`, `PersistParts.dfy`, `PersistHash.dfy`, `PersistLinks.dfy`, `PersistNested.dfy`, `TableSteps.dfy`, `TablesMoved.dfy`, `NestedExample.dfy`, `PersistTable.dfy` | sizing and copying a script, and that all of it is copied; moving hash tables, nested ones too |
| `Restart.dfy`, `RestartSteps.dfy`, `SharedRestart.dfy` | scheduling, doing and accounting for restarts, over all interleavings of processes; what a restart leaves of the tables |
| `Adler32.dfy`, `Alignment.dfy`, `FiniteSets.dfy`, `Options.dfy` | the checksum; shared definitions |

Code that changes things in place is a class or an array with methods whose `ensures` equate the new state with a
function of the old one; the theorems are about these functions. `dafny verify dfyconfig.toml` checks everything.

A run is a sequence of steps of an op array over temporaries. What an effectful op does, including whether it throws, is
left to an environment that sees all earlier events; what is compared is every event of a run, ending or not, so equal
`Runs` means equal effects in every environment.

## What is required

- Op arrays: targets in range and an exit as last op (`WellFormed`, `TargetsIn`); no unresolved GOTO, no `finally`.
- `ZendBlockOptimization`: no exception table, no BRK or CONT left (the pass itself gives up on these), a RETURN as last
  op, because `find_code_blocks` gives the last block no successors, and `AllTame(ops)`. The last says of every round of
  the pass that each call of `zend_jmp_optimization` is `Tame`: at each of its rewritings the block that loses the source
  keeps another one if something still leads there or if it is the entry (`CallExact` shows that this is exactly what
  keeps the graph in order), and variables that it compares are equal and not only equal in their low byte (`ZeroExact`).
  `Settled` is a condition on the ops alone that implies it (`SettledIsTame`), with `LoopsAreTame`, `FirstLoopIsTame` and
  `IfInLoopIsTame` as instances. For `GluePreserves` and `SplitPreserves` nothing of this is needed.
- `PackedPreserves`: each temporary is live only between its first definition and its last mention in the array
  (`LinearRanges`), for any solution of the liveness equations. `OverlapReached` and `OverlapFits` ask in addition that
  every result that is not marked unused is mentioned later (`WellUsed`).
- `NopRemovalPreserves`: `BreakPointsStable`, see below. `ImprovedPreserves`: boolean constants or dead results.
- The shared hash: a direct key that is the target of aliases is not registered as an alias (`NotATarget`, exact in
  `AliasSeen`).
- Sizing and copying: every address is visited with one size (`TidyCalc`, `TidyPersist`, `Lawful`), blocks counted
  without looking are distinct, and for `SizesEqualExactly` and `CopiedExactly` an address that is guarded always has the
  same contents (`OneBody`). No table is visited twice: a hash table has one owner. (On a second visit the code would
  find the keys interned by the first and count them as guarded addresses.)
- Nested tables (`Forest`): buckets and tables have one owner, zvals and strings may be shared, and no array is within
  itself. `open` are the tables that are being moved around the one in question.
- Restarts: the check and the lock in `persistent_compile_file`, the check and the raise in `accel_activate`, and
  scheduling are one atomic step each; sizes do not wrap around when aligned (`Modest`), and at startup positions fit
  (`Sane`).
- Adler-32: bytes 0 to 127.

## Findings

Where the code does not keep what it is for, a lemma gives the input and another one the exact condition.

- `CallExact`, `SelfLoopIsLost`: a block that holds nothing but NOPs and a branch to itself, or to a block of NOPs that
  falls to it, is joined away by its own rewriting. Loops with more in them, tested at the top or the bottom, are fine.
- `SameWaysLost`, `SameConstLost`, `SameZnzLost`: a branch with both ways to one block has one source entry there, which
  goes when one way is led elsewhere.
- `CallExact`, `EntryIsTakenAway`: the entry block has no source of its own, so a block that jumps to it and is led past
  it makes it count as unused. A function that begins with a loop is fine as long as the last jump back is not led past
  the test.
- `ZeroExact`, `ByteIsNotEnough`: JMPZNZ threading compares variable numbers in one byte
  (`Optimizer/block_pass.c:1788`), so variables 256 apart are taken for one.
- `FoldExact`, `FoldChangesRun`, `ImprovedExact`: pass 2 turns JMPZ_EX and JMPNZ_EX on a constant into QM_ASSIGN of the raw
  constant, where the jump stores a boolean.
- `BreaksAgreeExactly`, `EarlyFreeChangesRun`: if a NOP at a break point is removed, the break point moves to the next
  op; if that is a FREE, a BRK or CONT of several levels through this loop frees a variable that it did not free before.
- `WalkBoth`: on a list that holds both blocks, the second of them as its last entry, `replace_source` looks behind the end
  of the list. `MergedIsNew`: none of its calls is made on a list that holds both.
- `ZnzReachesEnds`, `SecondWayStays`: pass 3 threads both ways of a JMPZNZ with one hit list, so the second way stops at an
  op that the first has been led through. No run changes.
- `AliasSeen`: making an alias of a key that aliases lead to breaks the rule that aliases lead to direct entries.
- `SizesEqualExactly`, `OneNameDiffers`: the sizing walk counts the key of a bucket that was interned before, the copying
  walk does not copy it; the region is then larger than needed, never smaller.
- `AllocSound`, `SizeWraps`, `RestoreExact`, `PositionWraps` in `SharedAlloc`: the block size is held in an unsigned int
  and saved positions in ints.
- `ScheduleKeeps`, `ScheduledTooLate`, `DeadForEver`: a process that found the accelerator on and schedules a restart while
  another one is being carried out saves "off" as the status to come back to and has its request wiped out; the
  accelerator then stays off for ever.
- `TablesFollowExactly`, `StartIsLost`: a loop without a variable has the start -1, and NOP removal lowers that, too, by
  the word that the shift list has there, before its beginning (`Optimizer/nop_removal.c:98`). `TablesFollow` says what the
  word must be for the table to come out right, `LoopWithoutVariable` when the start at least stays negative. Runs as they
  are modelled here do not look at starts (`StartsAreNotRun`).

The conditions for the order of a graph and for single breaks are not conditions for runs, which may never come to the
place: `UnsafeButUnseen`, `UnstableButUnseen`.

## Model

| member | source | states |
|---|---|---|
| CodeBlocks.ControlFlow.ZendBlockOptimization | Optimizer/block_pass.c:2031-2097 | the block pass on the blocks' fields and on arrays: it gives up exactly when a BRK or CONT is left; otherwise the code it builds has the same runs as the code it was given, in every environment, is no longer, and is the layout of a graph that comes out of all three rounds on the splitting of the code |
| FindBlocks.GluePreserves | Optimizer/block_pass.c:83-530 | splitting code into blocks, dropping those that cannot be reached and laying the rest out again, with jumps to the next block stripped and targets rewritten, gives code no longer than before that shows the same in every run |
| FindBlocks.SplitPreserves | Optimizer/block_pass.c:83-312 | the graph of the code has the runs of the code |
| CodeBlocks.ControlFlow.MarkStarts | Optimizer/block_pass.c:93-190 | marks exactly the ops that start a block, or reports an unresolved BRK or CONT |
| FindBlocks.StartsExactly | Optimizer/block_pass.c:93-190 | a block starts at the first op, where a jump leads, and behind an op that does not run on, and nowhere else |
| CodeBlocks.ControlFlow.FindCodeBlocks | Optimizer/block_pass.c:83-312 | leaves a graph that is a splitting of the code, just when there is no unresolved BRK or CONT |
| CodeBlocks.ControlFlow.AddSource | Optimizer/block_pass.c:316-325 | the block is in the source list afterwards, once |
| CodeBlocks.ControlFlow.ReplaceSource | Optimizer/block_pass.c:334-358 | the walk along a source list, on any list, with its found flag and with the entry after a deleted one stepped over; it is told whether the walk looks behind the end |
| CodeBlocks.WalkFits | Optimizer/block_pass.c:334-358 | on a list that holds at most one of the two blocks the old one gives way to the new one |
| CodeBlocks.WalkBoth | Optimizer/block_pass.c:334-358 | on a list that holds both: the walk looks behind the end exactly if the second of them is the last entry; otherwise the right blocks remain, without duplicates |
| CodeBlocks.MergedIsNew | Optimizer/block_pass.c:400-421 | joining blocks never makes a call on such a list |
| CodeBlocks.ControlFlow.DropFirst | Optimizer/block_pass.c:360-371 | unlinks the first entry for the block |
| CodeBlocks.ControlFlow.DelSource | Optimizer/block_pass.c:360-424 | the source goes; a block without sources is dropped, a block with one source that falls to it is joined to that one |
| CodeBlocks.ControlFlow.Join | Optimizer/block_pass.c:376-421 | the ops of a block are appended to those of the block that falls to it, and source lists follow |
| CodeBlocks.ControlFlow.DeleteCodeBlock | Optimizer/block_pass.c:426-456 | every block that led to the deleted one leads to its successor, and source lists say so |
| BlockDeletion.DeletePreserves | Optimizer/block_pass.c:426-456 | deleting a block that only passes control on keeps the graph in order and every run; if it was the entry, its successor is |
| CodeBlocks.ControlFlow.StripNop | Optimizer/block_pass.c:561-604 | removes a block's NOPs, and the block if nothing else is in it |
| StripNops.StripPreserves | Optimizer/block_pass.c:561-604 | stripping a block keeps the graph in order and every run |
| BlockPassSteps.StripAchieves | Optimizer/block_pass.c:561-604 | a block of NOPs alone is gone afterwards, or one NOP if it starts a try block; any other has lost its NOPs and no other op; no other block has lost or got one |
| BlockPassSteps.NopsAreGone | Optimizer/block_pass.c:2062-2068 | after the stripping of a round no accessible block has a NOP, but for such starts of try blocks |
| CodeBlocks.ControlFlow.AccessPath | Optimizer/block_pass.c:458-482 | the depth-first search ends on any graph, cyclic ones too, marks what it newly reaches and gives each marked block its sources |
| CodeBlocks.ControlFlow.RebuildAccessPath | Optimizer/block_pass.c:484-530 | afterwards a block is accessible exactly if it can be reached from the start or from a loop or catch block, and its source list holds exactly its accessible predecessors, without duplicates |
| Reach.SearchDone | Optimizer/block_pass.c:458-530 | what the search leaves is reachability: marks are sound and complete, source lists are the edges turned round |
| Pruning.PrunePreserves | Optimizer/block_pass.c:484-530 | marking afresh from the first accessible block changes no run |
| CodeBlocks.ControlFlow.Retarget | Optimizer/block_pass.c:1335-1383 | one redirection: del_source, new code and targets, ADD_SOURCE |
| Redirects.RedirectExact | Optimizer/block_pass.c:360-424 | exactly when a redirection leaves every source list right, every edge leading to an accessible block and every fall-through edge to the next reachable block: a condition on the block that loses the source |
| CodeBlocks.ControlFlow.OptimizeJump | Optimizer/block_pass.c:1328-1420 | the JMP case equals its specification |
| CodeBlocks.ControlFlow.OptimizeConst | Optimizer/block_pass.c:1465-1490 | JMPZ and JMPNZ on a constant |
| CodeBlocks.ControlFlow.ThreadBranch | Optimizer/block_pass.c:1491-1566 | a JMPZ or JMPNZ led ahead through tests of the same variable and jumps |
| CodeBlocks.ControlFlow.OptimizeFollow | Optimizer/block_pass.c:1567-1606 | stepping over NOP blocks behind a branch, and taking a JMP there in as JMPZNZ |
| CodeBlocks.ControlFlow.SplitZnz | Optimizer/block_pass.c:1724-1785 | a JMPZNZ on a constant, with equal ways, or with a way to the next block |
| CodeBlocks.ControlFlow.ThreadZero | Optimizer/block_pass.c:1786-1833 | a JMPZNZ led ahead on zero, variables compared in one byte |
| CodeBlocks.ControlFlow.FindTarget | Optimizer/block_pass.c:1499-1510 | the next_target loop ends at the first real op |
| CodeBlocks.ControlFlow.JmpOptimization | Optimizer/block_pass.c:1319-1865 | one call, on the fields, equals the specification JmpOptimize |
| JmpOptimization.JmpOptimizePreserves | Optimizer/block_pass.c:1319-1833 | a call on a well-formed graph that meets Tame keeps it well formed, assembly's fall-through condition among it, and every run from the entry, joins by del_source included |
| JmpOptimization.CallExact | Optimizer/block_pass.c:1319-1833 | on any well-formed graph, every rewriting of a call leaves it well formed, entry included, if and only if each of them is safe: del_source keeps the entry and every block that is still led to, a condition that can be computed before the call |
| JmpOptimization.JumpSafe | Optimizer/block_pass.c:1335-1383 | copying the jump at the end of a JMP can go wrong in one way only: if it takes the entry away |
| JmpOptimization.ZeroExact | Optimizer/block_pass.c:1786-1833 | what a JMPZNZ takes for a second test of its variable decides as the JMPZNZ did, in every state and environment, if and only if it is one, or both its ways are the same |
| JumpsOptimized.JumpAchieves | Optimizer/block_pass.c:1328-1420 | what a JMP becomes, whenever the call is tame: nothing before the next block, with its block if that has nothing else; a copy of the jump or RETURN that its target begins with; and otherwise what it was |
| JumpsOptimized.ConstAchieves | Optimizer/block_pass.c:1465-1490 | a branch on a constant keeps exactly the way that is taken |
| JumpsOptimized.BranchAchieves | Optimizer/block_pass.c:1491-1606 | a branch on a variable is led ahead if and only if the first real op that its jump meets, past blocks of NOPs, is a JMP or a test of the same temporary or compiled variable outside the start of a try block, and to where that op goes; it falls to a block that begins with something to do, or has taken the JMP there in |
| JumpsOptimized.ZnzSettled | Optimizer/block_pass.c:1724-1759 | a JMPZNZ on a constant keeps exactly the way that is taken; with both ways the same it is a JMP |
| JumpsOptimized.ZnzAchieves | Optimizer/block_pass.c:1760-1833 | any other becomes the branch on its other way if one leads to the next block, and is otherwise led ahead on zero if and only if what it meets is a JMP or tests a variable with the same low byte |
| BlockPass.BlockPassPreserves | Optimizer/block_pass.c:2031-2097 | any number of rounds of stripping, jump optimization and marking between splitting and gluing preserve every run and do not lengthen the code |
| BlockPassSteps.OneCallEach | Optimizer/block_pass.c:2070-2076 | a round calls zend_jmp_optimization once for each block that is accessible when its turn comes, in order |
| SettledCode.SettledIsTame | Optimizer/block_pass.c:1319-1833 | a condition on the ops: if the two ways of a branch neither come together nor back to it as long as nothing is done but NOPs, JMPs and tests of its variable, everything the pass relies on holds in every round, whatever is threaded, skipped, fused, joined or deleted |
| SettledCode.LoopsAreTame | Optimizer/block_pass.c:1319-1833 | nested loops tested at the top and at the bottom are such code |
| SettledCode.FirstLoopIsTame | Optimizer/block_pass.c:1319-1833 | so is a function that begins with a loop |
| SettledCode.IfInLoopIsTame | Optimizer/block_pass.c:1512-1551 | so is a branch within a loop, and its jump is led ahead to the test of the loop |
| Layout.LaidPreserves | Optimizer/block_pass.c:1188-1297 | running the assembled code shows what running the graph shows |
| BlockPassSteps.PlacesTaken | Optimizer/block_pass.c:1195-1230 | in the new code an accessible block takes a place for each op, but for a JMP to the block that comes next; any other block takes none |
| CodeBlocks.ControlFlow.CopyBlocks | Optimizer/block_pass.c:1195-1230 | the first loop of assembly: accessible blocks one after the other, jumps to the next stripped |
| CodeBlocks.ControlFlow.AimBlocks | Optimizer/block_pass.c:1270-1297 | the last loop: targets become op numbers |
| CodeBlocks.ControlFlow.AssembleCodeBlocks | Optimizer/block_pass.c:1188-1297 | the new array is a layout of the graph |
| BlockPassLimits.SelfLoopIsLost | Optimizer/block_pass.c:360-424 | a branch to itself in a block of its own: the loop is joined to the block before it and a run that never ended ends |
| BlockPassLimits.SameWaysLost | Optimizer/block_pass.c:1542-1551 | a branch with both ways to one block: led ahead, it loses the source it still needs, and runs differ |
| BlockPassLimits.SameConstLost | Optimizer/block_pass.c:1465-1490 | the same for a branch on a constant |
| BlockPassLimits.SameZnzLost | Optimizer/block_pass.c:1732-1759 | the same for a JMPZNZ on a constant |
| BlockPassLimits.UnsafeButUnseen | Optimizer/block_pass.c:1732-1759 | the condition of CallExact is about the graph: a run that never comes to the spoiled blocks is the same |
| BlockPassLimits.EntryIsTakenAway | Optimizer/block_pass.c:360-424 | a jump back to the entry that takes its test over leaves the entry without sources; the call is not safe, and the code begins elsewhere |
| BlockPassLimits.ByteIsNotEnough | Optimizer/block_pass.c:1788-1833 | two variables 256 apart are taken for one by a call that is safe, and runs differ |
| TempVars.Allocation.GetAvailable | Optimizer/optimize_temp_vars_5.c:62-71 | the lowest slot that is not taken; there always is one |
| TempVars.Allocation.UseOperand | Optimizer/optimize_temp_vars_5.c:117-151 | an operand gets a slot if it has none |
| TempVars.Allocation.SettleResult | Optimizer/optimize_temp_vars_5.c:180-217 | a result frees its slot at the first definition, or takes one of its own |
| TempVars.FindStarts | Optimizer/optimize_temp_vars_5.c:91-110 | the op that first defines each temporary |
| TempVars.OptimizeTemporaryVariables | Optimizer/optimize_temp_vars_5.c:73-222 | the backward loop on arrays equals the specification Packed |
| TempVars.PackedPreserves | Optimizer/optimize_temp_vars_5.c:73-222 | renaming preserves every run if each temporary is live only between its first definition and its last mention |
| TempVars.PackedCount | Optimizer/optimize_temp_vars_5.c:73-222 | the new count bounds every slot in use and never exceeds the old one |
| TempVars.OverlapReached | Optimizer/optimize_temp_vars_5.c:62-71 | at some op as many temporaries overlap as slots are handed out |
| TempVars.OverlapFits | Optimizer/optimize_temp_vars_5.c:62-71 | at no op more: the new count is the largest number of temporaries that overlap |
| NopRemoval.NopRemoval | Optimizer/nop_removal.c:5-126 | the loops in place equal the specification RemovedWith, whatever stands in memory outside the shift list, for loops without a variable too; it is told whether every read was inside |
| NopRemoval.KillJump | Optimizer/nop_removal.c:29-41 | a JMP over nothing but NOPs becomes a NOP |
| NopRemoval.Compact | Optimizer/nop_removal.c:13-52 | ops move down by the number of NOPs before them, which the shift list records |
| NopRemoval.PatchJumps | Optimizer/nop_removal.c:53-92 | targets follow the shift list |
| NopRemoval.PatchBrkCont | Optimizer/nop_removal.c:94-99 | the loop table follows it; a start that is no op number is lowered by what stands outside the list, in 32 bits |
| NopRemoval.PatchTryCatch | Optimizer/nop_removal.c:101-111 | the exception table follows it |
| NopRemoval.PatchBindings | Optimizer/nop_removal.c:113-123 | so does the early binding list |
| NopRemoval.NopRemovalPreserves | Optimizer/nop_removal.c:5-126 | every run is preserved, whatever stands outside the shift list, if no break that is left can meet a break point whose NOP is followed by a FREE |
| NopRemoval.BreaksAgreeExactly | Optimizer/nop_removal.c:94-99 | that condition is exact for the breaks: they free the same and end at the same loop if and only if it holds |
| NopRemoval.EarlyFreeChangesRun | Optimizer/nop_removal.c:94-99 | a well-formed op array on which a run changes |
| NopRemoval.UnstableButUnseen | Optimizer/nop_removal.c:94-99 | and one on which the breaks change and no run does, because control never comes to them |
| NopRemoval.TablesFollowExactly | Optimizer/nop_removal.c:94-99 | the op array is the one with every number renumbered, whatever stands outside the shift list, if and only if nothing is removed or every loop has a start |
| NopRemoval.TablesFollow | Optimizer/nop_removal.c:94-99 | for given memory: if and only if nothing is removed or every word that is read outside is 0 |
| NopRemoval.LoopWithoutVariable | Optimizer/nop_removal.c:98 | a start of -1 stays negative, as the block pass tests it, exactly if the word before the shift list is below 2^31 |
| NopRemoval.StartIsLost | Optimizer/nop_removal.c:98 | a while loop behind a NOP, and the start it is left with |
| NopRemoval.StartsAreNotRun | Optimizer/nop_removal.c:94-99 | no step of a run depends on a start |
| NopRemoval.NumberMoved | Optimizer/nop_removal.c:53-123 | an old op number becomes that of the first surviving op at or after it |
| NopRemoval.NoNopLeft | Optimizer/nop_removal.c:13-52 | no NOP is left and the array has shrunk by exactly the NOPs and killed jumps |
| NopsGone.OpsAreMoved | Optimizer/nop_removal.c:13-92 | exactly the NOPs and the JMPs forward over nothing but NOPs go; the other ops stay in order, and every target is the number of ops before the old one that stay, counted as a set |
| NopsGone.LoopIsMoved | Optimizer/nop_removal.c:94-99 | so are the break and continue points, and each start that is the number of an op |
| NopsGone.TryIsMoved | Optimizer/nop_removal.c:101-111 | and the entries of the exception table |
| NopsGone.BindingsAreMoved | Optimizer/nop_removal.c:113-123 | and the delayed declarations, in order, whatever stands outside the shift list |
| NopRemoval.BindingListMoved | Optimizer/nop_removal.c:113-123 | every delayed declaration stays on the list, in order, under its new number |
| NopRemoval.EarlyBindingMoved | Optimizer/nop_removal.c:5-126 | the whole pass leaves the early binding list with the same declarations in the same order, renumbered |
| Pass3.Pass3 | Optimizer/pass3.c:5-442 | the JMP, JMPZ, JMPNZ and JMPZNZ cases in place equal the specification Threaded |
| Pass3.ThreadSlot | Optimizer/pass3.c:10-25 | the threading loops, with the hit list as an array that is never written out of bounds |
| Pass3.Push | Optimizer/pass3.c:10-25 | the list holds distinct op numbers, so there is room |
| Pass3.ThreadedPreserves | Optimizer/pass3.c:134-405 | threading preserves every run, ending or not, of any code, also around cycles of jumps |
| Pass3.ThreadFollows | Optimizer/pass3.c:10-25 | threading follows a chain of jumps that are decided to its end if and only if the chain leads to no op that was on the hit list from before |
| Pass3.ThreadReachesEnd | Optimizer/pass3.c:134-232 | with an empty list it always reaches the end, through JMPs and, for a JMPZ or JMPNZ, through the same tests of its variable and past the opposite one |
| Pass3.TurnReachesEnd | Optimizer/pass3.c:134-232 | the turn of a JMP, JMPZ or JMPNZ: one to the next op disappears, any other at the head of a chain that ends is led to its end, and nothing else changes |
| Pass3.OneTurnEach | Optimizer/pass3.c:27-442 | every op has one turn, in order, and stays what it has become |
| Pass3.PastATest | Optimizer/pass3.c:214-219 | an instance in which a JMPZ is led past a JMPNZ on its variable |
| Pass3.ZnzReachesEnds | Optimizer/pass3.c:384-405 | a JMPZNZ: the first way reaches the end of its chain, the second exactly if its chain leads to no op that the first has led to |
| Pass3.SecondWayStays | Optimizer/pass3.c:384-405 | an instance in which the second way stays |
| Pass2.Pass2 | Optimizer/pass2.c:1-211 | the branch and BRK/CONT cases in place equal the specification Improved |
| Pass2.ResolveLoop | Optimizer/pass2.c:163-190 | the walk out of n loops |
| Pass2.ResolveExact | Optimizer/pass2.c:155-207 | BRK and CONT become a JMP exactly when the walk finds a loop and passes no FREE, and to exactly where it ends |
| Pass2.BreakResolved | Optimizer/pass2.c:155-207 | in the code after the pass, a BRK or CONT by a constant is the JMP to where the walk out of the original loops ends, or what it was if there are not so many loops or something would be freed |
| Pass2.NothingLeft | Optimizer/pass2.c:81-150 | after the pass no branch on a constant is left but JMPZ_EX and JMPNZ_EX that jump, and no JMPZ or JMPNZ before what was a JMP |
| Pass2.TakenIn | Optimizer/pass2.c:121-136 | a JMPZ or JMPNZ before a JMP: a NOP exactly if both led to the same op, else a JMPZNZ that leads where either led |
| Pass2.FoldExact | Optimizer/pass2.c:81-102 | folding JMPZ_EX or JMPNZ_EX on a constant is right as a step if and only if the constant is a boolean |
| Pass2.FoldChangesRun | Optimizer/pass2.c:81-102 | a run that changes otherwise |
| FoldedBranches.ImprovedPreserves | Optimizer/pass2.c:81-207 | pass 2 preserves every run if each folded constant is a boolean or its temporary is not live afterwards |
| FoldedBranches.ImprovedExact | Optimizer/pass2.c:81-207 | for breaks by constant levels: a run changes if and only if some op of it shows the value of a temporary that holds a folded constant in place of its truth value |
| FoldedBranches.AndIsFine | Optimizer/pass2.c:81-102 | `5 && f()` is folded rightly, though 5 is no boolean |
| AccelHash.SharedHash.constructor | zend_accelerator_hash.c:39-66 | an empty table whose size is the first prime that is large enough |
| AccelHash.SharedHash.Clean | zend_accelerator_hash.c:32-37 | empty again, same arrays |
| AccelHash.SharedHash.Lookup | zend_accelerator_hash.c:74-100 | the entry with the key, or none; the search ends since links go to lower slots |
| AccelHash.SharedHash.FindCell | zend_accelerator_hash.c:171-194 | the entry a key stands for |
| AccelHash.SharedHash.FindData | zend_accelerator_hash.c:143-166 | its data |
| AccelHash.SharedHash.Store | zend_accelerator_hash.c:74-137 | an update on the arrays equals its specification; as its callers see it: without room nothing happens; a direct entry is found under the key, and under every name of its cell; an indirect one makes the key a name of the cell that the entry stands for; other keys stay |
| AccelHash.StoreSeen | zend_accelerator_hash.c:74-137 | the same of the specification, by what can be looked up before and after |
| AccelHash.SharedHash.Overwrite | zend_accelerator_hash.c:98-113 | new contents for a key that exists |
| AccelHash.SharedHash.Append | zend_accelerator_hash.c:118-137 | a new entry at the front of its chain |
| AccelHash.SharedHash.Remove | zend_accelerator_hash.c:196-224 | an unlink on the arrays equals its specification |
| AccelHash.UpdateSeen | zend_accelerator_hash.c:74-137 | an update is seen through every key that leads to the same cell and by no other; it fails just when the key is new and the table full |
| AccelHash.AliasSeen | zend_accelerator_hash.c:98-137 | an indirect update makes the key a name of the cell; the table stays in order if and only if the key was not itself the target of aliases |
| AccelHash.UnlinkSeen | zend_accelerator_hash.c:196-224 | unlinking removes that key and nothing else |
| AccelHash.SharedHash.KeepFirst | ZendAccelerator.c:2113-2119 | the restart of the include_path table |
| AccelHash.CutFindsFirst | ZendAccelerator.c:2113-2119 | what is left is in order and finds exactly the first path |
| AccelHash.SharedHash.RegisterPath | ZendAccelerator.c:212-228 | the letter of a path, or none if the table is full |
| AccelHash.RegisterSeen | ZendAccelerator.c:212-228 | a path that was there keeps its letter, a new one is found under the next letter unless the table is full, and no other path is concerned |
| AccelHash.LettersDistinct | ZendAccelerator.c:212-228 | whatever was registered and however often the cache restarted, paths found with the same letter are the same |
| InternedStrings.Interner.NewInternedString | ZendAccelerator.c:308-379 | on the region's fields equals the specification Intern; a string in the region comes back as it is; for any other the address of the one node with its contents, new if there was none and there is room, and the caller's own pointer only if there is no room |
| InternedStrings.InternAnswers | ZendAccelerator.c:308-379 | the same of the specification: found, or inserted and found afterwards, or no room |
| InternedStrings.SameAnswer | ZendAccelerator.c:308-379 | a string that has been answered with an address in the region gets the same address from then on until a restore, from any pointer, whatever else is requested |
| InternedStrings.Interner.FindNode | ZendAccelerator.c:324-336 | the one bucket with this content |
| InternedStrings.Interner.SaveState | ZendAccelerator.c:295-305 | bucket heads, list ends and top |
| InternedStrings.Interner.RestoreState | ZendAccelerator.c:274-293 | on the fields equals the specification Restore |
| InternedStrings.InternUnique | ZendAccelerator.c:308-379 | equal contents give one address, and earlier ones stay |
| InternedStrings.RollBackExact | ZendAccelerator.c:274-305 | after any number of insertions a restore gives back exactly the snapshot: chains, list and lookups |
| InternedStrings.AddressStays | ZendAccelerator.c:308-379 | between restores an interned string keeps its address |
| SharedAlloc.SharedMemory.ZendSharedAlloc | zend_shared_alloc.c:287-324 | first fit on the segments equals its specification; NULL exactly if no segment has room, and memory_exhausted raised by a failed call exactly if none has 64 KB left |
| SharedAlloc.SharedMemory.GetLargestFreeBlock | zend_shared_alloc.c:273-285 | the largest free part of a segment |
| SharedAlloc.SharedMemory.SaveState | zend_shared_alloc.c:452-460 | positions and free count |
| SharedAlloc.SharedMemory.RestoreState | zend_shared_alloc.c:462-472 | gives them back |
| SharedAlloc.AllocSound | zend_shared_alloc.c:297-324 | a block is aligned, inside its segment, meets no live block and comes from the first segment with room, if and only if its size does not wrap around in an unsigned int |
| SharedAlloc.AllocExactly | zend_shared_alloc.c:287-324 | NULL exactly if no segment has room; a failed call changes nothing but memory_exhausted; any other takes the block from the first segment with room |
| SharedAlloc.LargestIs | zend_shared_alloc.c:273-285 | the largest free part is at least n exactly if some segment has room for n |
| SharedAlloc.RestoreExact | zend_shared_alloc.c:452-472 | restoring gives the saved state back if and only if every saved position fits an int |
| SharedAlloc.SizeWraps | zend_shared_alloc.c:297-324 | a size just below 4 GB: a block is handed out and nothing is taken for it |
| SharedAlloc.PositionWraps | zend_shared_alloc.c:452-472 | a saved position of 2 GB comes back beyond the end of its segment |
| SharedAlloc.RunSound | zend_shared_alloc.c:297-324 | through any allocations and restarts blocks stay aligned and disjoint, and the free count is exact |
| SharedAlloc.ChooseSize | shared_alloc_shm.c:54-85 | the largest size for which the system gives a segment |
| SharedAlloc.DivideSegments | shared_alloc_shm.c:88-124 | as many segments of the size as are needed, the last one with what is left, none empty; it fails exactly if the system gives fewer |
| SharedAlloc.CreateSegments | shared_alloc_shm.c:54-124 | it succeeds if and only if the system gives a first segment of some size, from the smallest that holds the request on down, and as many more as the largest such size makes necessary; the segments are of that size and add up to the request |
| PersistCalc.Sizer.AddDupSize | zend_shared_alloc.c:326-336 | ADD_DUP_SIZE counts an address once |
| PersistCalc.Sizer.HashSize | zend_persist_calc.c:51-94 | the walk over a hash table makes exactly the calls it is said to make |
| PersistCalc.Sizer.ZvalSize | zend_persist_calc.c:96-116 | a zval |
| PersistCalc.Sizer.ZvalPtrSize | zend_persist_calc.c:118-128 | a zval by pointer, once |
| PersistCalc.Sizer.OpArraySize | zend_persist_calc.c:130-221 | an op array |
| PersistCalc.Sizer.PropertySize | zend_persist_calc.c:223-231 | a property |
| PersistCalc.Sizer.ClassSize | zend_persist_calc.c:233-326 | a class |
| PersistCalc.Sizer.ScriptSize | zend_persist_calc.c:333-345 | the size reserved for a script is that of its calls |
| PersistSize.ScriptAgree | zend_persist.c:668-679 | the copying walk over a script makes the same calls as the sizing walk, but for keys interned before |
| PersistSize.CalcCounted | zend_persist_calc.c:29-47 | a sizing walk adds the aligned sizes of exactly the addresses it newly registers |
| PersistSize.PersistMoved | zend_shared_alloc.c:338-354 | a copying walk moves the cursor by the aligned sizes of exactly the blocks it newly copies |
| PersistSize.ScriptFits | ZendAccelerator.c:1169-1196 | what is reserved is what the copy takes plus the keys that were interned before; the pieces are aligned, disjoint and inside the reserved region |
| PersistSize.SizesEqualExactly | ZendAccelerator.c:1169-1196 | both are equal if and only if no key of a bucket in the script was interned before |
| PersistSize.OneNameDiffers | zend_persist_calc.c:29-47 | a script for which they differ |
| PersistParts.CopiedExactly | zend_persist.c:172-679 | an address is copied if and only if some field of the script, at any depth, refers to it as a block, or as a string that is not interned, whatever the calls of the walk; every string it refers to is interned or copied; comments that are not saved are entered and not copied |
| PersistParts.SizedExactly | zend_persist_calc.c:51-345 | and room is reserved for exactly these, besides keys that were interned before |
| PersistParts.VariableCopied | zend_persist.c:410-420 | a function with one variable: its name is copied with the rest |
| PersistTable.Persister.Reserve | zend_shared_alloc.c:338-354 | room at the cursor and an entry in the translation table |
| PersistTable.Persister.DupString | zend_shared_alloc.c:338-354 | a string is copied once |
| PersistTable.Persister.PersistZvalPtr | zend_persist.c:160-171 | a zval is stored once, with its string or array |
| PersistTable.Persister.PersistArray | zend_persist.c:152-156 | an array zval: its table is stored and persisted in turn |
| PersistTable.Persister.PersistData | zend_persist.c:81-94 | a bucket's data |
| PersistTable.Persister.UpdateNeighbours | zend_persist.c:96-108 | the neighbours lead to the copy |
| PersistTable.Persister.PersistBucket | zend_persist.c:64-115 | one turn of the loop |
| PersistTable.Persister.AimBuckets | zend_persist.c:117-138 | head, tail, internal pointer and bucket array |
| PersistTable.Persister.HashPersist | zend_persist.c:59-139 | zend_hash_persist, recursive through array zvals, equals its specification, follows no link to a freed bucket and leaves the table done |
| PersistLinks.ProgressStep | zend_persist.c:64-115 | after a turn every bucket of the table, moved or not, has links to where its neighbours are now |
| TablesMoved.MoveKeeps | zend_persist.c:64-115 | a turn keeps the whole invariant and touches no table but this one and those within it, also while tables around it are half moved |
| TablesMoved.PersistKeeps | zend_persist.c:59-171 | so does zend_hash_persist |
| TablesMoved.TableMoved | zend_persist.c:59-171 | every table at any depth is whole again: same order, links both ways, head, tail and bucket array, key and data translated, and none of its old buckets left |
| TablesMoved.SharingKept | zend_persist.c:141-171 | any two buckets at any depth share their data afterwards exactly if they did before; contents are kept |
| NestedExample.ArrayInArrayMoved | zend_persist.c:59-171 | an array in an array, for which all conditions hold |
| RestartSteps.Accelerator.ScheduleRestart | ZendAccelerator.c:2712-2733 | equals the specification Schedule |
| RestartSteps.Accelerator.ScheduleRestartIfNecessary | ZendAccelerator.c:187-192 | schedules when the wasted share reaches the limit |
| RestartSteps.Accelerator.MarkCorrupted | ZendAccelerator.c:1081-1092 | a script is charged once |
| RestartSteps.Accelerator.CacheScript | ZendAccelerator.c:1126-1239 | a script is stored under the lock |
| RestartSteps.Accelerator.AddKey | ZendAccelerator.c:1105-1124 | one more key for a script |
| RestartSteps.Accelerator.StartCompiling | ZendAccelerator.c:1459-1477 | the checks and the usage lock |
| RestartSteps.Accelerator.ReadLock | ZendAccelerator.c:2746-2764 | the read lock of other callers |
| RestartSteps.Accelerator.Activate | ZendAccelerator.c:2066-2108 | whether a restart begins |
| RestartSteps.Accelerator.ResetCache | ZendAccelerator.c:2056-2065 | what a restart resets of the account, and the arena |
| SharedRestart.SharedGlobals.ResetTables | ZendAccelerator.c:2109-2125 | afterwards no script is found, of the include paths only the first one, under its letter, and the interned strings are exactly those of the snapshot |
| RestartSteps.Accelerator.RestartLeave | ZendAccelerator.c:485-498 | the end of a restart |
| SharedRestart.SharedGlobals.WholeRestart | ZendAccelerator.c:2094-2134 | a request that restarts, from begin to end: the accelerator is on, the arena that of startup, the account empty, one counter up, no script found, of the include paths only the first, the interned strings those of the snapshot |
| Restart.RunKeeps | ZendAccelerator.c:2066-2134 | any interleaving of steps keeps the invariant |
| Restart.EveryRun | ZendAccelerator.c:2066-2134 | over all runs: no reset while another process uses the cache, a restart is pending exactly while the accelerator is off, the three counters and the pending one add up to the restarts scheduled, and the wasted memory is that of the scripts marked corrupted |
| Restart.RestartComes | ZendAccelerator.c:2094-2134 | from every state in order in which a restart is due, the processes can carry it out by coming to the end of what they do; nobody waits for ever |
| Restart.ReasonCounted | ZendAccelerator.c:2096-2106 | a restart scheduled for a reason while none is due or under way raises the counter of that reason by one when it begins, and not before, and no other counter, whatever the processes do until then |
| Restart.NecessaryAtLimit | ZendAccelerator.c:187-192 | a restart becomes necessary when the wasted share reaches the limit, and not below |
| Restart.ChargeSchedules | ZendAccelerator.c:1564-1578 | invalidating a script schedules a restart exactly if it was valid, memory was exhausted before and the limit is reached with it; under the reason that the hash is full, or else that memory is |
| Restart.StoreSchedules | ZendAccelerator.c:1141-1150 | storing a script schedules one exactly if there is no place in the hash, no memory, or no place for a second key, and the limit is reached; and it raises memory_exhausted |
| Restart.StoreKeySchedules | ZendAccelerator.c:1105-1124 | so does storing one more key |
| Restart.StoredIsFound | ZendAccelerator.c:1126-1239 | what one process stores another one finds, in a live block of the size asked for |
| Restart.KeyIsStored | ZendAccelerator.c:1105-1124 | one more key takes a block exactly if there is a place in the hash and memory for it |
| Restart.BeginsExactly | ZendAccelerator.c:2088-2108 | a restart that is due begins at a request if and only if nobody else is compiling or has the usage lock and no other is under way |
| Restart.DeathLeavesNothing | ZendAccelerator.c:610-640 | a process that dies outside a restart takes its locks and pointers with it |
| Restart.ReadLockExact | ZendAccelerator.c:2746-2764 | the read lock is got exactly if no restart is in progress when the flag is looked at |
| Restart.RequestsAct | ZendAccelerator.c:1081-1092 | a script in hand is invalidated, and a reset is scheduled exactly while the accelerator is on |
| Restart.ScheduleKeeps | ZendAccelerator.c:2712-2733 | scheduling is safe exactly outside the last part of a restart |
| Restart.CompileKeeps | ZendAccelerator.c:1459-1477 | taking the usage lock is safe exactly when no restart is in progress at that instant |
| Restart.EnterKeeps | ZendAccelerator.c:2094-2108 | beginning a restart is safe exactly when nobody uses the cache at that instant |
| Restart.PointersLive | ZendAccelerator.c:1126-1239 | a script pointer a process still has leads to a live block of its own |
| Restart.ChargedOnce | ZendAccelerator.c:1081-1092 | whoever invalidates first charges, and nobody after |
| Restart.RestartComplete | ZendAccelerator.c:2094-2134 | after a restart the arena and the account are as at startup, no script is charged or cached, the prior status is back and one counter has gone up |
| Restart.ScheduledTooLate | ZendAccelerator.c:2712-2733 | a restart scheduled from a check made before another restart began |
| Restart.DeadForEver | ZendAccelerator.c:2712-2733 | then the accelerator stays off for ever |
| Restart.NeverDead | ZendAccelerator.c:2712-2733 | and otherwise never |
| Adler32.ZendAdler32 | zend_accelerator_util_funcs.c:1037-1075 | the unrolled loops compute the checksum, with no sum reaching 2^32 |
| Adler32.NeverWraps | zend_accelerator_util_funcs.c:1027-1052 | 5552 bytes can be summed between remainders |
| Adler32.ChecksumBytewise | zend_accelerator_util_funcs.c:1001-1075 | deferring remainders makes no difference: the result is the Adler-32 of section 8.2 of RFC 1950 |
| Adler32.ChecksumAppend | zend_accelerator_util_funcs.c:1037-1075 | checksumming one part after the other is checksumming the whole |

## Left out

- ControlFlow.ZendBlockOptimization: the call of `zend_optimize_block` in each round is only its `strip_nop`; constant folding, string merging and the forwarding of BOOL_NOT and QM_ASSIGN rest on Zend's operators and on facts about the compiler's output. Exception tables, loop and catch roots and the early binding list in assembly are not part of the whole-pass theorem.
- CallExact: for JMP, JMPZ, JMPNZ and JMPZNZ; JMPZ_EX and JMPNZ_EX and the rewriting of JMPZ into JMPZ_EX in the block pass are not modelled, nor is the reordering of blocks that the original disables. What a call does after its own block has been joined away is not followed.
- ThreadBranch: the rewriting of JMPZ into JMPZ_EX is left out, as above.
- OptimizeJump: EXIT as a target is not modelled, nor the reordering of blocks that the original disables.
- GluePreserves: for code that ends in RETURN, as the compiler leaves it.
- SplitPreserves: for code that ends in RETURN, as the compiler leaves it.
- AssembleCodeBlocks: the exception table, the loop table and the early binding list are not renumbered.
- JmpOptimizePreserves: each block has its own sequence of ops, not a slice of one array.
- ThreadedPreserves: pass 3's arithmetic fusion, JMP_SET, JMPZ_EX and post-increment cases are not modelled.
- ImprovedExact: for code whose breaks are by a number of levels that does not depend on a temporary.
- Pass2.Pass2: number and string conversions of constants are not modelled.
- PackedPreserves: OP_DATA, FE_FETCH, NEW and class-valued operands have no temporaries of their own kind.
- NopRemovalPreserves: `finally` targets are not modelled.
- ScriptFits: traits and, in the copying walk, patching of class handlers are left out; a block counted without looking is one address.
- HashPersist: what outside blocks contain, such as op arrays and classes in function and class tables, is not descended into here; sizes of it are in `PersistSize`. The data pointer of a bucket is set after what it points to has been persisted, not before; nothing in between reads it.
- TableMoved: arrays that contain themselves are not modelled; the compiler makes none.
- RestoreState: nNumOfElements of the interned table, which the original does not restore, is not part of the model.
- EveryRun: a process may die at any point outside a restart, with or without the usage lock, which goes with it (`Step.Die`); one that dies in the middle of a restart, the timeout after which lock holders are killed, and the width of the counters of wasted memory and restarts are not modelled.
- ZendAdler32: bytes 128 to 255, which the original reads as negative numbers.
- CreateSegments: the system's answers are parameters; failure of calloc and of shmat is one of them.
- RegisterPath: failure to allocate the key is not modelled.
- ClassSize: trait aliases and precedences are left out, in both walks.
- ScriptSize: the width of memory_used is not modelled.
- ScheduleRestart: the time at which lock holders are killed is not modelled.
- CacheScript: whether the hash is full is a parameter, and the script is a new one.
- AddKey: whether the hash is full is a parameter, and the key is a new one.
- RestartComplete: the state has no tables; those are in `WholeRestart`.
- File and stream access, timestamps, path resolution, memory protection, fcntl and mmap calls, logging, ini handling, the functions offered to PHP, fast shutdown, copying classes and functions into a process, and the blacklist.
