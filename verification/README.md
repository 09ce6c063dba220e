# Cbenchsuite, verified models

Dafny models of the parts of the benchmark suite in which most can go wrong, and proofs of
what these parts are for. `dafny verify dfyconfig.toml` checks everything.

- **LINPACK** (`LinearSystem`, `Factorisation`, `ColumnMajor`, `Kernels`, `ColumnKernels`,
  `Linpack`): Gaussian elimination with partial pivoting on a flat column-major array, and
  the solver that replays it on the right hand side, over exact reals. The main result is
  `Linpack.FactorAndSolve`.
- **SHA-256** (`Fips180`, `Sha256Words`, `Sha256Block`, `Sha256`, `Sha256Constants`): the
  streaming code, whose words are 64 bits wide with arbitrary upper halves, against
  FIPS 180-4. The main results are `Sha256Block.Process` and `Sha256.Hash`.
- **Plugin execution** (`CyclicBarrier`, `RunData`, `Protocol`, `ProtocolSync`,
  `ProtocolData`, `ProtocolSchedule`, `ProtocolTraces`, `ProtocolProgress`,
  `ProtocolStorage`, `ProtocolLoop`): one controller, n workers and a monitor thread as a
  step relation over program counters; every access to shared state is a step of its own,
  and a run is any interleaving. What is called, produced, stored and decided is stated
  over the recorded run: `ProtocolTraces.FunctionsCalledInTurn`,
  `ProtocolStorage.MeasurementsAreStored` and `ProtocolLoop.LoopEndsExactlyWhen`.
- **Linked lists and plugin data** (`KList`, `PluginLists`): `list.h` on nodes with `next`
  and `prev`, and the persisting and dropping of data on such lists, tied to the ledger of
  `RunData`.
- **Parameter trees** (`ParamTree`, `TreeSwap`, `TreeSquash`, `TreeLevels`,
  `TreeAutosquash`, `TreeRemove`, `TreeProperties`, `DiffTrees`): what a tree holds is a map
  from assignments of values to names to result combos. Restructuring is first described on
  values and proved to keep this map; the class `DiffTree` does the same in place on linked
  nodes and is proved against the values.
- **Statistics** (`ContinuedFraction`, `IncompleteBeta`, `Statistics`, `Bisection`): the
  continued fraction of the incomplete beta function, which for natural q is proved to be
  that function, and root finding, over exact reals.
- **Run combinations, options, versions** (`RunCombo`, `RunOptions`, `Versions`): the
  command line grammar cut in place out of a character buffer, the option iterator and
  parser, and the version comparison.

## What turned out not to hold

- `info` of the factorisation does not report a zero pivot in column 0: `info == 0` means
  nonsingular exactly when the first column of the matrix is not zero
  (`Factorisation.InfoDecides`, `InfoMissesColumnZero`).
- The benchmark matrix is singular for sizes that the program accepts, because its
  generator repeats itself after 16384 draws; at n = 256 (option `arraysize=512`) columns 0
  and 64 are equal (`Linpack.RepeatedColumns`, `Size256IsSingular`).
- `squash_names` with a name that occurs nowhere can lose every leaf or raise an
  IndexError (`TreeSquash.SquashExactly`, `SquashLosesLeaf`, `SquashRaisesIndexError`).
- `autosquash` raises an IndexError exactly for an empty list of bounds
  (`TreeAutosquash.AutosquashKeepsMeaning`), and a lowest level that exceeds its bound by
  itself uses that bound up (`TreeAutosquash.Skipped`).
- Swapping or joining levels changes the properties under which plots are drawn, since the
  properties of all children are mixed (`TreeProperties.SwapKeepsInheritedExactly`,
  `MergeKeepsInheritedExactly`, `SwapMixesLabels`).
- A nameless link without options at the end of a run combination is lost
  (`RunCombo.ComboRoundTrip`, `EmptyLinkLost`).
- The carry of the byte counter is exact only while the low word and the length of one
  piece stay below 2^33 together (`Sha256.CarryIsExact`, `CarryMissed`).
- The documentation of identifiers says that version segments which are not numbers are
  compared alphabetically. The code compares their lengths first
  (`src/core/version.c:66-69`), and so does the model; `Versions.TextIsAlphabetical` and
  `ComparesAsDocumented` say when that is the same, `ShorterComesFirst` when it is not.
- Rules about component versions skip the component they name and are checked against the
  others, because the result of strncmp is used the wrong way round
  (`src/core/version.c:165-167`); `Versions.ComponentRulesWorkExactly` says when that makes
  no difference, and `WronglyPassed` and `WronglyRefused` are the two ways it does.
- A version rule without an operator makes `version_matching` read an unset pointer
  (`Versions.OutcomeKnown`).
- `create_version_rules` puts NULL one entry too far and leaves the one in between unset
  (`src/core/cbench.c:196-200`, `RunCombo.CreateVersionRules`). A version that satisfies all
  rules of a link is therefore never accepted without reading that entry
  (`Versions.CreatedNeverAccept`, `EqualVersionNotAccepted`).

## Model

| member | source | states |
|---|---|---|
| `Kernels.DaxpyRolled` | modules/math/linpacknew.c:544-576 | adds `da` times the stretch of `dx` to the stretch of `dy` in place, also within one array as long as the stretches are apart; does nothing for `n <= 0` or `da == 0` |
| `Kernels.DaxpyUnrolled` | modules/math/linpacknew.c:656-701 | the kernel unrolled by four leaves exactly what the rolled one leaves, by one shared specification |
| `Kernels.DscalRolled` | modules/math/linpacknew.c:626-647 | multiplies a stretch by `da` in place and nothing else |
| `Kernels.DscalUnrolled` | modules/math/linpacknew.c:763-799 | the kernel unrolled by five leaves exactly what the rolled one leaves |
| `Kernels.Idamax` | modules/math/linpacknew.c:806-849 | the first position of largest magnitude, -1 for an empty stretch |
| `Factorisation.PivotRowIsPivot` | modules/math/linpacknew.c:244-247 | the pivot row exists, lies in the active part and is the first one of largest magnitude |
| `Factorisation.PivotIsUnique` | modules/math/linpacknew.c:806-849 | no other row meets that description |
| `Factorisation.StepIsEliminateAll` | modules/math/linpacknew.c:252-283 | one elimination step is one invertible row operation applied to all columns at once, a zero pivot included; the columns already finished are left alone |
| `Factorisation.StageKeepsSolutions` | modules/math/linpacknew.c:240-284 | after any number of steps a vector solves the original system exactly when it solves the reduced one |
| `Factorisation.ForwardIsReplay` | modules/math/linpacknew.c:420-433 | replaying the recorded interchanges and multipliers afterwards, from an array in which earlier multiplier columns were never interchanged, gives what applying each step at once would have given |
| `Factorisation.FactoredKeepsSolutions` | modules/math/linpacknew.c:227-288 | the original system and the triangular one with the replayed right hand side have the same solutions |
| `LinearSystem.EliminateKeepsSolutions` | modules/math/linpacknew.c:255-280 | interchange and elimination lose no solution and add none |
| `LinearSystem.SolvesByColumns` | modules/math/linpacknew.c:436-442 | the row reading and the column reading of a linear system agree |
| `LinearSystem.BackSolveCorrect` | modules/math/linpacknew.c:436-442 | back substitution by columns finds the one solution of a triangular system |
| `LinearSystem.TriangularUniqueSolution` | modules/math/linpacknew.c:436-442 | with a nonzero diagonal a triangular system has exactly one solution |
| `LinearSystem.TriangularNonSingular` | modules/math/linpacknew.c:436-442 | a triangle is nonsingular if and only if no diagonal entry is zero |
| `Factorisation.SolvesOriginal` | modules/math/linpacknew.c:407-444 | with a nonzero stored diagonal the result of replay and back substitution is the unique solution of the original system |
| `Factorisation.DiagonalDecides` | modules/math/linpacknew.c:227-288 | the stored diagonal is free of zeros if and only if the original matrix is nonsingular |
| `Factorisation.InfoMeaning` | modules/math/linpacknew.c:237-287 | `info` is 0 exactly when no diagonal entry but perhaps the first is zero, and otherwise the last zero column |
| `Factorisation.InfoDecides` | modules/math/linpacknew.c:283-287 | `info != 0` means that the matrix is singular, and `info == 0` that it is nonsingular if and only if its first column is not zero |
| `Factorisation.InfoMissesColumnZero` | modules/math/linpacknew.c:283 | a singular matrix on which `info` stays 0 |
| `Factorisation.PivotingBoundsGrowth` | modules/math/linpacknew.c:240-284 | after k steps multipliers are at most 1 in magnitude and every entry of the finished triangle and of the active block is at most 2^k times the largest original magnitude |
| `Linpack.DgefaPass` | modules/math/linpacknew.c:240-284 | one pass of the outer loop on the flat array is one step on its columns; unused array positions stay as they were |
| `Linpack.Dgefa` | modules/math/linpacknew.c:227-343 | the whole factorisation in place, with `ipvt` and `info`, for either kind of kernels |
| `Linpack.SolveLower` | modules/math/linpacknew.c:421-432 | the first half of the solver replays the recorded steps on `b` |
| `Linpack.SolveUpper` | modules/math/linpacknew.c:436-442 | the second half substitutes backwards |
| `Linpack.Dgesl` | modules/math/linpacknew.c:407-444 | job 0: `b` ends as back substitution of the replayed right hand side |
| `Linpack.FactorAndSolve` | modules/math/linpacknew.c:227-444 | for every nonsingular system `b` ends as its one solution and `info` as 0, with rolled and unrolled kernels alike |
| `Linpack.Matgen` | modules/math/linpacknew.c:154-173 | generates the benchmark matrix from the congruential generator, `b` as its row sums, so that the all-ones vector is a solution, and `norma` as the largest entry |
| `LinearSystem.EqualColumnsSingular` | modules/math/linpacknew.c:436-442 | a matrix with two equal columns is singular |
| `Linpack.DrawPeriod` | modules/math/linpacknew.c:162-168 | the generator repeats itself after 16384 draws |
| `Linpack.RepeatedColumns` | modules/math/linpacknew.c:154-168 | for 0 < d < n with n * d a multiple of 16384 column d of the benchmark matrix repeats column 0, so that the matrix is singular |
| `Linpack.Size256IsSingular` | modules/math/linpacknew.c:154-168 | n = 256 is such a size |
| `Linpack.Size5IsNonSingular` | modules/math/linpacknew.c:154-168 | for n = 5, the smallest size the program accepts, the benchmark matrix is nonsingular |
| `Linpack.Repetition` | modules/math/linpacknew.c:109-133 | generate, factor, solve: whenever the generated matrix is nonsingular `b` ends as all ones, for both kinds of kernels |
| `Sha256Words.LowOfAdd` | libs/sha256-gpl/sha256.c:56-185 | 64-bit addition agrees with addition modulo 2^32 on the low halves, whatever the high halves hold |
| `Sha256Words.LowOfMaj` | libs/sha256-gpl/sha256.c:87 | the rewritten majority is the standard one |
| `Sha256Words.LowOfCh` | libs/sha256-gpl/sha256.c:88 | the rewritten choice is the standard one |
| `Sha256Words.LowOfSmallSigma0` | libs/sha256-gpl/sha256.c:78-81 | rotations of unmasked 64-bit words agree with 32-bit rotations on the low halves |
| `Sha256Words.LowOfSmallSigma1` | libs/sha256-gpl/sha256.c:82 | the same for the second schedule function |
| `Sha256Words.LowOfBigSigma0` | libs/sha256-gpl/sha256.c:84 | the same for the first round function |
| `Sha256Words.LowOfBigSigma1` | libs/sha256-gpl/sha256.c:85 | the same for the second round function |
| `Sha256Words.LowOfRound` | libs/sha256-gpl/sha256.c:96-101 | one round macro followed by the rotation of register roles is one round of FIPS 180-4 section 6.2.2 on the low halves |
| `Sha256Words.LowOfNextWord` | libs/sha256-gpl/sha256.c:90-94 | the inline schedule macro computes the standard schedule word |
| `Sha256Words.LowOfGet` | libs/sha256-gpl/sha256.c:25-31 | bytes are read most significant first |
| `Sha256Words.LowOfPut` | libs/sha256-gpl/sha256.c:33-39 | and written the same way, from the low half alone |
| `Sha256Block.EightRounds` | libs/sha256-gpl/sha256.c:110-175 | eight macro calls with rotated register names are eight standard rounds |
| `Sha256Block.Process` | libs/sha256-gpl/sha256.c:56-185 | with arbitrary high halves, one block moves the low halves of the eight state words exactly as the compression function |
| `Sha256.CarryIsExact` | libs/sha256-gpl/sha256.c:196-200 | comparing the wrapped word with the length finds the carry if and only if the low count and the length together stay below 2^33 |
| `Sha256.CarryMissed` | libs/sha256-gpl/sha256.c:196-200 | 2^33 bytes from an empty context give one carry where two are due |
| `Sha256.LengthFieldIsStandard` | libs/sha256-gpl/sha256.c:240-245 | the length field built from the two counter words is the bit count as a 64-bit big-endian number |
| `Sha256.OrOfDisjoint` | libs/sha256-gpl/sha256.c:240-241 | or-ing the two parts of the length adds them |
| `Sha256.PaddingParts` | libs/sha256-gpl/sha256.c:247-251 | the padding cut from the table and the length field are the padding of FIPS 180-4 section 5.1.1 |
| `Fips180.ZeroBytesIsLeast` | libs/sha256-gpl/sha256.c:248 | the number of zero bytes is the least one that leaves room for the length |
| `Fips180.BlocksOfPrefix` | libs/sha256-gpl/sha256.c:213-218 | blocks of a prefix do not depend on what follows |
| `Sha256.Context.Starts` | libs/sha256-gpl/sha256.c:41-54 | the initial hash value and an empty count |
| `Sha256.Context.Update` | libs/sha256-gpl/sha256.c:187-225 | the state stays the fold over the full blocks, the buffer holds the unprocessed tail and the counter the byte count, for every message so far and every piece |
| `Sha256.Context.Finish` | libs/sha256-gpl/sha256.c:234-261 | the digest of everything that was fed in |
| `Sha256.Hash` | libs/sha256-gpl/sha256.c:41-261 | however a message is cut into pieces, the digest is that of the whole message |
| `Sha256Constants.RoundConstants` | libs/sha256-gpl/sha256.c:112-175 | the 64 constants in the code are the first 32 bits of the fractional parts of the cube roots of the primes in the table |
| `Sha256Constants.FirstPrimes` | libs/sha256-gpl/sha256.c:112-175 | the table of primes holds exactly the primes up to 311 |
| `Sha256Constants.PrimesAscend` | libs/sha256-gpl/sha256.c:112-175 | in ascending order, so that they are the first 64 |
| `Sha256Constants.InitialHashValue` | libs/sha256-gpl/sha256.c:46-53 | the eight initial words are those of the square roots of the first eight primes |
| `CyclicBarrier.ArriveHolds` | src/core/plugin.c:251-258 | an arrival keeps the barrier invariant: every party is in the current generation or was just released into it |
| `CyclicBarrier.SomeoneCanMove` | src/core/plugin.c:251-258 | while nobody has left, some party is outside the wait or may leave it |
| `ProtocolSync.StepKeepsSync` | src/core/plugin.c:281-314 | every step of every thread keeps the threads aligned to the same 26 barriers |
| `ProtocolSync.ReachableSync` | src/core/plugin.c:435-465 | so does every run, for every number of plugins |
| `ProtocolSync.ThreadsInLockstep` | src/core/plugin.c:881-1002 | two threads are never more than one barrier apart, and the one behind has been released |
| `ProtocolSync.NoSlotStartsEarly` | src/core/plugin.c:584-608 | while a worker executes a slot function every plugin has finished all earlier slots |
| `ProtocolSync.LoopTestAgrees` | src/core/plugin.c:452-465 | all threads take the same decision about iterating again, although the controller may already have overwritten the state |
| `ProtocolSync.NoDeadlock` | src/core/plugin.c:435-465 | in every reachable state that has not finished some step is enabled, whatever the functions and the storage return and the clock shows |
| `ProtocolProgress.GenerationIsFinite` | src/core/plugin.c:281-314 | in the course of one segment, in any interleaving, the n workers and the controller take at most (n + 1) * (n + 7) steps between them |
| `ProtocolSync.FunctionsMayProduce` | src/core/plugin.c:512-518 | while a slot or monitor function of a plugin is being executed it may produce data of any kind |
| `ProtocolTraces.ReachedByTrace` | src/core/plugin.c:881-1002 | every reachable state ends a run whose states are all recorded, which is what the following members speak about |
| `ProtocolTraces.FunctionsCalledInTurn` | src/core/plugin.c:284-297 | the calls of a plugin are, in order and once each, those of the slots its worker has entered or finished, for which it has a function and which do not come after the first one that failed |
| `ProtocolTraces.CalledOncePerIteration` | src/core/plugin.c:435-450 | when the execution has finished every function of a plugin has been called exactly once in every iteration, unless one of this plugin had failed before |
| `ProtocolTraces.MonitorCallsInRounds` | src/core/plugin.c:735-742 | the monitor thread calls the monitor functions in rounds, each plugin that has one in order and once per round |
| `ProtocolTraces.MadeIsProduced` | src/core/plugin.c:512-518 | the history of a plugin that the other results speak about holds what its functions produced, each item with its kind and marked as warm exactly in the first max(0, warmup_runs) iterations |
| `ProtocolData.ControllerHasDataAlone` | src/core/plugin.c:594-607 | while the controller persists or drops data no slot function and no monitor call runs |
| `ProtocolData.StepKeepsData` | src/core/plugin.c:512-608 | every step keeps the ledger of every plugin |
| `ProtocolData.ReachableData` | src/core/plugin.c:512-608 | so does every run |
| `ProtocolData.EveryItemReleasedOnce` | src/core/plugin.c:1004-1014 | when the execution has finished every item ever produced has been freed exactly once |
| `ProtocolData.StoredOnceAndMeasured` | src/core/plugin.c:520-582 | at any time no item has been stored or freed twice and no warm-up item has been stored |
| `ProtocolData.ResultsKeptInOrder` | src/core/plugin.c:573-580 | the results kept for the error check are the measured results in production order, none left out while all is well |
| `ProtocolSchedule.WarmupComesFirst` | src/core/plugin.c:890-899 | in every reachable state between the start of an iteration and its decision the run state is Warmup exactly in the first max(0, warmup_runs) iterations, and the run counter counts from 0 in each kind |
| `ProtocolSchedule.FunctionsSeeWarmup` | src/core/plugin.c:890-899 | so every slot function that a worker executes sees the right state and counter |
| `ProtocolSchedule.ChecksAreScheduleIndependent` | src/core/plugin.c:452-463 | the state after the checks says "not reached" if and only if at least one check fails, in every interleaving |
| `ProtocolLoop.LoopEndsExactlyWhen` | src/core/plugin.c:965-1002 | at the loop test the state says stop if and only if something went wrong or, with the clock as the controller read it last and the number of measured iterations completed, the minimum time is over and either the maximum time is exceeded or enough runs were made and the maximum number or every check on all measured results is reached |
| `ProtocolLoop.ErrorMeansWentWrong` | src/core/plugin.c:564-567 | an error is on record if and only if some function of a plugin failed or storage failed that was given monitor or result data of a measured iteration |
| `ProtocolLoop.ErrorEndsLoop` | src/core/plugin.c:965-968 | after an error no thread gets past the next loop test, which says stop |
| `ProtocolLoop.EveryReadingPossible` | src/core/plugin.c:973-974 | the controller may read any time that is not before its last reading |
| `ProtocolLoop.LeavesOnlyWhenItEnds` | src/core/plugin.c:881-1009 | so when the controller has left the loop, and when the execution has finished, this holds for the iterations made |
| `ProtocolSchedule.MeasuredRunsBounded` | src/core/plugin.c:974-992 | if the clock advances a second per measured run and the minimum is at most the maximum runtime, at most max_runtime + 1 measured runs are made |
| `ProtocolStorage.MeasurementsAreStored` | src/core/plugin.c:535-582 | what storage has got from a plugin is, in order, the monitor and result data its functions produced in measured iterations: always a prefix, and all of it, with nothing of these kinds left waiting, whenever the controller has persisted it and at the end, as long as there is no error |
| `ProtocolStorage.NothingStoredFromFailure` | src/core/plugin.c:292-296 | nothing produced in or after the slot in which a function first failed reaches storage |
| `RunData.PersistConserves` | src/core/plugin.c:535-582 | persisting loses nothing, frees nothing twice and hands nothing to storage twice |
| `RunData.DropConserves` | src/core/plugin.c:520-533 | nor does dropping |
| `RunData.PersistHandsOver` | src/core/plugin.c:552-580 | persisting in a measured run without an error gives storage every monitor and every result item that waits, in order, and leaves exactly the others |
| `RunData.PersistOrder` | src/core/plugin.c:571-580 | kept results stay in production order |
| `RunData.ReleasedExactlyOnce` | src/core/plugin.c:1012-1014 | with both lists empty everything has been freed exactly once |
| `PluginLists.Plugin.AddData` | src/core/plugin.c:512-518 | an item goes to the end of the linked run data list |
| `PluginLists.Plugin.DropData` | src/core/plugin.c:520-533 | both linked lists are emptied and their items freed in order |
| `PluginLists.Plugin.PersistData` | src/core/plugin.c:535-582 | sorting, storing and settling on real linked lists: without an error storage gets every monitor and result item that waits in a measured run, in order, the others stay, and the results are kept; the error flag is raised if and only if such an item waits and storage fails |
| `KList.AddBetween` | libs/klib/include/klib/list.h:48-56 | the entry goes between two neighbours, all links stay mutually inverse |
| `KList.Add` | libs/klib/include/klib/list.h:71-74 | insertion at the front |
| `KList.AddTail` | libs/klib/include/klib/list.h:85-88 | insertion at the end |
| `KList.Del` | libs/klib/include/klib/list.h:97-120 | removal of any entry, whose pointers are poisoned |
| `KList.DelInit` | libs/klib/include/klib/list.h:153-157 | removal that leaves the entry an empty list |
| `KList.Move` | libs/klib/include/klib/list.h:164-168 | from anywhere in one list to the front of another, or of the same |
| `KList.MoveTail` | libs/klib/include/klib/list.h:175-180 | the same to the end |
| `KList.RotateLeft` | libs/klib/include/klib/list.h:225-233 | the first entry goes to the end |
| `KList.IsSingular` | libs/klib/include/klib/list.h:239-242 | true exactly for one entry |
| `KList.CutPosition` | libs/klib/include/klib/list.h:244-282 | splits after an entry; on an empty list the new list is not even initialised |
| `KList.SpliceBetween` | libs/klib/include/klib/list.h:284-296 | all entries of one list go between two neighbours of another |
| `KList.Splice` | libs/klib/include/klib/list.h:303-308 | concatenation at the front |
| `KList.SpliceTail` | libs/klib/include/klib/list.h:315-320 | concatenation at the end |
| `KList.SpliceInit` | libs/klib/include/klib/list.h:329-336 | concatenation at the front, the source list ends empty |
| `KList.SpliceTailInit` | libs/klib/include/klib/list.h:346-353 | concatenation at the end, the source list ends empty |
| `KList.TraverseSafely` | libs/klib/include/klib/list.h:503-507 | the safe traversal visits every original entry exactly once, in order, while its body deletes entries or moves them to another list |
| `KList.LeftNext` | libs/klib/include/klib/list.h:503-507 | what is still ahead of the traversal is linked as it was in the full list |
| `ParamTree.FindInPut` | plotter.py:249-262 | after adding an edge its values lead to the new subtree and all others where they led |
| `ParamTree.PutDistinct` | plotter.py:249-262 | adding an edge keeps sibling edges distinct |
| `TreeSwap.PairAfterOuter` | plotter.py:355-370 | swapping transposes the two levels: v then m leads where m then v led |
| `TreeSwap.SwapKeepsMeaning` | plotter.py:355-370 | on a uniform tree the first two levels change places, the tree stays uniform, and every assignment of values to names leads to the same results |
| `TreeSquash.PullKeepsMeaning` | plotter.py:371-385 | the name is found if and only if it occurs; its level comes to the top and no result changes; otherwise nothing changes |
| `TreeSquash.MergeKeepsMeaning` | plotter.py:304-311 | joining a level with the one below keeps the tree uniform with distinct edges and changes no result |
| `TreeSquash.SquashKeepsMeaning` | plotter.py:289-311 | squashing joins the levels as computed on the level names alone and changes no result, as long as the levels do not run out |
| `TreeSquash.SquashExactly` | plotter.py:289-311 | squashing returns a tree with the same results if and only if the levels do not run out |
| `TreeSquash.AllOccurSuffices` | plotter.py:289-311 | if all squashed names occur the levels never run out |
| `TreeSquash.SquashGathers` | plotter.py:301-311 | if all squashed names occur, one level of the result carries all of them |
| `TreeSquash.SquashRaisesIndexError` | plotter.py:289-311 | the same tree raises the IndexError when squashed with two absent names |
| `TreeSquash.SquashLosesLeaf` | plotter.py:289-311 | a tree that loses its only leaf when squashed with an absent name |
| `TreeLevels.LevelValuesMean` | plotter.py:386-392 | the tuples collected from the nodes of a level are exactly what assignments with a result say about its names |
| `TreeLevels.SameLevelValues` | plotter.py:386-392 | so trees with the same results have the same tuples on equally named levels |
| `TreeAutosquash.RunJoins` | plotter.py:341-347 | squashing with the first names of neighbouring levels, in either order, joins exactly these levels |
| `TreeAutosquash.AutosquashKeepsMeaning` | plotter.py:312-347 | fails only for an empty list of bounds; otherwise no result changes, and neighbouring levels are joined in runs that obey the bounds in order from the bottom and are as long as these allow |
| `TreeAutosquash.JoinedLevelSize` | plotter.py:338-340 | a joined level has at most as many tuples as its parts have combinations |
| `TreeAutosquash.StaysWithinBounds` | plotter.py:334-340 | two or more levels are never joined into one with more tuples than their entry of `max_levels` |
| `TreeRemove.RemovedLevel` | plotter.py:458-469 | removing a level with a single tuple keeps the tree uniform, and assignments lead where they led exactly if they agree with that tuple |
| `TreeRemove.RemovingShrinks` | plotter.py:458-469 | removing a name that stands somewhere makes any tree smaller, which is why the loop ends |
| `TreeRemove.RemoveSinglesMeans` | plotter.py:470-493 | exactly the levels with a single tuple are gone, none is left with one, and an assignment joined with the returned values leads in the old tree where it leads in the new one |
| `TreeProperties.SwapKeepsInheritedExactly` | plotter.py:355-370 | swapping keeps the properties that subtrees inherit from the two levels if and only if no child overrides a property of the node and all children agree on the others |
| `TreeProperties.SwapMixesLabels` | plotter.py:355-370 | two data columns with different axis labels, the first of which is drawn with the label of the second after the swap |
| `TreeProperties.MergeKeepsInheritedExactly` | plotter.py:304-311 | joining a level with the one below keeps the inherited properties if and only if all children show the same ones under the node |
| `TreeProperties.RemoveKeepsInherited` | plotter.py:458-469 | a node that gives way to its only child passes on what both together showed |
| `TreeProperties.GatheredHas` | plotter.py:357-360 | the gathered properties are those of the children, each with the value of some child |
| `DiffTrees.AddEdge` | plotter.py:249-262 | finds the first edge with the given values or appends one with a new node |
| `DiffTrees.DiffTree.GetNodesLevel` | plotter.py:386-392 | the nodes of a level, in order |
| `DiffTrees.DiffTree.SwapWithNext` | plotter.py:355-370 | the in-place exchange of linked nodes leaves the tree that the value function gives, properties included, with no node shared between subtrees |
| `DiffTrees.DiffTree.PullNameHere` | plotter.py:371-385 | the same for pulling a name up, including the result and the early end at the first child without it |
| `DiffTrees.DiffTree.SquashNames` | plotter.py:289-311 | the same for squashing; false stands for the IndexError |
| `DiffTrees.DiffTree.AutosquashHere` | plotter.py:312-347 | the same for autosquash, which also leaves the list of bounds reversed |
| `DiffTrees.DiffTree.RemoveNameHere` | plotter.py:458-469 | the same for removing a name |
| `DiffTrees.DiffTree.RemoveSinglevalChilds` | plotter.py:470-493 | the same for removing single-valued levels, with the values and properties returned |
| `ContinuedFraction.ConvergentIsNested` | statistics.py:31-71 | a convergent is the continued fraction cut at that depth and evaluated from the inside |
| `IncompleteBeta.Contiguous` | statistics.py:49-62 | the contiguous relation between hypergeometric coefficients from which the coefficients of the fraction come |
| `IncompleteBeta.StageStep` | statistics.py:52-62 | with the coefficients of the code and a natural q every remainder of the fraction is a polynomial known in closed form |
| `IncompleteBeta.ClosedForm` | statistics.py:31-71 | for a natural q the convergent with 2q - 1 coefficients has the finite sum of the incomplete beta function as numerator and (1-x)^q as denominator |
| `IncompleteBeta.FractionIsIncompleteBeta` | statistics.py:31-71 | so has the value of every later convergent, for x other than 1 |
| `Statistics.StepIsConvergent` | statistics.py:49-66 | one more coefficient leads `h`, `c` and `frac` from one convergent of the three-term recurrences to the next, as long as no guard fires |
| `Statistics.GuardMovesLittle` | statistics.py:41-58 | a guard that fires moves the value up to the threshold, by less than twice the threshold, and otherwise leaves it alone |
| `Statistics.BetaFraction` | statistics.py:31-71 | if no guard fires up to the last pass k, the first of at least one whose last factor is within the precision or else the limit, the result is the convergent with 2k + 1 coefficients, and for a natural q up to k + 1 it is the incomplete beta function over (1-x)^q exactly: always so for q = 1, where it is 1/(1-x), and for q = 2 |
| `Bisection.BracketKept` | statistics.py:247-254 | every bisection keeps the value enclosed and halves the bracket exactly |
| `Bisection.WithinAccuracy` | statistics.py:246-256 | for a function that is l-Lipschitz on the initial bracket the guess is accurate once l times half its bracket is |
| `Bisection.FindRoot` | statistics.py:237-257 | returns the first accurate guess or the last one tried; for an enclosed value and a function that is l-Lipschitz on the bracket it is accurate, after at most i passes for any i with 2^(i+1) * ACCURACY >= l * (high - low) |
| `RunCombo.LinkRoundTrip` | src/core/cbench.c:219-257 | a printed link is parsed back as it was, version rules and options included |
| `RunCombo.ComboRoundTrip` | src/core/cbench.c:265-306 | printing and parsing a combination gives back the same links if and only if the last link prints as something |
| `RunCombo.EmptyLinkLost` | src/core/cbench.c:265-306 | the combination of one empty link prints as nothing and is parsed as no link |
| `RunCombo.CreatePluginLink` | src/core/cbench.c:219-257 | cuts the argument buffer in place so that name, every single rule and options read as the grammar says, and touches nothing outside the argument |
| `RunCombo.CreateVersionRules` | src/core/cbench.c:190-217 | cuts the rules apart in place and lists them, each readable as its text; the entry behind the last one is never set, and NULL follows only then |
| `RunCombo.CountLinks` | src/core/cbench.c:274-275 | the counting loop finds one slot more than there are links |
| `RunCombo.CreateRunCombo` | src/core/cbench.c:265-306 | fills one slot for each link within the allocated array, later cuts leave earlier links readable, and a NULL entry ends the array |
| `RunOptions.OptionIterator.Advance` | src/core/option.c:54-72 | stops exactly when no pair is left and otherwise stands at the next one |
| `RunOptions.OptionIterator.KeyIs` | src/core/option.c:74-79 | key comparison is equality |
| `RunOptions.PairsRoundTrip` | src/core/option.c:33-72 | printed options are iterated over as the same pairs |
| `RunOptions.PrintedOptionsFit` | src/core/cbench.c:219-257 | a link with printed options survives the grammar and its options parse to the same pairs |
| `RunOptions.IntRoundTrip` | src/core/option.c:81-97 | decimal values of int64 and int32 are restored exactly |
| `RunOptions.ParseIntSays` | src/core/option.c:81-97 | an integer text is read as blanks, a sign and decimal digits up to the first other character within its first 126 ones; the result is the nearest int64 to that number, 0 without digits |
| `RunOptions.OptionParse` | src/core/option.c:111-168 | copies the defaults and overwrites them in place; fails if and only if a pair names no entry; every entry keeps its name and, unless a pair names it, its value; a string takes the text of the last such pair, an int64 the number in it, an int32 that number modulo 2^32, so that a text printed from a value of the type gives this value, and other types stay as they are |
| `RunOptions.AppliedIsOverridden` | src/core/option.c:135-167 | it succeeds if and only if every key is known, and then every entry is its default or what the last pair for it says |
| `Versions.VersionCompare` | src/core/version.c:30-100 | the loop over both strings computes the recursive comparison, integer and string mode included |
| `Versions.ScanReads` | src/core/version.c:43-46 | scanning a number reads blanks, a sign and decimal digits, gives the nearest int64 and ends behind the digits; without digits it reads nothing |
| `Versions.NumbersAgree` | src/core/version.c:56-85 | on numbers without leading zeros the integer and the string comparison agree |
| `Versions.SegmentOrder` | src/core/version.c:56-85 | the comparison of segments is a total order |
| `Versions.CompareIsLexicographic` | src/core/version.c:30-100 | for proper versions the result is the lexicographic comparison of the rule with the version cut to its length |
| `Versions.TextIsAlphabetical` | src/core/version.c:66-74 | comparing the lengths first is alphabetical if and only if the lengths are equal, or one segment starts with the other, or the first different character is smaller in the shorter one |
| `Versions.ComparesAsDocumented` | src/core/version.c:30-100 | on proper versions the result is the documented one if and only if the first different segments are two integers or such segments; whether it is 0 never depends on that |
| `Versions.ShorterComesFirst` | src/core/version.c:66-74 | "aa" is before "b" in a dictionary and behind it for the comparison |
| `Versions.ZeroMeansPrefix` | src/core/version.c:87-98 | 0 means that the rule is a prefix, segment by segment |
| `Versions.CompareIsMonotone` | src/core/version.c:30-100 | a greater version never makes the rule look greater |
| `Versions.RuleParsed` | src/core/version.c:108-138 | which operator a rule is understood to have |
| `Versions.VersionMatching` | src/core/version.c:102-189 | the loop over the rules computes what they say together about the main version and the components; None stands for reading the unset pointer |
| `Versions.OneRule` | src/core/version.c:108-186 | one rule against the main version, or against the components |
| `Versions.MatchingMeans` | src/core/version.c:102-189 | a version matches if and only if every rule lets it pass, and an unset pointer is read if and only if the first rule that does not was never set or has no operator |
| `Versions.OutcomeKnown` | src/core/version.c:119-137 | a rule without <, > and = is exactly one on which the pointer is not set |
| `Versions.CreatedAsRead` | src/core/version.c:108-117 | the entries that create_version_rules leaves in front of NULL are the rules of the text and one that was never set |
| `Versions.CreatedNeverAccept` | src/core/version.c:108-189 | with the rules of a link version_matching never answers yes: it answers no if and only if the first rule that does not let the version pass can be read, and reads an unset pointer otherwise |
| `Versions.EqualVersionNotAccepted` | src/core/version.c:108-189 | the rule "=1" lets version 1 pass, and still the unset entry behind it is read |
| `Versions.RuleMeaning` | src/core/version.c:119-158 | what each operator accepts on proper versions; `=` accepts exactly the versions that start with the rule |
| `Versions.AcceptedSetsClosed` | src/core/version.c:119-158 | `>=` and `>` accept upward-closed sets of versions, `<=` and `<` downward-closed ones |
| `Versions.ComponentRule` | src/core/version.c:164-186 | a rule about a component is checked against every component whose name does not start with the name in the rule |
| `Versions.ComponentRulesWorkExactly` | src/core/version.c:164-168 | component rules do what is documented, whatever the versions are, if and only if the name of every component is longer than the name in the rule and starts with it, so that nothing is checked |

## Left out

- Floating-point rounding: LINPACK and the statistics are over exact reals; `dgesl` divides
  by the stored diagonal, so it asks for a nonzero one.
- `dgesl` with a job other than 0, which nothing uses.
- Kernels.DaxpyRolled: not the branch for increments other than 1, which nothing uses, and
  only stretches that do not overlap, as in all calls.
- Kernels.DaxpyUnrolled: the same.
- Kernels.DscalRolled: not the branch for increments other than 1, which nothing uses.
- Kernels.DscalUnrolled: the same.
- Kernels.Idamax: the same.
- Linpack.Repetition: asks for a nonsingular generated matrix; `Linpack.RepeatedColumns`
  shows sizes without one, and `Size5IsNonSingular` one with it.
- Timing and output of the LINPACK driver; only one repetition of its work is modelled.
- Sha256.Hash: asks for pieces below 2^32 bytes and a total below 2^61 bytes, beyond which
  the counter of the code cannot hold the length.
- The message bytes are sequences; aliasing of input and context buffers is not modelled.
- In the protocol: signals (`received_sigstop`), thread priorities, failing thread creation
  or joining, and the `stop` notification of background plugins. Clocks and the results of
  plugin functions, storage and checks are inputs that may take any value.
- A plugin that produces data from its run function and its monitor function at once: the
  appends are unsynchronised in the source and atomic steps here.
- Loading, installing and uninstalling plugins, and everything around the execution loop.
- ProtocolSchedule.MeasuredRunsBounded: assumes that the reading of the clock grows by at
  least one second with every measured run, as a parameter of the configuration.
- KList: `list_replace` and the iteration macros other than the safe one. Poison pointers
  are null pointers, and the struct an entry is embedded in is a constant of the entry.
- PluginLists.Plugin.AddData: not the run number that is written into the item, which the
  model has as a constant of the entry together with all its data.
- Drawing and printing of parameter trees, and the edge objects, which are values in the
  model since no edge is ever shared.
- TreeProperties.SwapKeepsInheritedExactly: about the two levels that are swapped; a deeper
  node may set the same property again and hide a difference.
- TreeSquash.SquashKeepsMeaning: like the other tree results it is about uniform trees,
  in which all nodes of a level carry the same names; `autosquash` and
  `remove_singleval_childs` also need names that do not repeat. The class methods refine
  their value functions on all trees.
- Statistics.BetaFraction: says nothing about the result when a guard against tiny
  denominators fires, and gives a closed value only for natural q, where the fraction is
  finite.
- `logGamma`, `incompleteBeta` with its factor of logarithms and the t distribution built on
  the continued fraction, means, medians and deviations.
- RunCombo.CreatePluginLink: not the failure when `create_version_rules` gets no memory.
- RunCombo.CreateRunCombo: nor the error path after such a failure.
- RunCombo.CreateVersionRules: its array has one element more than it counted; the size in
  bytes that the source asks for is not modelled.
- Versions.VersionCompare: models the call with `rule_compare` set, the only one there is.
- Boolean options, options of other types than string and integer, which stay unchanged,
  and the memory of option strings, which are values here.
- Storage back ends, module management, system information, suites and HTML output.
