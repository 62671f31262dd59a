# Verification of the matching, diffing and number code

The program compares two exports of disassembled binaries. This project models the algorithms that decide its
results and proves what each of them is for. Code that changes state step by step is a method or a class whose
contract ties the new state to a specification function; the theorems are lemmas about those functions. Verify
everything with `dafny verify dfyconfig.toml`.

* **Control-flow graph** (`Graphs`, `SetFacts`, `TarjanSearch`, `StrongComponents`, `WeakComponents`, `Transpose`,
  `ControlFlowGraph`). Successor and predecessor tables, the iterative component search with its frame stack,
  union-find with path compression, and the cyclomatic number. The search is a state machine; one invariant is
  kept by each of its steps, and at the end two blocks share a component exactly when each reaches the other.
* **Text diff** (`LongestMatch`, `MatchTree`, `MatchingBlocks`, `Opcodes`, `UnifiedDiff`, `TextDiff`,
  `QuickRatios`). The sequence matcher from the index of b to the unified diff. Each stage is fixed by a
  description of its own: the first longest match of a range, the one tree of such matches, the blocks of that
  tree, the operations between them, and the groups with their context. The last theorem is that the rows are a
  patch: applied to a by an independent interpreter, which rejects a row that does not fit, they give b.
* **Match bookkeeping and final pass** (`Items`, `CleanupSieve`, `MatchState`, `MatchRuns`, `FinalPass`,
  `FirstPass`, `FinalLists`, `FinalStage`, `MissedLookups`). The lists, their membership counts and the two name
  dictionaries, after every run of additions and cleanups; the cleanup; the choice of shown matches and
  multimatches. `FinalPass` holds the three passes, `FirstPass` and `FinalLists` say by positions in the sorted
  row what they record, choose and ignore, and `FinalStage` is the stage itself, whose four lists are given
  position by position. The shown matches are one-to-one. The lookup that the code marks as never missing is
  settled exactly: the condition for a miss is given for all items in any order, it never happens when a
  cleaned-up row gives each address one name, and it does happen for a row that the cleanup leaves as it is.
* **Pipeline and checkpoints** (`PipelineSteps`, `PipelineOrder`, `Pipeline`, `CheckpointStore`). The driver runs
  over arbitrary deterministic stages and saves a cursor after every step; stopping and resuming any number of
  times ends in the same state, and that state is the composition of the stages in source order, which
  `PipelineOrder` writes down without steps or cursor. The store writes through temporary files and renames; the
  model keeps the history of the directory, one entry for each moment at which the program can be killed, and
  every entry loads the old checkpoint or the new one.
* **Exact arithmetic** (`Powers`, `Limbs`, `BigUInt`, `NearestDouble`, `DecimalToDouble`, `DecimalText`,
  `DecimalLimbs`, `Primes`, `KghHash`, `Wide`, `FixedFormat`, `Rounding`). Decimal text to the nearest double,
  with ties to even, for all inputs (section 4.3.1 of IEEE 754-2019); the prime-product hash; rounding to seven
  decimals by 128-bit words and by big numbers. A double is a significand and an exponent, a ratio an exact
  fraction.
* **JSON** (`JsonText`, `JsonLayout`, `JsonReading`, `JsonGrammar`, `JsonRoundTrip`, `JsonParsed`, `Json`). Writer
  and parser. `JsonLayout` says what text a value is written as, character by character. The grammar of sections 2
  to 7 of RFC 8259 is a relation between ranges of a text and values that does not say how to read; the parser
  accepts exactly what it derives, with that value. The values that survive writing and parsing are characterised
  exactly.
* **Label port** (`LabelPort`). The pass that claims target functions, the rounds that drop duplicate names, the
  output table and the counters.

Assumptions that are visible in the contracts: a rename replaces a file in one step, the serialisation of a
checkpoint can be parsed back, a pipeline stage is deterministic, leaves the three match lists in place and takes
names from the two exports. Of the theorems on the final pass, what the four lists hold needs nothing. That they
are one-to-one needs rows in which the first item of an address pair has the greatest ratio of the pair, which a
cleanup gives when addresses have no dash and one name each. `FinalStage.ShownIsBest` needs addresses without a
dash and descending ratios; `FinalPass.DefaultIsReady` shows that best ratios of 1.0, partial ratios below it and
no unreliable match are enough.

Three statements one might expect are false, each with an input and with the exact condition under which it holds:

* The last pass never misses a lookup. It misses for the row of `MissedLookups.MissingRow`;
  `MissedLookups.MissOfItems` decides every item of every list with plain addresses by the items alone.
* One round of the duplicate pass is enough. It is not for the claims of `LabelPort.OneRoundIsTooFew`;
  `LabelPort.OneRoundIsEnough` decides every input.
* Every text with seven decimals survives reading and rounding. 536870912.0000003 does not, and it is the least
  that does not (`Rounding.SurvivalBound`); `Rounding.ComesBackExactly` decides every text by one remainder of
  integers. The results of the rounding itself always survive (`Rounding.RoundingTwice`).

## Model

| member | source | states |
|---|---|---|
| TarjanSearch.EnterKeepsInv | src/ControlFlowGraph.cpp:623-725 | visiting a new block keeps the search invariant: stack and frames fit, low links are sound and low enough, finished components are closed under edges |
| TarjanSearch.PassKeepsInv | src/ControlFlowGraph.cpp:623-725 | looking at an edge to a visited block, on the stack or finished, keeps the search invariant |
| TarjanSearch.RetreatKeepsInv | src/ControlFlowGraph.cpp:623-725 | leaving a block that is no component root hands its low link to its parent and keeps the invariant |
| TarjanSearch.CloseKeepsInv | src/ControlFlowGraph.cpp:623-725 | cutting the stack above a root makes one component of mutually reachable blocks and keeps the invariant |
| TarjanSearch.SearchGivesPartition | src/ControlFlowGraph.cpp:623-725 | a finished search has one component per class of mutually reachable blocks, edges lead to equal or lower component numbers, and the counts are the class sizes |
| TarjanSearch.CyclicComponent | src/ControlFlowGraph.cpp:623-725 | a component has several blocks or a block with a self edge exactly when one of its blocks lies on a cycle |
| StrongComponents.SccSearch.Run | src/ControlFlowGraph.cpp:623-725 | the loop with index, low link, stack and frames terminates and leaves the partition in the arrays |
| ControlFlow.ControlFlowGraph.ComputeStronglyConnected | src/ControlFlowGraph.cpp:623-725 | same component exactly when mutually reachable; numbers fall along edges; a component is a loop exactly when it holds a cycle; the loop count counts those |
| ControlFlow.ControlFlowGraph.BuildSuccessors | src/ControlFlowGraph.cpp:532-590 | each block's successors are its distinct resolvable targets, laid out block after block; edge and exit counts agree with them |
| ControlFlow.ControlFlowGraph.BuildPredecessors | src/ControlFlowGraph.cpp:592-621 | the predecessor table is the transpose of the successor table, in block order |
| Transpose.SourcesMeaning | src/ControlFlowGraph.cpp:592-621 | a node is listed as a predecessor exactly when it has an edge to the block |
| ControlFlow.ControlFlowGraph.Analyze | src/ControlFlowGraph.cpp:781-797 | edges are exactly the pairs control can flow between, predecessors their transpose; the edge count is the number of edges, the exit count that of blocks without one, and components, loops, weak components and cyclomatic number are those of that graph |
| WeakComponents.FindRoot | src/ControlFlowGraph.cpp:193-201 | path compression returns the representative and keeps the forest, in which rank grows along parent links |
| WeakComponents.Union | src/ControlFlowGraph.cpp:203-220 | joining two roots keeps the forest for the edges joined so far and takes away at most one root |
| WeakComponents.RootsCountClasses | src/ControlFlowGraph.cpp:727-755 | the number of roots is the number of classes of blocks connected by edges in either direction |
| ControlFlow.ControlFlowGraph.ComputeConnectedComponents | src/ControlFlowGraph.cpp:727-755 | the count is the number of weakly connected components, and blocks are at most components plus edges |
| ControlFlow.ControlFlowGraph.ComputeCyclomaticComplexity | src/ControlFlowGraph.cpp:759-779 | the result is edges - blocks + 2 * components and at least the number of components, so the lower clamp never acts |
| LongestMatch.ChainB | src/diff/TextDiff.cpp:245-313 | the index lists, in order, every position of each element of b that is not purged as popular, and gives each position of a the key of its element |
| LongestMatch.PurgedExactly | src/diff/TextDiff.cpp:291-307 | a position of b is left out of the index exactly when popular elements are purged, b has at least 200 elements and its element occurs more often than one in a hundred plus one |
| LongestMatch.FindLongestMatch | src/diff/TextDiff.cpp:330-394 | the first of the longest equal runs of unpopular elements, in a and then in b, grown at both ends as far as unpopular and then as far as any equal elements go; the whole of a range that is equal on both sides |
| LongestMatch.BestIsLongest | src/diff/TextDiff.cpp:344-372 | the best run over all rolling rows precedes every equal run of unpopular elements |
| MatchTree.OneLongest | src/diff/TextDiff.cpp:330-394 | in a range there is only one such block, so the description above fixes the result |
| MatchTree.TreeExists | src/diff/TextDiff.cpp:397-426 | cutting a range at its longest match, left and right again, ends in a tree of matches |
| MatchTree.OneTree | src/diff/TextDiff.cpp:397-426 | and in one tree only |
| MatchingBlocks.ComputeMatchingBlocks | src/diff/TextDiff.cpp:397-462 | the worklist terminates; the blocks match exactly the pairs of positions that the tree of longest matches matches, ordered in both sequences, no two of them adjacent, closed by the empty block at both ends; equal sequences give one block |
| MatchingBlocks.SortedChained | src/diff/TextDiff.cpp:428-437 | blocks that lie apart from each other are chained in both sequences once they are sorted |
| Opcodes.ComputeOpcodes | src/diff/TextDiff.cpp:465-500 | the operations tile both sequences from end to end, equal ones alternate with others, each tag fits its ranges, and the equal operations are the matching blocks |
| UnifiedDiff.TrimmedCodes | src/diff/TextDiff.cpp:520-532 | trimming the first and the last cached operation in place leaves operations that still turn a into b; an equal first operation keeps its last n lines, or all of them when it has fewer, an equal last one its first n, and nothing else changes |
| UnifiedDiff.GroupCodes | src/diff/TextDiff.cpp:533-553 | the groups hold the changes of the operations, all of them in order, with single equal operations between them, and leave only equal stretches between and around; a group has at most 2n equal lines inside, and two groups lie more than 2n equal lines apart with exactly n on either side of a gap |
| UnifiedDiff.CutHasFullContext | src/diff/TextDiff.cpp:512-554 | the first group opens with exactly n equal lines or at the start of both sequences, and the last one closes with exactly n or at both ends |
| TextDiff.SequenceMatcher.GetGroupedOpcodes | src/diff/TextDiff.cpp:512-554 | a negative context is refused; otherwise the groups hold all changes, on a first call those between the matching blocks and with full context at both ends; the cache then holds the operations with both ends cut to n lines, and equal sequences have no group |
| UnifiedDiff.PatchHunks | src/diff/TextDiff.cpp:631-689 | the hunks' rows turn the rest of a into the rest of b, every kept and removed row being the line of a it stands for |
| UnifiedDiff.HunkRowsMeaning | src/diff/TextDiff.cpp:656-688 | a hunk is its range row, then for each operation a row for every line: kept, removed or added, in the order of the operations |
| TextDiff.Diff | src/diff/TextDiff.cpp:631-689 | the written rows are a patch from a to b for every a, b and context: two file rows and the hunks of the groups of a first call, with all changes and exactly n lines of context where there are as many; there are no rows exactly when a equals b |
| QuickRatios.RatiosOrdered | src/diff/TextDiff.cpp:557-600 | the ratio is at most the quick ratio, and that at most the length ratio |
| QuickRatios.BlocksAreShared | src/diff/TextDiff.cpp:557-563 | matching blocks hold no more elements than the multisets of the two sequences share |
| QuickRatios.RatioMeaning | src/diff/TextDiff.cpp:213-218 | ratio times length is twice the matches, and the ratio is 1 exactly when everything matches |
| QuickRatios.RatioOneExactly | src/diff/TextDiff.cpp:557-563 | the ratio of the matching blocks is 1 exactly when the sequences are equal |
| TextDiff.SequenceMatcher.Ratio | src/diff/TextDiff.cpp:557-563 | twice the block sizes over the length, bounded by the other two ratios, and 1 exactly for equal sequences |
| QuickRatios.CountByKey | src/diff/TextDiff.cpp:567-593 | counting down dense keys finds the size of the multiset intersection |
| QuickRatios.CountByLine | src/diff/Ratio.cpp:941-964 | counting down a map of lines finds the same number |
| QuickRatios.MergeRuns | src/diff/Ratio.cpp:406-441 | merging two ascending lists of runs finds the same number |
| QuickRatios.PrepareText | src/diff/Ratio.cpp:357-403 | the runs of the sorted line ids stand for exactly the multiset of the lines |
| QuickRatios.QuickPrepared | src/diff/Ratio.cpp:406-441 | missing or empty text gives 0, bytes an error, and two texts the ratio of their shared lines |
| Items.PlainKeysDiffer | src/diff/FinalPass.cpp:41-49 | without dashes in addresses, two address pairs share the joined key only when they are the same pair |
| Items.SortedStable | src/diff/MatchState.cpp:103-108 | sorting by descending ratio keeps items of equal ratio in their order |
| Matching.MatchState.HasBetterMatch | src/diff/MatchState.cpp:139-160 | the answer from the two dictionaries, with the prefix rule, the blocked pair of equal names and the error of a missing name |
| Matching.MatchState.AddMatch | src/diff/MatchState.cpp:174-208 | list, membership counts and both dictionaries become those of the specification, or nothing changes when a better match exists |
| MatchRuns.RunDictionary | src/diff/MatchState.cpp:174-274 | after any run of additions and cleanups each name has, on either side, the entry (partner and ratio) of the last addition accepted since the last cleanup that bears it, otherwise of the last item that cleanup kept with it |
| MatchRuns.RunList | src/diff/MatchState.cpp:174-274 | after any run a list holds what the last cleanup left in it and exactly the items that accepted additions have offered to it since |
| MatchRuns.RunNoRepeats | src/diff/MatchState.cpp:188-274 | no run of additions and cleanups ever puts an item twice into a list |
| MatchRuns.EqualNamesBlock | src/diff/MatchState.cpp:139-208 | once the pair of a name with itself is recorded, no run of additions gets another pair of that name below ratio 1.0 in |
| Matching.MatchState.Cleanup | src/diff/MatchState.cpp:226-274 | lists, counts and dictionaries become those of the specification; counts stay the multiplicities in the lists; primary holds for each name1 the pair of name2 and raw ratio of the last kept item with it, secondary likewise for each name2, keys in the order of first occurrence |
| CleanupSieve.CleanupKeepsSurvivors | src/diff/MatchState.cpp:226-274 | of the sorted lists in order, an item is kept exactly when no earlier item has its name pair and no earlier kept item of its first address has a greater ratio, equal names counting as 1.0 |
| CleanupSieve.CleanupKeysUnique | src/diff/MatchState.cpp:226-274 | after a cleanup no name pair occurs twice, across all categories |
| Matching.CleanupIdempotent | src/diff/MatchState.cpp:226-274 | a second cleanup changes nothing: lists, both dictionaries, and their key order |
| Matching.DictMeaning | src/diff/MatchState.cpp:262-273 | a dictionary rebuilt from any items holds for each name the other name and the ratio of the last item that bears it, and no other name, with its keys in the order of the first items |
| Matching.CleanedDictionaries | src/diff/MatchState.cpp:226-274 | after a cleanup both dictionaries are of that form for the items that were kept |
| Matching.TotalBounded | src/diff/MatchState.cpp:282-285 | after a cleanup the total is at most the number of name pairs of the two exports |
| FinalStage.StageFinalPass | src/diff/FinalPass.cpp:50-162 | after a cleanup best, partial and unreliable are each the sorted list restricted to the ascending positions of the items to be shown, and multimatch holds every item that ties, once, in the order of the ties; the stage fails exactly when a lookup misses or an item in one of the four lists has an address that is no number |
| FinalLists.MultimatchExactly | src/diff/FinalPass.cpp:63-84 | the multimatch list holds every item that ties with another one for an address, once, those that tie for a first address before the others, address by address in the order in which the addresses were first entered, and in row order at one address |
| FinalLists.IgnoredExactly | src/diff/FinalPass.cpp:63-84 | an address is ignored exactly when items tie for it, on the second side only when they do not all tie for their first address too |
| FinalLists.TakenExactly | src/diff/FinalPass.cpp:130-161 | an item is taken exactly when neither of its addresses is ignored, no first item of a pair beats it on its first address, and none that its first address did not reject on its second |
| FinalLists.OneToOne | src/diff/FinalPass.cpp:61-161 | two shown matches with different address pairs share neither address |
| FinalStage.ShownOneToOne | src/diff/FinalPass.cpp:130-161 | two entries of the filled lists with different address pairs share neither address, and no pair of them is a pair of the multimatches |
| FinalLists.MissExactly | src/diff/FinalPass.cpp:133-160 | for all items in any order: a lookup misses exactly for an item that is not ignored and is best on its first address while every first item of a pair with its second address was rejected on its own first address, or whose first address has no first item of a pair |
| MissedLookups.MissOfItems | src/diff/FinalPass.cpp:133-160 | with plain addresses the lookup of an item misses exactly when it is best on its first address, no two items tie there, and every first item of a pair with its second address was rejected on its own first address |
| MissedLookups.NeverMisses | src/diff/FinalPass.cpp:139-155 | no lookup misses when, of the items of one address pair, the first has the greatest ratio; other ratios are free |
| MissedLookups.CleanedNeverMisses | src/diff/FinalPass.cpp:139-155 | after a cleanup, with one name for each address, no lookup misses whatever the ratios |
| MissedLookups.ReadyNeverMisses | src/diff/FinalPass.cpp:148-155 | with descending ratios no lookup misses |
| MissedLookups.LookupCanMiss | src/diff/FinalPass.cpp:148-155 | three items that a cleanup keeps as they are and of which the last one misses: its pair was seen on an item that its first address rejected |
| MissedLookups.MissingRow | src/diff/FinalPass.cpp:148-155 | such a row in numbers and names, with two names for an address as a name and a mangled name give |
| FinalStage.TopMatchOnce | src/diff/FinalPass.cpp:96-161 | an item that is best on both its addresses has its pair in exactly one of the multimatch list and the other filled lists |
| FinalStage.ShownIsBest | src/diff/FinalPass.cpp:96-161 | every entry of the four filled lists has the greatest ratio of its first address |
| FinalStage.MultimatchOnce | src/diff/FinalPass.cpp:63-84 | no address pair stands twice in the filled multimatch list |
| FinalPass.DefaultIsReady | src/diff/FinalPass.cpp:86-104 | the usual ratios give items in descending order over all lists |
| FinalStage.OneEntryPerFunction | src/diff/FinalPass.cpp:130-161 | after a cleanup, with plain addresses that have one name each, any two positions of best, partial and unreliable together differ in both addresses, and no pair of theirs is in multimatch, whatever the ratios |
| Pipeline.PipelineRun.RunPipeline | src/diff/Pipeline.cpp:689-873 | the driver, fresh or resumed, follows the step relation to its last step and the convergence loop terminates; a fresh run leaves the session that the stages make in source order: equal, dirty, same name, then remaining or best, partial, small and the iterations of the loop, then final and unmatched, each on the result of the one before and with the prepared flag and iteration number it is due |
| PipelineOrder.FinishedIsComposed | src/diff/Pipeline.cpp:689-873 | the same of every finished trail of steps, for any stages and any cleanup that leaves the lists in place |
| PipelineSteps.ResumeEqualsNoInterruption | src/diff/Pipeline.cpp:689-873 | any number of stops and resumptions ends where the uninterrupted run ends |
| Pipeline.ResumedRunEndsTheSame | src/diff/Pipeline.cpp:689-873 | a finished run resumed at any step of another one has the same session |
| Pipeline.PipelineRun.Resume | src/diff/Pipeline.cpp:632-651 | restoring a saved checkpoint puts the run on the point it was saved at, ready to run |
| Pipeline.ResumeFrom | src/diff/Pipeline.cpp:689-873 | a run constructed from any checkpoint a finished run offered ends in the session of that run |
| Pipeline.RunAndResume | src/diff/Pipeline.cpp:689-873 | a fresh run and a chain of runs, each resumed from a picked checkpoint of the one before, all end in one session, which is the composition of the stages in source order |
| Pipeline.PipelineRun.FinishedRun | src/diff/Pipeline.cpp:689-701 | each step of a finished run was offered to the store, as the point of the uninterrupted run at that step |
| PipelineSteps.RestoreUndoesCapture | src/diff/Pipeline.cpp:586-651 | restoring a captured session gives it back, up to what preparing computes again |
| PipelineSteps.SavedIsAccepted | src/diff/Snapshot.cpp:602-632 | a saved cursor passes the reachability check at load when its iteration is in range, and the iteration is at most the number of name pairs |
| PipelineSteps.IterationStartsFromTotal | src/diff/Pipeline.cpp:805-842 | the first cleanup of a further iteration changes nothing, so it starts from the total the last one reached |
| Checkpoints.StateFileName | src/diff/Snapshot.cpp:892-919 | the name of a generation is a state file name that spells the generation, with no zero in front beyond six digits |
| Checkpoints.StoreNamesExactly | src/diff/Snapshot.cpp:892-932 | the names the store takes for its own are manifest, probe and state files of at least six digits, and their temporary files, and no others |
| Checkpoints.CheckpointStore.ReplaceFileBytesDurable | src/diff/FileIo.cpp:234-255 | until the rename only the temporary file changes, from then on the file holds the new bytes |
| Checkpoints.CheckpointStore.Load | src/diff/Snapshot.cpp:968-1018 | no checkpoint exactly without a manifest; a checkpoint exactly when the manifest can be read and names a state file that is there, has the recorded size and checksum, can be read and belongs to it, and then that state with its generation; never damaged in an intact directory |
| Checkpoints.CheckpointStore.Write | src/diff/Snapshot.cpp:1020-1061 | killed at any moment the directory loads the old checkpoint before the commit and the new one after it; a failed write leaves the old one; foreign files stay; when all deletions work only the new files are left |
| Checkpoints.CheckpointStore.RemoveStale | src/diff/Snapshot.cpp:1047-1060 | deletes the store's other files without touching what loads |
| Checkpoints.CheckpointStore.Remove | src/diff/Snapshot.cpp:1063-1089 | at every moment the old checkpoint or none is there, and on success no file of the store |
| NearestDouble.NearestIsClosest | src/diff/PyValue.cpp:282-312 | rounding a quotient to even gives the closest integer, the even one of two |
| NearestDouble.NearestRounds | src/diff/PyValue.cpp:282-319 | in its binade, the rounded quotient is the closest of all doubles, ties to the even significand |
| NearestDouble.OverflowInBinade | src/diff/PyValue.cpp:306-319 | a value overflows exactly when it is in the top binade and rounds up out of it |
| DecimalConversion.DecimalToDouble | src/diff/PyValue.cpp:243-319 | for every digit string and exponent the result is the correctly rounded double, subnormals, zero and infinity included |
| DecimalConversion.NoHalfBetween | src/diff/PyValue.cpp:253-259 | no double and no midpoint of doubles lies strictly between two neighbouring 800-digit decimals |
| DecimalConversion.CutRoundsAlike | src/diff/PyValue.cpp:253-259 | replacing the digits after 800 by one sticky digit does not change the rounding |
| DecimalConversion.Divide | src/diff/PyValue.cpp:283-293 | 64 steps of shift and subtract give quotient and remainder |
| DecimalConversion.RoundQuotient | src/diff/PyValue.cpp:293-318 | quotient bits and sticky bit round as the exact fraction does |
| BinaryBig.BigUInt.MulAdd | src/diff/PyValue.cpp:54-64 | multiplies the value by a word and adds a word |
| BinaryBig.BigUInt.ShiftLeft | src/diff/PyValue.cpp:92-112 | multiplies the value by a power of two |
| BinaryBig.BigUInt.Subtract | src/diff/PyValue.cpp:150-164 | subtracts a value that is not greater, limb by limb with borrow |
| BinaryBig.FromDecimal | src/diff/PyValue.cpp:195-217 | reads the number the digits spell |
| KghHash.SchoolbookProduct | src/KghHash.cpp:58-97 | the limbs of the product, every carry within a word |
| KghHash.BigUInt.MultiplyBig | src/KghHash.cpp:58-97 | the value becomes the product of both values |
| KghHash.BigUInt.MultiplySmall | src/KghHash.cpp:36-56 | the value is multiplied by a word |
| KghHash.BigUInt.Power | src/KghHash.cpp:99-118 | square and multiply gives the power |
| KghHash.BigUInt.ToDecimalString | src/KghHash.cpp:120-131 | the canonical decimal text of the value |
| KghHash.KghAccumulator.ToDecimalString | src/KghHash.cpp:175-186 | the canonical decimal text of the product of the primes raised to their exponents |
| KghHash.KghAccumulator.AddBlock | src/KghHash.cpp:143-153 | a block adds its exponents to the vector and multiplies the hash by the factors of the next row |
| KghHash.BlockMultiplies | src/KghHash.cpp:143-153 | a block multiplies the hash by 2 when it has no predecessor, by 3 when it has no successor, by 5, by 7 for each predecessor and by 11 for each successor |
| KghHash.FlagsMultiply | src/KghHash.cpp:163-173 | the flags no return, library and thunk multiply the hash by 41, 43 and 47 |
| KghHash.SumMultiplies | src/KghHash.cpp:135-173 | adding exponent vectors multiplies hashes |
| Primes.EuclidsLemma | src/KghHash.cpp:135-186 | a prime that divides a product divides a factor |
| Primes.ProductFixesExponents | src/KghHash.cpp:135-186 | equal products over different primes have equal exponents |
| KghHash.HashIsInjective | src/KghHash.cpp:175-186 | two exponent vectors have the same hash exactly when they are equal |
| KghHash.SameTextSameExponents | src/KghHash.cpp:175-186 | two accumulators print the same text exactly when their exponents are equal |
| DecimalText.CanonicalUnique | src/KghHash.cpp:120-131 | a number has one decimal text without leading zeros |
| Wide.Mul64 | src/diff/Ratio.cpp:75-89 | the exact 128-bit product from four half products |
| Wide.ShiftRightFar | src/diff/Ratio.cpp:91-99 | shifting the two words divides the value by the power of two |
| Rounding.RoundNear | src/diff/Ratio.cpp:174-192 | remainder against half, ties by the odd bit, is rounding to nearest even |
| Rounding.RoundDecimal7 | src/diff/Ratio.cpp:151-199 | integers, zero and non-finite values stay; any other gives the nearest count of ten-millionths, ties to even, and the double nearest to that, with the sign |
| FixedFormat.Bit | src/diff/ResultsWriter.cpp:125-129 | the bit of the value at an index, zero beyond the limbs |
| FixedFormat.AnyBelow | src/diff/ResultsWriter.cpp:131-144 | whether the value is no multiple of the power of two |
| FixedFormat.ShiftRight | src/diff/ResultsWriter.cpp:107-123 | divides the value by a power of two |
| Rounding.BitsDecide | src/diff/ResultsWriter.cpp:655-664 | half bit, bits below it and lowest bit decide as rounding to nearest even does |
| Rounding.FormatFixedExact | src/diff/ResultsWriter.cpp:626-672 | refuses other than 1 to 9 decimals; otherwise sign and digits of the value rounded to nearest even |
| Rounding.FixedTextMeaning | src/diff/ResultsWriter.cpp:666-671 | exactly the asked digits behind the point, no needless zero before it, and the digits spell the number |
| Rounding.RoundAndFormat | src/diff/Ratio.cpp:151-199 | the count the 128-bit rounding returns is the number the big-number text shows |
| Rounding.WithinHalfRoundsBack | src/diff/Ratio.cpp:147-150 | everything closer than half a unit to q ten-millionths rounds to q |
| Rounding.RoundingTwice | src/diff/Ratio.cpp:147-199 | the double that any non-integer double is rounded to has the same count of ten-millionths |
| Rounding.SecondCallAgrees | src/diff/Ratio.cpp:151-199 | a second call on the result of the first computes the same count |
| Rounding.ComesBackExactly | src/diff/Ratio.cpp:147-199 | with doubles 2^-k apart around it, the text of q ten-millionths survives reading and rounding exactly when 2^k * q lies within half of 2^k of a multiple of 10^7, on a tie for an even q; a text that overflows never does |
| Rounding.UnitExists | src/diff/Ratio.cpp:147-199 | every count below the overflow has such a k, so the condition decides it |
| Rounding.SurvivorsShow | src/diff/ResultsWriter.cpp:626-672 | a text survives exactly when the double read from it is written as that text again |
| Rounding.SmallTextsComeBack | src/diff/Ratio.cpp:147-199 | every text up to 536870912.0000002 survives, and 536870912.0000003 does not |
| Rounding.SurvivalBound | src/diff/Ratio.cpp:147-199 | all texts up to n ten-millionths survive exactly for n below 2^29 * 10^7 + 3 |
| JsonCode.IsJsonNumberText | src/diff/Json.cpp:65-104 | true exactly of a whole number literal |
| JsonCode.Parser.ParseDocument | src/diff/Json.cpp:313-595 | the cursor parser returns what the grammar functions read, or fails where they do |
| JsonCode.Parser.ParseString | src/diff/Json.cpp:449-520 | escapes, surrogate pairs and control characters as specified, with the position behind the closing quote |
| JsonCode.Parser.ParseNumber | src/diff/Json.cpp:389-426 | takes the longest number literal at the position |
| JsonCode.SetMember | src/diff/Json.cpp:247-259 | a known key keeps its place and gets the new value, a new key goes last |
| JsonCode.Writer.Write | src/diff/Json.cpp:600-655 | appends exactly the value's text, compact or pretty |
| JsonCode.JsonQuote | src/diff/Json.cpp:669-710 | the text between quotes, character by character: the seven short escapes, six characters with lower-case digits for every other control character, all else as it is |
| JsonLayout.LaidExactly | src/diff/Json.cpp:600-667 | a layout that says nothing of how it is written fixes one text for every value, indentation and form, and the writer writes that text: brackets, commas and colons, and in the pretty form one line for each item or member, two spaces a level, and a space behind the colon |
| JsonGrammar.NumbersExactly | src/diff/Json.cpp:65-104 | the scanner accepts exactly the literals made of sign, integer without a needless zero, fraction and exponent |
| JsonGrammar.StringsExactly | src/diff/Json.cpp:449-520 | a string is read exactly when its range splits into plain characters and escapes, with that meaning |
| JsonGrammar.AcceptsExactly | src/diff/Json.cpp:313-595 | a document parses as a value exactly when the grammar derives it as that value, for all texts and options |
| JsonGrammar.OneMeaning | src/diff/Json.cpp:313-595 | the grammar gives a text at most one value |
| JsonRoundTrip.ParseUndoesWrite | src/diff/Json.cpp:600-663 | parsing the written text of a good value gives the value, for both forms and all options |
| JsonParsed.DocumentIsGood | src/diff/Json.cpp:313-595 | every parsed value has literal numbers, unique keys and bounded depth |
| JsonParsed.RoundTripExactly | src/diff/Json.cpp:600-667 | the values that survive writing and parsing are exactly the good ones |
| JsonParsed.RewriteKeepsMeaning | src/diff/Json.cpp:659-667 | writing a parsed document in either form and parsing it again gives the same value |
| JsonCode.JsonParse | src/diff/Json.cpp:659-661 | a parsed value is good and survives both forms of writing |
| JsonCode.JsonWrite | src/diff/Json.cpp:663-667 | the text is the value in the layout asked for, and comes back as the value exactly when the value is good |
| LabelPort.ClaimPass | src/Provenance.cpp:1264-1345 | the decisions in stored order, the first selected proposal claiming its target whatever becomes of it |
| LabelPort.OneOutcome | src/Provenance.cpp:1280-1345 | the conditions of the outcomes, in the fields of proposal and row, hold of exactly one outcome |
| LabelPort.JudgeProposal | src/Provenance.cpp:1295-1345 | gives the outcome whose condition holds; an application writes the reference's name, and its mangled name when that is present and portable, otherwise the name again |
| LabelPort.FirstClaims | src/Provenance.cpp:1290-1298 | of the selected proposals for one target exactly the first in stored order is judged on its merits, and all others are conflicts whatever became of it |
| LabelPort.DropRound | src/Provenance.cpp:1352-1391 | one round drops exactly the applications whose name or mangled name stands twice in the output of all of them |
| LabelPort.DropDuplicates | src/Provenance.cpp:1347-1395 | the rounds terminate, and their result is a number of rounds after which no application clashes |
| LabelPort.SettledExactly | src/Provenance.cpp:1380-1394 | a round changes nothing exactly when no application clashes |
| LabelPort.SettledStays | src/Provenance.cpp:1352-1395 | once settled, further rounds change nothing, so the result is unique |
| LabelPort.OneRoundIsEnough | src/Provenance.cpp:1347-1395 | one round is enough exactly when no application that stays writes a name or mangled name that the row of a dropped one gets back |
| LabelPort.OneRoundIsTooFew | src/Provenance.cpp:1347-1350 | claims for which it is not: dropping two applications of one name restores a name that a third one writes |
| LabelPort.WrittenOnce | src/Provenance.cpp:1347-1395 | a written name and mangled name stand on their target row and on no other |
| LabelPort.NoNewDuplicates | src/Provenance.cpp:1347-1395 | a target without repeated real names gives an output without them |
| LabelPort.WriteOutput | src/Provenance.cpp:1450-1473 | the target row of an application shows its name and mangled text, every other row its old columns |
| LabelPort.PortLabels | src/Provenance.cpp:1264-1473 | both passes and the output; every decision is the one its own fields call for or the drop of a duplicate; each application writes the reference's name and mangled name as above, both standing on its target row and on no other; each counter is the number of its decisions, and they add up to the selected proposals |

## Left out

- Instruction decoding, leader discovery and block building: the graph code starts from finished blocks with offsets and targets.
- Statistics of instruction and byte counts and of dropped successors; they are plain sums.
- The text of diff rows, their range headers and the splitting into lines: rows are values, lines are any type with equality.
- Ratios of items and diffs are real numbers, not doubles. The division instruction at the end of the rounding is modelled by its standard: the correctly rounded quotient.
- Counters and sizes are unbounded integers except where a limb or word width matters: the 2^32 and 10^9 limbs, the 64-bit quotient and the 128-bit words.
- The bodies of the heuristic stages, the ratio engine's deep score and its cache: stages are uninterpreted functions on the matches and a rest state.
- Trace points, logs, snapshot directories, fault hooks and the ratio mutation switch.
- The probe file, making and removing the checkpoint directory, and the forced flush of files and directories: only which file has which content is modelled.
- File names of the store are a datatype of manifest, probe and numbered state files and their temporaries; all other names are foreign.
- Reading and writing the results, exports and label databases, and the checks of `PortLabels` on its inputs before the two passes: the output of the label port is a sequence of rows.
- Shortest and repr output of doubles, and the general Python number and JSON reader of the same file as the decimal conversion.
- JSON values are immutable trees: `Set` and `Push` return new member lists, and error messages and offsets are one failure. A character stands for a byte.
- The command line, reports and process handling.
- LongestMatch.FindLongestMatch: a range that is not inside both sequences is excluded by the contract; the code throws there.
- Wide.ShiftRight: shifts of 128 and more are not asked for by the callers and not modelled.
- Pipeline.SavedIsAccepted: says that a cursor is accepted when its iteration is in the accepted range; more iterations than that would need more name pairs.
- FinalStage.StageFinalPass: starts from empty result lists, and does not say what they hold after an error.
- Matching.MatchState.HasBetterMatch: the error of a missing name is a third answer, without its message.
