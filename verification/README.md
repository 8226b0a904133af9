# Verification models of the bug finding system's core algorithms

This project models the stateful algorithms and concurrency primitives of the system and proves
what they are for. Code that changes state step by step is modelled by classes and loops whose
contracts tie every new state to a specification function or to a step of a state machine; the
main results are lemmas about those functions and machines, over all inputs, runs and
interleavings.

| files | what they model |
|---|---|
| `Alignment`, `Matcher`, `MatcherTheorems`, `Normalise` | the fuzzy patch matcher: line normalisation, the Smith-Waterman matrix, tie-breaking, traceback, for any line score |
| `LineScore`, `MatcherInputs` | the program's own line score, what it ranks, and an input that loses the optimum |
| `ApplyHunk`, `HunkTheorems` | rebuilding a file from an aligned hunk |
| `FuzzyCheck`, `FileLines`, `HunkFile`, `HunkInputs` | the same on the bytes of a file, with the program's pair check, and inputs that go wrong |
| `ComputeEdit` | the summary of what an edit changed |
| `SchedulerSpec`, `SchedulerCharges`, `Scheduler` | the fair scheduler: lazily removed queue entries, loaned quanta, virtual runtime, what a slot is charged |
| `SemaphoreSpec`, `SemaphoreOrder`, `PrioritySemaphore` | the semaphore that grants slots in priority order, with cancellation |
| `AlruSpec`, `AlruRecency`, `AlruCache` | the single-flight asynchronous LRU cache, and what its entries say about the calls |
| `CounterSpec`, `CounterLog`, `CounterDb` | the write-through counter cache over one database connection |
| `LimiterSpec`, `LimiterLaws`, `SpendLimiter` | the deposit and settle spend limiter |
| `QuantileSpec`, `MarkerMoves`, `Quantile` | the streaming quantile estimator (Jain and Chlamtac's P2 algorithm) |
| `SuffixTree`, `SuffixTreeBuild`, `PathText`, `PathIndex`, `IndexOfFiles` | the index over reversed path components: building it, paths as text, short forms, full paths, the caches, and the two programs together |
| `AgentSpec`, `Agent` | the agent conversation: tool calls and replies, context compression, the run loop |
| `RunLength` | the run-length printer's search and its pieces |
| `PackerSpec`, `PackerChunks`, `Packer` | the order in which files are taken and the chunks they go into |

Concurrency is modelled as interleaved atomic steps, one for each stretch between suspension
points, cancellation included. Clocks, database rows, model replies, tool outcomes and square
roots are parameters. Floating-point numbers are modelled as reals.

## What turned out not to hold, and exactly when it does

- The line score takes the greatest of its three candidates where an edit distance takes the
  least, so the "distance" is the sum of the tail lengths and no kind of mismatch costs less than
  another, against the comments in crs/common/fuzzy_patch.py:166-171:
  `LineScore.ScoreIsLengthScore`. Two different lines count as a good match on their own exactly
  in the case of `LineScore.GoodMatchIff`, and beat a line's match with itself exactly in that of
  `LineScore.IdenticalIsBestIff`; `LineScore.DifferentLineWins` gives such lines.
- After tie-breaking the returned alignment need not be optimal.
  `MatcherTheorems.ReturnedIsOptimalIff` says exactly when it is: when the walk back meets no cell
  whose best way in was set to zero. `MatcherInputs.TieBreakMayLoseOptimum` gives two files, with
  the program's own score, whose returned alignment is worth -1 where 2 was to be had.
- A hunk whose alignment starts with an inserted line copies the whole file before the hunk,
  because the slice up to `None` is the whole list: `HunkTheorems.HunkKeepsFileIffAnchored` says
  when the original lines come out once, `HunkInputs.OpeningAdditionDoublesFile` gives a file and
  a hunk.
- A last line without a newline runs into whatever is put after it:
  `HunkFile.AppliedFileLinesIff` says exactly when, `HunkInputs.AddedLineRunsOn` gives a file and
  a hunk.
- A file that only gained or lost lines at its end is reported as unchanged:
  `ComputeEdit.UnchangedIffLinePrefix`, `ComputeEdit.EditFaithfulIff`.
- A cold `get` may overwrite the cache with a stale value: `CounterSpec.ColdGetKeepsInvIff` gives
  the condition, `CounterSpec.ColdGetLosesIncrement` an interleaving that loses an increment.
- On rising samples the quantile threshold can fall once, at the fifth sample:
  `QuantileSpec.RisingInputIff`, `QuantileSpec.FifthSampleLowers`.
- A path that is not in the index is not always refused with an error: where its last name is
  unknown and ".." follows it, the text has no file name for the message and the program panics.
  `PathIndex.PanicsIff` says exactly when, `PathIndex.ParentPathPanics` gives the text "a/..".
- Not every tool call gets its reply: a call whose arguments are JSON but no object, or whose
  result cannot be written as JSON, makes its handler raise. `Agent.Agent.Exchange` proves the
  history paired exactly when no handler raised, `Agent.NullArgumentsCrash` gives the arguments
  and the call left open,
  and `Agent.OpenCallIsSent` shows that a later request may be sent with the call still open.
- Dropping old messages keeps calls and replies paired exactly when the two messages always kept
  leave no call open: `AgentSpec.CompressKeepsPairingIff`, with a history that fails in
  `AgentSpec.CompressMayBreakPairing`. An agent iteration leaves a history that the next request's
  assertion refuses exactly when the message called no tool and the verdict added nothing:
  `Agent.Agent.Iter`; so a run fails the assertion exactly at the start or after such a turn:
  `Agent.Agent.Run`.

## Model

| member | source | states |
|---|---|---|
| Normalise.SplitAndNorm | src/patch.rs:203-233 | the byte loop computes the specified normalised lines |
| Normalise.NormalisedLinewise | src/patch.rs:203-233 | the scanner works line by line: each line becomes its words joined by single spaces, and a blank unfinished last line is no line |
| Normalise.NormKeepsWords | src/patch.rs:203-233 | two lines normalise alike exactly when they have the same words; normalising twice changes nothing |
| Normalise.SpacingIsIgnored | src/patch.rs:203-233 | however words are spaced out with blanks, tabs, line ends and form feeds, the normal form joins them by single spaces |
| Normalise.FileIsAsLong | src/patch.rs:226-231 | the matcher sees as many lines as the file has, one fewer exactly when the file ends in a blank unfinished line |
| LineScore.ScoreTails | src/patch.rs:90-117 | the distance table filled row by row, with its early end, computes the specified tail score |
| LineScore.ScoreLines | src/patch.rs:61-118 | the special cases, the length check, the common prefix and the tails give the specified score |
| LineScore.DistanceIsLengths | src/patch.rs:99-106 | every cell of the distance table is the sum of its indices, whatever the characters |
| LineScore.ScoreIsLengthScore | src/patch.rs:61-118 | a pair that is no special case is scored by the lengths left after the common prefix alone |
| LineScore.SpecialScores | src/patch.rs:61-82 | the scores of empty lines, gaps, the sentinel and lines of too different lengths |
| LineScore.ComparedScore | src/patch.rs:84-118 | for any other pair the mismatch or the root of a bit length times (1 - d / 5) squared, by the lengths of the tails |
| LineScore.BitLengthIs | src/patch.rs:39-45 | the bit length is the number of binary digits |
| LineScore.GoodMatchIff | src/patch.rs:61-118 | two different lines score at least 2.0 exactly when three characters are left of the first and eight of the second, of at least five |
| LineScore.IdenticalIsBestIff | src/patch.rs:61-118 | a line scores best against itself except for such a pair with at most fifteen characters in the first |
| LineScore.DifferentLineWins | src/patch.rs:61-118 | two concrete lines of which one matches the other better than itself |
| Matcher.BuildMatrix | src/patch.rs:137-150 | the filled array is the matrix of the recurrence, with a zero border |
| Alignment.NoPathBeatsItsCell | src/patch.rs:137-150 | no alignment path scores more than the matrix cell it ends in, for any scorer |
| Alignment.CellIsOptimum | src/patch.rs:137-150 | every cell is the greatest total of all alignment paths ending in it, and some path attains it |
| Matcher.MaxScore | src/patch.rs:152-154 | the fold finds the greatest value, or zero where all are negative |
| MatcherTheorems.TopScoreIsOptimum | src/patch.rs:137-154 | the top score is the greatest total of any alignment anywhere |
| MatcherTheorems.NoGoodMatchIsExact | src/patch.rs:290-293 | "no good matches" means exactly that every alignment scores below 2.0 |
| Matcher.ArgMax | src/patch.rs:156-166 | the first cell in row-major order that no cell exceeds |
| Matcher.WalkBack | src/patch.rs:175-195 | from any cell of any matrix with a zero border the loop ends, never leaves the matrix, and pushes the trace in reverse |
| Matcher.Backtrack | src/patch.rs:168-199 | the trace of the first greatest cell, in order |
| Matcher.PickPair | src/patch.rs:178-194 | match is preferred to delete, delete to insert |
| Alignment.AlignmentIsContiguous | src/patch.rs:168-199 | an alignment uses consecutive increasing indices of both sequences |
| Alignment.TraceAligns | src/patch.rs:168-199 | the traced pairs form an alignment that ends in the starting cell |
| Alignment.ChoiceExplainsCell | src/patch.rs:177-195 | at a nonzero cell the chosen pair's score plus the previous cell is the cell |
| Alignment.MatchIsPreferred | src/patch.rs:177-195 | a match is taken where nothing beats it, a deletion where it beats the match, an insertion only where it beats both |
| Alignment.TraceScoresItsCell | src/patch.rs:168-199 | the traced scores sum exactly to the cell |
| Matcher.CountWinners | src/patch.rs:242-242 | counts the cells that hold the top score |
| Matcher.SuppressFar | src/patch.rs:251-261 | zeroes exactly the top cells ten or more rows from the expected middle |
| Matcher.BreakTies | src/patch.rs:236-272 | when the matrix changes, to what, and which of the two errors is returned when |
| Matcher.SurvivorIsArgMax | src/patch.rs:263-295 | the one cell left with the top score is where the traceback starts |
| Matcher.SwAlign | src/patch.rs:276-297 | the whole matcher: which error is returned when, and otherwise the trace of the surviving cell |
| MatcherTheorems.MatchIsUnique | src/patch.rs:276-297 | that contract determines the answer: two outcomes for one input are equal |
| MatcherTheorems.MatchAligns | src/patch.rs:276-297 | a returned list of pairs is an alignment |
| MatcherTheorems.UntiedAlignmentIsOptimal | src/patch.rs:276-297 | with one top cell, or no estimate, the returned alignment is optimal among all |
| MatcherTheorems.TieBreakKeepsTrace | src/patch.rs:251-295 | after tie-breaking the trace is unchanged if and only if it visits no suppressed cell |
| MatcherTheorems.WalkWorthIff | src/patch.rs:168-199 | over a matrix with cells set to zero the walk is worth its first cell exactly when no step has lost a better way in, and less otherwise |
| MatcherTheorems.ReturnedIsOptimalIff | src/patch.rs:276-297 | the returned alignment is optimal if and only if at every nonzero cell of the walk the best way in is as good as before tie-breaking |
| MatcherTheorems.TieBrokenAlignment | src/patch.rs:251-295 | the tie-broken result is still an alignment, near the estimate, worth the top score exactly under that condition and less otherwise |
| MatcherTheorems.TieIsBrokenIff | src/patch.rs:236-297 | where several cells hold the top score, there is an answer exactly when one of them lies less than ten rows from the estimate less half the hunk, and it ends there; else the match is ambiguous |
| MatcherInputs.TieBreakMayLoseOptimum | src/patch.rs:251-295 | two files of two lines whose returned alignment, with the program's own line score, is worth -1 where the top score is 2 |
| ApplyHunk.CheckPairs | crs/common/fuzzy_patch.py:357-361 | accepts exactly when every aligned pair passes the check |
| ApplyHunk.Emit | crs/common/fuzzy_patch.py:366-375 | the loop emits the unremoved original lines and the inserted hunk lines, and finds the last aligned original line |
| ApplyHunk.Rebuild | crs/common/fuzzy_patch.py:364-379 | the rebuilt file and both error cases |
| ApplyHunk.Apply | crs/common/fuzzy_patch.py:342-381 | the outcome, every error included, for the alignment the matcher gives |
| ApplyHunk.RebuiltRendersLayout | crs/common/fuzzy_patch.py:363-379 | the file is the rendering of the sequence of line origins |
| ApplyHunk.AlignedInRange | crs/common/fuzzy_patch.py:357-375 | an alignment of the normalised lines indexes the real lines safely |
| ApplyHunk.EmptyFileTakesWholeHunk | crs/common/fuzzy_patch.py:347-348 | into an empty file goes every hunk line, whatever its kind, and nothing else |
| HunkTheorems.AnchoredHunk | crs/common/fuzzy_patch.py:363-379 | an alignment starting on an original line removes exactly the lines aligned to a '-' line, keeps all others once and in order, and adds exactly the hunk lines aligned to no original line |
| HunkTheorems.HunkKeepsFileIffAnchored | crs/common/fuzzy_patch.py:363-379 | the original lines come out once and in order if and only if the alignment starts on an original line |
| HunkTheorems.AppliedHunk | crs/common/fuzzy_patch.py:342-381 | end to end: a hunk that applies adds exactly the unaligned hunk lines, and keeps the rest of the file once and in order if and only if the alignment starts on an original line |
| FuzzyCheck.CheckFuzzyMatch | crs/common/fuzzy_patch.py:269-325 | the loop over the four brackets accepts exactly lines to be added, two lines with the same brackets, and unaligned lines with balanced ones |
| FileLines.LinesOfCut | src/patch.rs:203-233 | the two ways of cutting a file into lines agree |
| FileLines.NormalisedIndexFile | crs/common/fuzzy_patch.py:346-364 | the matcher's lines index the file's |
| FileLines.JoinedLinesIff | crs/common/fuzzy_patch.py:379-379 | lines joined to a file come back as they were exactly when each but the last has its newline |
| HunkFile.ApplyToFile | crs/common/fuzzy_patch.py:342-381 | from the bytes of the file and the hunk, with the program's score, check and normalisation, to the new bytes or the error |
| HunkFile.AppliedHunkFile | crs/common/fuzzy_patch.py:342-381 | end to end on bytes: the new file joins the lines of its layout, adds exactly the unaligned hunk lines, and keeps the rest once and in order if and only if the alignment starts on a line of the file |
| HunkFile.OutputLinesIff | crs/common/fuzzy_patch.py:364-379 | the new file falls into the lines of its layout exactly when nothing follows a last line without a newline |
| HunkFile.AppliedFileLinesIff | crs/common/fuzzy_patch.py:342-381 | the same for an applied hunk |
| HunkInputs.OpeningAdditionDoublesFile | crs/common/fuzzy_patch.py:365-365 | a hunk opening with an added line is aligned from it on, and a two-line file is doubled, with the program's own score and check |
| HunkInputs.AddedLineRunsOn | crs/common/fuzzy_patch.py:373-379 | a line added after a last line without a newline is glued to it |
| ComputeEdit.JoinUndoesSplit | src/patch.rs:321-326 | splitting into lines loses no byte |
| ComputeEdit.FirstDifferenceIsFirst | src/patch.rs:329-340 | the reported start is the first index both files have where the lines differ |
| ComputeEdit.LastDifferenceIsLast | src/patch.rs:343-359 | the matched suffix is the longest that leaves both ranges non-empty |
| ComputeEdit.ReportedRangeIsTight | src/patch.rs:329-392 | prefix and suffix are common and maximal, ranges are non-empty, `before` and `after` are those ranges |
| ComputeEdit.EditRoundTrip | src/patch.rs:319-397 | replacing the range rebuilds the new file byte for byte, and the reverse the old one |
| ComputeEdit.UnchangedIffLinePrefix | src/patch.rs:336-340 | no change is reported exactly when one file's lines begin with all of the other's |
| ComputeEdit.EditFaithfulIff | src/patch.rs:319-397 | the summary is faithful exactly for equal files and files of which neither is a line prefix of the other |
| ComputeEdit.AppendedLineIsUnreported | src/patch.rs:336-340 | a line appended at the end goes unreported |
| Scheduler.Scheduler.Add | crs/common/scheduler.py:52-59 | the new state is the specified one |
| Scheduler.Scheduler.Remove | crs/common/scheduler.py:62-70 | the new state or the error, the queue entry staying |
| Scheduler.Scheduler.Finish | crs/common/scheduler.py:80-90 | tick, refund of the loaned quantum, or the error |
| Scheduler.Scheduler.Tick | crs/common/scheduler.py:121-139 | accounting of every running task, vmin, and the sorted queue |
| Scheduler.Scheduler.Schedule | crs/common/scheduler.py:93-118 | a tick followed by the service of the last queue entry that still waits |
| SchedulerSpec.FinishKeepsInv | crs/common/scheduler.py:80-90 | finishing succeeds exactly for running tasks and the clamp of the refund at zero never bites |
| SchedulerSpec.TickKeepsInv | crs/common/scheduler.py:121-139 | a tick keeps the invariant, lowers no runtime and never lowers vmin |
| SchedulerSpec.ServeOutcome | crs/common/scheduler.py:97-118 | nothing is served exactly when nothing waits; otherwise the least waiting key |
| SchedulerSpec.ScheduleKeepsInv | crs/common/scheduler.py:93-118 | schedule returns nothing exactly when nothing waits, and then the queue is empty |
| SchedulerSpec.ScheduleServesLeast | crs/common/scheduler.py:93-118 | one slot moves from waiting to running, for a waiting key of least recorded runtime |
| SchedulerSpec.RunKeepsInv | crs/common/scheduler.py:52-139 | in every reachable state running and waiting sets match the counts, every waiting task is queued, and runtime is at least a quantum per running slot |
| SchedulerSpec.VminNeverFalls | crs/common/scheduler.py:138-138 | along every run vmin never falls |
| SchedulerSpec.BypassFalls | crs/common/scheduler.py:93-118 | serving another key uses up one unit of a waiting key's bound |
| SchedulerSpec.BoundedBypass | crs/common/scheduler.py:93-139 | while only schedule is called, a waiting key that is not running is passed over at most the sum of (gap in runtime / quantum + 1) over the waiting keys with no more runtime |
| SchedulerCharges.StartCharge | crs/common/scheduler.py:93-118 | the key served is charged ten seconds beyond its base: its runtime so far, for an idle key at least vmin less one second |
| SchedulerCharges.FinishCharge | crs/common/scheduler.py:80-90 | the time so far is charged and the ten seconds are given back; nobody else's account changes |
| SchedulerCharges.ReadingStays | crs/common/scheduler.py:17-20 | along a run, while a key keeps its number of slots, each is charged exactly the time elapsed, however often the scheduler ticks |
| SchedulerCharges.WholeSlot | crs/common/scheduler.py:80-118 | from start to finish, with no other slot of the key, the net charge beyond the base is exactly the time elapsed |
| SchedulerCharges.TickAccounts | crs/common/scheduler.py:121-139 | when a tick accounts, whom it brings up to date, and between which runtimes vmin lands |
| SchedulerCharges.JobsMove | crs/common/scheduler.py:52-118 | jobs come by add, leave by remove, discard and finish, and are moved from waiting to running by schedule |
| PrioritySemaphore.PrioritySemaphore.Release | crs/common/utils.py:213-222 | the slot is freed, or handed to a waiter of least priority value |
| PrioritySemaphore.PrioritySemaphore.AcquireStart | crs/common/utils.py:189-195 | fast path or queueing |
| PrioritySemaphore.PrioritySemaphore.AcquireCancelled | crs/common/utils.py:201-211 | both cancellation cases |
| SemaphoreSpec.RunKeepsInv | crs/common/utils.py:156-222 | over every interleaving free slots, holders and granted callers add up to the initial value; a free slot means nobody is queued; a suspended caller is queued exactly when its future is not set |
| SemaphoreSpec.SlotsAreConserved | crs/common/utils.py:189-222 | once nobody holds or waits every slot is free; while somebody is queued every slot is out |
| SemaphoreSpec.NoOvertaking | crs/common/utils.py:190-192 | a newcomer gets a slot at once only when nobody is queued |
| SemaphoreSpec.GrantGoesToLeast | crs/common/utils.py:219-222 | a hand-off goes to a waiter of least priority value and touches nobody else |
| SemaphoreSpec.GrantsInPriorityOrder | crs/common/utils.py:156-222 | while nobody new queues up, slots are granted in priority order |
| SemaphoreOrder.PrioritiesAreKept | crs/common/utils.py:189-201 | a queued caller keeps the priority of its own call |
| SemaphoreOrder.HandedToLeast | crs/common/utils.py:213-222 | over every interleaving a slot goes to a caller that asked with the least priority value of all queued |
| SemaphoreOrder.ReleaseHandsOn | crs/common/utils.py:213-222 | a slot given back is handed to a queued caller at once, or free where nobody is queued |
| AlruCache.AlruCache.Call | crs/common/alru.py:95-114 | a hit, the start of a computation where the lock is free and nobody is ahead, or a wait |
| AlruCache.AlruCache.Acquire | crs/common/alru.py:103-113 | the second lookup, computing only on a second miss |
| AlruCache.AlruCache.EvictPass | crs/common/alru.py:131-142 | oldest unlocked entries leave until the size fits or only locked ones remain |
| AlruCache.AlruCache.Complete | crs/common/alru.py:113-143 | keep, evict, leave the lock group |
| AlruSpec.SingleFlight | crs/common/alru.py:15-36 | over every interleaving a key has a lock exactly while somebody holds or awaits it, at most one call per key computes, and a hit returns a value the function produced for that key |
| AlruSpec.ServedStays | crs/common/alru.py:103-141 | an entry somebody waits for is never evicted |
| AlruSpec.WaitersShareTheResult | crs/common/alru.py:103-143 | once a computation has filled the cache, no caller queued behind it computes again |
| AlruSpec.ComputedExactly | crs/common/alru.py:95-143 | over every interleaving the function has run for a key once if its result is cached or being computed, and once more for each time the result was evicted, was not kept or the computation failed |
| AlruSpec.ComputedAtMostOnce | crs/common/alru.py:188-188 | without limit, failures or rejected results the function runs at most once per key |
| AlruCache.OldestLeaveFirst | crs/common/alru.py:134-141 | no evicted entry is newer than an unlocked survivor |
| AlruRecency.EntriesAreRecent | crs/common/alru.py:95-128 | over every interleaving, from the calls alone, an entry is stamped with the last hit or kept result of its key and holds the result last kept |
| AlruRecency.HitsAreLatest | crs/common/alru.py:97-108 | a hit returns the result last kept for the key |
| AlruRecency.LeastRecentLeaves | crs/common/alru.py:130-141 | an evicted key was in nobody's use and last used no later than any other key not in use that stays |
| AlruRecency.EvictsAsNeeded | crs/common/alru.py:130-141 | only a finishing call evicts, never below the size limit, and leaves too many only if all that are left are in use |
| CounterDb.CounterDB.FetchAddStart | crs/app/counter_db.py:43-46 | a warm name is served without suspending, a cold one queues a read |
| CounterDb.CounterDB.FetchAddEnd | crs/app/counter_db.py:48-62 | the cache is looked at again after the read |
| CounterDb.CounterDB.Set | crs/app/counter_db.py:64-74 | cache first, then the queued write |
| CounterSpec.RunKeepsInv | crs/app/counter_db.py:27-74 | the invariant over every interleaving in which cold gets publish only when safe |
| CounterSpec.CountersLinearise | crs/app/counter_db.py:43-74 | the cached value is the stored value after all queued writes, and each fetch_add returned the running total at its place in one common order |
| CounterSpec.BalanceIsSum | crs/app/counter_db.py:43-62 | without a set, a total is the first row plus every amount added |
| CounterLog.LogIsCalls | crs/app/counter_db.py:43-74 | over every interleaving with safe cold gets, the log is the writes the calls asked for, and each fetch_add returned the total before its own |
| CounterLog.GetsReturnTotals | crs/app/counter_db.py:36-41 | a warm get, and a cold one that is safe, returns the current total |
| CounterSpec.ColdGetKeepsInvIff | crs/app/counter_db.py:36-41 | a cold get keeps the invariant exactly when nobody has warmed the name to another value since |
| CounterSpec.ColdGetLosesIncrement | crs/app/counter_db.py:36-41 | an interleaving after which the cache holds 0 while the row and the log say 5 |
| SpendLimiter.SpendLimiter.CheckLimit | crs/app/helpers.py:264-266 | refusal exactly at or above the maximum |
| SpendLimiter.SpendLimiter.AddDeposit | crs/app/helpers.py:257-260 | deposit and refund recorded together |
| SpendLimiter.SpendLimiter.UpdateSpend | crs/app/helpers.py:252-255 | the finalizer books spend less refund |
| LimiterSpec.DepositsStayBounded | crs/app/helpers.py:246-269 | after every step the counter is settled spend plus deposits in flight, which stay below the maximum plus one deposit |
| LimiterSpec.IdleCounterIsTotal | crs/app/helpers.py:252-262 | once idle the counter is exactly everything ever spent |
| LimiterLaws.TotalIsSpent | crs/app/helpers.py:252-255 | nothing is ever counted as spent but the amounts the jobs spent |
| LimiterLaws.IdleCounterIsSpent | crs/app/helpers.py:246-269 | once idle, the counter is what it was at the start plus every amount spent |
| LimiterLaws.RefusedIff | crs/app/helpers.py:262-268 | a job is refused exactly when settled spend and deposits in flight reach the maximum |
| LimiterLaws.SettlesOnce | crs/app/helpers.py:252-262 | a job settles its own spend, less the deposit if it was let in |
| LimiterSpec.OvershootIsBounded | crs/app/helpers.py:246-269 | if no job spends more than a cap, admitted spend stays below the maximum plus one cap per slot |
| LimiterSpec.IdleCounterIsBounded | crs/app/helpers.py:246-269 | when only admitted jobs spend, the idle counter itself is what it was at the start or below the maximum plus one cap per slot |
| Quantile.QuantileEstimator.Add | crs/app/quantile.py:22-74 | the state becomes that of the samples so far, and the result is `x >= threshold` in the new state |
| Quantile.QuantileEstimator.FindCell | crs/app/quantile.py:37-44 | the new extremes and the cell a sample falls in |
| Quantile.QuantileEstimator.AdjustMarkers | crs/app/quantile.py:54-64 | the three inner markers adjusted in order |
| Quantile.QuantileEstimator.Bootstrap | crs/app/quantile.py:92-107 | exact quantile before five samples, marker set-up at five |
| Quantile.QuantileEstimator.CurrentThreshold | crs/app/quantile.py:76-84 | the threshold of the samples so far |
| QuantileSpec.SortSorts | crs/app/quantile.py:82-99 | the sorted samples are a sorted permutation |
| QuantileSpec.HeightBetween | crs/app/quantile.py:58-63 | a moved marker's new height lies between its neighbours' |
| QuantileSpec.AdjustKeepsFaith | crs/app/quantile.py:54-64 | adjusting a marker keeps the global invariant |
| QuantileSpec.MarkersStayFaithful | crs/app/quantile.py:22-74 | for every sample sequence of length at least five: positions strictly increase from 1 to the count, heights do not fall, the outer ones are the exact extremes, desired positions are exact; so no division by zero |
| MarkerMoves.SampleMoves | crs/app/quantile.py:32-64 | every sample after the fifth: which markers count it, which inner ones move by one and to which side, and to which height, on the parabola or else on the line |
| MarkerMoves.FollowsIsUnique | crs/app/quantile.py:32-64 | that law has one outcome for each state and sample |
| MarkerMoves.DesiredPositions | crs/app/quantile.py:19-52 | the desired positions are 0, q/2, q, (1+q)/2 and 1 of the count, from the fifth sample on |
| MarkerMoves.FirstThresholds | crs/app/quantile.py:76-107 | of up to four samples the threshold is the nearest-rank quantile, of five the median |
| MarkerMoves.OneToEight | crs/app/quantile.py:22-74 | samples 1 to 8 at one half: the threshold is 3 after the seventh and 4 after the eighth |
| QuantileSpec.QuadraticMeetsMarkers | crs/app/quantile.py:58-60 | the reference quadratic passes through the three markers |
| QuantileSpec.ParabolicInterpolates | crs/app/quantile.py:58-60 | the prediction formula is that quadratic one position to the side |
| QuantileSpec.RisingInputIff | crs/app/quantile.py:76-107 | on samples that never fall, one more sample keeps the threshold from falling, except at the fifth with q above 3/4 and a strict rise |
| QuantileSpec.FifthSampleLowers | crs/app/quantile.py:92-107 | samples 1 to 5 at q = 0.8, where the fifth lowers the threshold |
| QuantileSpec.RisingInputNeverLowers | crs/app/quantile.py:22-107 | for q up to 3/4 the threshold never falls along rising samples |
| SuffixTreeBuild.PathSuffixDict.AddFile | utils/path_suffix_tree.py:12-18 | the cursor loop adds a file's endings and nothing else, and moves no other path |
| SuffixTreeBuild.GrownLocates | utils/path_suffix_tree.py:16-18 | writing through the cursor adds exactly the path it stands at |
| SuffixTreeBuild.LeavesAreMaximal | utils/path_suffix_tree.py:8-32 | the leaves are exactly the files that are no proper ending of another file |
| SuffixTree.UniqueIffOneLeaf | src/path_suffix.rs:40-43 | the chain test holds exactly for nodes with one leaf below |
| SuffixTree.NormalIsShortest | src/path_suffix.rs:131-171 | the short form is the shortest ending with one leaf below, or the whole path |
| SuffixTree.NormalRefuses | src/path_suffix.rs:148-167 | a path is refused exactly when a component is missing before any ending settles |
| SuffixTree.NormalIsIdempotent | src/path_suffix.rs:131-171 | the short form of a short form is itself, on every accepted input |
| SuffixTree.LeafRoundTrip | src/path_suffix.rs:131-236 | a complete path has a short form, whose full paths are that path alone |
| SuffixTree.NormalIsInjective | src/path_suffix.rs:131-171 | different complete paths have different short forms |
| SuffixTree.FullPathsFound | src/path_suffix.rs:200-236 | a partial path in the tree always has a full path |
| PathIndex.CollectSuffixes | src/path_suffix.rs:45-62 | appends every leaf below a node exactly once, whatever the order of the branches |
| PathText.CompsOfSpelled | src/path_suffix.rs:78-86 | a path of proper names, spelled and read again, is that path |
| PathText.CompsOneMore | src/path_suffix.rs:78-86 | one more part of a text adds its name, and nothing if it is empty, "." or ".." |
| PathIndex.PanicsIff | src/path_suffix.rs:88-98 | normalising panics exactly when the last name is unknown and followed by ".." |
| PathIndex.ParentPathPanics | src/path_suffix.rs:88-98 | a text that panics where the same text without its last part is refused |
| PathIndex.PathSuffixTree.NormalizePath | src/path_suffix.rs:131-171 | the cached result is the computed one, for every text |
| PathIndex.PathSuffixTree.Shorten | src/path_suffix.rs:145-170 | the loop computes the short form |
| PathIndex.PathSuffixTree.GetFullPaths | src/path_suffix.rs:200-236 | lists exactly the leaves ending in the partial path, each once; an error exactly when it is not in the tree, and then with its longest ending that is |
| PathIndex.PathSuffixTree.CheckPath | src/path_suffix.rs:173-198 | the computed answer, with or without the cache; where leaves are proper names it accepts a text exactly when it is a leaf in its one spelling |
| PathIndex.CheckedIffLeaf | src/path_suffix.rs:173-198 | a text is accepted exactly when its components are a leaf and it is spelled as the index spells that leaf |
| IndexOfFiles.CheckedIffFile | src/path_suffix.rs:173-198 | asked of the built index, exactly the files that are no proper ending of another are accepted, each in one spelling |
| PathIndex.PathSuffixTree.AllPaths | src/path_suffix.rs:238-242 | lists every leaf once |
| IndexOfFiles.LeavesAreFiles | utils/path_suffix_tree.py:8-35 | asked through the tree read back, a listing holds exactly the files that end in a suffix and are no proper ending of another |
| IndexOfFiles.AskIndex | src/path_suffix.rs:200-242 | built, read back and asked: every complete file once, and for a partial path the complete ones ending in it, or an error exactly when there is none |
| AgentSpec.PairedIff | crs/agents/agent.py:357-364 | a history is paired exactly when each assistant message has each of its calls answered once before the next, and no other reply stands anywhere |
| AgentSpec.CompressKeepsPairingIff | crs/agents/agent.py:301-314 | dropping messages keeps the pairing exactly when the first two messages leave no call open |
| AgentSpec.CompressMayBreakPairing | crs/agents/agent.py:301-314 | a paired history whose compressed form is not |
| AgentSpec.CompressKeepsEnds | crs/agents/agent.py:301-314 | the first two messages and the last one stay; it fails exactly when the last third has no assistant message |
| AgentSpec.CompressedIs | crs/agents/agent.py:301-314 | what is kept: the first two messages, the notice, and all from the first assistant message of the last third on |
| Agent.Agent.AddCost | crs/agents/agent.py:206-209 | the agent and every agent above it are charged, nobody else |
| Agent.Agent.CompressContext | crs/agents/agent.py:301-314 | the new history, or none on failure |
| Agent.Agent.Completion | crs/agents/agent.py:316-355 | at most one repetition, after compression or with the next model; how many requests are made, what is charged and to whom; the assertion fails exactly on a history ending in an assistant message |
| Agent.Agent.HandleToolCall | crs/agents/agent.py:230-295 | exactly one reply to the call unless the handler raises, and the action asked for unless cancelled |
| Agent.ResultIsSent | crs/agents/agent.py:283-293 | a tool's result is the text of the reply unless it is longer than forty kilobytes or the call was cancelled |
| Agent.ActionIsTheTools | crs/agents/agent.py:294-295 | only a tool that returned has an action taken, and it is the tool's |
| Agent.Agent.AnswerCalls | crs/agents/agent.py:362-364 | in whatever order the handlers finish, each reply is the one to a different call and the history is paired exactly when none raised, and then every call is answered and no action is lost; else as many of the calls are open as have no reply |
| Agent.Agent.Exchange | crs/agents/agent.py:360-364 | entering the assistant's message and its replies leaves a paired history if and only if no handler raised |
| Agent.NullArgumentsCrash | crs/agents/agent.py:241-254 | after an exchange of one call with arguments such as null, a list or a number, the handler has raised and exactly that call is open |
| Agent.OpenCallIsSent | crs/agents/agent.py:316-318 | with another call answered after the open one, the history passes the request's assertion unpaired |
| Agent.Agent.TakeActions | crs/agents/agent.py:365-377 | all requested messages are appended in the order of the calls, and any stop request stops the agent |
| Agent.Agent.Iter | crs/agents/agent.py:357-386 | what one iteration adds to the history it asked on; the history is paired on every exit but a raising handler and not there; exactly when the next iteration would fail its assertion |
| Agent.Agent.Run | crs/agents/agent.py:388-401 | over every run each history sent is paired and does not end in an assistant message; the last one is paired unless a handler raised; the assertion fails exactly when the run starts on such a history or after a turn that neither answers nor ends a message without calls; a run that ends open has used every turn, stops exactly on a turn in which the operator, a tool or the answer stops it, and costs the sum of its responses |
| Agent.Agent.RunPlain | crs/agents/agent.py:482-488 | the same for the plain agent, whose own `get_result` decides every message without calls |
| RunLength.CountRepeats | utils/rle.py:58-64 | how often a pattern comes in a row, maximal |
| RunLength.LongestRun | utils/rle.py:54-67 | the qualifying repeat that covers most, the shortest pattern on ties, or none exactly when none qualifies |
| RunLength.Compress | utils/rle.py:69-100 | none exactly when no position starts a qualifying repeat; otherwise the pieces cover the input soundly and expand to it |
| RunLength.CoveringExpands | utils/rle.py:69-100 | sound pieces expand to the stretch they cover |
| RunLength.CoveringIsUnique | utils/rle.py:69-100 | the pieces are determined by the input: two sound coverings are equal |
| RunLength.LimitsAreInclusive | utils/rle.py:54-67 | a pattern of the greatest length and the least number of repeats allowed is a run |
| RunLength.ShorterIsBest | utils/rle.py:54-67 | of two patterns that cover as much the shorter is taken |
| Packer.Select | crs/analysis/full.py:306-324 | the next file is the first that shares the first of the active tokens to occur in a remaining file; if none does, the first remaining one by path |
| Packer.LanguageGroup.Add | crs/analysis/full.py:339-351 | too large is left out, an overflow closes the chunk first |
| Packer.Enter | crs/analysis/full.py:326-351 | a file goes to the group of its extension, every other group is unchanged |
| Packer.Pack | crs/analysis/full.py:299-357 | every file is taken once, the next best each time, and the groups are those of that order |
| PackerSpec.ChunksHoldTheFiles | crs/analysis/full.py:339-357 | the chunks hold the fitting files of the extension in order; none exceeds splitsize, all but the last exceed maxsize |
| PackerSpec.AcceptedAsTaken | crs/analysis/full.py:326-351 | a fitting file is in its own extension's chunks as often as it was taken, and in no other's |
| PackerSpec.FewChunks | crs/analysis/full.py:343-357 | a group has at most totalsize / maxsize + 1 chunks |
| PackerChunks.ClosedWhenFull | crs/analysis/full.py:343-347 | a chunk is closed only when the next file of its extension does not fit into it |
| PackerChunks.ChunksOf | crs/analysis/full.py:339-357 | files, order and size determine the chunks: there is one way to cut the fitting files so |
| PackerChunks.SharedIff | crs/analysis/full.py:293-303 | a shared token is one that occurs in another file too |
| PackerChunks.ActiveIff | crs/analysis/full.py:306-347 | the active tokens are the shared ones of the files taken since a chunk was last closed |
| PackerChunks.TakenAsFollowed | crs/analysis/full.py:306-324 | every file taken was the first left with the rarest active token that any file left has, or the first left by path |
| PackerSpec.ExtIs | crs/analysis/full.py:328-328 | the extension is what follows the last dot, or the whole path without one |

## Left out

- LineScore.Score: characters stand for bytes, square roots are any function with the squares of
  roots, and rounding is not modelled; in the traceback the comparison against machine epsilon is
  exact equality.
- Files whose lines end in anything but '\n': the two languages split them differently. Decoding
  errors are not modelled.
- ApplyHunk.Apply: the rebuild for any check and any normalised lines with at most as many lines
  as the real ones; `HunkFile.ApplyToFile` supplies the program's own.
- ComputeEdit.EditRoundTrip: the context lines around an edit are display text and not modelled.
- Scheduler.Scheduler.Tick: the iteration order of the running set decides which task's runtime
  vmin starts from; any order is allowed. Queue entries are keys instead of shared objects.
- PrioritySemaphore.PrioritySemaphore.Release: heapq is modelled by its contract, so the order
  among equal priorities is open.
- AlruSpec.SingleFlight: the statistics, the rebuilding of error values and the making of keys
  are not modelled; a free lock may go to any waiter.
- CounterSpec.CountersLinearise: cancelled database calls are not modelled.
- CounterSpec.RunKeepsInv: cold gets are included only when safe; `CounterSpec.ColdGetKeepsInvIff`
  gives the exact condition.
- LimiterSpec.DepositsStayBounded: one variable with a fixed maximum and deposit; counter
  operations are atomic.
- Quantile.QuantileEstimator.Add: the counters are fields, each call holds the lock throughout,
  and Python's sort is modelled by a sorting function.
- QuantileSpec: closeness of the estimate to the true quantile is statistical and not stated.
- PathIndex.PathSuffixTree.CheckPath: results are component lists, of which `PathText.Spell` is the
  text; the text of error messages and the similar paths in them are not modelled. Texts are read
  as on Unix.
- SuffixTreeBuild.PathSuffixDict.AddFile: the nested dictionaries are numbered and held in one
  list; the walk over directories and the JSON text between the two programs are not modelled.
- Agent.Agent.HandleToolCall: what the arguments are and what the tool does are given to the
  model; tool error counts are not modelled, and the replies to a tool that is not defined leave
  out the names.
- Agent.Agent.AnswerCalls: handlers still at work when another raises may go on after the error
  has been seen; their later replies are not modelled, and cannot answer the call left open.
- Agent.Agent.Iter: the model's replies are taken to be assistant messages, and messages a tool
  asks to append to be plain ones; the values of `get_result` are given except for the plain
  agent. Agents that start from another agent's history are not modelled.
- Agent.Agent.Run: a run cancelled in the middle of its tool calls is not modelled, nor is
  serialisation.
- RunLength.Compress: pieces are data, the printing and wrapping of their text is left out.
- Packer.Select: among equally rare tokens of one length the order is that of a set; any is
  allowed.
- Request handling, prompts, telemetry, containers, storage of products, competition calls and
  the log viewer: input and output with no algorithm inside.
