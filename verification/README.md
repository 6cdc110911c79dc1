# A fuzzing campaign's guarantees, verified

A Dafny model of a driver that fuzzes PostgreSQL, and of the C headers linked into its harnesses.
`dafny verify dfyconfig.toml` checks everything.

| file | what it models |
|---|---|
| `Sha1.dfy`, `Sha1Answers.dfy` | the SHA-1 of the lineage recorder, against a transcription of FIPS 180-4, and the transcription against known answers |
| `Rotation.dfy`, `Scheduler.dfy` | the order of workspaces in each round; the rounds, semaphore, barrier and deadline policies of a campaign |
| `SeriesLog.dfy`, `SeriesCache.dfy` | the append-only record of slices, its reader under torn writes, and the cache in front of it |
| `Canary.dfy`, `LogSpam.dfy`, `Deadline.dfy` | the per-input monitors: leak detector, log throttle, watchdog |
| `Minimize.dfy`, `Archives.dfy`, `Autocap.dfy`, `Budgets.dfy` | shrinking corpora without losing an input, finding the archived inputs again, deciding on caps and budgets, the budget table and its two readers |
| `ProtocolReader.dfy`, `ArgSplit.dfy`, `KeyOrder.dfy`, `Runtime.dfy` | message framing over a moving cursor, destructive argument splitting, key order from JSON tokens, splitting a series into runs |
| `Bytes.dfy`, `Options.dfy`, `Splitting.dfy` | shared vocabulary |

Code that changes state in place is a class or a method over arrays, proved against a
specification function, and the guarantees are lemmas about that function. Concurrent code
(scheduler, cache, watchdog) is a machine whose steps are the separate reads and writes of the
source, and the guarantees hold of every run of it. Clocks, memory samples, scheduling, what a
merge produces and the outcome of every file-system call are arbitrary inputs.

## Where the code does less than one might expect

These were looked for as guarantees and do not hold in general. Each is kept as the code has it,
with the exact condition under which it does hold.

- Cache: `ReadCached` is right because the series only grows. In general it is fresh under every
  schedule exactly when no (size, mtime) pair comes back with other rows read in between
  (`SeriesCache.FreshExactlyWhen`).
- Leak detector: a steady leak of bytes is confirmed on time, whatever the other gauge does,
  exactly when 33 iterations of it exceed the slack (`Canary.SlowLeaksCanHide`). A slower one can
  be re-baselined away by short spikes in the context count. Context leaks are always confirmed.
- Argument splitting: `strchr` stops at a NUL, so a NUL in the input ends the arguments there
  (`ArgSplit.SplitsWholeInputExactlyWhen`).
- Key order: a string value equal to the field's name starts the recording early, and the next
  sibling array or object is taken for the field (`KeyOrder.RightExactlyWhen`).
- Budget table: the second reader stops for good at a line over 65535 bytes
  (`Budgets.LongLineEndsTheTable`, `Budgets.LoadsBackExactlyWhen`).
- Autocap: a derived cap of zero is taken for no cap, so it acts again on every look
  (`Autocap.ActsAgainExactlyWhen`). When the count after a cap cannot read the corpus, the whole
  live corpus is recorded as removed (`Autocap.RecordedExactlyWhen`).
- Seeding from archives: a copy cut short is reported once; later seedings count the piece as
  present. An archive that cannot be read is passed over without a report
  (`Archives.SeedRecoversExactlyWhen`, `Archives.CutShortIsReportedOnce`).
- Archive names: `BackupDirs` says it lists archives for one target only. It does exactly when no
  other target is itself named like an archive of it (`Archives.TakenForExactlyWhen`); names
  without a dot are safe.
- Archive order: `BackupDirs` says it lists newest last. It does exactly when no capped archive is
  newer than a premin one (`Archives.NewestLastExactlyWhen`), because names sort by their marker first.
- Watchdog: a cancel is stored while the input that armed it is in progress and overdue exactly when
  the harness neither armed nor disarmed since the watcher saw the flag set
  (`Deadline.CancelHitsItsInputExactlyWhen`). Otherwise it meets no input or a later one, even when
  no input was ever overdue (`Deadline.CancelWithNothingOverdue`).
- Log throttle: messages are told apart by a 32-bit hash, so in a program that logs certain texts the
  promised first occurrences of one are shown, whatever came before, exactly when no other of those
  texts has its hash (`LogSpam.LoudAreShownExactlyWhen`, `LogSpam.TwoTextsOneHash`).
- Rotation: the stride of 7 is fair exactly when 7 does not divide the number of workspaces
  (`Rotation.RotationIsFair`).
- Runtime: runs that share no time are active no longer than the series spans
  (`Runtime.DisjointRunsFitTheSpan`). For given ids in a given order that bound holds whatever the
  times exactly when no stretch between two rows lies inside two runs, the rows without an id
  counting as one (`Runtime.FitsTheSpanExactlyWhen`). What is reported as the last run need not end
  the series (`Runtime.LastRunIsNewestExactlyWhen`).

## Model

| member | source | states |
|---|---|---|
| Sha1.PaddedIsFips | project/fuzzer/fuzz_lineage.h:108-123 | bit by bit, the padded message is the one of FIPS 180-4 section 5.1.1, with the least number of zero bits |
| Sha1.ZeroBytesIsMinimal | project/fuzzer/fuzz_lineage.h:111-120 | the zero bytes of the one- or two-block tail are that least number, in bytes |
| Sha1.MessageWordValue | project/fuzzer/fuzz_lineage.h:69-71 | a message word is the big-endian value of its four bytes |
| Sha1.ChooseForms | project/fuzzer/fuzz_lineage.h:83 | the OR form of the first twenty rounds is Ch |
| Sha1.MajorityForms | project/fuzzer/fuzz_lineage.h:85 | the OR form of rounds 40 to 59 is Maj |
| Sha1.Context.RunRounds | project/fuzzer/fuzz_lineage.h:77-89 | the eighty rounds with shuffled variables compute the rounds of section 6.1.2 |
| Sha1.Context.Block | project/fuzzer/fuzz_lineage.h:63-92 | the block function replaces the chaining value by its compression with the block |
| Sha1.FullBlocks | project/fuzzer/fuzz_lineage.h:106-107 | the loop hashes every full block and leaves fewer than 64 bytes |
| Sha1.Tail | project/fuzzer/fuzz_lineage.h:108-123 | the scratch buffer, filled in place and used once or twice, hashes the padded rest |
| Sha1.HashInTwoParts | project/fuzzer/fuzz_lineage.h:106-123 | full blocks and tail together hash the padded whole, wherever the cut at a multiple of 64 lies |
| Sha1.PrintHash | project/fuzzer/fuzz_lineage.h:125-127 | five overlapping prints leave forty lower-case hex digits and one NUL |
| Sha1.HexOf | project/fuzzer/fuzz_lineage.h:94-128 | for every input: the hex text of the hash with the bit count taken modulo 2^64, the input unchanged |
| Sha1.HexOfIsSha1 | project/fuzzer/fuzz_lineage.h:94-128 | below 2^61 bytes the text is the SHA-1 of FIPS 180-4 |
| Sha1.CodeDigestIsDigest | project/fuzzer/fuzz_lineage.h:101 | below 2^61 bytes the 64-bit bit count does not wrap |
| Sha1.NameDeterminesDigest | project/fuzzer/fuzz_lineage.h:125-127 | different digests get different file names |
| Sha1.HexWordReadsBack | project/fuzzer/fuzz_lineage.h:125-126 | what %08x prints is the word in base 16, in the digits 0123456789abcdef |
| Sha1Answers.AnswerForAbc | project/fuzzer/fuzz_lineage.h:63-128 | the digest of "abc" is a9993e364706816aba3e25717850c26c9cd0d89d, worked out round by round |
| Sha1Answers.AnswerForNothing | project/fuzzer/fuzz_lineage.h:63-128 | that of the empty message is da39a3ee5e6b4b0d3255bfef95601890afd80709 |
| Sha1Answers.AnswerForZeros | project/fuzzer/fuzz_lineage.h:63-128 | that of 56 zero bytes, where the tail takes two blocks, is 9438e360f578e12c0e0e8ed28e2c125c1cefee16 |
| Rotation.RotateAt | go/internal/campaign/run.go:386-395 | place p holds the entry amount further on, around the end, for any amount, negative too |
| Rotation.RotateIsPermutation | go/internal/campaign/run.go:386-395 | rotating loses and duplicates no entry |
| Rotation.RoundIsPermutation | go/internal/campaign/run.go:137 | so every round's order holds every entry |
| Rotation.RotationIsFair | go/internal/campaign/run.go:137 | over any n consecutive rounds the orders are a Latin square exactly when 7 does not divide n |
| Rotation.UnfairPositions | go/internal/campaign/run.go:137 | when 7 divides n an entry reaches exactly the n/7 positions that agree with its own modulo 7 |
| Scheduler.EveryRunKeeps | go/internal/campaign/run.go:122-203 | on every run of the machine the wait group, the semaphore and the log agree with where each goroutine is |
| Scheduler.EveryRunIsAllowed | go/internal/campaign/run.go:122-203 | on every run each event was allowed: no launch before all earlier rounds ended, each entry once and in order, none after a hard stop or against the policy, no return with a sweep in flight |
| Scheduler.NeverTooMany | go/internal/campaign/run.go:162-189 | at most parallel() sweeps are in flight and each entry is swept at most once a round |
| Scheduler.CapacityIsReached | go/internal/campaign/run.go:122-189 | and that many, or all the entries when they are fewer, can be in flight at once |
| Scheduler.LateLaunchesBounded | go/internal/campaign/run.go:123-184 | once the loop saw the deadline, cut launches nothing and finish-sweep at most one workspace |
| Scheduler.ReturnKeepsThePolicy | go/internal/campaign/run.go:123-202 | without a hard stop, finish-round returns with every round it began swept to the end, and so does finish-sweep, or else it swept exactly one more workspace to the end after the loop saw the deadline |
| Scheduler.LateLaunchesAreOneRounds | go/internal/campaign/run.go:122-199 | under every policy, finish-round too, all launches after the loop saw the deadline are of one round and no more than its entries |
| Scheduler.LateSweepIsAlone | go/internal/campaign/run.go:168-184 | the workspace launched after the deadline was seen sweeps with nothing else in flight |
| Scheduler.UncutRoundSweepsEveryEntry | go/internal/campaign/run.go:137-202 | a round after which another began, or whose last entry was launched before Run returned, swept every entry of the campaign to its end, each exactly once and nothing else |
| Scheduler.EveryRunCanGoOn | go/internal/campaign/run.go:162-199 | the semaphore and the wait group never deadlock: until Run returns, some goroutine can move without the clock's help |
| Scheduler.RunReturns | go/internal/campaign/run.go:122-203 | once the deadline or the hard stop is past, under every policy, at most 12 + 9·entries of all further steps change anything, in any interleaving, and until Run returns there is one that does |
| Scheduler.ReturnIsNear | go/internal/campaign/run.go:122-203 | so from every such state Run reaches its return within that many steps |
| SeriesLog.SplitLines | go/internal/campaign/campaign.go:233-245 | the loop with a moving start gives the lines |
| SeriesLog.LinesJoin | go/internal/campaign/campaign.go:233-245 | the lines, each with its newline, are the file again, with a newline added where the last one had none |
| SeriesLog.LinesHaveNoNewline | go/internal/campaign/campaign.go:233-245 | no line holds a newline |
| SeriesLog.Series.Append | go/internal/campaign/campaign.go:190-208 | an append that cannot open leaves the file alone, one that writes any prefix of its row adds that write to the history; it succeeds when the row and its newline went out |
| SeriesLog.Series.Read | go/internal/campaign/campaign.go:215-231 | reading gives what the history of whole and torn writes leaves recoverable |
| SeriesLog.ReadRecovers | go/internal/campaign/campaign.go:215-245 | for every history: each whole row on a clean line is itself, and torn bytes spoil at most the row on their line |
| SeriesLog.TearsCostLittle | go/internal/campaign/campaign.go:210-231 | with any number of tears, every row not written right after one comes back in order, with at most one junk row for each tear |
| SeriesLog.OneTear | go/internal/campaign/campaign.go:210-231 | one torn append costs itself and the row directly after, with at most one junk row in their place |
| SeriesLog.LastTear | go/internal/campaign/campaign.go:210-231 | with no later append every complete row is returned, the torn one too when only its newline was lost |
| SeriesCache.CacheIsFresh | go/internal/campaign/seriescache.go:43-62 | whatever stats, locks, reads and stores interleave with appends, every call returns the parse of the file at a moment between its stat and its return |
| SeriesCache.FreshUnlessMisled | go/internal/campaign/seriescache.go:43-62 | the same for any writes at all, as long as no key comes back over other rows |
| SeriesCache.FreshExactlyWhen | go/internal/campaign/seriescache.go:23-27 | and only then: otherwise some schedule returns stale rows |
| SeriesCache.SeriesEntry.Serve | go/internal/campaign/seriescache.go:51-61 | under the lock: a hit leaves the entry alone, a miss stores what it read under the key of the stat before |
| SeriesCache.ServedIsTheSteps | go/internal/campaign/seriescache.go:51-61 | that serving is the machine's lock, compare, read and store taken together |
| SeriesCache.ServedIsTheFailingSteps | go/internal/campaign/seriescache.go:51-59 | and with a read that fails, its lock, compare and failure |
| Canary.Monitor.Check | project/fuzzer/fuzz_canary.h:212-423 | one call updates base, iteration, suspicion and confirmations, and prints, as the step function says |
| Canary.LeakLineMeans | project/fuzzer/fuzz_canary.h:377-388 | a LEAK line is printed exactly on the second and later confirmations, with the old base and the suspect's hash |
| Canary.SuspectIsFirstToExceed | project/fuzzer/fuzz_canary.h:263-422 | over any run, a pending suspicion names the input of the first iteration since the baseline whose sample exceeded it, and every baseline is a sample that was taken |
| Canary.EveryLineMeans | project/fuzzer/fuzz_canary.h:263-422 | every line of a run in its own terms: a dirty sample is always reported with its input; a line about growth compares the sample of 32 iterations later with the baseline and names the input of that first one |
| Canary.ReportsAreCounted | project/fuzzer/fuzz_canary.h:263-422 | the report counter is the number of lines printed, not counting the one context dump |
| Canary.ConfirmsAreSpaced | project/fuzzer/fuzz_canary.h:257-411 | confirmations are at least 33 iterations apart, after warmup |
| Canary.ConfirmsBoundedByTime | project/fuzzer/fuzz_canary.h:257-411 | on every run there are at most (iterations - 64)/33 confirmations |
| Canary.ConfirmsBoundedByGrowth | project/fuzzer/fuzz_canary.h:257-411 | when samples never fall, at most bytes grown/(SLACK+1) + contexts grown/(CTX_SLACK+1) since warmup |
| Canary.AtMostOneMoreConfirm | project/fuzzer/fuzz_canary.h:296-411 | once samples are constant there is at most one further confirmation |
| Canary.OneTimeGrowthIsNoLeak | project/fuzzer/fuzz_canary.h:303-319 | growth that happens once and stays is confirmed at most once, so never called a leak |
| Canary.RisingIsConfirmed | project/fuzzer/fuzz_canary.h:263-422 | a gauge that rises by d every iteration has n confirmations by iteration 64 + n(floor(slack/d) + 33), given the other gauge cannot hide it |
| Canary.RisingContextsAreConfirmed | project/fuzzer/fuzz_canary.h:263-422 | for contexts that needs no condition |
| Canary.LeakIsPrintedExactlyWhen | project/fuzzer/fuzz_canary.h:320-401 | a run has printed a LEAK line exactly when growth was confirmed twice |
| Canary.RisingIsCalledALeak | project/fuzzer/fuzz_canary.h:263-422 | so a rising gauge is called a leak by iteration 64 + 2(floor(slack/d) + 33) |
| Canary.SlowLeaksCanHide | project/fuzzer/fuzz_canary.h:263-422 | for bytes, whatever contexts do, it holds exactly when 33 d exceeds the slack |
| LogSpam.FnvHash | project/fuzzer/fuzz_logspam.h:72-84 | the loop over the text computes its FNV-1a hash in 32 bits |
| LogSpam.Limiter.Find | project/fuzzer/fuzz_logspam.h:125-140 | the scan finds the hash's slot or the first free one; none only when 128 other hashes hold the table |
| LogSpam.Limiter.Throttle | project/fuzzer/fuzz_logspam.h:125-181 | used slots are a prefix holding the first 128 distinct hashes once each, with their exact counts; what is shown and reported depends on the occurrence number alone |
| LogSpam.Limiter.Hook | project/fuzzer/fuzz_logspam.h:93-182 | PANIC, silenced and nameless messages are left alone; the switch is read once |
| LogSpam.OneSiteOneIdentity | project/fuzzer/fuzz_logspam.h:112-123 | all messages of one ereport site are told by its format string however their text varies; without one the text counts |
| LogSpam.TrackedSnoc | project/fuzzer/fuzz_logspam.h:142-158 | the tracked hashes only grow, in order of first appearance, until the table is full |
| LogSpam.PassedInClosedForm | project/fuzzer/fuzz_logspam.h:161-181 | of n occurrences exactly min(n, 5) + n/10000 get through |
| LogSpam.EveryOccurrenceIsAccountedFor | project/fuzzer/fuzz_logspam.h:164-181 | shown, reported as suppressed and pending add up to n |
| LogSpam.NeverSilentForLong | project/fuzzer/fuzz_logspam.h:161-181 | every 10000 consecutive occurrences hold one that gets through |
| LogSpam.ShownExactly | project/fuzzer/fuzz_logspam.h:125-181 | over any mixed history each tracked hash is shown that often, and the others always |
| LogSpam.TextShownExactly | project/fuzzer/fuzz_logspam.h:32-37 | text by text: a message that shares its hash with no other of the history is shown as its own occurrences say |
| LogSpam.LoudAreShownExactlyWhen | project/fuzzer/fuzz_logspam.h:32-37 | for every set of texts a program logs: whatever it logged before, the first five occurrences of a text are shown exactly when no other text of the set has its hash |
| LogSpam.TwoTextsOneHash | project/fuzzer/fuzz_logspam.h:72-84 | two words with one hash: in a program that logs both, neither is sure of its first occurrences |
| Deadline.CancelsAreEarned | project/fuzzer/fuzz_deadline.h:79-137 | in every interleaving there are no more cancels than arms, each for a later arm than the one before, after a read that found the flag set and a read of a deadline that had passed and was stored 10 s after an arm read the clock |
| Deadline.CancelHitsItsInputExactlyWhen | project/fuzzer/fuzz_deadline.h:79-137 | in every interleaving a cancel hits the input whose arm the watcher saw, in progress and overdue, exactly when the harness stored nothing to the flag in between; otherwise none or a later one |
| Deadline.OnlyDisturbedPollsCancelEarly | project/fuzzer/fuzz_deadline.h:89-105 | a cancel of an input that is not overdue comes from a poll that saw an earlier arm |
| Deadline.OverdueIsCancelled | project/fuzzer/fuzz_deadline.h:89-105 | an overdue input still armed when the watcher wakes is cancelled by its next undisturbed poll |
| Deadline.OthersAreLeftAlone | project/fuzzer/fuzz_deadline.h:89-92 | a poll that finds nothing armed or the deadline still to come stores nothing and goes back to its nap |
| Deadline.CancelMayHitTheNextInput | project/fuzzer/fuzz_deadline.h:89-137 | a reachable state in which the cancel for an overdue input hit the next one |
| Deadline.CancelWithNothingOverdue | project/fuzzer/fuzz_deadline.h:89-137 | a reachable state with a cancel although no input was ever overdue |
| Archives.BackupDirs | go/internal/corpus/archived.go:26-47 | the loop selects the directories named for the target, in the order of the listing |
| Archives.NewestLastExactlyWhen | go/internal/corpus/archived.go:25-46 | from a listing in name order the selection is newest last exactly when no capped archive is newer than a premin one |
| Archives.CapAfterMergeIsListedFirst | go/internal/corpus/archived.go:44-46 | so it is not whenever a cap followed a merge |
| Archives.TakenForExactlyWhen | go/internal/corpus/archived.go:37-42 | target u's archive is taken for t's exactly when u is t or is named like an archive of t |
| Archives.ArchivesCanBeTakenForAnothers | go/internal/corpus/archived.go:37-42 | the archives of a target called t.premin are taken for t's |
| Archives.DotFreeTargetsKeepApart | go/internal/corpus/archived.go:37-42 | a target without a dot in its name lends its archives to no other |
| Archives.Destination.SeedArchived | go/internal/corpus/archived.go:56-89 | the nested loops leave the files, counters and error that visiting each archived input in turn gives |
| Archives.CountersAreRight | go/internal/corpus/archived.go:56-89 | each archived file come across is counted once as copied, present or failed, and the new files are at least those counted copied and at most the failed ones more |
| Archives.EndsExactlyWhen | go/internal/corpus/archived.go:60-63 | a seeding reaches its end exactly when every directory could be made, whatever else fails |
| Archives.FirstErrorIsReported | go/internal/corpus/archived.go:77-81 | the result names a first error exactly when some copy failed |
| Archives.SeedRecoversExactlyWhen | go/internal/corpus/archived.go:56-89 | whatever a copy leaves when it fails, after a seeding without reported failures an input is whole exactly when it was, or was absent and is in a readable archive of the target |
| Archives.NothingMixedIn | go/internal/corpus/archived.go:56-89 | whatever fails, files that were there stay as they were, and only the target's archived inputs arrive |
| Archives.LiveAndSeededAreAllThatIsKept | go/internal/corpus/archived.go:9-23 | with every archive readable, live corpus and seeded copies are exactly what the workspace keeps |
| Archives.CutShortIsReportedOnce | go/internal/corpus/archived.go:75-84 | a concrete pair of seedings: the piece of a failed copy is counted as present by the next |
| Minimize.Workspace.Minimize | go/internal/corpus/minimize.go:69-178 | each way a call can end, when it does, and the disk it leaves; every disk on the way keeps, for every target, all inputs any earlier disk kept |
| Minimize.Workspace.ApplyCap | go/internal/corpus/minimize.go:181-241 | with each stat and rename free to fail: exactly the files that cannot be stat'ed or moved and the smallest short ones stay, the rest is in the archive, and an archive left empty is removed |
| Minimize.Workspace.DropLong | go/internal/corpus/minimize.go:216-228 | the filter in the list's own array keeps the short files in order, and the long ones that move are archived |
| Minimize.Workspace.Swap | go/internal/corpus/minimize.go:160-169 | the two renames, and what each failure leaves |
| Minimize.MovingLosesNothing | go/internal/corpus/minimize.go:221 | moving inputs to an archive of the target loses none, for any target |
| Minimize.SettingAsideLosesNothing | go/internal/corpus/minimize.go:161-162 | neither does renaming the whole corpus aside |
| Minimize.ScratchIsNobodys | go/internal/corpus/minimize.go:115-117 | the scratch directory, which is deleted, is no visible target's archive |
| Minimize.CapKeepsTheSmallest | go/internal/corpus/minimize.go:216-240 | when nothing fails, exactly min(Cap, inputs no longer than MaxLen) stay, none too long and none larger than an archived one |
| Minimize.CapNeverCutsBelow | go/internal/corpus/minimize.go:181-241 | whatever fails, at least that many stay |
| Minimize.CapTwiceIsOnce | go/internal/corpus/minimize.go:181-241 | capping what a cap left archives nothing |
| Minimize.KilledAndResumedLosesNothing | go/internal/corpus/minimize.go:63-68 | a call killed at any of its disks and the process that starts from that disk together lose nothing |
| Minimize.WhatWasEverKeptComesBack | go/internal/corpus/minimize.go:57-68 | whatever was kept on any disk of a workspace's history is live or recovered by seeding at its end |
| Autocap.Autocap | go/internal/corpus/autocap.go:205-246 | the loop takes the decision for every target considered, in order; in each the cap is the floor or the largest number of inputs whose replay fits its share of the budget, and it acts on a locked, risky or forced target whose live inputs exceed it |
| Autocap.DecisionsAre | go/internal/corpus/autocap.go:213-228 | decided on is exactly every unskipped target of the log with files, a rate and a budget |
| Autocap.FullCapFitsExactlyWhen | go/internal/corpus/autocap.go:235-239 | replaying a full cap takes at most Fraction of the budget exactly when replaying Floor inputs does and the conversion to an int does not round up, which it cannot for a fraction that is not negative |
| Autocap.WhatIsLeftFits | go/internal/corpus/autocap.go:235-244 | after the cap at most Cap inputs are left, and replaying them fits that share unless the cap is the floor |
| Autocap.ActsAgainExactlyWhen | go/internal/corpus/autocap.go:240-244 | after acting and capping, a second look at the same log acts exactly when the cap was not positive |
| Autocap.ACapCanBeZero | go/internal/corpus/autocap.go:235-239 | a concrete log and options with a cap of zero |
| Autocap.RecordedExactlyWhen | go/cmd/pgfuzz/main.go:4828-4850 | live - After is what was archived exactly when the last count could read the corpus or it is empty |
| Autocap.RecordedCanBeTooMuch | go/cmd/pgfuzz/main.go:4828-4850 | a concrete cap that archives one of two inputs and records two |
| Autocap.Tune | go/internal/corpus/autocap.go:319-357 | the whole table after a round: an unlocked target at or over the high mark gets half as much again up to the maximum, one under the low mark two thirds down to the base, nobody else's budget changes, and the changes listed are exactly those, with both figures |
| Autocap.TuneKeepsTheBounds | go/internal/corpus/autocap.go:343-347 | budgets within the bounds stay within them |
| Autocap.RaiseThenLower | go/internal/corpus/autocap.go:315-348 | for every budget and bounds: a raise and then a cut return it to itself, or to one second less when it was odd; a raise that met the maximum is cut from there, and no cut goes below the base, so it never creeps up |
| Budgets.AtoiItoa | go/internal/corpus/autocap.go:267-291 | reading back a printed number, over the whole 64-bit range |
| Budgets.SignsAndDigits | go/internal/corpus/autocap.go:267 | digits after an optional sign are their decimal value, when that fits 64 bits |
| Budgets.NumbersAre | go/internal/corpus/autocap.go:267 | and nothing else is a number |
| Budgets.Write | go/internal/corpus/autocap.go:274-295 | the loop prints the header and a line for each key |
| Budgets.TableFile.Save | go/internal/corpus/autocap.go:290-294 | whatever of it reaches the temporary file and whether or not the rename works, the table is the old one or the whole new one |
| Budgets.ReadBudgets | go/internal/corpus/autocap.go:252-271 | the loop gathers the rows of the lines, a later one for the same key winning |
| Budgets.LastRowCounts | go/internal/corpus/autocap.go:258-269 | over any lines: an entry exactly for each key with a row, and the last row counts |
| Budgets.ReadRowExactlyWhen | go/internal/corpus/autocap.go:259-269 | the first reader takes exactly the lines of three fields, no comment, the last a number |
| Budgets.ReadsBackExactlyWhen | go/internal/corpus/autocap.go:252-295 | the first reader returns the written table exactly when no name holds a tab or newline and no workspace starts with # |
| Budgets.LoadBudgets | go/internal/fuzz/budget.go:38-67 | the scanner loop fills a nested map that looks up like the flat table of its rows |
| Budgets.LoadRowExactlyWhen | go/internal/fuzz/budget.go:48-64 | the second reader takes exactly the lines of three fields or more, no comment, the trimmed third a positive number |
| Budgets.LoadsBackExactlyWhen | go/internal/fuzz/budget.go:38-67 | the second reader returns it exactly when moreover workspaces are nonempty, names trimmed, values positive and lines fit the scanner |
| Budgets.LongLineEndsTheTable | go/internal/fuzz/budget.go:45-46 | a line too long loses its entry and all after it, nothing before |
| Budgets.PlainTextIsAsLong | go/internal/fuzz/budget.go:45-46 | for names of 7-bit characters that length is the number of characters |
| Budgets.TunedBudgetIsServed | go/internal/fuzz/budget.go:71-81 | then both readers agree, and a lookup gives the tuned value, else the slow default, else the caller's |
| Splitting.SplitJoin | go/internal/corpus/autocap.go:258-262 | splitting undoes joining clean fields |
| Splitting.JoinSplit | go/internal/corpus/autocap.go:258-262 | joining undoes splitting |
| ProtocolReader.Reader.GetByte | project/fuzzer/protocol_fuzzer.c:308-313 | the next byte, or EOF with the cursor where it was |
| ProtocolReader.Reader.GetBytes | project/fuzzer/protocol_fuzzer.c:330-336 | the next len bytes, or EOF with nothing consumed and the buffer as it was |
| ProtocolReader.Reader.GetMessage | project/fuzzer/protocol_fuzzer.c:356-378 | a body framed by a big-endian length that counts itself, or EOF, with exactly what each case consumes |
| ProtocolReader.SessionIsFaithful | project/fuzzer/protocol_fuzzer.c:308-378 | for any input and any mix of the three reads: each starts where the last ended, what is handed over is a slice of the input, and a read fails exactly when the bytes it wants, or a whole message of an allowed length, do not lie ahead; then it consumes nothing but a message header |
| ProtocolReader.FramesComeBack | project/fuzzer/protocol_fuzzer.c:308-378 | framing any messages that fit and reading them gives them back, then EOF with all consumed |
| ProtocolReader.NetworkRoundTrip | project/fuzzer/protocol_fuzzer.c:362-364 | the four length bytes give the number back |
| ArgSplit.SplitArguments | project/fuzzer/extension_funcs_fuzzer.c:884-923 | though it overwrites separators, argument j is field j of the input up to its first NUL, or empty, or NULL by the map, up to the first text that is rejected |
| ArgSplit.NullsAreAsMapped | project/fuzzer/extension_funcs_fuzzer.c:891 | every choice of NULL arguments has its map, whose lowest bit is the first argument, and no argument of a strict function is NULL |
| ArgSplit.StrChr | project/fuzzer/extension_funcs_fuzzer.c:886 | the first separator of the C string, or none |
| ArgSplit.FieldsOfCString | project/fuzzer/extension_funcs_fuzzer.c:884-923 | those fields are, one by one, the starts of the fields of the whole input |
| ArgSplit.SplitsWholeInputExactlyWhen | project/fuzzer/extension_funcs_fuzzer.c:884-923 | every argument is that field of the whole input exactly when every field past the first NUL is empty or starts with NUL |
| ArgSplit.WithoutNul | project/fuzzer/extension_funcs_fuzzer.c:884-923 | in particular for inputs without a NUL |
| KeyOrder.Decoder.Decode | go/internal/finalreport/data.go:382-385 | skips one value, or fails |
| KeyOrder.DecodeConsumesOneValue | go/internal/finalreport/data.go:380-385 | on the tokens of any value, however nested, exactly that value |
| KeyOrder.ObjectKeyOrder | go/internal/finalreport/data.go:352-389 | the token loop equals a scan of the token stream, on broken streams too |
| KeyOrder.KeyOrderIs | go/internal/finalreport/data.go:352-389 | on any object: the keys of the first array or object met once a top-level string matched |
| KeyOrder.RightWithoutIntruder | go/internal/finalreport/data.go:348-389 | the keys of the named object in document order when no sibling intrudes |
| KeyOrder.IntruderWins | go/internal/finalreport/data.go:373-378 | otherwise the keys of the first intruder |
| KeyOrder.RightExactlyWhen | go/internal/finalreport/data.go:352-389 | right for whatever the named object holds exactly when no earlier array or object follows a top-level string value equal to the field |
| KeyOrder.CutOffKeepsItsKeys | go/internal/finalreport/data.go:357-385 | of a document cut off inside the named object, the keys up to there |
| Runtime.GroupByGap | go/internal/finalreport/runtime.go:233-247 | runs of inner gaps of at most 60 minutes, with longer gaps between, that concatenate to the rows |
| Runtime.OnlyOneCut | go/internal/finalreport/runtime.go:233-247 | there is only one such cut |
| Runtime.SplitsAfterAnHour | go/internal/finalreport/runtime.go:233-247 | a gap of exactly an hour does not split, a nanosecond more does |
| Runtime.GroupById | go/internal/finalreport/runtime.go:217-231 | one run for each id, in order of first appearance, holding its rows in order |
| Runtime.IdRunsKeepTheRows | go/internal/finalreport/runtime.go:217-231 | grouping by id loses and duplicates no row |
| Runtime.FindRuns | go/internal/finalreport/runtime.go:121-145 | the three cases are one: runs cut from the rows without an id, then one for each id |
| Runtime.GroupingKeepsTheRows | go/internal/finalreport/runtime.go:121-145 | every row is in exactly one run, once |
| Runtime.TotalIsSpansAndGaps | go/internal/finalreport/runtime.go:147-189 | the total span is the spans of the runs and the gaps between them |
| Runtime.ActiveIsBelowTotal | go/internal/finalreport/runtime.go:176-189 | active time is at most the span minus an hour for each run but one, in whole microseconds |
| Runtime.Gather | go/internal/finalreport/runtime.go:107-191 | the figures of a series, sorted and grouped |
| Runtime.WithoutIdsActiveFits | go/internal/finalreport/runtime.go:107-191 | without ids: the one cut, that bound, and a last run that ends the series |
| Runtime.LastRunIsNewestExactlyWhen | go/internal/finalreport/runtime.go:132-176 | the group reported as the last run ends the series exactly when the newest row carries the id that was the last to appear |
| Runtime.DisjointRunsFitTheSpan | go/internal/finalreport/runtime.go:132-189 | with ids, without or mixed: runs that share no time are active no longer than the series spans |
| Runtime.FitsTheSpanExactlyWhen | go/internal/finalreport/runtime.go:132-189 | whatever the times, for these ids in this order: exactly when no stretch between rows lies between two rows of one id and two of another |
| Runtime.OverlappingRunsCountTwice | go/internal/finalreport/runtime.go:132-135 | a concrete series with ids whose active time exceeds its span |

## Left out

- Docker, git, signals, command-line parsing, terminal and report rendering, and the harnesses that only call PostgreSQL or libFuzzer.
- Regular expressions and JSON encoding: a row of the series is encoded and decoded by any faithful pair, tokens and log figures are given.
- One sweep, its verdicts and its disk checks are one opaque step of the scheduler; a sweep's own deadline is not modelled.
- The scheduler speaks of launches for deadlines: a goroutine launched in time may be scheduled after the deadline.
- Real file systems: a rename is one step that works or fails, file names identify contents, and no fuzzer changes a corpus while it is being minimised. Directory sizes, permissions and Repair are not modelled.
- Minimize.ReadDir: lists in any order; the name order of os.ReadDir decides nothing that is stated of a corpus.
- Minimize.SortBySize: one particular order among equal sizes; what is stated of the cap holds for any.
- Budgets.Write: takes the keys in the order they were sorted into, and every statement holds for any order; the process id in the temporary name is not modelled. Names are text, with invalid UTF-8 left out.
- ParseSweepForCap: its regular expressions pick the figures that Autocap is given here.
- Floating point in Autocap, Tune and the hours of the runtime report: reals, or whole microseconds.
- Runtime.SortByTime: states order and contents, not that equal times keep their order.
- Runtime.Gather: leaves out days and machine, core and CPU hours, sums with nothing to relate.
- Canary.Monitor.Check: leaves out the heartbeat, the walk that counts contexts, the one-time dump of the context tree, the signed difference that is printed, and the wrap-around of unsigned counters; the input's hash is the input itself.
- LogSpam.Limiter.Throttle: leaves out the sample text that the report prints.
- LogSpam.Limiter.Hook: leaves out the call of a hook installed before it.
- Archives.Destination.SeedArchived: the first error is the copy that failed, not its message.
- Deadline.CancelsAreEarned: memory is sequentially consistent, and one harness thread arms and disarms.
- Deadline.CancelHitsItsInputExactlyWhen: speaks of the moment the cancel is stored; when PostgreSQL acts on the flag is not modelled.
- SeriesCache: one path; the map from paths to entries only keeps entries apart.
- ArgSplit.SplitArguments: an input function is any test of its text; what it makes of it is not modelled.
- is_skipped and discover_extension_funcs, census, breakdown, findings and bundle: counting and lookups.
