# A verified model of LTP's test library core

The Linux Test Project library contains a handful of algorithms that its test cases rely on
without looking: a spin barrier that makes two threads race, a compiler for kernel-config
constraints, a builder for netlink messages, calendar arithmetic, a table-driven checksum and
a registry of cgroup hierarchies. This project models them in Dafny and proves what they are
for.

* **Fuzzy sync** (`fuzzy_*.dfy`). `tst_fzsync_pair_wait` is modelled one memory access per step,
  with INT_MAX as a parameter of at least 2. `FuzzyBarrier` proves the barrier safe for every
  client, any number of waits and across every counter wrap-around. `FuzzyProgram` puts the
  library's two thread loops around it and proves, in every interleaving, that race bodies stay
  in step, that shutdown is clean and that shared fields are handed over in order;
  `FuzzyLiveness` proves when every fair schedule ends, and `FuzzyOverflow` builds the schedules
  in which the spin counter wraps. `FuzzySampling` is the statistics state machine that picks the
  delays.
* **Constraints** (`bool_*.dfy`, `kconfig_*.dfy`). `BoolGrammar` is the language and its meaning.
  `BoolYard` and `BoolSound` prove that shunting_yard recognises exactly that language, translates
  it faithfully and blames the right token; `BoolMachine` runs it over work arrays and links, and
  evaluates the result on 16 slots; `BoolTokens` is the tokenizer; `BoolParse` joins them.
  `KconfigLines` and `KconfigRead` read a config, `KconfigVars` collects variables, and
  `KconfigCheck` is the check from end to end.
* **Netlink** (`netlink_*.dfy`). `NetlinkWire` is the format (section 2.3.2 of RFC 3549), with a
  decoder for nested attributes. `NetlinkBuilder`, `NetlinkAttrs` and `NetlinkMessages` are the
  builder on values; `NetlinkBatch` and `NetlinkContents` prove what holds over whole batches and
  on the wire; `NetlinkAcks` matches replies; `NetlinkContext` is the buffer updated in place.
* **Calendar, CRC32c, cgroups** (`calendar.dfy`, `crc32c.dfy`, `cgroup_*.dfy`).

State that the library updates in place is a class or an array, and its methods are tied to
functions on values; the theorems are about those functions. `dafny verify dfyconfig.toml`
checks everything.

Some promises turn out to hold only under a condition. Each of these is stated with the exact
condition and, where one input shows the failure, with that input:

* `exec_loops` ends the race, after 192 * exec_loops + 69 fair rounds at the latest, exactly when it
  is below INT_MAX: the counter compared with it is an int (`FuzzyLiveness.FairRunsStop`,
  `FuzzyLiveness.NeverStops`, `FuzzyLiveness.LoopLimitExactly`).
* An update takes the number of spins since the one before exactly while that number fits an int
  (`FuzzyProgram.OrderedHandOff`, `FuzzyOverflow.SpinsOverflow`).
* `tst_mktime` counts days correctly exactly while 365 times the year fits 32 bits
  (`Calendar.ClosedDaysExact`, `Calendar.WrapsTooLate`), and the weekday `tst_rtc_time_to_tm` fills
  in is right exactly up to the day INT_MAX - 4 (`Calendar.WeekdayExactly`, `Calendar.LastWeekday`).
* An attribute tree comes back exactly when every length fits 16 bits; data of 65532 bytes is
  reported as added and lost (`NetlinkAttrs.RoundTrip`, `NetlinkAttrs.WrapLosesData`).
* `tst_netlink_add_message` follows a wild pointer exactly when it starts a batch, the buffer has
  to grow and reallocation moves it (`NetlinkBatch.FaultsExactly`, `NetlinkBatch.FirstMessageFault`).
* Stopping early in `tst_kconfig_read` can lose options that stand behind a repeated one
  (`KconfigRead.EarlyStop`, `KconfigRead.StopIsLeast`, `KconfigRead.EarlyStopExactly`,
  `KconfigRead.EarlyStopLoses`).
* A config line defines what it says exactly when its value holds no blank
  (`KconfigLines.AssignmentMeans`), and an explicit `=n` is never matched (`KconfigVars.MapMeans`,
  `KconfigVars.ExplicitNo`).
* Scanning the same mounts twice changes nothing exactly when all V2 mounts list the same
  controllers (`CgroupRegistry.Rescan`, `CgroupRegistry.RescanBreaks`), and the root limit needs the
  pseudo-controller with index 0 (`CgroupRegistry.LimitNeedsZero`, `CgroupRegistry.LimitReached`).
* Expressions nested 14 deep always evaluate; 15 levels can exhaust the stack
  (`BoolMachine.NestingLimit`, `BoolMachine.NestingLimitReached`).

## Model

| member | source | states |
|---|---|---|
| `FuzzyBarrier.BarrierSafety` | include/tst_fuzzy_sync.h:529-598 | in every interleaving of any two clients, for any number of waits and across wrap-around: a thread out of its k-th wait has a peer that made its k-th arrival, the counters stay in [0, INT_MAX], and the two spin guards never hold together |
| `FuzzyBarrier.RunSynced` | include/tst_fuzzy_sync.h:529-598 | the symmetric barrier invariant (each counter is its arrivals modulo INT_MAX, up to the reset phase; nobody is two arrivals ahead) holds after every run |
| `FuzzyBarrier.NeverBothBlocked` | include/tst_fuzzy_sync.h:535-597 | under the invariant some thread can always leave its wait |
| `FuzzyBarrier.AdvanceRank` | include/tst_fuzzy_sync.h:535-597 | a blocked thread spins in place; any other step in a wait strictly lowers a bound on the steps left |
| `FuzzyBarrier.PeerRank` | include/tst_fuzzy_sync.h:535-597 | nothing the peer does blocks a thread anew or sets it back |
| `FuzzyProgram.RunInv` | include/tst_fuzzy_sync.h:262-285 | from the state after a reset every run of the two loops, with int loop and spin counters that wrap, keeps barrier, placement, loop-count, leaving, delay, stamp and spin-count invariants together |
| `FuzzyProgram.RaceInStep` | include/tst_fuzzy_sync.h:606-771 | counters stay in range even while shutting down, no thread passes a wait its peer has not entered, and overlapping race bodies belong to the same iteration |
| `FuzzyProgram.CleanShutdown` | include/tst_fuzzy_sync.h:635-679 | exit being set by run_a only, both threads execute the body equally often and never again, at most exec_loops times if that is below INT_MAX; A finishes only after B |
| `FuzzyProgram.OrderedHandOff` | include/tst_fuzzy_sync.h:458-510 | the i-th delay either thread uses is the i-th one computed, updates take exactly B's completed stamps, the i-th update takes the exact number of spins if and only if that fits an int, and the unlocked increment of `spins` is never entered by both |
| `FuzzyProgram.OneSpins` | include/tst_fuzzy_sync.h:582-595 | the two threads are never both inside the increment of the shared spin counter |
| `FuzzyLiveness.RankStep` | include/tst_fuzzy_sync.h:606-771 | in every reachable state one thread is helpful: its step lowers the rank, and the other's step never undoes that |
| `FuzzyLiveness.FairRunsProgress` | include/tst_fuzzy_sync.h:606-771 | whatever the loop limit, after 192 * n + 69 rounds in which both threads move, in any order, both loops have ended or a thread is past its n-th iteration |
| `FuzzyLiveness.FairRunsStop` | include/tst_fuzzy_sync.h:635-771 | if exec_loops is below INT_MAX, both loops have ended after 192 * exec_loops + 69 rounds in which both threads move, whatever their order |
| `FuzzyLiveness.ExitStops` | include/tst_fuzzy_sync.h:635-771 | whatever exec_loops is, both loops have ended 98 rounds after exit was requested |
| `FuzzyLiveness.NeverStops` | include/tst_fuzzy_sync.h:650-656 | with exec_loops equal to INT_MAX and run time left, after 192 * n + 69 rounds the loops have not ended and the body has been executed n times, for every n |
| `FuzzyLiveness.LoopLimitExactly` | include/tst_fuzzy_sync.h:203-212 | the body is executed at most exec_loops times in every run, and every fair run ends within the bound, each if and only if exec_loops is below INT_MAX |
| `FuzzyOverflow.SpinsOverflow` | include/tst_fuzzy_sync.h:529-598 | for every limit of at least 3 some schedule makes the second update take a wrong number of spins, that number being above INT_MAX |
| `FuzzySampling.SyncPair.constructor` | include/tst_fuzzy_sync.h:262-285 | the reset zeroes averages, deviations, delay and bias, keeps the ratios and starts the mandatory samples |
| `FuzzySampling.SyncPair.Update` | include/tst_fuzzy_sync.h:458-510 | the fields after an update are the specified ones: sample while mandatory or over the deviation limit, then random delays, then frozen |
| `FuzzySampling.SyncPair.AddBias` | include/tst_fuzzy_sync.h:797-801 | the bias changes only while samples are mandatory |
| `FuzzySampling.SyncPair.StopSampling` | include/tst_fuzzy_sync.h:639-645 | mandatory samples are dropped, nothing else changes |
| `FuzzySampling.SamplingNeverIncreases` | include/tst_fuzzy_sync.h:458-510 | over any run of updates, biases, cut-offs and spins, `sampling` never increases |
| `FuzzySampling.SamplingFreezes` | include/tst_fuzzy_sync.h:464-509 | once an update would not sample, no later one does, and averages, deviations and bias never change again |
| `FuzzySampling.MandatorySamples` | include/tst_fuzzy_sync.h:464-487 | without a cut-off exactly one mandatory sample is used per update |
| `FuzzySampling.SyncPair.Execute` | include/tst_fuzzy_sync.h:606-801 | any calls on a pair, one after the other, leave it as the run of operations the theorems are about |
| `FuzzySampling.SamplingKeepsBias` | include/tst_fuzzy_sync.h:458-487 | while the pair samples, the delay is the bias at the last update; the first min_samples updates after a reset sample, and up to there the delay is the sum of the bias changes asked for before the last update |
| `FuzzySampling.MovingAvgBounds` | include/tst_fuzzy_sync.h:335-340 | the moving average stays in every interval holding its past and its sample |
| `FuzzySampling.DurationsBounded` | include/tst_fuzzy_sync.h:347-368 | over any run with a clock that does not run backwards the two duration averages stay within [0, longest duration] |
| `FuzzySampling.DelayRange` | include/tst_fuzzy_sync.h:488-505 | after any such run, a delay added to the bias lies within 1.1 times [-sb, sa] divided by the time per spin |
| `BoolYard.Complete` | lib/tst_bool_expr.c:221-335 | every expression of the grammar is accepted and becomes its reverse Polish notation, with & and \| of equal precedence and left associative |
| `BoolSound.Sound` | lib/tst_bool_expr.c:221-335 | whatever is accepted is an expression of the grammar |
| `BoolSound.Recognises` | lib/tst_bool_expr.c:188-335 | the translation succeeds if and only if the tokens are an expression, and then gives the notation of every parse of them |
| `BoolSound.RunsWhileViable` | lib/tst_bool_expr.c:236-314 | the token loop goes on if and only if what it has read can still become an expression |
| `BoolSound.ErrorPlace` | lib/tst_bool_expr.c:236-334 | the token blamed is the first one after which no expression is possible; otherwise the last token or an unclosed parenthesis |
| `BoolGrammar.RpnPermutes` | lib/tst_bool_expr.c:236-327 | every token other than a parenthesis occurs in the notation as often as in the text, parentheses never |
| `BoolMachine.OutputDistinct` | lib/tst_bool_expr.c:316-331 | the output names each buffer slot at most once, so linking it makes a list |
| `BoolMachine.ReadAll` | lib/tst_bool_expr.c:236-310 | the loop over the two work arrays, which never overflow, is a run of the machine |
| `BoolMachine.ShuntingYard` | lib/tst_bool_expr.c:221-335 | the outcome is that of the translation, and on success following `next` from the head visits the notation |
| `BoolMachine.EvalMeaning` | lib/tst_bool_expr.c:362-401 | the stack machine never underflows, returns -1 if and only if a variable is undefined or more than 16 values must be held, and otherwise the left-associative value of the expression |
| `BoolMachine.NestingLimit` | lib/tst_bool_expr.c:360-401 | nesting up to 14 never runs out of slots |
| `BoolMachine.NestingLimitReached` | lib/tst_bool_expr.c:360-401 | some expression nested 15 deep does |
| `BoolGrammar.NeedWithinNest` | lib/tst_bool_expr.c:360-401 | the slots needed are at most the parenthesis nesting plus 2 |
| `BoolGrammar.NeedReached` | lib/tst_bool_expr.c:360-401 | that bound is reached for every depth |
| `BoolMachine.Eval` | lib/tst_bool_expr.c:362-401 | the loop over the linked list with a 16-slot array returns what the stack machine returns |
| `BoolTokens.ScanWf` | lib/tst_bool_expr.c:64-100 | every token is an operator or a stretch without blanks, operators or unpaired quotes outside quotes; only the last may leave a quote open |
| `BoolTokens.RoundTrip` | lib/tst_bool_expr.c:64-114 | tokens printed with blanks between them are read back if and only if they are well formed |
| `BoolTokens.Tokenize` | lib/tst_bool_expr.c:47-100 | the counting pass and the filling pass agree, and the buffer holds the tokens in order with their places |
| `BoolParse.Parse` | lib/tst_bool_expr.c:337-358 | a text compiles if and only if its tokens are an expression, and its links spell the notation |
| `BoolParse.Evaluate` | lib/tst_bool_expr.c:362-401 | the value of the text under every parse of it, or -1 when a variable is undefined or 16 slots are not enough |
| `KconfigLines.AssignmentMeans` | lib/tst_kconfig.c:113-198 | a line NAME=value defines that option with that value if and only if the value holds no blank |
| `KconfigLines.DisabledMeans` | lib/tst_kconfig.c:121-163 | the comment for a disabled option sets it to n |
| `KconfigLines.ParseLine` | lib/tst_kconfig.c:113-198 | the variables after a line are those assigned what the line means, only y, m and n count as found, and variables behind `len` stay |
| `KconfigRead.Read` | lib/tst_kconfig.c:200-219 | the variables end up as after the lines up to the early stop; variables behind `len` stay |
| `KconfigRead.ReadAllLooksUp` | lib/tst_kconfig.c:200-219 | with distinct names each variable ends up as the last line naming it says |
| `KconfigRead.EarlyStop` | lib/tst_kconfig.c:200-219 | if no variable is on two lines, stopping early gives the same variables as reading everything |
| `KconfigRead.StopIsLeast` | lib/tst_kconfig.c:200-219 | reading stops after the fewest lines, at least one, among which as many give y, m or n to a name asked for as there are variables, and at the end if there is no such number |
| `KconfigRead.EarlyStopExactly` | lib/tst_kconfig.c:200-219 | for the stop so described, it loses nothing if and only if no line behind it is the last one about a variable while giving it another setting than the lines before the stop |
| `KconfigRead.EarlyStopLoses` | lib/tst_kconfig.c:200-219 | two variables and three lines for which the second variable is never found |
| `KconfigVars.MapMeans` | lib/tst_kconfig.c:433-470 | under any config a bare name asks for y or m, and NAME=value for an option spelled that way, except an explicit n |
| `KconfigVars.ExplicitNo` | lib/tst_kconfig.c:433-470 | for every option, a config that says NAME=n does not meet the constraint NAME=n |
| `KconfigVars.FindVar` | lib/tst_kconfig.c:378-391 | an index with that name, or -1 if there is none |
| `KconfigVars.Populate` | lib/tst_kconfig.c:396-431 | for one expression: names stay distinct and are exactly those seen, every variable token is linked to the variable with its own name, the array is never overrun, and a name too long is refused |
| `KconfigCheck.PopulateAll` | lib/tst_kconfig.c:396-431 | the same for all expressions; later ones do not disturb earlier links |
| `KconfigCheck.ValidateVar` | lib/tst_kconfig.c:268-342 | accepts exactly CONFIG_ names with a quoted string or a word as value |
| `KconfigCheck.EvalOne` | lib/tst_kconfig.c:433-540 | through links and variables a constraint evaluates to 1 if and only if it is true under the config within 16 slots |
| `KconfigCheck.Check` | lib/tst_kconfig.c:499-544 | breaks exactly on an unacceptable constraint; otherwise passes if and only if every constraint is true under the config, when no option is on two lines |
| `NetlinkWire.DecodeSpelled` | lib/tst_netlink.c:366-444 | bytes that spell a tree of attributes decode to that tree |
| `NetlinkBuilder.AddAttrEffect` | lib/tst_netlink.c:286-311 | after one attribute the message still ends the data and records its length, the attribute stands behind it, and nothing below changed but that length |
| `NetlinkAttrs.ListGrows` | lib/tst_netlink.c:321-364 | whatever the list, the current message survives and the context only grows behind it |
| `NetlinkAttrs.ListEffect` | lib/tst_netlink.c:321-364 | the list builder returns the number of entries and the buffer spells the tree with all back-patched lengths, or it fails |
| `NetlinkAttrs.RoundTrip` | lib/tst_netlink.c:321-444 | for every tree, the empty one included, appended by either list builder: the call returns the number of top-level entries and decoding the appended bytes gives the tree back if and only if every attribute with its nested list fits 16 bits |
| `NetlinkAttrs.WrapLosesData` | lib/tst_netlink.c:286-311 | 65532 bytes of data are reported as added and leave no trace |
| `NetlinkMessages.WalkAll` | lib/tst_netlink.c:215-243 | walking a buffer visits exactly the messages laid out in it |
| `NetlinkMessages.NextBuilt` | lib/tst_netlink.c:246-284 | a further message goes behind the others, flags the one before it, and leaves all of them in place |
| `NetlinkBatch.GrownBuilt` | lib/tst_netlink.c:286-364 | adding attributes extends the body of the last message and nothing else |
| `NetlinkBatch.BatchInvariant` | lib/tst_netlink.c:29-364 | after any sequence of additions the current message starts at a multiple of 4 and ends the data within the buffer, and the walk visits exactly the messages added, with types, payloads, consecutive sequence numbers and the right flags |
| `NetlinkBatch.SeqNoMod` | lib/tst_netlink.c:275-275 | the i-th sequence number is the first plus i modulo 2^32 |
| `NetlinkBatch.FaultsExactly` | lib/tst_netlink.c:29-53 | adding a message fails if and only if there is no current one, the buffer grows and it is moved |
| `NetlinkBatch.FirstMessageFault` | lib/tst_netlink.c:66-108 | a fresh context faults exactly on payloads above 1008 bytes, if moved |
| `NetlinkBatch.SendFrames` | lib/tst_netlink.c:121-158 | over every batch: several messages, or one the caller flagged, go out all flagged NLM_F_MULTI with an unflagged NLMSG_DONE behind; any other batch goes out as it is |
| `NetlinkContents.BatchContents` | lib/tst_netlink.c:121-364 | over every batch whose attributes each hold at most 65531 bytes: in the buffer and in the bytes sent, decoding what stands behind the payload of each message gives exactly the attributes and lists added to that message, in order |
| `NetlinkAcks.AckedExactly` | lib/tst_netlink.c:446-476 | the check succeeds if and only if the messages that asked have replies at non-decreasing positions with no error at or before the last |
| `NetlinkAcks.FirstError` | lib/tst_netlink.c:459-473 | a refusal reports the first error of all replies; a missing reply means no reply was an error |
| `NetlinkAcks.Parse` | lib/tst_netlink.c:215-243 | counting and recording give exactly the messages of the walk |
| `NetlinkAcks.CheckAcks` | lib/tst_netlink.c:446-476 | the two nested loops over the sent bytes and the replies give that verdict |
| `NetlinkContext.Context.constructor` | lib/tst_netlink.c:66-108 | an idle context with 1024 zero bytes |
| `NetlinkContext.Context.GrowBuffer` | lib/tst_netlink.c:29-53 | the new buffer holds the old bytes followed by zeros, and the current message keeps its offset |
| `NetlinkContext.Context.AddAttr` | lib/tst_netlink.c:286-311 | written in place from the length the current message records, it is the operation on values and keeps the invariant |
| `NetlinkContext.Context.AddMessage` | lib/tst_netlink.c:246-284 | likewise for messages; false where the library would follow a wild pointer |
| `NetlinkContext.Context.AddAttrList` | lib/tst_netlink.c:321-364 | the loop over the list with its recursive calls and back-patching is the list builder on values |
| `NetlinkContext.Context.Send` | lib/tst_netlink.c:121-158 | the bytes sent and the context left are those of the operation on values |
| `Calendar.DaysNext` | lib/tst_rtctime.c:25-44 | from any valid date to the day after, the closed form grows by one |
| `Calendar.DaysCount` | lib/tst_rtctime.c:25-44 | the closed form of the date reached by counting n days from 1970-01-01 is n |
| `Calendar.DaysMonotone` | lib/tst_rtctime.c:25-44 | the closed form is strictly monotone in the order of dates |
| `Calendar.DaysInverse` | lib/tst_rtctime.c:25-44 | every valid date from 1970 on is reached by counting as many days as the closed form says |
| `Calendar.ClosedDaysExact` | lib/tst_rtctime.c:25-44 | in 32-bit arithmetic the closed form is right if and only if 365 times the shifted year fits 32 bits |
| `Calendar.WrapsTooLate` | lib/tst_rtctime.c:25-44 | 1 March 11767034 is wrong by 2^32 days |
| `Calendar.WeekdayExactly` | lib/tst_rtctime.c:61-68 | for every day count, the weekday computed with an int sum and the C remainder is the one reached by counting from a Thursday if and only if the count is at most INT_MAX - 4 |
| `Calendar.LastWeekday` | lib/tst_rtctime.c:61-68 | on the last day of the range the field is -6 instead of 5 |
| `Calendar.TimeToTm` | lib/tst_rtctime.c:58-98 | both loops end, date and time of day are in range and describe the date counted from 1970, the weekday is right if and only if the day count is at most INT_MAX - 4, and tst_rtc_tm_to_time undoes the conversion |
| `Calendar.TmRecovered` | lib/tst_rtctime.c:58-108 | from the time of any valid date and time of day the conversion recovers date, hour, minute and second |
| `Crc32c.TableIsDivision` | lib/tst_checksum.c:6-71 | each of the 256 table entries is its index divided bit by bit by the reflected polynomial 0x82f63b78 |
| `Crc32c.TableStepIsDivision` | lib/tst_checksum.c:77-78 | one table step is eight division steps, for every state and byte |
| `Crc32c.Crc32c` | lib/tst_checksum.c:73-81 | for every buffer the result is the bit-serial CRC32C (section 12.1 of RFC 3720) |
| `Crc32c.BurstDetected` | lib/tst_checksum.c:73-81 | different messages of equal length that agree outside a window of 32 bits have different checksums |
| `Crc32c.FourBytesDetected` | lib/tst_checksum.c:73-81 | in particular every change confined to four consecutive bytes, so to one byte, is detected |
| `CgroupRegistry.FoundByName` | lib/tst_cgroup.c:454-480 | although names are compared as beginnings, every controller is found by its own name |
| `CgroupRegistry.RunPartition` | lib/tst_cgroup.c:582-673 | after any sequence of mounts the V1 roots are a contiguous stretch with non-empty pairwise disjoint controllers, and each back reference leads to a root that has the controller |
| `CgroupRegistry.Rescan` | lib/tst_cgroup.c:582-697 | scanning the same mounts again changes nothing if and only if all V2 mounts list the same controllers; otherwise the second scan breaks off because the V2 controllers changed |
| `CgroupRegistry.RescanBreaks` | lib/tst_cgroup.c:601-621 | a cgroup2 mount without controllers followed by one with any single controller is scanned, and breaks off when it is scanned again |
| `CgroupRegistry.LimitExactly` | lib/tst_cgroup.c:634-652 | the limit fires if and only if all 18 V1 roots are taken and the controllers found are in none of them; then controller 0 is taken too |
| `CgroupRegistry.LimitNeedsZero` | lib/tst_cgroup.c:634-652 | by pigeonhole no run reaches the limit unless a V1 mount names the controller with index 0 |
| `CgroupRegistry.LimitReached` | lib/tst_cgroup.c:634-652 | a table of 19 mounts that does reach it |
| `CgroupScan.FindCtrl` | lib/tst_cgroup.c:454-480 | the two loops find the controller a word names, if it is well formed |
| `CgroupScan.Registry.Scan` | lib/tst_cgroup.c:582-697 | the registry updated in place stays a partition, and ends as the run over the mount table does |

## Left out

- Fuzzy sync: accesses are sequentially consistent, as the library's atomics ask for; weaker memory orders are not modelled.
- Fuzzy sync: an int increment past INT_MAX wraps, as compilers implement it where C leaves it undefined.
- Fuzzy sync: floats are reals, drand48 is any number in [0, 1), the clock and the remaining run time are values from outside, and sched_yield and logging are dropped.
- Fuzzy sync: the delay loops of start_race_a and start_race_b touch no shared field but the delay and are one step; waits a test adds inside its loops are covered by `FuzzyBarrier.BarrierSafety` only.
- Fuzzy sync: exit requested by pair_cleanup after a broken test is not modelled; the cleanup is modelled as the join at the end of a run.
- FuzzySampling.DelayRange: is about real arithmetic and does not model rounding or an int overflow of the delay.
- Constraints: printing expressions in reverse Polish notation and drawing the caret under a wrong token; allocation is taken to succeed.
- Config files: finding, opening and unzipping the file, the 128-byte split of long lines, and the environment variable that skips the check. Lines are given, and a value that no blank ends, where the library reads past the line, is excluded by a precondition for the options asked for.
- Config files: tst_kconfig_get, the kernel command line and the dump of variables.
- Netlink: sockets, poll and sendmsg failing; a host of little-endian byte order, data below 2 GiB and allocation that succeeds.
- Netlink: replies are given with their sequence number and error code; reading the error code out of a truncated error message is not modelled.
- NetlinkContext.Context.AddMessage: returns false where the library has undefined behaviour, because a model cannot follow a wild pointer.
- Calendar: the int sum behind the weekday wraps past INT_MAX, as compilers implement it where C leaves it undefined.
- Calendar: tst_rtc_ioctl and the clock devices; only times from 1970 on whose day count fits an int, as the conversion assumes.
- Cgroups: a bit field of controllers is the set of their indices; mounting, directories, draining processes, groups and the saved configuration are not modelled, and mount options arrive as words.
- The rest of the library (system-call wrappers, devices, file systems, modules, checkpoints, timers, JSON, result reporting) and all test cases: mostly one kernel call with its error branch, which would only add easy members.
