# Verified models of the DTN utilities

Dafny models of the code in this repository whose correctness is hardest to see: how LTP puts blocks
back together, how cron expressions are read and searched, how the HQFBP receive manager stays
within its memory, how byte streams are cut into frames and numbers, and how basket messages are
written and read. Code that changes state is modelled as classes and loops, each proved against a
specification; the laws of those specifications are proved as lemmas over all inputs. Every class
carries its invariant as `Valid()`, which every operation requires and restores, so what `Valid()`
implies holds in every state any run can reach.

`dafny verify dfyconfig.toml` checks the whole project.

| Files | Part of the system |
|---|---|
| `RangeSet.dfy` | the sorted, coalesced set of `u64` ranges |
| `Sessions.dfy` | LTP reassembly of red parts; sender completion |
| `Timers.dfy` | the timer table with its two indices |
| `Calendar.dfy`, `FourYears.dfy`, `Cron.dfy`, `CronBack.dfy`, `LeapDays.dfy` | calendar, `next_after`, `prev_before`, and what their windows reach |
| `CronText.dfy`, `CronParse.dfy`, `CronSchedule.dfy` | parsing of cron expressions |
| `CronMeaning.dfy`, `CronLine.dfy` | what the text of a field and of a line says |
| `RxAccounting.dfy`, `RxTrace.dfy`, `RxList.dfy` | the HQFBP receive manager: its byte counts, what keeps repeats apart, the list of senders |
| `RxStates.dfy`, `RxSteps.dfy`, `RxRuns.dfy` | its states, its operations as functions on them, and runs |
| `RxTally.dfy`, `RxLaws.dfy` | what is counted, remembered and forgotten over runs |
| `RxManager.dfy`, `RxLoss.dfy` | the manager itself, and a run that loses bytes |
| `Kiss.dfy`, `FendStream.dfy`, `KissFrames.dfy`, `KissStream.dfy` | KISS codec and the TCP accumulator |
| `Sdnv.dfy` | self-delimiting numeric values, section 2 of RFC 5326 |
| `GreenBlocks.dfy`, `TransferLedger.dfy` | the LTP driver's green reassembly and its outcome ledger |
| `Cbor.dfy`, `BasketFields.dfy`, `BasketItems.dfy`, `BasketMessages.dfy`, `BasketResponses.dfy`, `BasketLookup.dfy` | basket messages over CBOR tokens, section 3 of RFC 8949 |
| `Basics.dfy`, `Bags.dfy`, `Bits.dfy` | options, integer widths, finite sums, bags, bit masks |

## What the proofs found

Where the code does not do what its documentation says, or what one would expect of it, the model
follows the code, and a lemma says exactly when the two agree.

- `next_after` is documented to return a match at or after its argument. Because the argument is
  floored first, it returns an earlier one exactly when flooring moved the argument and the floored
  instant matches (`Cron.EarlierThanAsked`); for `* * * * *` that is at every time not on a minute
  (`CronSchedule.EveryMinuteAnswersEarlier`).
- `prev_before` can give up although a match lies in its window: `retreat_month` replaces the month
  before the day, so an excluded month entered on a day that the month before does not have cannot be
  left. `CronBack.PrevBeforeExact` gives the exact condition for one search. For all searches of an
  expression it is this: March, May, July, October and December are all in the month mask, or the
  expression never matches (`CronBack.AlwaysFindsIff`). `CronBack.NewYearMissedFromJune` is the case of
  `0 0 1 1 *` asked for on 30 June of any year.
- Four years of the calendar always fit into the window of 1464 days, but a 29 February can be further
  away: after the last one before a century year without it, `next_after` finds none until the
  25 February of that century year (`LeapDays.LeapDayFoundIff`).
- Both searches panic when their window does not fit the representable dates. `next_after` panics in one
  more case and no other: when nothing matches and its window reaches the last unit of the last day.
- A step near 2^32 wraps around in the loop of `parse_item` in a build without overflow checks and
  then sets bits below the start, possibly below the field's minimum; the bitset is what the item
  says exactly when start + step < 2^32 (`CronParse.VisitedIsMeaningIff`). A build with overflow
  checks panics there instead.
- The receive manager's total is not always what its senders hold. It is exact in every state of a run
  exactly when no completed message overdraws its sender: takes more off than the sender holds while other
  senders hold bytes (`RxRuns.RunExactIff`). What opens the way is a message that falls back on all its
  sender's bytes although sessions with bytes stay tracked; before the first such message nothing is
  overdrawn (`RxRuns.NoDriftNoLoss`). `RxLoss.LoseBytes` is a run that loses any number of bytes. The
  limits hold regardless.
- The sparse budget of a red part goes on counting segments that longer ones replaced, so a segment that
  would fit can be refused (`Sessions.ReplacedBytesCount`).
- The receive manager keeps one sender when its sender limit is configured as 0.
- Green reassembly counts repeated bytes twice, so a repeated last segment can make a half-empty block
  pass for a whole one (`GreenBlocks.RepeatPassesForWhole`); for disjoint segments delivery is exact.
  The clean-up above 128 reassemblies never runs, since there are never more than 64.
- A run of the driver leaves an accepted bundle without an outcome exactly when the engine gives out a
  session id that is still pending (`TransferLedger.NothingLostIff`).
- A basket message repeats its experiment tag inside the map, but readers drop that copy: only a tag 44444
  in front of the map counts.
- Unknown unsigned keys are skipped, except that one of 2^63 or more anywhere makes a whole request or
  response fail, because message keys are read as `i64` (`BasketMessages.RequestWithUnknown`).
- The error "field matches nothing" of `parse_field` is never reported.

## Model

| member | source | states |
|---|---|---|
| RangeSets.RangeSet.Insert | ltp/src/range.rs:25-74 | on every path (append, extend the last run, contained, splice) the set becomes its union with the range, stays sorted, non-empty and non-adjacent, and the result is the growth of the covered length |
| RangeSets.AbsorbRuns | ltp/src/range.rs:51-63 | the scan finds exactly the runs the range touches and their merged run; the running count never underflows and ends as the number of new values |
| RangeSets.AbsorbOne | ltp/src/range.rs:57-63 | subtracting the overlap of one more touched run never underflows |
| RangeSets.SplicedInsert | ltp/src/range.rs:65-72 | replacing the touched runs by the merged one is set union with the range |
| RangeSets.NewlyCounts | ltp/src/range.rs:25-74 | the growth of the covered length is the number of values that were not in the set before |
| RangeSets.Canonical | ltp/src/range.rs:9-13 | a set has only one run list |
| RangeSets.CoveredLenCounts | ltp/src/range.rs:90-92 | the covered length is the number of values in the set |
| RangeSets.CoveredLenIsU64 | ltp/src/range.rs:90-92 | the sum of the run lengths fits in a `u64` |
| RangeSets.CoversIffEveryPoint | ltp/src/range.rs:78-86 | `covers` says yes exactly when every value of the range is in the set; completeness rests on coalescing |
| RangeSets.RunsWithinIsIntersection | ltp/src/range.rs:101-107 | for a non-empty scope the clipped runs are the canonical form of the intersection |
| RangeSets.RunsAndGapsTile | ltp/src/range.rs:101-117 | clipped runs and gaps split a non-empty scope exactly, both ascending and without neighbours that touch |
| RangeSets.RunsAreMaximal | ltp/src/range.rs:101-117 | no range of a well-formed list can be enlarged within the set |
| RangeSets.TileLengths | ltp/src/range.rs:101-117 | their lengths add up to that of the scope |
| RangeSets.EmptyScope | ltp/src/range.rs:101-117 | what an empty or inverted scope yields: no gaps, and one degenerate run exactly when a run straddles it |
| RangeSets.GapIter.Next | ltp/src/range.rs:133-161 | each call yields the next element of the list of gaps until it is used up |
| Sessions.RecvSession.InsertRed | ltp/src/engine/session.rs:194-247 | exactly when a segment is refused; an accepted one adds exactly its bytes, a refused one nothing; the buffer, the sparse map, the byte budget and the furthest end after it; buffer, sparse map and range set go on agreeing |
| Sessions.RecvSession.DrainSparse | ltp/src/engine/session.rs:222-236 | the popping loop moves exactly the sparse segments that no longer leave a gap, and keeps every byte received |
| Sessions.NewIsLonger | ltp/src/engine/session.rs:201-203 | a segment stored over one with the same offset is always the longer, so nothing is lost |
| Sessions.BufferIsPrefix | ltp/src/engine/session.rs:214-236 | for slices of one block, in any order, repeated or overlapping, the buffer is a prefix of the block: no padding zero is left in it |
| Sessions.BufferIsMaximal | ltp/src/engine/session.rs:222-236 | the buffer reaches exactly to the first offset never received |
| Sessions.CompleteMeansBuffered | ltp/src/engine/session.rs:251-257 | coverage says complete exactly when the buffer holds the red part, exactly when all its offsets were received |
| Sessions.CompletedBlockIsTheBlock | ltp/src/engine/session.rs:194-257 | a completed session that only got slices of one block holds exactly the red part of that block |
| Sessions.SparseIsBounded | ltp/src/engine/session.rs:237-245 | in every valid session the bytes kept aside never exceed the maximal block size |
| Sessions.ReceiveSlices | ltp/src/engine/session.rs:194-257 | after any slices of one block the buffer is a prefix of it, and a completed session holds its red part |
| Sessions.ReplacedBytesCount | ltp/src/engine/session.rs:237-245 | replaced bytes stay counted: a segment that would fit is refused |
| Sessions.SendSession.Claim | ltp/src/engine/mod.rs:860-869 | a claim adds exactly its part below the red length, and completion is never undone |
| Sessions.CompleteIff | ltp/src/engine/session.rs:96-98 | a sending session is complete exactly when its end was sent and every offset of the red part is claimed |
| Sessions.CoversMonotone | ltp/src/engine/session.rs:96-98 | covering is monotone in the claimed set |
| Timers.EntryOrderIsTotal | ltp/src/engine/timer.rs:9-34 | the derived order on deadline and key is total, antisymmetric and transitive |
| Timers.SessionIsAKeyRange | ltp/src/engine/timer.rs:113-121 | the scanned key range holds the keys of that session and no others |
| Timers.TimerTable.Set | ltp/src/engine/timer.rs:98-103 | one entry is replaced, and the deadline index stays the exact inverse image |
| Timers.TimerTable.Cancel | ltp/src/engine/timer.rs:106-110 | one entry is removed from both indices |
| Timers.TimerTable.CancelSession | ltp/src/engine/timer.rs:113-132 | all and only the timers of the session are removed |
| Timers.TimerTable.PollExpired | ltp/src/engine/timer.rs:135-144 | the earliest due timer, ties broken by key, or none when none is due |
| Timers.TimerTable.PollAllExpired | ltp/src/engine/mod.rs:1139-1142 | polling until none yields exactly the due timers, each once, in (deadline, key) order, and leaves only later ones |
| Timers.DueListIsUnique | ltp/src/engine/timer.rs:135-144 | there is only one such list |
| Timers.TimerTable.NextDeadline | ltp/src/engine/timer.rs:148-150 | the least deadline, or none for an empty table |
| Calendar.DaysBeforeYearClosed | dtn-hdy-ham/src/coordinator/cron.rs:453-467 | counting days year by year agrees with the Gregorian closed form for all years |
| Calendar.SameSecond | dtn-hdy-ham/src/coordinator/cron.rs:188-225 | a second belongs to one date and time only |
| Calendar.EverySecond | dtn-hdy-ham/src/coordinator/cron.rs:188-225 | every second of the range is a date and time, so the naive search misses none |
| Calendar.WeekdayAnchor | dtn-hdy-ham/src/coordinator/cron.rs:205-208 | the weekday count agrees with a known date |
| Calendar.AddDayIsNext | dtn-hdy-ham/src/coordinator/cron.rs:380-389 | the next calendar day has the next day number, except after the last day |
| Cron.AdvanceIsSound | dtn-hdy-ham/src/coordinator/cron.rs:196-220 | every skip, by month, day, hour, minute or second, passes only non-matching seconds |
| Cron.AdvanceMonthIsSound | dtn-hdy-ham/src/coordinator/cron.rs:391-408 | the skip to the next month passes only seconds of the excluded month |
| Cron.NextAfter | dtn-hdy-ham/src/coordinator/cron.rs:188-225 | the least matching second from the floored time to 1464 days later; found exactly when one lies in those 1464 days, and always when one lies within four years of the calendar; a panic exactly when the window does not fit or, with nothing matching, it reaches the last stop; it terminates |
| Cron.WindowAhead | dtn-hdy-ham/src/coordinator/cron.rs:194 | the window is 1464 days in seconds, and fits exactly when that is a representable time |
| FourYears.FourYearsInSeconds | dtn-hdy-ham/src/coordinator/cron.rs:194 | a date not after the same one four years on is less than 1463 days away |
| LeapDays.LeapDayFoundIff | dtn-hdy-ham/src/coordinator/cron.rs:186-225 | a 29 February is found from every time except after the last one before a century year without it and before the 25 February of that year |
| Cron.FirstMatchIsUnique | dtn-hdy-ham/src/coordinator/cron.rs:183-188 | the least match is determined |
| Cron.EarlierThanAsked | dtn-hdy-ham/src/coordinator/cron.rs:184-192 | exactly when the result lies before the time asked for |
| Cron.SecondsAreKept | dtn-hdy-ham/src/coordinator/cron.rs:188-192 | an expression that allows another second than 0 never answers with an earlier second |
| CronSchedule.EveryMinuteAnswersEarlier | dtn-hdy-ham/src/coordinator/cron.rs:184-192 | for `* * * * *` the answer at any time not on a minute lies before it |
| CronBack.RetreatIsSound | dtn-hdy-ham/src/coordinator/cron.rs:238-262 | every step back passes only non-matching seconds, or gives up only in a month it cannot leave |
| CronBack.RetreatMonthIsSound | dtn-hdy-ham/src/coordinator/cron.rs:431-451 | stepping back a month fails exactly when the day does not exist in the month before |
| CronBack.PrevBefore | dtn-hdy-ham/src/coordinator/cron.rs:230-267 | what is found is the latest match of the window; a match within 1464 days is never missed unless an obstructed month hides it, and nothing further away is found; a panic only when the window does not fit, or starts on the first representable day with nothing matching; it terminates |
| CronBack.FourYearsAreBehind | dtn-hdy-ham/src/coordinator/cron.rs:236 | a match not before the same date and clock time four years earlier lies in the window |
| CronBack.PrevBeforeExact | dtn-hdy-ham/src/coordinator/cron.rs:230-267 | the latest match of the window is found exactly when no obstructed month lies after it |
| CronBack.AlwaysFindsIff | dtn-hdy-ham/src/coordinator/cron.rs:227-267 | every search of an expression finds its latest match exactly when the mask has March, May, July, October and December or nothing ever matches |
| CronBack.LongMonthsSuffice | dtn-hdy-ham/src/coordinator/cron.rs:431-451 | with those months in the mask no month obstructs the search |
| CronBack.NewYearMissedFromJune | dtn-hdy-ham/src/coordinator/cron.rs:431-451 | in every year, 1 January is not found from 30 June |
| CronText.SplitThenJoin | dtn-hdy-ham/src/coordinator/cron.rs:279-284 | splitting a list loses nothing and leaves no separator |
| CronText.JoinThenSplit | dtn-hdy-ham/src/coordinator/cron.rs:279-284 | items without separators, joined, are split into themselves |
| CronText.NumberIff | dtn-hdy-ham/src/coordinator/cron.rs:303-304 | exactly the texts read as a number: an optional plus, zeros, and its decimal digits, below 2^32 |
| CronParse.ValuesIgnoreCase | dtn-hdy-ham/src/coordinator/cron.rs:294-305 | names and numbers are read alike in any letter case |
| CronParse.ReadItemIsSound | dtn-hdy-ham/src/coordinator/cron.rs:307-347 | an item that is read starts and ends within the field's bounds and has a positive step |
| CronParse.SweepBits | dtn-hdy-ham/src/coordinator/cron.rs:349-358 | the bit loop terminates and sets exactly the values its wrapping counter visits |
| CronParse.VisitedIsMeaningIff | dtn-hdy-ham/src/coordinator/cron.rs:349-358 | those are start, start + step, ... up to the end exactly when start + step < 2^32; otherwise they are the values stepping down from the start |
| CronParse.ParseField | dtn-hdy-ham/src/coordinator/cron.rs:276-291 | the bitset holds exactly the union of the items' values, and the first bad item decides the error |
| CronParse.FieldIsUnion | dtn-hdy-ham/src/coordinator/cron.rs:276-291 | a field can be read exactly when all its items can; without wrapping it allows a value exactly when some item says so |
| CronParse.FieldInBounds | dtn-hdy-ham/src/coordinator/cron.rs:276-359 | no value exceeds the maximum, and none is below the minimum unless a step wrapped |
| CronParse.FieldNeverEmpty | dtn-hdy-ham/src/coordinator/cron.rs:286-288 | "field matches nothing" is never the error |
| CronMeaning.ValueIff | dtn-hdy-ham/src/coordinator/cron.rs:293-305 | a text is read as a value exactly when it spells its number or, in any letter case, its name |
| CronMeaning.ItemMeans | dtn-hdy-ham/src/coordinator/cron.rs:307-359 | an item written `*`, `a` or `a-b`, with or without `/n`, allows exactly a, a + n, ... up to its end; near 2^32 exactly what lies a whole number of wrapped steps below |
| CronMeaning.ItemReadIff | dtn-hdy-ham/src/coordinator/cron.rs:307-347 | exactly the texts that write such a form within the bounds are read |
| CronMeaning.ItemErrorIff | dtn-hdy-ham/src/coordinator/cron.rs:307-347 | exactly when an item is refused, and with which error |
| CronMeaning.FieldMeans | dtn-hdy-ham/src/coordinator/cron.rs:276-291 | a field is read exactly when all its items are, and allows what one of them allows |
| CronMeaning.FieldErrorIff | dtn-hdy-ham/src/coordinator/cron.rs:276-291 | exactly when a field is refused: its first wrong item decides |
| CronSchedule.ParseDow | dtn-hdy-ham/src/coordinator/cron.rs:362-366 | the days of the field with 7 folded onto 0 |
| CronSchedule.CastKeeps | dtn-hdy-ham/src/coordinator/cron.rs:91-95 | the narrowing casts of the bitsets lose no value |
| CronSchedule.Parse | dtn-hdy-ham/src/coordinator/cron.rs:73-88 | the bitsets hold exactly the values the text stands for, shortcuts being abbreviations of five fields; otherwise the same error |
| CronSchedule.ShortcutIsLongForm | dtn-hdy-ham/src/coordinator/cron.rs:127-177 | each shortcut's constants are what its five fields parse to |
| CronSchedule.ShortcutIsItsText | dtn-hdy-ham/src/coordinator/cron.rs:127-177 | writing the shortcut in any letter case is writing the five fields |
| CronSchedule.FiveIsSixAtZero | dtn-hdy-ham/src/coordinator/cron.rs:90-125 | five fields are six with second 0 |
| CronSchedule.LineIsFields | dtn-hdy-ham/src/coordinator/cron.rs:74-87 | fields written on one line are read as those fields |
| CronSchedule.MatchesMeans | dtn-hdy-ham/src/coordinator/cron.rs:196-219 | the bit tests of the search accept an instant exactly when each parsed field allows it |
| CronLine.Names | dtn-hdy-ham/src/coordinator/cron.rs:53-56 | which value each name of a month or day stands for |
| CronLine.LineReadIff | dtn-hdy-ham/src/coordinator/cron.rs:73-125 | a line is read exactly when it is five or six fields within their bounds |
| CronLine.LineErrorIff | dtn-hdy-ham/src/coordinator/cron.rs:73-125 | exactly when a line is refused: a wrong number of fields, or its first wrong field |
| CronLine.LineMatches | dtn-hdy-ham/src/coordinator/cron.rs:73-219 | from text to instants: the parsed expression matches exactly the instants whose every part an item of its field allows, Sunday being 0 and 7 |
| CronLine.ShortcutMatches | dtn-hdy-ham/src/coordinator/cron.rs:127-177 | the instants each shortcut stands for |
| CronLine.OfficeHours | dtn-hdy-ham/src/coordinator/cron.rs:73-359 | `0 9-17 * * *` matches exactly the full hours from 9 to 17 |
| CronLine.LeapDayText | dtn-hdy-ham/src/coordinator/cron.rs:73-359 | `0 0 29 2 *` matches midnight of 29 February and nothing else |
| CronSchedule.RepresentsOneWay | dtn-hdy-ham/src/coordinator/cron.rs:34-43 | expressions that allow the same values have equal bitsets |
| RxList.ListedMeans | hqfbp-cla/src/session.rs:142-147 | the list holds each sender once and is ordered by last activity |
| RxList.TouchListed | hqfbp-cla/src/session.rs:142-147 | moving a sender to the end keeps the list complete, duplicate-free and ordered |
| RxList.OldestIsFirst | hqfbp-cla/src/session.rs:149-162 | the first permitted entry of the list is the least recently active permitted sender |
| RxManager.RxSessionManager.EvictOldestSender | hqfbp-cla/src/session.rs:149-180 | the least recently active permitted sender goes and the total falls by its bytes, or there is none and nothing changes |
| RxAccounting.FitAfterReleaseIff | hqfbp-cla/src/session.rs:290-311 | exactly when the per-session counts of a sender go on fitting its count after a release; while they fit, no subtraction saturates |
| RxAccounting.ExactAfterReleaseIff | hqfbp-cla/src/session.rs:308-314 | exactly when an exact total stays exact after a release, and by how much it falls short otherwise |
| RxAccounting.ReleaseCounted | hqfbp-cla/src/session.rs:290-314 | completing a message keeps the total at most the sum of the senders' bytes |
| RxManager.ReleaseSessions | hqfbp-cla/src/session.rs:296-307 | the loop over finished ids sums exactly the bytes of those that were tracked |
| RxStates.RoomForBytesKeeps | hqfbp-cla/src/session.rs:222-230 | the eviction loop keeps the invariant, evicts no sender more recent than one kept, and fails only when the PDU's own sender alone is left |
| RxManager.RxSessionManager.MakeRoomForBytes | hqfbp-cla/src/session.rs:222-230 | the loop terminates in the state of its specification and says whether the PDU fits |
| RxSteps.RefusedIffOverfull | hqfbp-cla/src/session.rs:222-230 | a PDU within the cap is refused only when its own sender's bytes leave no room; when the total is exact, exactly then |
| RxSteps.PduKeeps | hqfbp-cla/src/session.rs:187-257 | whatever the PDU and the events after it, the invariant and both limits hold |
| RxManager.RxSessionManager.ProcessPdu | hqfbp-cla/src/session.rs:187-257 | the whole state after a PDU, its outcome, and when it is refused |
| RxManager.RxSessionManager.CompleteMessage | hqfbp-cla/src/session.rs:269-322 | a repeat changes nothing but the clock; anything else is emitted, remembered, and its sender's bytes released |
| RxManager.RxSessionManager.PollDeframerEvents | hqfbp-cla/src/session.rs:259-331 | the events are handled in order: the whole state after them, and exactly which messages they queue |
| RxStates.BatchEmits | hqfbp-cla/src/session.rs:259-331 | a batch queues exactly the messages with payloads not remembered, in order, with their resolved ids |
| RxManager.RxSessionManager.DrainCompletedMessages | hqfbp-cla/src/session.rs:334-337 | everything queued and newly reported is handed over once; the whole state after it |
| RxManager.RxSessionManager.SweepExpiredAt | hqfbp-cla/src/session.rs:344-373 | exactly what is old enough is forgotten, and the total falls by the bytes of the senders removed |
| RxSteps.SweepKeepsState | hqfbp-cla/src/session.rs:344-373 | sweeping keeps the invariant, both limits and an exact total |
| RxList.SweepDropsAPrefix | hqfbp-cla/src/session.rs:348-365 | whatever the order of removal, what leaves the list is a prefix of it |
| RxTrace.EmitKeeps | hqfbp-cla/src/session.rs:275-285 | emitting keeps this: equal payloads of one sender are always separated by an old enough sweep |
| RxTrace.SweepKeeps | hqfbp-cla/src/session.rs:367-370 | sweeping keeps it too |
| RxRuns.RunKeeps | hqfbp-cla/src/session.rs:187-373 | over any run of PDUs, drains and sweeps, with any events, the invariant and both limits hold in every state |
| RxRuns.RunSeparatesRepeats | hqfbp-cla/src/session.rs:259-373 | over any run, two messages with the same sender and payload hash are separated by a sweep old enough for the first |
| RxRuns.BatchExactIff | hqfbp-cla/src/session.rs:259-331 | the total is exact after every event of a batch exactly when none of its completions overdraws |
| RxRuns.RunExactIff | hqfbp-cla/src/session.rs:187-373 | the total is what the senders hold in every state of a run exactly when no completion overdraws |
| RxRuns.NoDriftNoLoss | hqfbp-cla/src/session.rs:290-314 | as long as no completion falls back on everything while sessions with bytes are tracked, none overdraws |
| RxTally.RunTells | hqfbp-cla/src/session.rs:187-373 | over any run each session's count is the sum of the PDUs taken in for it since it was last released, evicted or swept, and just those sessions are tracked |
| RxTally.CompletionTakesTally | hqfbp-cla/src/session.rs:290-314 | a completed message with a tracked id takes exactly that sum off its sender and the total, and ends that session alone |
| RxTally.CompletionWithoutId | hqfbp-cla/src/session.rs:290-314 | a completed message without id takes everything tracked, or all its sender has when nothing is |
| RxLaws.WelcomeIsCharged | hqfbp-cla/src/session.rs:187-257 | a PDU that is no chunk of a completed message and has room with its own sender is accepted and charged to that sender alone |
| RxLaws.NobodyEvicted | hqfbp-cla/src/session.rs:215-230 | nobody is evicted while there is a place and room |
| RxLaws.EmissionsAreFresh | hqfbp-cla/src/session.rs:259-331 | a batch emits exactly the messages neither remembered nor repeated in it, each with its own id or that of the last PDU seen from its sender |
| RxLaws.CompletionIsRemembered | hqfbp-cla/src/session.rs:290-306 | an emitted message completes its session, or all its sender's sessions when it has no id |
| RxLaws.LaterChunksAreDropped | hqfbp-cla/src/session.rs:205-213 | over any run, chunks of a completed message change nothing until a sweep reaches back to its completion |
| RxLaws.SweepForgetsExactly | hqfbp-cla/src/session.rs:344-373 | a sweep forgets exactly what is old enough and keeps the rest as it is |
| RxManager.Run | hqfbp-cla/src/session.rs:187-373 | any list of operations on the manager ends in the state of the specification, hands over exactly its messages, keeps both limits throughout, and keeps each session count the sum of what was taken in |
| RxLoss.LoseBytes | hqfbp-cla/src/session.rs:290-314 | for any byte counts x and y a run through the manager after which y bytes are held and only y - x, or none, counted |
| Kiss.CommandSurvives | ltp/src/kiss.rs:66-96 | a command survives the wire exactly when it is named or unknown with a code of 7 to 14 |
| Kiss.BadIffBroken | ltp/src/kiss.rs:158-191 | exactly the pieces with an escape octet not followed by one of its two codes cannot be unescaped |
| Kiss.Escape | ltp/src/kiss.rs:126-149 | the run-copying loop escapes byte by byte |
| Kiss.EscapedHasNoFend | ltp/src/kiss.rs:126-149 | escaped data never contains the frame delimiter |
| Kiss.UnescapeBytes | ltp/src/kiss.rs:158-191 | the run-copying loop undoes escapes byte by byte and reports the first bad one |
| Kiss.UnescapeEscaped | ltp/src/kiss.rs:126-191 | unescaping undoes escaping |
| FendStream.FramesOfConcat | ltp/src/kiss.rs:221-293 | only the unterminated tail of what was read matters for what follows |
| FendStream.FirstFrameIsHead | ltp/src/kiss.rs:221-293 | the first frame with its consumed count is the head of the list of all frames, and the rest reads as the rest |
| FendStream.FirstFrameStable | ltp/src/kiss.rs:221-293 | a frame once found stays the same however the buffer is extended |
| KissFrames.EncodeFrame | ltp/src/kiss.rs:194-208 | exactly the delimited, escaped frame is appended |
| KissFrames.DecodeFrame | ltp/src/kiss.rs:221-293 | refines: cut at the delimiter, drop the unterminated tail, return the first non-empty piece that unescapes |
| KissFrames.FramesOfEncoded | ltp/src/kiss.rs:194-293 | one encoded frame reads back as that frame, port and command code modulo 16, whatever follows |
| KissFrames.NoiseIsSkipped | ltp/src/kiss.rs:221-293 | encoded frames with badly escaped pieces between them read back as exactly those frames |
| KissFrames.QuietIffNoFrame | ltp/src/kiss.rs:221-293 | noise yields no frame exactly when each of its pieces is empty or has a broken escape |
| KissStream.TakeFrames | ltp-cla/src/driver.rs:435-457 | the cursor loop extracts all complete frames and keeps what stands for the unread tail |
| KissStream.KissReader.Read | ltp-cla/src/driver.rs:424-457 | one read hands on the next payloads of the stream and keeps exactly the bytes after the last frame; the past is dropped exactly when the cap would be exceeded |
| KissStream.KissReader.ReadAll | ltp-cla/src/driver.rs:424-457 | however a stream is cut into chunks, the payloads are those of reading it at once |
| KissStream.PayloadsOfWire | ltp-cla/src/driver.rs:435-440 | what is handed on of a wire: exactly the payloads of the frames sent with command code 0, in order |
| KissStream.ReceiveWire | ltp-cla/src/driver.rs:424-457 | end to end: frames sent with noise between them, cut into any chunks within the cap, give the engine exactly the payloads of the data frames |
| KissStream.ShortFrames | ltp/src/kiss.rs:194-208 | the octets of three short frames |
| Sdnv.EncodedLenIsLeast | ltp/src/sdnv.rs:38-41 | the encoded length is the least number of 7-bit groups that hold the value |
| Sdnv.EncodeToArray | ltp/src/sdnv.rs:47-62 | the used octets are an SDNV of exactly the value, the rest of the array is zero |
| Sdnv.Encode | ltp/src/sdnv.rs:65-68 | exactly those octets are appended |
| Sdnv.DecodesEncoding | ltp/src/sdnv.rs:47-105 | decoding what was written gives the value and the encoded length, whatever follows |
| Sdnv.NoneShorter | ltp/src/sdnv.rs:38-105 | no accepted encoding of a value is shorter than the one written |
| Sdnv.PaddingKeepsValue | ltp/src/sdnv.rs:72-74 | leading 0x80 octets do not change the value |
| Sdnv.Decode | ltp/src/sdnv.rs:80-105 | a value exactly when the first octet without continuation ends at most ten octets whose base-128 value is below 2^64; truncated exactly for fewer than ten octets that all continue; overflow otherwise |
| Sdnv.AnswerIsUnique | ltp/src/sdnv.rs:80-105 | there is one right answer for every input |
| GreenBlocks.GreenTable.Arrive | ltp-cla/src/driver.rs:726-831 | what each segment does to the table: delivered whole, dropped, or added to its reassembly, which is delivered and forgotten once the byte count fires; others keep their segments and go only when a new session finds 64 open and they were idle for 60 seconds |
| GreenBlocks.CountIsCoverage | ltp-cla/src/driver.rs:791-801 | counted bytes are at least the offsets covered, and equal to them for disjoint segments |
| GreenBlocks.AssembledShows | ltp-cla/src/driver.rs:791-798 | for slices of one block the buffer shows the block where covered and zeros elsewhere |
| GreenBlocks.DeliveredIsBlockIff | ltp-cla/src/driver.rs:801-806 | what is delivered is the block exactly when the block is zero wherever nothing was received |
| GreenBlocks.FiresIffWhole | ltp-cla/src/driver.rs:801-804 | for disjoint slices the test fires exactly when every offset and the end mark have arrived |
| GreenBlocks.DisjointDeliverBlock | ltp-cla/src/driver.rs:801-823 | for disjoint slices the delivered bytes are the block |
| GreenBlocks.ArrivalKeepsReady | ltp-cla/src/driver.rs:726-831 | an arrival of any session keeps every open reassembly made of disjoint slices of its own block |
| GreenBlocks.ReceiveAll | ltp-cla/src/driver.rs:726-831 | for disjoint slices of any number of blocks, interleaved in any way, everything delivered is the whole block of its session |
| GreenBlocks.RepeatPassesForWhole | ltp-cla/src/driver.rs:798-806 | any block's last half, received twice, passes for the whole block |
| TransferLedger.Ledger.HandleForward | ltp-cla/src/driver.rs:568-594 | the reply, the accepted and pending bundles, and that a bundle is lost exactly when its session id comes back while it is pending |
| TransferLedger.Ledger.DrainNotices | ltp-cla/src/driver.rs:653-713 | each pending session is reported once, by the first notice of its end: completed as completed, cancelled as failed |
| TransferLedger.ReportedIsTold | ltp-cla/src/driver.rs:691-713 | the notices one by one report the same as the first notice of each session |
| TransferLedger.PendingAfterMeans | ltp-cla/src/driver.rs:691-713 | a session stops being pending exactly when a notice ends it |
| TransferLedger.Ledger.FailPending | ltp-cla/src/driver.rs:625-632 | everything still pending is reported failed, each once |
| TransferLedger.Ledger.Run | ltp-cla/src/driver.rs:152-163 | by exit each accepted bundle has had exactly one outcome, except exactly those whose session id was given out again while pending; the outcome is what the first ending of its session after acceptance says, and failed without one; over all interleavings |
| TransferLedger.TurnSettles | ltp-cla/src/driver.rs:568-713 | what a turn reports and what is still to come is what was to come, and the fate of the bundle it accepts |
| TransferLedger.NothingLostIff | ltp-cla/src/driver.rs:568-594 | a run loses nothing exactly when no answer reuses a session id that is still pending |
| TransferLedger.FreshNeverReuses | ltp-cla/src/driver.rs:568-594 | with ids never given out twice no pending one is reused |
| TransferLedger.CountsAddUp | ltp-cla/src/driver.rs:567-713 | at every moment accepted = outcomes + pending + lost, and no bundle has more outcomes than acceptances |
| Cbor.ReadFlat | src/basket.rs:359-414 | what is written for an item is read back as that item, whatever follows |
| Cbor.FlatOfRead | src/basket.rs:201-218 | whatever can be read has heads that agree with its contents |
| Cbor.ReadMap | src/basket.rs:214-264 | the entry loop of all five readers: entries in order, first error ends it |
| Cbor.ReadArray | src/basket.rs:230-240 | the element loop: values in order, first error ends it |
| BasketFields.OpenedAll | src/basket.rs:360-377 | the head of a finished map announces exactly the entries written |
| BasketFields.FormatOfNumber | src/basket.rs:162-173 | a numeric format is kept as its decimal digits, without leading zeros |
| BasketFields.HexReadsBack | src/basket.rs:183-186 | request ids given as bytes become two digits for each octet, which are its value |
| BasketFields.HexOneWay | src/basket.rs:183-186 | request ids given as different bytes stay different |
| BasketFields.SkippedAnywhere | src/basket.rs:260-262 | exactly what an unknown entry does at any position: nothing, or failure when its value is nested too deep |
| BasketFields.SkipsTenLevels | src/basket.rs:18 | values nested ten deep are skipped, deeper ones refused |
| BasketItems.EmitRequestItem | src/basket.rs:356-414 | the tokens of the item with a truthful head are appended |
| BasketItems.RequestItemRoundTrip | src/basket.rs:201-414 | reading undoes writing |
| BasketLookup.RequestItemIsLookup | src/basket.rs:201-281 | each field is the value of the last entry with its key, or its default |
| BasketItems.RequestItemIgnoresUnknown | src/basket.rs:260-262 | entries with keys from 7 on change nothing at any position |
| BasketItems.EmitMetadata | src/basket.rs:460-500 | the tokens of the metadata with a truthful head are appended |
| BasketItems.MetadataRoundTrip | src/basket.rs:460-611 | reading undoes writing |
| BasketLookup.MetadataIsLookup | src/basket.rs:564-611 | each field is the value of the last entry with its key, or its default |
| BasketItems.MetadataIgnoresUnknown | src/basket.rs:592-594 | entries with keys from 5 on change nothing at any position |
| BasketItems.EmitResponse | src/basket.rs:502-531 | the tokens of the item response with a truthful head are appended |
| BasketItems.ResponseRoundTrip | src/basket.rs:502-657 | reading undoes writing |
| BasketLookup.ResponseIsLookup | src/basket.rs:613-657 | each field is the value of the last entry with its key, or its default |
| BasketItems.ResponseIgnoresUnknown | src/basket.rs:639-641 | entries with keys from 4 on change nothing at any position |
| BasketMessages.EmitRequest | src/basket.rs:416-458 | the tokens of the request with a truthful head are appended |
| BasketMessages.RequestRoundTrip | src/basket.rs:283-458 | under any tags reading undoes writing, except that only a tag 44444 in front sets the experiment tag |
| BasketLookup.RequestByKeys | src/basket.rs:283-352 | a request that is read holds the last value of each key and the elements of all its items arrays, in whatever order the entries come |
| BasketMessages.RequestOnTheWire | src/bin/dtnbasket-cli.rs:298-301 | the tagged token stream reads back as the request with experiment tag 44444, and what follows is left |
| BasketMessages.RequestIgnoresUnknown | src/basket.rs:329-331 | unknown unsigned keys below 2^63 change nothing at any position, under any tags |
| BasketMessages.RequestWithUnknown | src/basket.rs:299-331 | exactly what an unknown unsigned key does at any position: from 2^63 on it refuses the whole request, with a value nested too deep too, otherwise it changes nothing |
| BasketMessages.RequestItemReplaced | src/basket.rs:317-328 | an item may be replaced by one that reads the same, such as one with unknown entries |
| BasketMessages.RequestItemsAddUp | src/basket.rs:317-328 | repeating the items key adds to the list |
| BasketMessages.RequestNeedsBoth | src/basket.rs:335-336 | a readable request is refused exactly when version or request id is missing |
| BasketResponses.EmitReply | src/basket.rs:533-561 | the tokens of the response with a truthful head are appended |
| BasketResponses.ReplyRoundTrip | src/basket.rs:533-718 | under any tags reading undoes writing, except for the experiment tag |
| BasketLookup.ReplyByKeys | src/basket.rs:659-718 | a response that is read holds the last value of each key and the elements of all its items arrays |
| BasketResponses.ReplyOnTheWire | src/bin/dtnbasket.rs:932-933 | the tagged token stream reads back as the response with experiment tag 44444 |
| BasketResponses.ReplyWithUnknown | src/basket.rs:668-699 | exactly what an unknown unsigned key does at any position of a response |
| BasketResponses.ReplyIgnoresUnknown | src/basket.rs:697-699 | unknown unsigned keys below 2^63 change nothing at any position |
| BasketResponses.ResponseReplaced | src/basket.rs:685-696 | an item response may be replaced by one that reads the same |
| BasketResponses.MetadataReplaced | src/basket.rs:633-635 | and so may its metadata |
| BasketResponses.ReplyNeedsBoth | src/basket.rs:703-704 | a readable response is refused exactly when version or request id is missing |

## Left out

- The LTP engine's own steps and the segment parser and writer: the driver model takes the engine as an oracle that answers and notifies as it likes; `pad_segment_for_tnc` rests on the segment codec.
- Sockets, select loops, reconnection, task pools, logging, and the address and peer maps: an outcome or bundle counts as delivered when it is handed to the sink or to a task.
- The external libraries for HQFBP, CBOR, bundles and time: only their interface is modelled. Scalars with tags are refused, skipping counts nested arrays and maps, and an unsigned key of 2^63 or more does not fit an `i64`, as assumed of the CBOR library.
- Byte encoding of CBOR heads and text, indefinite-length arrays and maps, and the "shortest form" flag: messages are read from whole items. A truncated item is refused before its fields are looked at, so which error a truncated message gives is not modelled.
- The hash of payloads in the receive manager: it is an arbitrary function; collisions count as repeats. Peer encodings are left out.
- The deframer: any finite list of events may follow a PDU, and the clock is any non-decreasing reading. Header unpacking is a parameter.
- Machine words: `usize` has 64 bits. `received_bytes` of a green reassembly is unbounded; it would take 2^40 repeats to wrap around.
- Texts of errors and the `Display` form of cron expressions: errors are kept as kinds with their offending value.
- Leap seconds and time zones: the searches work in UTC, as the source does, on years -9999 to 9999.
- In-place buffers that the source reuses for speed (`reserve`, bulk copies into one vector): vectors are sequences that methods extend; aliasing is not modelled. Only `encode_to_array` fills an array.
- Routing, service tracking, coordinator loop, web server, user interface, configuration and the command-line programs: small maps and plumbing that would only add easy members.
