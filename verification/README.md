# Verified models of the analysis, replay and maintenance scripts

This project models the algorithms that the repository's analysis, replay and maintenance scripts rely on, and
proves what their comments, tests and callers take for granted. Each module is one component; loops and mutable
state in the scripts are loops and mutable state here, proved against specification functions, and the laws are
lemmas about those functions. `dafny verify dfyconfig.toml` checks everything.

* **ATR trailing stops** (`AtrTrail`, `AtrFields`, `AtrBatch`, `AtrStream`, `AtrParity`, `AtrLaws`, `AtrSessions`).
  `AtrTrail` defines the columns of a bar as a function of the bars so far. The three-pass batch engine and the
  streaming engine are both proved to compute exactly those columns, so they agree; the laws of the average, the stop
  and the flips are proved once, about the definition.
* **Fill accounting** (`Fills`, `FillGroups`, `ExitPairing`, `LegResults`). Union-find with path halving against
  connectedness, first-in-first-out inventory against a closed form, and the two reports that divide by it.
* **Window rise** (`RiseWindow`) and **bar agreement** (`BarParity`). The monotonic deque against the definition over
  all pairs; the acceptance counts against "every second's bar is reproduced".
* **Streaming readers** (`ByteLines`, `CsvFields`, `JsonText`, `TapeLines`, `TapeFields`, `SecondCounts`, `TapeScanner`,
  `TapeCuts`, `PartialDay`, `LogCursor`, `BarSpool`, `EventMerge`). The chunked scanner, its set-based twin, the log
  cursor and the one-second spool with its merge, each against a definition over the whole input.
* **Retention pruner** (`Pruner`). A budgeted, clocked run over tables with a foreign key, and its closed form.
* **Trading rules** (`Halts`, `NameDay`, `NameDayFields`, `NameDayLaws`, `Lookahead`, `HaltRule`, `HaltFields`,
  `FloorLadder`, `LadderFields`, `StopSweep`, `SweepFields`). The arm/pull/fill day and exactly when it looks ahead, the
  halt-aware exits, and what moving a parameter can do.
* **Pairing and repair** (`LegPairing`, `GapRepair`).

The definitions that the other results share are pinned to the data themselves. The `...Fields` modules, and the lemmas
`...InFields` elsewhere, say what each operation answers in terms of bars, fills, rows, quotes, prices and times alone,
without the names of the definitions: which price a threshold means, which rows a cutoff expires, when a bar arms.

Prices are exact `real`s, times are integers in the unit the script uses. `Wrappers`, `Arithmetic` and `Sequences` hold
what several modules share; every product and quotient that a law depends on is handled in `Arithmetic` or in a lemma
of its own. Every lemma is marked `{:induction false}`: its own recursive calls are its induction, and nothing rests on
hypotheses that the verifier adds by itself.

## Where the code does less than its description

* Flips alternate within a session only. After a reset the state is long again, so the flips of a sliced pass
  alternate exactly when no session that ended short is followed by one with a flip
  (`AtrSessions.SlicedFlipsAlternate`); two flat sessions report SELL twice (`AtrSessions.TwoSells`).
* `_max_rise_pct` compares each trade with the least price of its window. That gives the trade its greatest rise exactly
  when its price is zero, or positive with all references of the low's sign, or negative with every reference of that
  sign equal to the low (`RiseWindow.LowIsGreatest`): always for positive prices, not for
  -1, -2, -3 (`RiseWindow.NegativePricesUnderreport`).
* The scanner bounds the carried part of a line before its carriage return is removed, so a readable stream can be
  refused for where its reads end. No cutting is ever refused exactly when every raw line has at most 4096 bytes
  (`TapeCuts.CutsNeverMatter`). With reads that fill the buffer, a readable stream is refused exactly when a read ends
  right after the carriage return of a line of 4097 bytes, at a multiple of 1 MiB or at the end of the stream
  (`TapeCuts.BufferedCuts`). The latter is a last line without a newline, refused however it is cut, while the same line
  with its newline is accepted in one read (`TapeCuts.CarriageReturnCutFails`).
* `actual_leg_result` divides by the entry's quantity. The result is the mean of the exits exactly when they close that
  quantity and no more, or brought nothing (`LegResults.MeanExactlyWhenFull`); the FIFO matching guarantees it
  (`LegResults.ActualResultIsWeightedMean`), exits of another origin need not (`LegResults.OverclosedLegIsMispriced`).
* In `choose_outcome` a threshold seen only while halted can lose to the boundary or to the opposite threshold
  (`HaltRule.HaltedTargetMayLose`; exactly when: `HaltRule.TargetOutcome`, `HaltRule.StopOutcome`,
  `HaltRule.MissingTargetOutcome`, `HaltRule.MissingStopOutcome`).
* The quote at the boundary is searched without regard to the entry, so an exit can be priced before its purchase. No
  rule ever does so exactly for legs bought at or before the event's SELL, or, without one, at least ten seconds before
  the cutoff (`HaltRule.ExitFollowsEntry`); every other leg has quotes at which each of the four rules does
  (`HaltRule.LateExitPrecedes`). A later leg of an event can be such a leg: its SELL is searched from the first leg on
  (`scripts/actual_resting_entry_flip_window.py:71-79`).
* A fill is written when a later session bar is processed, so what a name-day shows by a time t can depend on whether
  a bar that begins after t is listed: exactly when, after the bars begun by t, the day is armed and a break known by t
  lies in none of their intervals (`Lookahead.NoLookahead`). With a hole in the minute bars such a fill shows or not
  (`Lookahead.LaterBarShowsTheFill`). The gate and the body verdict never depend on it.
* A minute close arms after the touch only when the close of the session lies on a minute
  (`FloorLadder.UnalignedCloseArmsLate`); the script's 10:00 does.
* The gap report and the absent minutes of a symbol agree if and only if, wherever neighbouring bars have a whole minute
  between them, the first lies on the minute and the second at least two minutes later (`GapRepair.MissingIsAbsent`;
  for one pair of bars: `GapRepair.MinuteIsReported`). Bars at 0 s and 90 s hide minute 1
  (`GapRepair.UnalignedBarsHideAMinute`).

## Model

| member | source | states |
|---|---|---|
| AtrTrail.HistoryRecurrence | analysis/atr_flip.py:57-116 | the columns appear from the first valid range and from the seed bar on, the seed opens a long stop one loss under the close, and each later row follows from the one before by one Wilders step and one step of the flip machine |
| AtrTrail.SeedRecurrence | analysis/atr_flip.py:71-82 | the average starts at the mean of the first `period` true ranges, or at the first one for any other seed |
| AtrTrail.RowIs | analysis/atr_flip.py:45-50 | a row depends only on the bars up to its own |
| AtrFields.RangeInFields | analysis/atr_flip.py:57-69 | a bar has a true range iff it is not the first and completes a window; on overlapping bars it is the greatest of the high less the previous close, the previous close less the low, and the lesser of span and 1.5 mean spans; half of an opening gap comes off the distance on its side; guarded, it is that lesser value |
| AtrFields.AverageInFields | analysis/atr_flip.py:71-88 | the average opens at the mean of the first ranges or at the first one, then moves by one period-th of its distance to the range; the loss is factor times the average |
| AtrFields.StopInFields | analysis/atr_flip.py:90-115 | the stop opens long one loss under the close, then ratchets or turns round at a close at or through it |
| AtrBatch.FillTrueRanges | analysis/atr_flip.py:57-69 | the first pass fills the array with the true range of every bar that has one and leaves the others empty |
| AtrBatch.FillWilders | analysis/atr_flip.py:71-88 | the second pass fills the array with the Wilders value of every seeded bar, for either seed |
| AtrBatch.RunFlips | analysis/atr_flip.py:90-116 | the third pass yields exactly the rows of the definition |
| AtrBatch.ComputeAtrTrail | analysis/atr_flip.py:45-116 | the batch engine computes the rows of the definition |
| AtrStream.ModifiedTrueRange | scripts/compare_tos_modified_atr.py:113-131 | the branch-by-branch range is the greatest of the capped span and the two reference distances, each less half of an opening gap if there is one |
| AtrStream.Consume | scripts/compare_tos_modified_atr.py:166-206 | one bar turns the deque, seed buffer, average, state and trail carried for a block into those of the longer block, and shows its row |
| AtrStream.UpdateAverage | scripts/compare_tos_modified_atr.py:180-186 | the seed buffer fills first, its mean starts the recursion |
| AtrStream.MoveStop | scripts/compare_tos_modified_atr.py:188-206 | the flip machine: init long, ratchet, or turn round with SELL or BUY |
| AtrStream.CalculateModifiedAtr | scripts/compare_tos_modified_atr.py:134-224 | every stage of the streaming pass has the true range, average, loss, trail, state and flip of the batch row of its bar within its block, and the anchor, gap and reset of its place |
| AtrStream.BlockStart | scripts/compare_tos_modified_atr.py:153-164 | where the block of a bar begins: the last boundary at or before it |
| AtrFields.StageInFields | scripts/compare_tos_modified_atr.py:134-224 | a stage shows, for its bar, the columns of the bars since the last change of anchor, the gap to the bar before it, and a reset only where a non-zero anchor changed |
| AtrParity.ContinuousStreamIsBatch | scripts/compare_tos_modified_atr.py:134-224 | without slicing one streaming pass is one batch run |
| AtrParity.SlicedStreamIsConcatenatedBatch | scripts/compare_tos_modified_atr.py:153-164 | with slicing it is the concatenation of independent batch runs over the maximal same-anchor blocks |
| AtrParity.BlocksPartition | scripts/compare_tos_modified_atr.py:154-164 | the blocks, joined, are the series |
| AtrParity.BlocksAreMaximal | scripts/compare_tos_modified_atr.py:154-164 | each block has one anchor and neighbouring blocks differ |
| AtrParity.FirstDivergence | scripts/compare_tos_modified_atr.py:281-306 | none exactly for equal streams; otherwise the first differing bar and its earliest differing calculation stage |
| AtrParity.GuardDivergesAtTrueRange | scripts/compare_tos_modified_atr.py:170-178 | guarded and unguarded passes can first differ only at the true range of a bar whose in-session gap exceeds 90 s |
| AtrSessions.SlicedFlipsAlternate | scripts/compare_tos_modified_atr.py:157-206 | the flips that a sliced pass reports are those of its sessions' batch runs one after another, and alternate if and only if no session that ended short is followed by one with a flip |
| AtrSessions.TwoSells | scripts/compare_tos_modified_atr.py:157-206 | a pass over any two flat sessions of three bars, whatever their times and anchors, reports SELL, SELL |
| AtrLaws.WildersBetweenTrueRanges | analysis/atr_flip.py:71-87 | every average lies between the least and the greatest true range used so far |
| AtrLaws.LossNonNegative | analysis/atr_flip.py:88 | on bars with high at least low and a non-negative factor the loss is never negative |
| AtrLaws.StopOnLosingSide | analysis/atr_flip.py:90-115 | a long stop is never above the close, a short one never below |
| AtrLaws.StopRatchets | analysis/atr_flip.py:103-114 | between flips the side stays, the long stop never falls and the short one never rises; a flip is a close at or through the stop |
| AtrLaws.FlipsAlternate | analysis/atr_flip.py:101-114 | flips strictly alternate starting with SELL, and the state is short exactly after an odd number of them |
| AtrLaws.AgeCountsFromFlip | analysis/atr_flip.py:94-115 | the age is the number of bars since the last flip, or since the seed |
| AtrLaws.SeedsContract | analysis/atr_flip.py:11-16 | the difference of the two seeds' averages after k bars is ((period-1)/period)^k of the difference at the seed bar |
| AtrLaws.GuardNeverRaises | scripts/compare_tos_modified_atr.py:177-186 | on the same bars the guarded average is at every bar at most the unguarded one |
| AtrLaws.GuardNeverRaisesLoss | scripts/compare_tos_modified_atr.py:177-188 | and so is the loss, for a non-negative factor |
| AtrLaws.RangesDecideRow | scripts/compare_tos_modified_atr.py:170-206 | equal true ranges give equal rows: the guard acts through them alone |
| AtrLaws.GuardIdleWithoutGaps | scripts/compare_tos_modified_atr.py:177-178 | without a gap above the bound the two passes agree throughout |
| FillGroups.Root | scripts/actual_resting_entry_extrema.py:225-229 | the walk ends at the root of its start, and halving keeps the forest and every node's root |
| FillGroups.Halve | scripts/actual_resting_entry_extrema.py:227 | one halving keeps the forest, its roots and the rank that falls from parent to child |
| FillGroups.Hang | scripts/actual_resting_entry_extrema.py:233-234 | hanging one root under another joins exactly those two trees and stays acyclic |
| FillGroups.Union | scripts/actual_resting_entry_extrema.py:231-234 | afterwards the roots are the old ones with the two trees merged |
| FillGroups.JoinLinkedPairs | scripts/actual_resting_entry_extrema.py:236-250 | two entries have one root if and only if a chain of linked pairs connects them |
| FillGroups.GroupEvents | scripts/actual_resting_entry_extrema.py:222-254 | every entry is in a group, a group holds exactly the entries connected to any of its own, and groups are ordered by earliest fill, ties by first entry |
| FillGroups.GroupsAreDisjoint | scripts/actual_resting_entry_extrema.py:251-254 | no entry is in two groups |
| FillGroups.LinkInFields | scripts/actual_resting_entry_extrema.py:236-250 | two fills belong together iff they share day and symbol and lie at most 10 s apart at different accounts, or at most 30 s apart in one non-empty slot of one account |
| FillGroups.LinksConnect | scripts/actual_resting_entry_extrema.py:236-250 | two such fills are in one event, whatever other fills there are |
| FillGroups.PairInFields | scripts/actual_resting_entry_extrema.py:222-254 | two lone fills are one event iff they do |
| ExitPairing.InventoryStep | scripts/actual_resting_entry_extrema.py:199-219 | open inventory starts at none and is inv+q after a buy and max(0, inv-q) after a sell of its own day, account and symbol; a fill that differs in any of the three leaves it unchanged |
| ExitPairing.ExitsTotal | scripts/actual_resting_entry_extrema.py:210-219 | a buy's exits add up to the part of its stretch that the sells have passed, never more than its quantity |
| ExitPairing.SellTotal | scripts/actual_resting_entry_extrema.py:208-219 | a sell gives the lesser of its quantity and the inventory it finds |
| ExitPairing.FirstInFirstOut | scripts/actual_resting_entry_extrema.py:210-219 | a later buy is never served by an earlier sell than an earlier buy of the same key |
| ExitPairing.ExitIsLaterSell | scripts/actual_resting_entry_extrema.py:201-218 | every exit of a buy is a positive quantity of a later sell of the same day, account and symbol |
| ExitPairing.PairExits | scripts/actual_resting_entry_extrema.py:199-219 | the queues leave on every buy exactly the exits of the closed form, and change nothing else |
| LegResults.ActualResultIsWeightedMean | scripts/actual_resting_operator_rule.py:394-403 | after the matching a leg is reported closed exactly when the sells have passed it, its exits then add up to its quantity, the price is their weighted mean, between the least and the greatest, the return takes the entry price to it, and the time is that of the latest sell |
| LegResults.ReportsAgree | scripts/actual_resting_entry_extrema.py:269-278 | the extrema report calls a leg an actual exit exactly when the operator report closes it by the cutoff, at the same price and time |
| LegResults.MeanExactlyWhenFull | scripts/actual_resting_operator_rule.py:394-403 | for exits of any origin a reported price is their mean if and only if they close exactly the entry's quantity or brought nothing |
| LegResults.OverclosedLegIsMispriced | scripts/actual_resting_operator_rule.py:394-403 | exits that close more give a price above every exit price |
| RiseWindow.MaxRisePct | scripts/momentum_condition_parity.py:189-212 | for any prices: the greatest rise over a window low, none without a window, and the division failure exactly on a zero low |
| RiseWindow.PositivePrices | scripts/momentum_condition_parity.py:203-208 | for positive prices that is the greatest rise over all pairs with t_i - W <= t_j < t_i, and none iff there is no pair |
| RiseWindow.RiseInFields | scripts/momentum_condition_parity.py:189-212 | no trade of positive prices rose by more than the answer over an earlier one at most the window before it, and some pair rose by exactly that |
| RiseWindow.LowIsGreatest | scripts/momentum_condition_parity.py:203-208 | for prices of any sign, exactly when the window low gives a trade its greatest rise over its window |
| RiseWindow.LowsSuffice | scripts/momentum_condition_parity.py:203-208 | when it does for every trade, the answer is the greatest rise over all pairs |
| RiseWindow.NegativePricesUnderreport | scripts/momentum_condition_parity.py:189-212 | for prices -1, -2, -3 the only answer is 100 percent, while the third rose by 200 percent over the first |
| RiseWindow.FrontIsWindowLow | scripts/momentum_condition_parity.py:200-211 | the front of the deque is the least price of the window of the next group, and the deque is empty iff that window is |
| RiseWindow.Push | scripts/momentum_condition_parity.py:209-211 | popping every reference at least as dear keeps the deque strictly increasing in time and price and covering every trade |
| RiseWindow.AnswersAnyOrder | scripts/momentum_condition_parity.py:190 | the answer depends on which trades there are, not on their order |
| BarParity.Evaluate | scripts/momentum_condition_parity.py:140-186 | each count is the number of its seconds: bars whose eligible prints have their high and low, bars that differ, bars without a print, and prints without a bar; the run is acceptable exactly when there is a bar and every second is reproduced |
| BarParity.ReproducedInFields | scripts/momentum_condition_parity.py:161-186 | a second with a bar is reproduced iff an eligible print has its high, one its low, and every one lies between; a second without one iff nothing eligible printed |
| BarParity.CollectPrices | scripts/momentum_condition_parity.py:148-159 | the dictionary holds for each second its eligible prices in row order, and no second without one |
| BarParity.CountMatches | scripts/momentum_condition_parity.py:161-173 | the three counts are the numbers of bar seconds that fit, that differ and that have no print, and add up to the bars |
| ByteLines.RejoinSplit | scripts/option_a_treatment_1008_sampler.py:75-79 | complete lines and tail, joined again, are the bytes |
| ByteLines.CutAnywhere | scripts/momwarn1_trade_second_counts.cpp:146-157 | a stream cut in two has the lines of the first part and those of its tail followed by the second |
| CsvFields.Fields | scripts/momwarn1_trade_second_counts.cpp:40-55 | the loop returns the fields cut at every comma outside quotes, and fails exactly beyond 32 fields or on an unclosed quote |
| CsvFields.JoinSplit | scripts/momwarn1_trade_second_counts.cpp:40-55 | the fields joined by commas are the line |
| CsvFields.SplitJoin | scripts/momwarn1_trade_second_counts.cpp:40-55 | whole fields joined by commas are cut back into themselves |
| CsvFields.QuotedIsClosed | scripts/momwarn1_trade_second_counts.cpp:40-55 | a text in quotes is one field, whatever commas it holds |
| CsvFields.ClosedConcat | scripts/momwarn1_trade_second_counts.cpp:40-55 | whole fields side by side are one, so a doubled quote inside quotes is part of the field |
| SecondCounts.NamesInMeaning | scripts/momwarn1_trade_second_counts.cpp:114-121 | what it means that a symbol printed in a second |
| SecondCounts.CountsIgnoreOrder | scripts/momwarn1_trade_second_counts.cpp:117-121 | the counts depend only on which prints there are, not on order or repeats |
| SecondCounts.CountsSumToPairs | scripts/momwarn1_trade_second_counts.cpp:121 | the counts add up to the number of symbol-second pairs |
| TapeLines.PrefixFailureIsFinal | scripts/momwarn1_trade_second_counts.cpp:77-131 | a complete line that cannot be read fails the whole stream |
| TapeFields.ValueReadsBack | scripts/momwarn1_trade_second_counts.cpp:21-27 | a number printed in decimal is read back |
| TapeFields.NumberReadsBack | scripts/momwarn1_trade_second_counts.cpp:21-27 | below 2^64, and refused from there on; nothing but digits is read |
| TapeFields.LineReadsBack | scripts/momwarn1_trade_second_counts.cpp:78-80 | fields joined into a line of at most 4096 bytes are read back, with or without a carriage return |
| TapeFields.HeaderReadsBack | scripts/momwarn1_trade_second_counts.cpp:81-90 | a header is accepted iff its names differ and hold the five required ones, and names the places of symbol and stamp |
| TapeFields.PrintReadsBack | scripts/momwarn1_trade_second_counts.cpp:92-101 | a row with the name, bare or quoted, and the stamp in their places is read as that print |
| TapeFields.OnlyPrintsAreRead | scripts/momwarn1_trade_second_counts.cpp:92-101 | a line read as a print has the header's width, digits for a stamp and a name of 1 to 128 characters without a quote |
| TapeFields.TapeReadsBack | scripts/momwarn1_trade_second_counts.cpp:77-160 | a header and rows written as lines are read back as exactly the prints |
| TapeScanner.Scanner.Lookup | scripts/momwarn1_trade_second_counts.cpp:104-112 | with or without the cached pointer the symbol is entered once, and refused only beyond the symbol bound |
| TapeScanner.Scanner.MarkSecond | scripts/momwarn1_trade_second_counts.cpp:117-121 | setting the bit, and counting it when it was clear, keeps all bitmaps and counts those of the prints |
| TapeScanner.Scanner.Consume | scripts/momwarn1_trade_second_counts.cpp:77-131 | one raw line moves the scanner to the tape with that line read, and fails exactly when it cannot be read |
| TapeScanner.Scanner.Feed | scripts/momwarn1_trade_second_counts.cpp:145-157 | one chunk, with the carried line, moves the scanner to the longer stream |
| JsonText.Quoted | scripts/momwarn1_trade_second_counts.cpp:30-38 | a name is refused exactly when it has a control byte, and is otherwise printed with quotes and backslashes escaped |
| JsonText.PrintableInFields | scripts/momwarn1_trade_second_counts.cpp:30-38 | a control byte is one below 32 |
| JsonText.QuotedReadsBack | scripts/momwarn1_trade_second_counts.cpp:30-38 | unescaping a printed name gives the name |
| JsonText.QuotedIsOneString | scripts/momwarn1_trade_second_counts.cpp:30-38 | no quote within a printed name ends it |
| TapeScanner.Scan | scripts/momwarn1_trade_second_counts.cpp:58-185 | a run succeeds exactly when the window is of whole seconds and at most 19800 of them, the stream can be read as a whole, no chunk ends more than 4096 bytes into a line and no symbol has a control byte; its report is then a function of the stream alone |
| TapeFields.ReportInFields | scripts/momwarn1_trade_second_counts.cpp:114-185 | one count per second of the window, of the distinct symbols stamped in it; the rows, the rows inside the window, and the symbols |
| TapeCuts.ShortLinesAreNeverCut | scripts/momwarn1_trade_second_counts.cpp:148-151 | with raw lines of at most 4096 bytes every cutting is read alike |
| TapeCuts.OnlyCarriageReturnsAreCut | scripts/momwarn1_trade_second_counts.cpp:78-79 | a readable stream can be refused for its cutting only right after the carriage return of a line of 4097 bytes |
| TapeCuts.CutsNeverMatter | scripts/momwarn1_trade_second_counts.cpp:146-157 | no cutting of a stream is refused for its cutting if and only if all its raw lines have at most 4096 bytes |
| TapeCuts.BufferedCuts | scripts/momwarn1_trade_second_counts.cpp:132-157 | with reads that fill the buffer, the cutting refuses a stream iff some read ends more than 4096 bytes into a line, on a readable stream right after the carriage return of a line of 4097 bytes |
| TapeCuts.CarriageReturnCutFails | scripts/momwarn1_trade_second_counts.cpp:146-160 | a readable header line of 4097 bytes with its carriage return is refused however it is cut when it ends the stream, and accepted in one read with its newline |
| TapeScanner.CountsSumToPopcount | scripts/momwarn1_trade_second_counts.cpp:117-121 | the counts add up to the number of set bits in all bitmaps |
| PartialDay.CountDay | scripts/momwarn1_derive_a_load.py:159-206 | the per-symbol sets give the same counts as the scanner's definition on the same prints, and fail exactly on no or more than 20000 files, a repeated symbol, an incomplete or foreign history, a receipt that does not cover the window or has another row count, a row outside it, or totals that differ from the sealing run's |
| PartialDay.CountsOfFile | scripts/momwarn1_derive_a_load.py:182-200 | a new symbol raises the counts of exactly its own seconds by one |
| PartialDay.RequestedInFields | scripts/momwarn1_derive_a_load.py:159-206 | a receipt covers the window iff it is complete and exhausted and its range holds every timestamp of the window |
| PartialDay.PercentileIsNearestRank | scripts/momwarn1_derive_a_load.py:60-69 | at least 99.9% of all seconds count no more than the reported percentile, fewer than 99.9% count less, and the peak is the greatest count |
| LogCursor.RunCountsMarkedLines | scripts/option_a_treatment_1008_sampler.py:44-79 | over any samples of a growing file the new-line counts add up to the marked lines completed since the baseline, and pending is what follows the last newline |
| LogCursor.TriggersAreExact | scripts/option_a_treatment_1008_sampler.py:76-79 | a trigger is raised iff a marked line was completed |
| LogCursor.MarkedInFields | scripts/option_a_treatment_1008_sampler.py:75-79 | a line is marked iff the marker stands anywhere in it |
| LogCursor.UnknownRestarts | scripts/option_a_treatment_1008_sampler.py:58-73 | another file, a shorter one, or one that changed or shrank during the read counts nothing and goes on as after a baseline |
| LogCursor.SamplingMomentsDoNotMatter | scripts/option_a_treatment_1008_sampler.py:66-79 | two runs between the same ends report the same total and cursor |
| LogCursor.Watch | scripts/option_a_treatment_1008_sampler.py:99-116 | the loop writes the row of each sample, stops at the first trigger with 3 and at the first unknown with 2 |
| BarSpool.BarMeaning | scripts/momold1_bounded_replay.py:133-146 | a second has a bar iff it has an eligible trade, with the first, greatest, least and last price and the sum of the sizes |
| BarSpool.BarInFields | scripts/momold1_bounded_replay.py:128-146 | the same over stamps: the eligible trades of the second, in nanoseconds |
| BarSpool.SpoolTape | scripts/momold1_bounded_replay.py:107-158 | the loop writes one finished file per symbol, and fails exactly on rows outside the window or manifest, a symbol that returns, or time that falls |
| BarSpool.SpoolSorted | scripts/momold1_bounded_replay.py:133-150 | each file is sorted by time and kind |
| BarSpool.SpoolHolds | scripts/momold1_bounded_replay.py:133-154 | a file holds every trade in order and exactly one bar per second with an eligible trade |
| BarSpool.SpoolInFields | scripts/momold1_bounded_replay.py:107-154 | a print is delivered at its own stamp, a bar at the end of its second, each under its own symbol |
| BarSpool.SpoolVolume | scripts/momold1_bounded_replay.py:144-146 | bar volumes add up to the eligible size |
| EventMerge.Merge | scripts/momold1_bounded_replay.py:214-217 | the merge is in (time, kind, symbol) order, stable, takes every stream whole and in order, and nothing else |
| EventMerge.OrderInFields | scripts/momold1_bounded_replay.py:214-217 | of two delivered events the first has the lower time, or with equal times the lower kind, then the lower symbol, then the earlier stream |
| EventMerge.SpoolInOrder | scripts/momold1_bounded_replay.py:216-217 | the spool files satisfy what the merge needs |
| EventMerge.BarAfterItsTrades | scripts/momold1_bounded_replay.py:214-219 | a bar is delivered after every trade of its second and before any of a later one, whatever the symbols |
| Pruner.ParseTables | scripts/prune_market_ticks.py:65-71 | refuses no or repeated targets and the first name that is not in the allowlist, otherwise yields exactly the named ones in allowlist order |
| Pruner.NamingOrderIsIrrelevant | scripts/prune_market_ticks.py:71 | the order of naming does not matter |
| Pruner.Database.Delete | scripts/prune_market_ticks.py:129-138 | a batch deletes the oldest min(limit, eligible) eligible rows of its target and nothing else |
| Pruner.PruneTarget | scripts/prune_market_ticks.py:192-206 | the batches of one target remove an oldest-first prefix of its eligible rows, and stop only when none is left, the budget is used or the time is up |
| Pruner.Run | scripts/prune_market_ticks.py:106-236 | a dry run changes nothing; on every run unselected tables are kept, deletions total at most max_rows, each target loses an (age, id) prefix of its eligible rows: only rows older than its cutoff, paper events only of the named kinds, scanner rows only of their kind, and never one while an older such row stays; 3 iff eligible rows remain, which needs a spent budget or an expired clock; 0 iff no such row is left, a run with a surviving finding excepted |
| Pruner.RunInFields | scripts/prune_market_ticks.py:106-121 | what trimmed tables lost and kept, by age, kind and findings |
| Pruner.FinishedTables | scripts/prune_market_ticks.py:175-210 | with nothing eligible left each target holds exactly its ineligible rows, runs judged against the pruned findings, so batch size, clock and naming do not show |
| Pruner.FindingsKeepTheirRun | scripts/prune_market_ticks.py:118-120 | no run with a surviving finding is removed |
| Pruner.DryRunCountIsLowerBound | scripts/prune_market_ticks.py:185-188 | counting runs before findings are pruned can only undercount |
| Halts.DetectHalts | scripts/orb_exit_ladder_comparison.py:148-164 | the windows are exactly the consecutive prints at least 285 s apart with two quote updates inside, in order, with disjoint interiors, each at least 285 s long |
| Halts.BoundsInFields | scripts/orb_exit_ladder_comparison.py:148-164 | two neighbouring prints bound a halt iff 285 s or more separate them and two listed quotes lie strictly between |
| Halts.ReopenIsTradable | src/project_mai_tai/market_halts.py:102-105 | both ends of every window are outside all windows |
| NameDay.EvaluateDayGate | scripts/orb_operator_filter_census.py:464-542 | four verdicts in order; killed if any rule fails, else unanswerable if any cannot be answered, else eligible |
| NameDayFields.GateInFields | scripts/orb_operator_filter_census.py:474-529 | each verdict over the 09:30 bar and its snapshot, the 09:25-09:29 bars and the opening high |
| NameDayFields.LiveMeansPassed | scripts/orb_operator_filter_census.py:763-764 | a day with live rows passed all four |
| NameDay.RunSettledNameDay | scripts/orb_operator_filter_census.py:740-854 | the loop yields exactly the gate, live rows and post-fill decision of the definition |
| NameDayFields.RowInFields | scripts/orb_operator_filter_census.py:545-600 | every row that is no fill comes from a session bar, in order, and is ARM iff its histogram is positive, a positive volume average is at most its volume, and RSI and stochastic rose, all being present; otherwise PULL |
| NameDayFields.EveryBarHasItsRow | scripts/orb_operator_filter_census.py:766-850 | on a day that passed every session bar decided before 10:00 has its row, unless a fill ended the day |
| NameDayFields.FillInFields | scripts/orb_operator_filter_census.py:603-635 | a fill follows an ARM row, at a tradable print above the opening high and on an ordered tape the first one, and is answerable iff a two-sided quote stood in its minute by then |
| NameDay.EvaluatePostFill | scripts/orb_operator_filter_census.py:662-737 | hold at or above the threshold; below it sell at the first executable bid from the measurement on, every quote listed before it being unexecutable, and unanswerable only without one |
| NameDayFields.BodyInFields | scripts/orb_operator_filter_census.py:638-668 | the body is the distance between open and last price over the span, of the whole bar or of the prints up to the delay, and held iff it reaches the threshold in percent |
| NameDayFields.SaleInFields | scripts/orb_operator_filter_census.py:671-686 | a failed body sells at the first quote from the measurement on with a positive bid outside every halt, and is unanswerable without one |
| NameDayFields.PostFillInFields | scripts/orb_operator_filter_census.py:812-836 | the check speaks of the session bar of the fill, and is absent iff there is none |
| Lookahead.ShownBy | scripts/orb_operator_filter_census.py:740-854 | the rows evaluated by T are those of the bars begun by T and, if a later session bar is listed, the fill that waits for it |
| Lookahead.NoLookahead | scripts/orb_operator_filter_census.py:740-854 | days that agree on what is known at T, their bars after T free in number and time, have the same live rows evaluated by T unless a break waits for a bar and just one of them lists a later session bar, and then they differ |
| Lookahead.LaterBarShowsTheFill | scripts/orb_operator_filter_census.py:774-836 | two such days: a 09:35 bar shows the fill of 09:31:10 at 09:32, its absence hides it |
| Lookahead.GateIsKnown | scripts/orb_operator_filter_census.py:474-480 | from 09:31 on the verdicts are settled, whatever bars follow |
| Lookahead.BodyVerdictIsKnown | scripts/orb_operator_filter_census.py:638-659 | a body measured by T, and whether it holds, depends only on what was known then, whatever bars follow |
| NameDayLaws.FillEndsTheDay | scripts/orb_operator_filter_census.py:774-836 | a fill row is the last, directly follows an ARM row, is the first tradable break since, and is priced at the opening high iff a quote was known, else unpriced |
| NameDayLaws.NoBreakIsMissed | scripts/orb_operator_filter_census.py:774-782 | between an ARM row and a later row that is no fill nothing tradable broke the level |
| NameDayLaws.ArmedToTheCutoff | scripts/orb_operator_filter_census.py:779 | a day still armed at its last row saw no break up to 10:00, once the last bar is there |
| NameDayLaws.IneligibleDayIsEmpty | scripts/orb_operator_filter_census.py:763-764 | a gate that is not eligible yields no live rows and no sale |
| HaltRule.DeferredThreshold | scripts/actual_resting_operator_rule.py:211-257 | the earliest reopened candidate and the earliest unanswered reopen over all halts |
| HaltRule.FirstSightingDecides | scripts/actual_resting_operator_rule.py:224-257 | the first halt that saw the threshold decides: its reopen quote or its missing one precedes every later candidate |
| HaltRule.EveryPriceIsOutsideHalts | scripts/actual_resting_operator_rule.py:267-391 | every bid priced by any of the four rules is a valid quote outside all halts, at the time reported |
| HaltRule.DeferredBoundaryIsTradable | scripts/actual_resting_operator_rule.py:199-208 | a deferred boundary lies outside every window, no earlier than the raw one, is marked deferred iff that was halted, and deferring again changes nothing |
| HaltRule.HaltedYardstick | scripts/actual_resting_operator_rule.py:490-523 | a yardstick target seen only while halted exits at the first tradable quote within 10 s of the first such reopen, or cannot be answered |
| HaltRule.TargetOutcome | scripts/actual_resting_operator_rule.py:419-469 | a target, touched or carried to a reopen, is the exit iff neither the boundary nor a reopen without a quote comes before it and it comes before the stop |
| HaltRule.StopOutcome | scripts/actual_resting_operator_rule.py:419-469 | the same for a stop, which also loses ties to a target without a reopen quote |
| HaltRule.MissingTargetOutcome | scripts/actual_resting_operator_rule.py:419-469 | a halted target without a reopen quote is never an exit at the target, and the leg is unanswerable at the earliest reopen without a quote iff neither the boundary nor the stop comes before it |
| HaltRule.MissingStopOutcome | scripts/actual_resting_operator_rule.py:419-469 | the same for a halted stop, which also loses to a target at the same time |
| HaltRule.HaltedTargetMayLose | scripts/actual_resting_operator_rule.py:454-469 | an ATR SELL in the same halt, deferred to its reopen, beats the target |
| HaltRule.ExitFollowsEntry | scripts/actual_resting_operator_rule.py:315-329 | for each of the four rules: whatever the quotes and halts, no exit is priced before the purchase, if and only if the leg was bought by its SELL, or without one at least 10 s before the cutoff |
| HaltRule.LateExitPrecedes | scripts/actual_resting_operator_rule.py:315-329 | every other leg has two ordered quotes at its own price at which all four rules exit before the purchase |
| HaltFields.PointInFields | scripts/actual_resting_operator_rule.py:267-391 | for each of +5%, +10% and -8%: the point is a tradable quote at that level between leg and endpoint, or the first quote within 10 s of the reopen of a halt in which such a bid was seen; neither a point nor a missing answer iff no quote reached the level |
| HaltFields.ExitInFields | scripts/actual_resting_operator_rule.py:419-575 | the exit of each rule is priced at its own level or at the boundary quote, its return takes the price to the bid, and all four are unanswerable without a tradable quote within 10 s of the leg |
| HaltFields.YardstickWithoutHalts | scripts/actual_resting_operator_rule.py:490-541 | without halts a yardstick exits at the first valid quote at +5%, or +10%, and at the boundary iff there is none |
| HaltFields.CompetingWithoutHalts | scripts/actual_resting_operator_rule.py:419-488 | without halts the competing rule exits at the earlier of the first quote at +5% and the first at -8%, cannot answer a tie, and otherwise exits at the boundary |
| HaltFields.BoundaryRule | scripts/actual_resting_operator_rule.py:543-575 | the fourth rule exits at the boundary quote, or cannot answer iff there is none |
| FloorLadder.MinuteCloseArm | scripts/orb_exit_ladder_comparison.py:287-307 | the loop finds the first minute before the close that overlaps no halt and whose last quote is at +5%, at that quote, and none iff no minute is |
| FloorLadder.RunFloorLadder | scripts/orb_exit_ladder_comparison.py:310-393 | every result of the ladder, including a missing or non-positive entry price |
| FloorLadder.FloorNeverFalls | scripts/orb_exit_ladder_comparison.py:365-367 | the floor never falls |
| FloorLadder.TighterExitsNoLater | scripts/orb_exit_ladder_comparison.py:358-380 | raising the initial floor or shrinking the trail never makes the exit later |
| FloorLadder.TouchArmsFirst | scripts/orb_exit_ladder_comparison.py:324-340 | with a close on a minute, whenever the minute close arms the touch armed strictly before |
| FloorLadder.TouchExitsNoLater | scripts/orb_exit_ladder_comparison.py:310-393 | arming on touch never exits later than arming on the minute's close |
| FloorLadder.UnalignedCloseArmsLate | scripts/orb_exit_ladder_comparison.py:294-306 | with any other close a minute close can arm untouched |
| LadderFields.SaleInFields | scripts/orb_exit_ladder_comparison.py:358-367 | a watched quote sells iff its bid is at or under the initial floor over the entry, or the trail or more under the greatest bid since arming |
| LadderFields.LadderInFields | scripts/orb_exit_ladder_comparison.py:310-393 | touch arms at the first bid at 1.05 times the entry, the minute close at the end of the first whole minute outside halts whose last bid is; then the first sale, or the quote at ten, with the high, the return and what was given back; unarmed, the quote at ten with the greatest bid before the close |
| StopSweep.ReplayAtrTriggers | scripts/orb_flat_five_stop_sweep.py:154-178 | the SELL flips decided after the entry, each with its first executable quote, in decision order |
| SweepFields.TriggerInFields | scripts/orb_flat_five_stop_sweep.py:166-177 | a trigger is a SELL bar decided one minute after its start and after the entry, with the first quote from then on |
| StopSweep.LeaderExits | scripts/orb_flat_five_stop_sweep.py:204-263 | an exit counts iff it strictly precedes the other candidates; otherwise unanswerable |
| SweepFields.StopInFields | scripts/orb_flat_five_stop_sweep.py:195-280 | the target is the first bid at 1.05 times the entry, the stop the first that lost the percentage, the ATR exit the first trigger with a quote; the strictly earliest counts, with its return, recovery, reopen mark and what could be answered |
| StopSweep.RecoveryMeans | scripts/orb_flat_five_stop_sweep.py:260-263 | a counted stop recovered iff the target was reached at all, unknown on an incomplete path |
| StopSweep.WideningNeverExitsEarlier | scripts/orb_flat_five_stop_sweep.py:204-263 | a wider stop never exits before the tighter one's first candidate |
| StopSweep.OtherExitsStay | scripts/orb_flat_five_stop_sweep.py:204-263 | a target or ATR exit stays the same exit for every wider stop |
| StopSweep.OnlyStopsMove | scripts/orb_flat_five_stop_sweep.py:204-263 | an exit that changes was a stop or tied with one |
| LegPairing.SortOldestFirst | scripts/broker_ab_report.py:193-196 | every primary once, by time, missing times last, equals in list order |
| LegPairing.EarlierInFields | scripts/broker_ab_report.py:193-196 | an earlier primary was submitted no later, first in the list at equal times; those without a time come last, in list order |
| LegPairing.BestMirror | scripts/broker_ab_report.py:199-209 | the nearest unused mirror of the symbol within the window, the first of equals, none iff there is none |
| LegPairing.BestInFields | scripts/broker_ab_report.py:199-209 | the chosen mirror has the symbol, lies within the window either way, and no other such mirror is nearer, or as near and listed before |
| LegPairing.PairLegs | scripts/broker_ab_report.py:178-214 | every primary exactly once, oldest first, each with the best mirror that those before it leave |
| LegPairing.OneToOne | scripts/broker_ab_report.py:201-213 | no mirror twice, and only within symbol and window |
| LegPairing.Maximal | scripts/broker_ab_report.py:210-211 | an unpaired primary has no unused mirror in reach |
| LegPairing.Stable | scripts/broker_ab_report.py:197-213 | a strictly nearer mirror is held by an earlier primary |
| LegPairing.OneAnswer | scripts/broker_ab_report.py:178-214 | any two pairings with these properties are equal |
| GapRepair.FindGaps | scripts/report_bar_gaps.py:70-96 | exactly the consecutive bars of a symbol in the day at least two minutes apart, by symbol and then by time, none twice |
| GapRepair.GapInFields | scripts/report_bar_gaps.py:70-83 | a gap lies between two rows of the symbol in the day, 120 s or more apart, without a row between |
| GapRepair.MissingMinutes | scripts/report_bar_gaps.py:99-105 | the whole minutes strictly between two bars, ascending |
| GapRepair.MissingInFields | scripts/report_bar_gaps.py:99-105 | the missing minutes are the times whole minutes after the start and before the end |
| GapRepair.MinuteIsReported | scripts/report_bar_gaps.py:70-105 | a whole minute between neighbouring bars a and b is missing in some gap iff a lies on a minute and b at least two minutes later |
| GapRepair.MissingIsAbsent | scripts/report_bar_gaps.py:70-105 | the missing minutes of a symbol's gaps are exactly its absent minutes if and only if that holds wherever neighbouring bars have a whole minute between them |
| GapRepair.AlignedIsRegular | scripts/report_bar_gaps.py:70-105 | which bars on the minute always satisfy |
| GapRepair.GapsAreDisjoint | scripts/report_bar_gaps.py:70-105 | missing minutes of different gaps are disjoint |
| GapRepair.UnalignedBarsHideAMinute | scripts/report_bar_gaps.py:70-83 | bars at 0 s and 90 s leave minute 1 absent and in no gap |
| GapRepair.BarTable.Insert | scripts/report_bar_gaps.py:109-126 | insert-only: an existing row is kept and counts 0 |
| GapRepair.FillGaps | scripts/report_bar_gaps.py:129-174 | existing rows stay, exactly the wanted minutes that the source supplies are added, a failed fetch leaves its holes, and the count is the number of rows added |
| GapRepair.RepairAddsTheAbsent | scripts/report_bar_gaps.py:129-174 | on such bars a repair of the found gaps adds exactly the absent minutes that the source supplies |
| GapRepair.SecondRepairAddsNothing | scripts/report_bar_gaps.py:129-174 | a second repair from the same source changes nothing, on or off the minute |

## Left out

- TapeScanner.Scan: the report has the counts, row totals and symbols; the minimum and maximum stamps, the number of
  symbols in the window and the template print beside them are not modelled, nor the refusal of a control byte in that
  template's price or size. A 64-bit word is the set of its set bits.
- AtrStream.CalculateModifiedAtr: the session anchor, a time-zone computation, is a parameter; the rows have no age,
  because the streaming engine keeps none.
- ExitPairing.PairExits: bought quantities are taken to be non-negative; only positive ones are recorded as fills
  (`src/project_mai_tai/oms/store.py:813-825`).
- NameDay.RunSettledNameDay: indicator snapshots are inputs; the check texts, the return percentage and the copied day
  and symbol are not kept.
- PartialDay.CountDay: digests, the day of a receipt and the report beside the counts are not modelled.
- Pruner.ParseTables: starts from the stripped names between the commas.
- GapRepair.FindGaps: the symbols are given in the order in which the query returns them.
- Pruner.Run: no other process writes during the run, and each look at the clock is an arbitrary answer; the advisory
  lock, VACUUM, relation sizes and reports do not affect which rows remain.
- Rounding: binary floats, Decimal precision, the rounded report rows and the tolerance of the divergence search. All
  arithmetic is exact.
- Groups of fills list positions of the entries, and mirror pairs positions of the legs, instead of the objects.
- Condition classification of trades, in the spool and in the bar agreement, is an input per trade.
- The place of a symbol in string order is a parameter of the merge.
- The order in which the gap repair takes symbols and minutes: any order, and the outcome is proved not to depend on it.
- The extrema quotes (`high`, `low`, `print_high`) and the notes of the operator rule's report.
- The pullback statistics and the flat +5% rule beside the floor ladder.
- The strategy that computes the flips replayed by the stop sweep is not part of this model.
- The broker report's latency and slippage metrics.
- Database sessions, network clients, gzip, pause files, rendering, argument parsing and hash gates.
