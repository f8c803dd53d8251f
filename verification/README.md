# Verified model of SiiS

SiiS is a trading engine: a C++ backtester and strategy host, with market connectors in Python. This
project models the stateful cores on which its results rest and proves what they promise, for every
input and every run. Each module holds the objects of the source with the methods that change them,
a specification of each step as a function, and the laws of whole runs of those steps.

- `OhlcGeneration`, `OhlcBatches`, `OhlcGrid`, `OhlcWindows`, `OhlcMonths`, `OhlcCascade`, `OhlcEpoch`,
  `OhlcMonthCascade`, `OhlcNesting`: ticks, or smaller candles, folded into larger candles; the online fold is grouping by time
  window, and two stages agree with one.
- `Calendar`, `Months`: day numbers of Gregorian dates, their inverse, and the month base time.
- `TickStreaming`, `TickFiltering`, `TickMonths`, `TickCuts`, `TickSides`: the chunked reader over monthly tick files
  is a plain filter of the files of numbered months.
- `WorkerPool`, `BacktestClock`: the backtest loop, the workers and the count-down barrier, as interleaved steps,
  and the simulated time.
- `WriteBehind`: the queue of market rows between the producers and the database thread.
- `PaperBroker`, `QuantityFilter`, `OrderOutcomes`, `BrokerLaws`, `ExitLaws`: netted positions on indivisible margin
  markets, the filter of their quantities, what becomes of each order, their signals and what closing fills book.
- `DailySamples`: the daily samples of the virtual account.
- `CircularArray`, `GrowingArray`: the ring buffer as "the last N", and doubling growth.
- `ClosedTrades`, `TradeCounts`, `TradeStatistics`, `StatisticsLaws`, `TiedTrades`, `TiedFlats`, `MonthBuckets`, `TiedMonths`: the
  statistics of a strategy and of all of them, and what ties in exit time do to them.
- `ConfigMerge`: the override of one configuration tree by another.
- `DeltaDecoding`: the field decoder of the streaming protocol.
- `SubscriptionIds`: the allocator of subscription ids.
- `Basics`, `Arithmetic`: what several modules share, and facts about integer quotients.

Times are whole milliseconds, or reals where the source only compares them; prices, quantities and
volumes are exact reals.

Where a law is false of the code, the code is kept as it is. A lemma then gives an input on which the
law fails, or says what happens there, and the law is proved exactly when a stated condition holds:

- two-stage aggregation misses the first small candle when it starts at the epoch
  (`OhlcEpoch.CascadeAgreesIff`, `OhlcEpoch.EarlyTradesDiffer`), and into months it misses the candles that
  the direct run starts at every tick of a 31st (`OhlcMonthCascade.MonthCascadeAgreesIff`,
  `OhlcMonthCascade.TwoCandlesOfJanuary`); and timeframes are accepted whose windows do not nest
  (`OhlcNesting.AlwaysAgreeIff`, `OhlcNesting.AcceptedThatDiffer`, `OhlcMonthCascade.TwoDaysIntoMonths`);
- fractions of a second are cut off before the timeframes are divided, so that dividers are refused and
  others accepted (`OhlcGeneration.TruncationKeepsDivisionIff`, `OhlcGeneration.FractionsAreMisjudged`);
- grouping by month closes 30 days after the first of the month (`OhlcWindows.MonthGroupingFails`,
  `OhlcMonths.MonthGroupsAreMonthsIff`);
- `gday` miscounts some ends of February before year 1 (`Calendar.GdayCountsDays`);
- a chunk cut by a record that goes back in time, in the last month, may lose its good records
  (`TickCuts.StreamIsFilterIff`, `TickCuts.BackwardTickLosesGoodOnes`), and all records of a
  chunk take the side of its first (`TickSides.SidesSurviveIff`, `TickSides.SellIsReadAsBuy`);
- a skipped strategy is never counted down, so the round never ends (`WorkerPool.BarrierOpensIff`,
  `WorkerPool.SkippedRoundStalls`, `WorkerPool.SkipStallsARun`);
- storing candles discards pending liquidations, without the lock, and a commit of them that is wrongly
  reported as failed stores them twice (`WriteBehind.LiquidationsSurviveIff`,
  `WriteBehind.DiscardInsideExtension`, `WriteBehind.DoubtfulCommitDuplicates`);
- quantity adjustment rounds whole numbers of steps when the computed precision does not write the step in
  full (`QuantityFilter.BuiltFilterKeepsGridIff`, `QuantityFilter.QuarterIsRounded`), and can go above the maximum
  (`QuantityFilter.StaysBelowMaxIff`, `QuantityFilter.MaximumIsExceeded`);
- an order that overshoots the opposite position does not turn its direction, and a position is cut,
  clipped or rounded by the order filter (`BrokerLaws.NettingIff`, `BrokerLaws.OvershootBreaksNetting`,
  `BrokerLaws.CutBreaksNetting`, `BrokerLaws.QuarterStepsBreakNetting`); opening a position does not set its average price
  (`ExitLaws.FirstIncreaseMisprices`); the exit quantity is kept when a position object is recycled, and
  rounded and clipped by the filter of the new market (`ExitLaws.ClosingFillsBookedIff`,
  `ExitLaws.RecycledExitIsMisbooked`);
- gaps over 999 days leave days without a sample (`DailySamples.OneSamplePerDayIff`,
  `DailySamples.LongGapMisdates`);
- trades that left at the same time can make the report depend on the order of the strategies: the
  cumulated results and draw-downs do so unless in each such group the results are all equal or each makes
  up for the draw-down before it (`TiedTrades.StrategyOrderIff`, `TiedTrades.OneCourseIff`,
  `StatisticsLaws.TiesCanChangeThePeak`), the longest flat period under the condition of
  `TiedFlats.OneFlatIff`, and the number of months under that of `TiedMonths.OneCountIff`
  (`MonthBuckets.TiesCanMoveMonths`); winning and losing results
  never do (`TiedTrades.WinsPermute`);
- months are counted as 30 days (`MonthBuckets.BucketsAreMonthsIff`, `MonthBuckets.ElapsedIsMonthsIff`,
  `MonthBuckets.JanuaryToMarchOpensOne`);
- the first day of the epoch counts as "no day open" (`ClosedTrades.DailyPerformanceIsOfDayIff`,
  `ClosedTrades.FirstDayIsCarried`);
- an override can plant an object on which its second application fails
  (`ConfigMerge.UpdateIsIdempotentIff`, `ConfigMerge.SecondUpdateCanFail`);
- a line with too few tokens forgets the fields it leaves out (`DeltaDecoding.ShortLineForgets`).

Where code and comments disagree, the model follows the code: reversals keep their direction although
the comment at localconnectorindmargin.cpp:43 announces a reversal, a reduce-only order in the held
direction still increases (localconnectorindmargin.cpp:63-65), and `basetime` takes a month to be the calendar month for the start
of a candle but 30 days for its end (ohlcgen.py:98-117). One line is read as intended: the name
`from_ohcl` at ohlcgen.py:175 is taken for `from_ohlc`.

`dafny verify dfyconfig.toml` checks the whole project.

## Model

| member | source | states |
|---|---|---|
| OhlcGeneration.OhlcGenerator.constructor | connectors/common/ohlcgen.py:23-27 | a new generator, of any timeframes, has no candle and has accepted no time |
| OhlcGeneration.OhlcGenerator.Create | connectors/common/ohlcgen.py:16-27 | a non-zero small timeframe under a second divides by zero, another is refused exactly when its whole seconds do not divide those of the large one, and otherwise a fresh generator is made |
| OhlcGeneration.WholeSecondsDivideIff | connectors/common/ohlcgen.py:20-21 | on timeframes of whole seconds nothing is left over: the check accepts exactly the dividers |
| OhlcGeneration.FractionsAreMisjudged | connectors/common/ohlcgen.py:20-21 | one second and a half is accepted as a divider of two, and two and a half are refused as a divider of seven and a half |
| OhlcGeneration.TruncationKeepsDivisionIff | connectors/common/ohlcgen.py:20-21 | for any timeframes, fractions of a second included: an accepted one is a divider if and only if it divides what its fractions leave over, and a divider is accepted if and only if its whole seconds divide the whole seconds that its fractions add up to |
| OhlcGeneration.OhlcGenerator.UpdateFromTick | connectors/common/ohlcgen.py:104-159 | one tick moves the generator as the fold step says and returns the candle it ended, if any; no tick changes nothing |
| OhlcGeneration.OhlcGenerator.GenerateFromTicks | connectors/common/ohlcgen.py:73-87 | a batch of ticks is the run of the fold, emitted candles in order, all ticks consumed |
| OhlcGeneration.OhlcGenerator.UpdateFromOhlc | connectors/common/ohlcgen.py:162-224 | one smaller candle: ignored unless ended and later, refused with an error and no change when its timeframe is wrong, else folded |
| OhlcGeneration.OhlcGenerator.GenerateFromOhlcs | connectors/common/ohlcgen.py:56-71 | a batch of candles is the run of the fold up to the first refused one, after which the error is raised and the state is that before it |
| OhlcGeneration.RunCandlesFailureIsFinal | connectors/common/ohlcgen.py:64-69 | candles after a refused one do not matter |
| OhlcBatches.OpenCandlesDoNotCount | connectors/common/ohlcgen.py:162-180 | a batch of smaller candles does what its ended ones alone do: those that have not ended, of any timeframe, change no state, output or failure |
| OhlcBatches.RefusedIff | connectors/common/ohlcgen.py:56-71 | a batch is refused exactly when an ended candle of another timeframe is in it |
| OhlcBatches.EndedCandleReplacesOpen | connectors/common/ohlcgen.py:56-71 | a candle still open and then the same candle ended: the second counts |
| OhlcGrid.SmallTimeframesNest | connectors/common/ohlcgen.py:20-21 | under a week the divisibility test makes windows nest |
| OhlcGrid.BaseTimeOnGrid | connectors/common/ohlcgen.py:89-97 | under a week and at a week, the base time is the grid point at or before the time, less than one timeframe away |
| OhlcGrid.ClosingIsChangeOfWindow | connectors/common/ohlcgen.py:116-122 | the closing test on the candle start is exactly a change of base time |
| OhlcGrid.WindowsNest | connectors/common/ohlcgen.py:89-97 | a small window lies inside one large window, and its start has the same large base time |
| OhlcCascade.PipelinesInStep | connectors/common/ohlcgen.py:104-224 | invariant of the direct and the two-stage pipeline after every tick, up to a week and by month: equal emitted candles, or one behind by exactly the current small candle |
| OhlcCascade.CascadeAgreesWithDirect | connectors/common/ohlcgen.py:104-224 | two-stage aggregation yields a prefix of the directly built candles, equal in every field, at most one shorter, never refused; for months when no two ticks share a small window on a 31st |
| OhlcCascade.CascadeIsPrefixIff | connectors/common/ohlcgen.py:104-224 | with positive volumes, after a first tick in the small window of the epoch, what the second stage emits is a prefix of the direct candles only when it is nothing |
| OhlcEpoch.RunCounts | connectors/common/ohlcgen.py:116-122 | after every tick, whether a run has ended no candle, or at most one, in terms of the windows of the accepted ticks |
| OhlcEpoch.RunFed | connectors/common/ohlcgen.py:178-191 | after every tick, which small windows the second stage has seen when it misses the first, and whether it has emitted anything |
| OhlcEpoch.CascadeAgreesIff | connectors/common/ohlcgen.py:104-224 | the whole law (a prefix in every field, at most one shorter, never refused) holds if the first accepted tick is past the small window of the epoch, or the accepted ticks lie in at most two large windows and those outside the first and last small window in one; with positive volumes, only if so |
| OhlcEpoch.FewTicksAgree | connectors/common/ohlcgen.py:178-191 | whatever the volumes, with a first tick in the epoch window: that second condition holds if and only if the second stage has emitted nothing and the law holds |
| OhlcEpoch.EarlyTradesDiffer | connectors/common/ohlcgen.py:178-180 | hours into four hours with trades at 0:30, 4:30 and 8:30 after the epoch: no two-stage candle, at least two direct ones |
| OhlcCascade.LargeStart | connectors/common/ohlcgen.py:89-97 | a candle up to a week, or by month over parts of a day, starts and ends on the small grid, at the same place for a tick and for its small window, and holds the tick unless it is a 31st |
| OhlcMonthCascade.PipelinesStray | connectors/common/ohlcgen.py:104-224 | invariant from the first two ticks in one small window of a 31st on: the direct run has ended a candle with less volume than the second stage will ever put in its place |
| OhlcMonthCascade.MonthCascadeAgreesIff | connectors/common/ohlcgen.py:104-224 | by month, past the epoch window, the law holds if no two successive accepted ticks share a small window on a 31st, or at most two were accepted; with positive volumes, only if so |
| OhlcMonthCascade.TwoCandlesOfJanuary | connectors/common/ohlcgen.py:116-122 | two trades on 31 January and one a day later: the direct run ends two candles of January, days folded into months none |
| OhlcMonthCascade.TwoDaysIntoMonths | connectors/common/ohlcgen.py:89-122 | two days into months, trades on 5 January and 1, 10 and 20 February: one direct candle, two in two stages |
| OhlcNesting.StraddledDiffers | connectors/common/ohlcgen.py:104-224 | where a large window starts inside a small one, four trades, two of them around that start, come out differently in two stages |
| OhlcNesting.JanuaryDiffers | connectors/common/ohlcgen.py:104-224 | four trades, two of them in one small window of 31 January, come out differently in two stages by month, whatever the small timeframe |
| OhlcNesting.AlwaysAgreeIff | connectors/common/ohlcgen.py:104-224 | for any two timeframes, the small one up to a week, two stages agree with one on every run past the epoch window if and only if the windows nest; those of months never do |
| OhlcNesting.AcceptedAgreeIff | connectors/common/ohlcgen.py:20-21 | of the timeframes of whole seconds that the construction accepts, these are those under a week, a week of itself, and those into a week that divide three days |
| OhlcNesting.AcceptedThatDiffer | connectors/common/ohlcgen.py:20-21 | seven hours into a week, and two or three days into a month, are accepted and do not always agree |
| OhlcWindows.AcceptedIncrease | connectors/common/ohlcgen.py:108-110 | the ticks kept by the generator strictly increase, and every tick given is at or before the last kept |
| OhlcWindows.IncreasingAcceptedWhole | connectors/common/ohlcgen.py:108-110 | a strictly increasing stream of positive times is kept whole |
| OhlcWindows.GroupsFlatten | connectors/common/ohlcgen.py:116-133 | the groups cut by the closing test, put end to end, are the accepted ticks |
| OhlcWindows.GroupsAreWindowsIff | connectors/common/ohlcgen.py:116-127 | the groups are the time windows if and only if the closing test agrees with a change of window at each tick, for every timeframe |
| OhlcWindows.GroupsAreWindows | connectors/common/ohlcgen.py:116-127 | up to a week the groups are the time windows |
| OhlcWindows.FoldDescribesGroups | connectors/common/ohlcgen.py:124-157 | each candle of the online fold has the window start, open, close, high, low and volume of its group, for every timeframe |
| OhlcWindows.TickFoldIsGroupByWindow | connectors/common/ohlcgen.py:104-159 | ended candles plus the current one are exactly one candle per non-empty window of the accepted ticks, with strictly increasing starts |
| OhlcWindows.VolumeConserved | connectors/common/ohlcgen.py:135-136 | total volume of the candles is the volume of the accepted ticks |
| OhlcWindows.BatchesCompose | connectors/common/ohlcgen.py:73-87 | running batch xs and then ys is running xs + ys |
| OhlcWindows.MonthGroupingFails | connectors/common/ohlcgen.py:98-117 | by month the law is false both ways: 31 January opens a second candle of its month, 1 March joins the candle of February |
| OhlcMonths.MonthGroupsAreMonthsIff | connectors/common/ohlcgen.py:98-117 | candles by month are the calendar months if and only if no tick falls on the 31st after another of its month, and none in March right after one of February before 30 days have passed since that February began |
| Calendar.GdayCountsDays | strategies/src/strategy.cpp:464-472 | for every Gregorian date of every year, the number of the next day is one more if and only if the year is at least 1, or the day does not end a February, or neither year involved is a leap year |
| Calendar.GdayFailsInYearZero | strategies/src/strategy.cpp:464-472 | 29 February of year 0 and the next day get the same number |
| Calendar.GdayIsDistance | strategies/src/strategy.cpp:464-472 | n days later is n more, from any date of year 1 on |
| Calendar.GdayMonotone | strategies/src/strategy.cpp:464-472 | dates are ordered as their numbers, so the numbering is injective |
| Calendar.FourCenturies | strategies/src/strategy.cpp:464-472 | 400 years are 146097 days |
| Calendar.MeanYear | strategies/src/utils/common.cpp:124-124 | the mean-year guess of the inverse is never off by more than the code corrects |
| Calendar.DftYearGuess | strategies/src/utils/common.cpp:124-129 | the first guess of the inverse is the right March-based year or the next one |
| Calendar.MonthOfRemainder | strategies/src/utils/common.cpp:130-135 | the month formula of the inverse recovers the month from the day count |
| Calendar.DftInvertsGday | strategies/src/utils/common.cpp:108-137 | number to date undoes date to number from year 1 on |
| Calendar.GdayInvertsDft | strategies/src/utils/common.cpp:108-137 | date to number undoes number to date from 1 January of year 1 on, so the two are inverse bijections |
| Calendar.MonthStartIsFirstDay | strategies/src/utils/common.cpp:162-175 | the month base time is midnight of day 1 of the same month, at or before the time |
| Calendar.MonthStartMonotone | strategies/src/utils/common.cpp:162-175 | the month base time never goes back |
| Months.DaysOfMonths | strategies/src/utils/common.cpp:162-175 | the day numbers of two month starts differ by the lengths of the months between them |
| TickStreaming.TickStream.constructor | strategies/src/database/tickstream.cpp:20-45 | a new stream has in front of it the read-ahead of the whole month range |
| TickStreaming.TickStream.LoadChunk | strategies/src/database/tickstream.cpp:269-297 | a chunk is copied up to its first record that goes back in time, which marks the file as broken |
| TickStreaming.TickStream.ReadChunk | strategies/src/database/tickstream.cpp:263-298 | one binary read: what lands in the buffer, what stays in the file, and when the file is done with |
| TickStreaming.TickStream.AdvanceMonth | strategies/src/database/tickstream.cpp:346-380 | after a file: the next month is opened if in range, else the stream is finished |
| TickStreaming.TickStream.Bufferize | strategies/src/database/tickstream.cpp:248-384 | one refill keeps what is still to be delivered, and uses up a month or bytes of the file, or ends the stream |
| TickStreaming.TickStream.Consume | strategies/src/database/tickstream.cpp:115-130 | the head of the buffer is skipped, sent, kept for later, or ends the stream, by comparison with the range and the call |
| TickStreaming.TickStream.Turn | strategies/src/database/tickstream.cpp:102-131 | one turn of the loop refines one step of the delivery specification and shrinks the measure |
| TickStreaming.TickStream.FillNext | strategies/src/database/tickstream.cpp:98-134 | a call appends to the output exactly what the specification of the unread records says, for any chunk size, and ends (measure: months left, bytes left, buffered records left) |
| TickFiltering.ReadAheadIsWalk | strategies/src/database/tickstream.cpp:248-384 | the records read are those of the walked months in order whatever the chunk size: a missing first month is skipped, a later gap ends the walk, a file is cut at its first record that goes back |
| TickFiltering.ReadAheadIsSidedWalk | strategies/src/database/tickstream.cpp:248-384 | the same in all six fields: each record of a file has the side of the record i/n*n of that file |
| TickFiltering.ChunkStartIsMultiple | strategies/src/database/tickstream.cpp:263-298 | the first record of the chunk of record i is record i/n*n |
| TickFiltering.ChunksOfFile | strategies/src/database/tickstream.cpp:263-298 | a file read in chunks gives its records up to the first broken one, each chunk with the side of its first record |
| TickFiltering.WalkSorted | strategies/src/database/tickstream.cpp:276-282 | what is read never goes back in time, across files too |
| TickFiltering.DeliverFilters | strategies/src/database/tickstream.cpp:111-131 | one call delivers the records in range up to its timestamp, and uses up only records no later call could deliver |
| TickFiltering.CallsFilter | strategies/src/database/tickstream.cpp:98-134 | any calls, in any order of timestamps, together deliver the range up to the latest |
| TickFiltering.StreamIsFilter | strategies/src/database/tickstream.cpp:98-134 | from a fresh stream, any calls and any chunk size of at least one: the output is the plain filter of the walked months, in order, in the five fields that survive reading |
| TickFiltering.SortedMonthsWalkWhole | strategies/src/database/tickstream.cpp:248-384 | on month files sorted in themselves and among themselves nothing read is cut: the walk is the whole files of its months |
| TickFiltering.SortedMonthsAreFiltered | strategies/src/database/tickstream.cpp:98-134 | on such files, for any calls and any chunk size, the output is the filter of the whole files of the walked months by fromTs and the lesser of toTs and the latest call, in order |
| TickFiltering.ReadTicks | strategies/src/database/tickstream.cpp:98-134 | the same for one stream object called again and again, appending to one output |
| TickMonths.NextMonthIsNext | strategies/src/database/tickstream.cpp:349-365 | the month a stream goes on to is one month later, January after December included |
| TickMonths.FollowsIff | strategies/src/database/tickstream.cpp:349-383 | a stream goes on exactly when the next numbered month has a file and begins before the end of the range |
| TickMonths.WalkIsNumbered | strategies/src/database/tickstream.cpp:248-384 | the files a stream walks, and what it reads of each, are those of the months numbered from its first one to the first that has no file or begins too late, one after the other |
| TickMonths.StreamIsNumbered | strategies/src/database/tickstream.cpp:98-134 | on sorted files any calls and any chunk size deliver exactly the ticks in range of the files of those numbered months |
| TickMonths.NothingLeftOut | strategies/src/database/tickstream.cpp:98-134 | inside an unbroken range of files no record that is in range and asked for is left out, whatever its month |
| TickMonths.InFilterIff | strategies/src/database/tickstream.cpp:103-131 | the filter keeps a record exactly when its time is in the range, both ends included |
| TickMonths.GoodPrefixIff | strategies/src/database/tickstream.cpp:276-282 | a file is good exactly up to the first record that goes back in time once a positive time was read |
| TickCuts.CallsWithCut | strategies/src/database/tickstream.cpp:276-282 | over any calls a chunk cut in the last month adds at most its first tick, when the call that drains the ticks before it reaches that tick |
| TickCuts.StreamIsFilterIff | strategies/src/database/tickstream.cpp:98-134 | for any calls in any order and any chunk size, the output is the filter of the walked months if and only if the cut chunk is harmless: it is empty, or no call drains the ticks before it, or none of its ticks after the first is in range and the first, if in range, is reached by the draining call |
| TickCuts.BackwardTickLosesGoodOnes | strategies/src/database/tickstream.cpp:276-280 | ticks at 1, 2, 3 and 1 in one chunk of the last month: a call to the end delivers only the tick at 1 |
| TickSides.SidesSurviveIff | strategies/src/database/tickstream.cpp:98-134 | for any calls and any chunk size, the output is the filter of the walked months in all six fields if and only if the cut chunk is harmless and each record in range has the side of the first record of its chunk |
| TickSides.StreamWithSides | strategies/src/database/tickstream.cpp:289-289 | in all six fields, what any calls deliver is a prefix of the filter of the chunks as read, and all of it if and only if the cut chunk is harmless |
| TickSides.SellIsReadAsBuy | strategies/src/database/tickstream.cpp:289-289 | a buy and a sell in one chunk: the sell is delivered as a buy |
| WorkerPool.PoolWorker.AddJob | strategies/src/poolworker.cpp:71-85 | a job goes to the back of the queue |
| WorkerPool.PoolWorker.NextJob | strategies/src/poolworker.cpp:55-69 | the oldest job leaves the front; an empty queue gives none and stays empty |
| WorkerPool.QueueStepsAreCalls | strategies/src/worker.cpp:33-43 | submitting does to the queue what adding a job does, popping and polling what asking for the next job does, and no other step touches it |
| WorkerPool.StepKeepsInv | strategies/include/siis/poolworker.h:30-54 | every step of every thread keeps the count equal to strategies not yet visited, plus skipped, plus queued, plus not yet counted down, together with the queue history, mutual exclusion and the wake-up promise |
| WorkerPool.InvReachable | strategies/src/backtest/backtest.cpp:435-484 | the invariant holds after every interleaving |
| WorkerPool.BarrierSafety | strategies/src/backtest/backtest.cpp:440-480 | when the wait returns, the round has submitted each strategy once, in order, at the current time, every job ever submitted was processed exactly once, and no worker is inside process |
| WorkerPool.TimeMovesOnlyWhenQuiet | strategies/src/backtest/backtest.cpp:477-480 | the simulated time changes only past the barrier, with no job left and nobody inside process |
| WorkerPool.NoStrategyTwice | strategies/src/worker.cpp:31-43 | two workers never hold jobs of one strategy, and held jobs are for the current time |
| WorkerPool.JobsStartInOrder | strategies/src/poolworker.cpp:55-85 | jobs start in the order of submission |
| WorkerPool.NoLostWakeUp | strategies/include/siis/poolworker.h:36-53 | at most one thread is inside the count-down mutex, and main asleep on a count of zero always has a worker about to wake it |
| WorkerPool.WokenByTheLast | strategies/include/siis/poolworker.h:44-53 | apart from spurious wake-ups main is woken only when all jobs of the round were processed, the queue is empty and every other worker is idle |
| WorkerPool.SkippedRoundStalls | strategies/src/backtest/backtest.cpp:447-460 | a round in which a strategy was skipped never ends, in any continuation |
| WorkerPool.SkipStallsARun | strategies/src/backtest/backtest.cpp:447-460 | one strategy skipped in the first round: a reachable state from which main waits at time 0 in every continuation |
| WorkerPool.StepsApproachTheEnd | strategies/src/worker.cpp:33-43 | while main waits, every step except polls and spurious wake-ups decreases a natural measure |
| WorkerPool.WorkIsBounded | strategies/src/worker.cpp:33-43 | in every run during which main waits, the workers take no more steps than the work left at its start, whatever the wake-ups and polls |
| WorkerPool.SomeoneCanStep | strategies/src/worker.cpp:33-43 | while main waits on a round without skips, some thread can take such a step |
| WorkerPool.RoundEnds | strategies/include/siis/poolworker.h:36-53 | a waiting round without skips can always be run to its end |
| WorkerPool.BarrierOpensIff | strategies/src/backtest/backtest.cpp:443-478 | in every reachable waiting state the barrier can open if and only if no strategy of the round was skipped |
| BacktestClock.TimeIsRounds | strategies/src/backtest/backtest.cpp:435-484 | in every run and interleaving the time is as many steps past the start as rounds were completed, and no round begins past the end of the range |
| BacktestClock.JobsCarryTheirRound | strategies/src/backtest/backtest.cpp:442-471 | every job ever submitted carries the time of its round, which lies in the range; as many jobs as there are strategies make one round |
| BacktestClock.RoundsCanRun | strategies/src/backtest/backtest.cpp:435-484 | as many rounds as begin in the range can be run; time and jobs follow, the run can then stop, and it goes on exactly while the time is in the range |
| WriteBehind.Database.StoreMarketOhlc | connectors/database/database.py:250-270 | rows go to the back of the pending list; afterwards the pending liquidations are discarded |
| WriteBehind.Database.StoreMarketLiquidation | connectors/database/database.py:272-287 | liquidations go to the back of their list |
| WriteBehind.Database.TakeOhlc | connectors/database/mysql.py:683-687 | the swap happens exactly after a minute or past 500 rows, and moves the whole list in flight |
| WriteBehind.Database.FinishOhlc | connectors/database/mysql.py:689-710 | a failed batch goes back in front of what was stored meanwhile, and the flush time moves only for a non-empty batch |
| WriteBehind.Database.TakeLiquidation | connectors/database/mysql.py:716-719 | the pending liquidations are swapped out |
| WriteBehind.Database.FinishLiquidation | connectors/database/mysql.py:721-741 | a failed batch of liquidations goes back in front |
| WriteBehind.UpsertLastWriterWins | connectors/database/mysql.py:693-697 | after an upsert a key holds the last row written to it, and other keys what they held |
| WriteBehind.UpsertAgain | connectors/database/mysql.py:702-708 | rows committed but reported as failed do no harm when committed again with the rows behind them |
| WriteBehind.NothingLostOrReordered | connectors/database/mysql.py:683-710 | in every run, committed-but-reported-failed included: table, then batch in flight, then pending rows, equals all stored rows applied in store order |
| WriteBehind.DrainedTableIsComplete | connectors/database/mysql.py:683-710 | when nothing is in flight or pending, the table is the result of all stores |
| WriteBehind.QueueIsTail | connectors/database/mysql.py:705-708 | what is in flight and pending is always the end of what was stored, in order |
| WriteBehind.HalvesAreCalls | connectors/database/database.py:282-287 | the two halves of a list operation with nothing in between are the call of the object |
| WriteBehind.StepDurableIff | connectors/database/database.py:270-287 | each step keeps the liquidations exact, adding those stored, if and only if it is not a harmful one |
| WriteBehind.LiquidationsSurviveIff | connectors/database/database.py:270-287 | in every run, at every point the liquidations in table, in flight and pending are exactly those stored so far, once and in order, if and only if the unlocked discard never meets pending ones that the database thread has not loaded, never falls inside an extension, and no commit of them succeeds while reported as failed |
| WriteBehind.CandleStoreLosesLiquidation | connectors/database/database.py:263-287 | a liquidation stored just before a candle is lost |
| WriteBehind.DiscardInsideExtension | connectors/database/database.py:263-287 | a discard inside a store of liquidations loses them though none was pending; one inside the swap loses nothing |
| WriteBehind.DoubtfulCommitDuplicates | connectors/database/mysql.py:732-741 | a commit of liquidations that succeeds but is reported as failed stores them twice |
| WriteBehind.RowsAreRetriedIff | connectors/database/mysql.py:697-708 | rows are pending again, in front of what came meanwhile, exactly when their commit is reported as failed |
| WriteBehind.LockIsKept | connectors/database/database.py:250-287 | while an extension, a swap or a putting-back is between its halves no other operation on the lists begins, and only its own second half ends it |
| WriteBehind.GoesOnIff | connectors/database/mysql.py:683-741 | while a store holds the lock the database thread goes on exactly where it commits, or has committed, a batch |
| WriteBehind.ListsCanAlwaysEmpty | connectors/database/mysql.py:683-741 | from every point of every run all stores under way can end and both lists can be emptied, the table then being the result of all stores |
| PaperBroker.LocalConnector.ExecIndMarginOrder | strategies/src/connector/localconnectorindmargin.cpp:23-107 | one order changes book, signals and return code as the specification of the branches says, refusals included |
| PaperBroker.LocalConnector.IndMarginOpenPosition | strategies/src/connector/localconnectorindmargin.cpp:109-230 | opening stores a position on a recycled object and emits accept, trade, removal and OPENED |
| PaperBroker.LocalConnector.IndMarginIncreasePosition | strategies/src/connector/localconnectorindmargin.cpp:232-343 | increasing averages in the fill and adjusts the quantity, or fails without a price |
| PaperBroker.LocalConnector.IndMarginClosePosition | strategies/src/connector/localconnectorindmargin.cpp:345-462 | closing reduces the quantity down to zero and averages the exit, or fails without a price |
| PaperBroker.LocalConnector.IndMarginReversePosition | strategies/src/connector/localconnectorindmargin.cpp:464-586 | a close-only or reduce-only order closes; any other leaves the excess quantity with the direction unchanged |
| BrokerLaws.StepMirrored | strategies/src/connector/localconnectorindmargin.cpp:54-107 | the position signals of one order turn the quantities before it into those after it, whatever the order |
| BrokerLaws.SignalsMirrorBook | strategies/src/connector/localconnectorindmargin.cpp:76-92 | after every run of orders, rejected and reversing ones included, a listener to the position signals holds exactly the book |
| QuantityFilter.RoundToDecimals | strategies/include/siis/utils/math.h:25-29 | rounding to the decimals of the filter keeps a whole number of them |
| QuantityFilter.RoundsToIff | strategies/include/siis/utils/math.h:25-29 | rounding to the decimals of a filter gives a quantity if and only if that is a whole number of decimals and half a decimal at most away |
| QuantityFilter.AdjustKeepsIff | strategies/src/market.cpp:405-428 | for every filter, quantity adjustment keeps a positive quantity if and only if it is within the bounds and, with a step, is a whole number of decimals at most half a decimal from the nearest number of steps, or the minimum where that number, rounded, is below it |
| QuantityFilter.NearestStepIff | strategies/src/market.cpp:422-425 | the number of steps taken is the nearest one, halfway the one further from zero |
| QuantityFilter.AdjustMovesLittle | strategies/src/market.cpp:405-428 | below the minimum a quantity becomes 0, above the maximum the maximum; otherwise it moves by half a step and half a decimal at most, unless the minimum stands for less |
| QuantityFilter.StaysBelowMaxIff | strategies/src/market.cpp:418-425 | no adjusted quantity is above the maximum if and only if the maximum itself is not adjusted upwards |
| QuantityFilter.MaximumIsExceeded | strategies/src/market.cpp:418-425 | a maximum of 1 in steps of 0.4 is adjusted to 1.2 |
| QuantityFilter.GridIsAdmittedIff | strategies/src/market.cpp:405-428 | a whole number of steps is kept if and only if it is within the bounds and the decimals of the filter write it in full, or it is the minimum that stands for less |
| QuantityFilter.KeepsGridIff | strategies/src/market.cpp:405-428 | the adjustment is the identity on the whole numbers of steps within the bounds if and only if the precision writes the step in full, with room for three steps between the bounds |
| QuantityFilter.FirstDigit | strategies/include/siis/utils/math.h:32-35 | the precision computed from a step is 0 from one on, and otherwise moves the step to between 1 and 10 |
| QuantityFilter.LastSettingWins | strategies/src/market.cpp:230-236 | after any settings each value of the filter is the last one given that was not negative, 0 included, and the precision is that of the step |
| QuantityFilter.BuiltFilterKeepsGridIff | strategies/src/market.cpp:222-236 | on a filter built from market data the adjustment is the identity on whole numbers of steps if and only if the step is a whole number or has one significant decimal |
| QuantityFilter.QuarterIsRounded | strategies/src/market.cpp:422-425 | steps of a quarter get a precision of one decimal, and one step is adjusted to 0.3 |
| BrokerLaws.StepNetsIff | strategies/src/connector/localconnectorindmargin.cpp:54-107 | one order, at any prices, of any positive quantity and for any filter, changes the signed position of every market by its signed fills if and only if it neither overshoots the position it meets nor leaves what its market does not admit |
| BrokerLaws.OvershootBreaksNetting | strategies/src/connector/localconnectorindmargin.cpp:538-554 | an order larger than the opposite position always breaks the equality, since the direction is not changed |
| BrokerLaws.CutBreaksNetting | strategies/src/market.cpp:405-428 | an order that leaves a quantity its market does not admit always breaks the equality, since the position is cut, clipped or rounded |
| BrokerLaws.GridCutsIff | strategies/src/market.cpp:405-428 | with quantities in whole steps only the bounds and the precision cut, and a precision that writes the step in full does not |
| BrokerLaws.QuarterStepsBreakNetting | strategies/src/market.cpp:422-425 | a half bought and a quarter sold, in steps of a quarter and without bounds or overshooting: the position is 0.3 where the fills net to 0.25 |
| BrokerLaws.NettingOverRuns | strategies/src/connector/localconnectorindmargin.cpp:54-107 | over a run the book nets all fills at every point if and only if no order overshoots or is cut |
| BrokerLaws.NettingIff | strategies/src/connector/localconnectorindmargin.cpp:54-107 | the same, and then a market has a position if and only if its signed fills do not cancel out |
| ExitLaws.ExitsStaySound | strategies/src/connector/localconnectorindmargin.cpp:418-430 | in every run the exit price and quantity of every position object, in the book or recycled, are never negative |
| ExitLaws.ClosingFillsBookedIff | strategies/src/connector/localconnectorindmargin.cpp:418-430 | in every run each closing fill raises exit price times exit quantity by exactly price times quantity if and only if the filter of the market admits the exit quantity with the fill, whatever earlier positions left in the object |
| ExitLaws.RecycledExitIsMisbooked | strategies/include/siis/position.h:104-121 | a half traded on a market of halves, then a whole on a market of wholes with the recycled object: the second sale is booked wrong |
| ExitLaws.FirstIncreaseMisprices | strategies/src/connector/localconnectorindmargin.cpp:305-311 | after opening and one increase the entry price is the mean of the fills only if the first fill was at the undefined price of -1, because opening does not set the average |
| OrderOutcomes.ExecutedIff | strategies/src/connector/localconnectorindmargin.cpp:23-107 | an order is executed exactly when it is for indivisible margin, hedges only where the market does, and finds a price and a position on its way or may open one; otherwise nothing changes, nothing is sent, and the code tells why |
| OrderOutcomes.ReducingOpensNothing | strategies/src/connector/localconnectorindmargin.cpp:97-100 | an order that only closes or reduces never gives a market a position, and where there is none changes nothing |
| OrderOutcomes.PositionsWereOpened | strategies/src/connector/localconnectorindmargin.cpp:23-107 | in every run a market with a position had an order that was free to open one |
| OrderOutcomes.OrderLifecycle | strategies/src/connector/localconnectorindmargin.cpp:109-586 | an executed order is accepted, traded in full and removed, in that order, with one position signal in between; no other order sends anything |
| OrderOutcomes.EntryQuantityIsQuantity | strategies/src/connector/localconnectorindmargin.cpp:109-586 | in every run the entry quantity of a position object is the quantity of its position |
| OrderOutcomes.IncreaseConservesCost | strategies/src/connector/localconnectorindmargin.cpp:232-343 | after an increase the average price over both quantities is what they cost together |
| OrderOutcomes.ClosingKeepsEntry | strategies/src/connector/localconnectorindmargin.cpp:345-462 | a closing fill leaves entry price and average price alone |
| OrderOutcomes.ReversalStartsAgain | strategies/src/connector/localconnectorindmargin.cpp:464-586 | an order that overshoots and may starts the position again at its price, with nothing exited |
| OrderOutcomes.NewPositionReuses | strategies/src/connector/localconnectorindmargin.cpp:109-230 | a new position costs its price and takes over the exit figures of the object freed last |
| OrderOutcomes.FreedIsReusedFirst | strategies/src/connector/localconnectorindmargin.cpp:23-230 | the object freed last is the next one used; the others stay as they were |
| OrderOutcomes.ObjectsArePeak | strategies/src/connector/localconnectorindmargin.cpp:23-230 | in every run there are as many position objects, in use or freed, as positions were open at once |
| DailySamples.VirtualAccountData.DailyUpdate | strategies/src/connector/localconnector.cpp:735-782 | one update appends a copy of the last sample for each elapsed day, at most 999, and sets the last sample to the current values |
| DailySamples.OneSamplePerDayIff | strategies/src/connector/localconnector.cpp:755-770 | there is never more than one sample per day from first to last, and exactly one if and only if no gap exceeds 999 days |
| DailySamples.LongGapMisdates | strategies/src/connector/localconnector.cpp:755-770 | two updates 1000 days apart: 1000 samples for 1001 days, the last with the values of the day after it |
| DailySamples.SamplesAreStepFunction | strategies/src/connector/localconnector.cpp:735-782 | each day has the account values at the last update on or before it |
| DailySamples.SampleTimesIncrease | strategies/src/connector/localconnector.cpp:735-782 | whatever the gaps, sample times are strictly increasing multiples of a day, none past the last update |
| CircularArray.DataCircular.constructor | strategies/include/siis/datacircular.h:69-78 | a new array is empty with the asked capacity |
| CircularArray.DataCircular.Append | strategies/include/siis/datacircular.h:109-124 | contents become the last capacity values of the old contents and the new one |
| CircularArray.DataCircular.Clear | strategies/include/siis/datacircular.h:83-88 | clearing empties the array and keeps the buffer |
| CircularArray.DataCircular.SetSize | strategies/include/siis/datacircular.h:90-101 | a new capacity empties the array, the same capacity keeps it |
| CircularArray.DataCircular.Front | strategies/include/siis/datacircular.h:129-130 | the oldest value |
| CircularArray.DataCircular.Back | strategies/include/siis/datacircular.h:132-149 | the newest value, in all three pointer cases |
| CircularArray.DataCircular.IteratorVisitsInOrder | strategies/include/siis/datacircular.h:31-54 | the iterator goes from the k-th oldest value to the next one, through the wrap, and stops exactly after the last |
| CircularArray.DataCircular.PositionHolds | strategies/include/siis/datacircular.h:126-127 | the k-th position of the iteration holds the k-th oldest value |
| CircularArray.DataCircular.Collect | strategies/include/siis/datacircular.h:126-127 | a loop over the iterator gives the contents in order, and ends |
| CircularArray.DataCircular.FillArray | strategies/include/siis/datacircular.h:157-173 | an output of another size is resized, and the one or two block copies give the contents in order |
| CircularArray.DataCircular.AsArray | strategies/include/siis/datacircular.h:178-195 | the same into a fresh array |
| CircularArray.RotatedAppend | strategies/include/siis/ohlc.h:327-343 | writing over the oldest element and moving on drops it and puts the new one last |
| CircularArray.CircularIsLastN | strategies/include/siis/datacircular.h:109-124 | any run of appends and clears leaves the last capacity values appended since the last clear |
| CircularArray.Perform | strategies/include/siis/datacircular.h:83-124 | the object does what such a run says, in place in one buffer |
| GrowingArray.OhlcArray.constructor | strategies/include/siis/ohlc.h:191-194 | an array of any capacity starts empty |
| GrowingArray.OhlcArray.GrowSize | strategies/include/siis/ohlc.h:199-220 | the capacity doubles, or becomes 100 from nothing, and the elements stay at their positions |
| GrowingArray.OhlcArray.Push | strategies/include/siis/ohlc.h:231-246 | the element goes last, after a growth when there is no room or one place left in a non-empty array |
| GrowingArray.OhlcArray.Clear | strategies/include/siis/ohlc.h:225-225 | the elements go, the allocation stays |
| GrowingArray.OhlcArray.Perform | strategies/include/siis/ohlc.h:199-246 | any run of pushes and clears on the object is the run of the specification |
| GrowingArray.HoldsPushesSinceClear | strategies/include/siis/ohlc.h:225-246 | the array holds the pushes since the last clear, never beyond its capacity |
| GrowingArray.SavedWithinGrowth | strategies/include/siis/ohlc.h:199-220 | all elements ever saved by growths are paid for by the growth of the capacity |
| GrowingArray.CapacityWithinTwicePeak | strategies/include/siis/ohlc.h:199-246 | the capacity never exceeds the first allocation or twice the most elements held at once, whatever the clears |
| GrowingArray.GrowthIsAmortised | strategies/include/siis/ohlc.h:199-246 | a run with pushes saves fewer elements than twice the most held at once, hence than twice its pushes, from any initial capacity |
| GrowingArray.OneSlotIsFree | strategies/include/siis/ohlc.h:231-246 | after every operation one slot at least is free, unless the array was made for one element and holds one or two |
| GrowingArray.GrowsIff | strategies/include/siis/ohlc.h:231-246 | in every run a push finds room unless nothing is allocated, or the array holds elements and at most one slot is free |
| TradeStatistics.GlobalStatistics.Add | strategies/src/statistics/statistics.cpp:207-207 | the trades of a strategy go behind those already there |
| TradeStatistics.Sort | strategies/src/statistics/statistics.cpp:211-262 | one sorted permutation of the trades; the laws hold for any other |
| TradeStatistics.GlobalStatistics.ComputeStats | strategies/src/statistics/statistics.cpp:259-359 | sorts by exit time and returns the report of one pass, in both units, starting from the values the object holds |
| StatisticsLaws.PeakIsMaxOfPrefixes | strategies/src/statistics/statistics.cpp:273-297 | the cumulated result is the sum, the peak the maximum of 0 and all prefix sums |
| StatisticsLaws.DrawDownsFromPeaks | strategies/src/statistics/statistics.cpp:344-345 | each squared draw-down is the squared distance from the maximum of the prefixes so far to the current sum |
| StatisticsLaws.RecoverIsLongestGap | strategies/src/statistics/statistics.cpp:277-297 | the time to recover is the longest time between successive trades that reach a peak, or the value it started with |
| StatisticsLaws.MonthsAreBuckets | strategies/src/statistics/statistics.cpp:303-312 | each bucket holds exactly the results of the trades the pass was in that bucket for; MonthBuckets says which months those are |
| StatisticsLaws.EachUnitItsOwn | strategies/src/statistics/statistics.cpp:273-345 | the report in percent adds up the percentages of the trades, and the one in money their profits |
| MonthBuckets.ElapsedIsMonthsIff | strategies/src/statistics/statistics.cpp:304-305 | for any two entry times the count of months is the calendar one if and only if they do not go back and the months between them have, beyond 30 days each, at least 0 and fewer than 30 days, or are 999 with at least 0 |
| MonthBuckets.SameBucketIff | strategies/src/statistics/statistics.cpp:304-307 | for any two entry times no bucket is opened if and only if the month stays or goes back, or is the March after a February |
| MonthBuckets.BucketsAreMonthsIff | strategies/src/statistics/statistics.cpp:303-312 | in every run, any two trades share a bucket if and only if they share a calendar month, if and only if from each trade to the next the month does not go back and is not the March after a February |
| MonthBuckets.BucketsNumberMonthsIff | strategies/src/statistics/statistics.cpp:303-312 | in every run, the number of each bucket is the number of calendar months since the first trade if and only if the count is right from each trade to the next |
| MonthBuckets.MonthProfit | strategies/src/statistics/statistics.cpp:338-340 | on a run whose buckets are months, the profit of a bucket is the sum of all trades that entered in that calendar month |
| MonthBuckets.JanuaryToMarchOpensOne | strategies/src/statistics/statistics.cpp:304-305 | from 15 January to 15 March 1970 one bucket is opened, from 15 February none |
| StatisticsLaws.ResultsConserved | strategies/src/statistics/statistics.cpp:325-340 | the buckets add up to the total, and so do winning and losing results |
| StatisticsLaws.SortedOrderUniqueIff | strategies/src/statistics/statistics.cpp:211-214 | the sorted order is determined by the trades if and only if no two different trades left at the same time |
| StatisticsLaws.StrategyOrderDoesNotMatter | strategies/src/statistics/statistics.cpp:180-359 | without ties, adding the strategies in any order and sorting in any way gives the same report in every field |
| StatisticsLaws.TiesCanChangeThePeak | strategies/src/statistics/statistics.cpp:211-297 | with a tie the order of addition can change the peak |
| TiedTrades.SettledSame | strategies/src/statistics/statistics.cpp:269-345 | two sorted orders of trades whose groups of one exit time are settled (results all equal, or each at least the draw-down before the group) have the same cumulated result, peak, time to recover and draw-downs |
| TiedTrades.UnsettledDiffers | strategies/src/statistics/statistics.cpp:269-345 | when a group is not settled, some sorted order of the same trades gives another peak, time to recover or draw-down |
| TiedTrades.OneCourseIff | strategies/src/statistics/statistics.cpp:211-345 | all sorted orders of the trades give one course, in a unit, if and only if in one of them every group is settled |
| TiedTrades.StrategyOrderIff | strategies/src/statistics/statistics.cpp:180-345 | strategies added in any order and sorted in any way give one course if and only if every group of all their trades is settled |
| TiedTrades.WinsPermute | strategies/src/statistics/statistics.cpp:325-337 | winning, losing and total results never depend on the order |
| TiedFlats.AllOrdersWithinIff | strategies/src/statistics/statistics.cpp:299-301 | every sorted order keeps its gaps within a bound if and only if no trade of a group, coming first in it, exceeds it |
| TiedFlats.NoOrderWithinIff | strategies/src/statistics/statistics.cpp:299-301 | no sorted order does if and only if some group exceeds the bound whichever of its trades comes first |
| TiedFlats.OneFlatIff | strategies/src/statistics/statistics.cpp:299-301 | the longest flat period is the same in every sorted order if and only if no trade that could come first in its group makes it longer, and it was that long already or some group makes it so whichever comes first |
| MonthBuckets.TiesCanMoveMonths | strategies/src/statistics/statistics.cpp:303-312 | two trades that left together, entered in January and in March: their order decides whether March has a bucket |
| TiedMonths.SteadySame | strategies/src/statistics/statistics.cpp:303-312 | sorted orders of the same trades have as many monthly buckets when any two tied trades can change places between any that can come just before and after them |
| TiedMonths.UnsteadyDiffers | strategies/src/statistics/statistics.cpp:303-312 | when some cannot, two sorted orders differ in the number of buckets |
| TiedMonths.OneCountIff | strategies/src/statistics/statistics.cpp:303-312 | the number of monthly buckets is the same in every sorted order if and only if any two tied trades can change places so, judged by any one sorted order |
| TiedMonths.OneNumberOfMonthsIff | strategies/src/statistics/statistics.cpp:303-312 | that is when the reported months, in either unit, are equally many in every sorted order |
| ClosedTrades.Strategy.AddClosedTrade | strategies/src/strategy.cpp:283-370 | one closed trade changes the counters, the series, the returns, the day and the kept results as the specifications say; a canceled trade is only counted |
| ClosedTrades.Strategy.CountMove | strategies/src/strategy.cpp:298-340 | the break-even, lost and won branches, with the direction and the two maxima |
| ClosedTrades.Strategy.KeepDay | strategies/src/strategy.cpp:347-364 | the day is opened at the first trade and after a whole day, and the return is added |
| ClosedTrades.Strategy.AddAll | strategies/src/strategy.cpp:283-370 | any run of closed trades on a new strategy leaves every group of figures that the laws below are about |
| ClosedTrades.AdjacentAreLongestSeries | strategies/src/strategy.cpp:297-331 | after any history the direction is the series that ends it and the two maxima are the longest series of wins and of losses in it |
| ClosedTrades.CountersAddUp | strategies/src/strategy.cpp:286-347 | the counters are the numbers of wins, losses and break-evens of the history, and exits are told apart within them |
| ClosedTrades.ReturnsAreExtremes | strategies/src/strategy.cpp:289-350 | performance is the sum of the net returns, best and worst their extremes with zero |
| ClosedTrades.DailyPerformanceIsOfDayIff | strategies/src/strategy.cpp:347-364 | the daily performance is the sum of the returns of the last day with a trade if and only if nothing was carried over from the first day of the epoch |
| ClosedTrades.FirstDayIsCarried | strategies/src/strategy.cpp:347-364 | a trade closed at time 0 and one a day later: the performance of the second day holds both |
| ClosedTrades.NothingCarried | strategies/src/strategy.cpp:348-353 | past the first day of the epoch nothing is carried over |
| TradeCounts.MoveIs | strategies/src/strategy.cpp:286-347 | a trade is won, lost or even by its rate less both fees against the spread, and only a closed one that was not canceled moves the series |
| TradeCounts.CountersCount | strategies/src/strategy.cpp:283-347 | in every history the five counters are the numbers of trades won, lost, even, finished and canceled |
| TradeCounts.ExitsCount | strategies/src/strategy.cpp:300-340 | the four exit counters are the numbers of lost and of won trades that a stop or a target closed |
| TradeCounts.FeesArePaidOnce | strategies/src/strategy.cpp:286-300 | performance and fees together are what the finished trades made before fees |
| TradeCounts.DayOfTime | strategies/src/strategy.cpp:350-370 | days begin at whole multiples of a day, and a time is in the day that began last |
| TradeCounts.FeesTurnAGainIntoALoss | strategies/src/strategy.cpp:286-320 | a gain of 1 with fees of 1.25 is lost, not won |
| ConfigMerge.JoinRightToLeft | strategies/src/config/strategyconfig.cpp:21-41 | the target becomes a copy of the other tree's members, a null that gains none stays null; anything without members is an error |
| ConfigMerge.Update | strategies/src/config/strategyconfig.cpp:63-116 | the loop over the names computes the updated tree, and raises an error exactly when some special key on the way does not hold members |
| ConfigMerge.SelfUpdateIff | strategies/src/config/strategyconfig.cpp:64-116 | a tree updated by itself works if and only if its special keys hold objects at every level, and does not change |
| ConfigMerge.UpdateIsIdempotentIff | strategies/src/config/strategyconfig.cpp:64-116 | a second update by the same tree works if and only if the first planted no object with a bad special key, and then changes nothing |
| ConfigMerge.SpecialObjectsAreRepeatable | strategies/src/config/strategyconfig.cpp:70-98 | special keys holding objects at every level are enough for that |
| ConfigMerge.SecondUpdateCanFail | strategies/src/config/strategyconfig.cpp:108-114 | a leaf replaced by an object whose timeframes is not one: the first update works, the second fails |
| ConfigMerge.SilenceKeeps | strategies/src/config/strategyconfig.cpp:100-102 | along a path where the override has objects but not the next key, the result has what the tree had, and nothing new |
| ConfigMerge.NothingAdded | strategies/src/config/strategyconfig.cpp:100-102 | along a path without special keys where the tree has objects but not the next key, the result has nothing either, whatever the override has |
| ConfigMerge.OverrideWins | strategies/src/config/strategyconfig.cpp:100-114 | where both have a value at a path without special keys the override wins, and two objects are updated in turn |
| ConfigMerge.LeavesComeFromEither | strategies/src/config/strategyconfig.cpp:64-116 | every leaf and array of the result stands at the same path of one of the two trees |
| ConfigMerge.SpecialKeyIsReplaced | strategies/src/config/strategyconfig.cpp:35-40 | where a path of ordinary keys holds objects in both trees and the override has a special key, every longer path gives what the override has, and nothing where it has nothing |
| ConfigMerge.OldTimeframesAreGone | strategies/src/config/strategyconfig.cpp:71-74 | timeframes of one minute and of five, overridden by five alone: the one of a minute is gone |
| ConfigMerge.OnlyObjectsAreUpdated | strategies/src/config/strategyconfig.cpp:63-69 | a tree or an override that is no object leaves the tree as it is |
| ConfigMerge.WorksIff | strategies/src/config/strategyconfig.cpp:63-116 | an update raises an error exactly when, at the end of some path of ordinary keys with objects in both trees, the override has a special key and one of the trees neither an object nor null there |
| DeltaDecoding.Subscription.NotifyUpdate | connectors/connectors/ig/lightstreamer.py:88-115 | one line replaces the item and is given to every listener in order; a bad position changes nothing, one that names no item is an error after the change |
| DeltaDecoding.Subscription.AddListener | connectors/connectors/ig/lightstreamer.py:85-86 | listeners are kept in order |
| DeltaDecoding.SplitInvertsJoin | connectors/connectors/ig/lightstreamer.py:93-93 | tokens without a bar come back from their line |
| DeltaDecoding.JoinInvertsSplit | connectors/connectors/ig/lightstreamer.py:93-93 | every line is the join of its parts, none of which holds a bar |
| DeltaDecoding.RStripRemovesEol | connectors/connectors/ig/lightstreamer.py:93-93 | exactly the carriage returns and line feeds at its end are stripped from a line |
| DeltaDecoding.ParseDecimal | connectors/connectors/ig/lightstreamer.py:98-98 | a decimal position is read back |
| DeltaDecoding.ParsesIff | connectors/connectors/ig/lightstreamer.py:98-98 | a text is a position exactly when it is digits, single underscores between them allowed, behind an optional sign and inside white space, and the position is the number they write |
| DeltaDecoding.PositionsNameItems | connectors/connectors/ig/lightstreamer.py:88-115 | a line without a number changes nothing; any other changes its own item alone, and then fails exactly when the position, counted from the end when 0 or less, names no item; else the event has that name |
| DeltaDecoding.DecodesIff | connectors/connectors/ig/lightstreamer.py:70-83 | which tokens decode to a value, exactly: empty when unchanged, the two marks, the text, or the text behind a mark |
| DeltaDecoding.RowDecodedIff | connectors/connectors/ig/lightstreamer.py:94-105 | a line decodes to a row if and only if each token says its value against the last row |
| DeltaDecoding.LastOfRepeated | connectors/connectors/ig/lightstreamer.py:94-97 | a field that is named twice has the token of its last place |
| DeltaDecoding.ShortLineForgets | connectors/connectors/ig/lightstreamer.py:94-105 | fields a short line leaves out are forgotten whatever they held |
| DeltaDecoding.UpdateIsSeen | connectors/connectors/ig/lightstreamer.py:88-115 | the event names its item and the row arrives, exactly when it was encoded against the last one |
| DeltaDecoding.DecodingIsLosslessIff | connectors/connectors/ig/lightstreamer.py:88-115 | over any run of lines for any items, every event is the row that was sent if and only if every update was encoded against the last row sent for its item |
| DeltaDecoding.Whole | connectors/connectors/ig/lightstreamer.py:70-83 | every value has a token that decodes to it whatever the receiver holds, clean when the value is, leading marks included |
| SubscriptionIds.Connector.constructor | connectors/connector.py:93-96 | no subscription, nothing recycled, next number 1 |
| SubscriptionIds.Connector.AddSubscription | connectors/connector.py:107-119 | a new subscription gets the last recycled id, or the next number, and is stored under it |
| SubscriptionIds.Connector.DelSubscription | connectors/connector.py:121-124 | a live id is dropped and recycled; any other changes nothing |
| SubscriptionIds.RunPartitions | connectors/connector.py:107-124 | in every run live and recycled ids are disjoint, without duplicates, and together exactly the numbers below the next one |
| SubscriptionIds.StepPartitions | connectors/connector.py:107-124 | each operation keeps that, and a new id is never live |
| SubscriptionIds.NextIsPeak | connectors/connector.py:107-124 | as many ids were ever handed out as subscriptions were live at once |
| SubscriptionIds.SubscriptionsKeepTheirId | connectors/connector.py:107-124 | what is stored under an id is what the history last added there and has not deleted |
| SubscriptionIds.LastDeletedFirst | connectors/connector.py:107-124 | after any deletions as many new subscriptions get those ids in reverse order, before any new number, and nothing else changes |

## Left out

- TickFiltering.StreamIsFilter: asks for positive timestamps and a last month that does not break inside a
  chunk; TickCuts.StreamIsFilterIff gives the exact condition for any walk in order of time.
- TickCuts.StreamIsFilterIff: asks that the walked ticks are in order of time, which positive timestamps
  ensure; the source takes a last timestamp of zero or less for "none yet", so others may not be.
- TickSides.SidesSurviveIff: asks the same.
- TickSides.StreamWithSides: asks the same.
- OhlcGeneration.WholeSecondsDivideIff: is about whole seconds; OhlcGeneration.TruncationKeepsDivisionIff is
  about all timeframes.
- OhlcEpoch.CascadeAgreesIff: with volumes of zero a missed candle can leave no trace, so the "only if" part
  asks for positive volumes. It is about windows up to a week.
- OhlcMonthCascade.MonthCascadeAgreesIff: the same for its "only if" part; it asks for a first tick past the
  small window of the epoch, and for small candles that divide a day. For windows that do not nest,
  OhlcNesting.AlwaysAgreeIff says that some run fails, not which ones do.
- StatisticsLaws.StrategyOrderDoesNotMatter: no two different trades at one exit time is enough for the whole
  report, but not needed; the exact conditions are those of TiedTrades.StrategyOrderIff, TiedFlats.OneFlatIff
  and TiedMonths.OneCountIff. For the sums in the months none is given, since sums of different trades can
  coincide.
- BrokerLaws.NettingIff: asks for positive order quantities and a direction of 1 or -1.
- BrokerLaws.NettingOverRuns: the same.
- BrokerLaws.StepNetsIff: the same, for one order.
- ExitLaws.ClosingFillsBookedIff: asks for positive order quantities.
- TradeStatistics.GlobalStatistics.ComputeStats: leaves out the time-in-market, excursion and efficiency
  samples of the loop, which are kept one by one and only averaged afterwards.
- Floating point: rounding, NaN and overflow. A division by a total weight of zero gives 0 in
  PaperBroker.Mean, where the source has an undefined double.
- Widths: the 32-bit counters, sizes and quotients of the source are unbounded here.
- Times before 1970.
- OHLC: updates at timeframes above a week other than 30 days, for which `basetime` returns nothing and the
  source then fails. The `Candle` class is not part of this model: setting a price is taken to set all four
  prices of its side, a new candle to have volume 0, and `ended` to be what `set_consolidated` sets.
  Assigning `current` from outside and keeping a reference to a candle still growing are left out.
- Tick files: text mode, the overload for tick arrays, file errors other than absence, and the bytes of a
  record; a file is a sequence of records and some stray bytes.
- o3d, the foundation library of the source, is not part of this model: mutexes exclude each other, a
  condition wait releases its mutex and may wake spuriously, a resized array holds nothing of the old one.
- Worker pool: creation and end of the threads, pings, and what strategies do inside `process`; whether a
  strategy is submitted or skipped in a round is left to chance, so all choices are covered. The call to
  the connector between two submissions (backtest.cpp:474) is left out, and the loop may stop at its top
  at any time.
- Write-behind: SQL text, quoting, the other queues of the database thread, row expiry, and the
  PostgreSQL path, which keeps the first duplicate of a batch. The table is a map.
- Broker: spot, margin and hedging paths, stop and limit triggering, fees, account balance, timestamps and
  ids of orders in signals, and strategies that call back into the connector from a signal. A position is
  a value under its market id; recycled position objects are modelled by the figures they keep.
- Daily samples: the reference to the previous sample that the source keeps while the vector grows is read
  as the values it had; the draw-down update is left out.
- Statistics: means and deviations, efficiency and excursion samples, ratios, best and worst months,
  draw-down per month, and the counters that GlobalStatistics adds up. Sorting is any sorted permutation.
- Closed trades: the log line of the daily report, and the conversion of a trade to the record kept.
- Ring buffers: OhlcCircular has the same pointers as DataCircular and is not modelled again; its elements
  are written after the slot is returned.
- Growing array: alignment of the elements and allocation failures.
- Configuration: file loading, the dotted-path variant, `mergeRightToLeft`, which no function calls, comments
  inside the JSON, and what is left in a tree when an error interrupts its update. Member names are
  visited in any order.
- Delta decoding: sockets and sessions, digits and spaces outside ASCII in a position, and exceptions
  raised by listeners.
- Subscription ids: the rest of the connector, and calls without its lock.
