# Winnow: verified model

Winnow listens to utility meters over software radios and works out which of the hundreds it hears is the
home's own. This project models the algorithms that answer rests on and proves what they promise. Check it
with `dafny verify dfyconfig.toml` (Dafny 4.11).

| file | what it models |
|---|---|
| `UsbGate.dfy`, `GateProtocol.dfy` | the USB-open governor: wrapping backoff arithmetic, the shared record as a class, and every interleaving of supervisors and enumerations as a step system with a clock |
| `Manager.dfy` | the capture manager's reconciliation, health rescans and dead-run escalation |
| `Counters.dfy`, `Glitch.dfy` | hourly maxima, lag and rollover-aware deltas over a wrapping counter; the median glitch filter |
| `Calendar.dfy`, `Consumption.dfy`, `SameDay.dfy` | local dates, calendar periods and zones; one consumption page with its slots, join and totals; the same day on two pages |
| `Registry.dfy` | the per-meter and per-source registries that ingest maintains |
| `Keepalive.dfy`, `HvacHistory.dfy`, `Backfill.dfy`, `PlanCoverage.dfy` | the reference feed: keepalive, bounded carry, history expansion, gap planning, idempotent replacement, and what a whole backfill repairs |
| `AutoWindow.dfy` | the auto-window detector and the window table it writes |
| `Correlation.dfy`, `Deming.dfy` | Pearson correlation, the lag search, the total-least-squares slope |
| `Confidence.dfy`, `DailyScreen.dfy`, `DailyVerdicts.dfy` | the confidence blend; the daily containment screen of one meter; the screen over all meters and its verdicts |
| `PendingAgents.dfy` | the bounded, expiring list of agents waiting for approval |
| `CaggBackfill.dfy` | the resumable backfill of the hourly aggregate |
| `Common.dfy`, `Reals.dfy` | shared values; one-step facts about products of reals |

Conventions. Times are integers (seconds; nanoseconds in the governor). Floating-point values are reals and
rounding is dropped. The square root, the inverse error function and the logarithm are function parameters:
the root with `s >= 0` and `s*s == x`, the inverse error function nondecreasing with value zero at zero, the
logarithm with no assumption at all. Code that updates state is a class or a method with loops, tied to
functions about which the lemmas speak; SQL is a composition of sequence functions. What subprocesses, the
bus, the database, Home Assistant and the clock do is a parameter of the step that meets it.
`percentile_cont` follows section 10.9 of ISO/IEC 9075-2.

Where the code differs from what its comments say, or from what one would expect, the model follows the code:

- `cmd/capture/main.go:152` says a successful enumeration clears the bus penalty; `cmd/capture/devices.go:98-105` makes it neutral (`OkIsEarned`).
- `internal/db/helpers.go:37-42` calls any negative step smaller than the modulus a rollover; the SQL accepts only those that wrap forward by less than half of it (`DropIsNull`).
- `cmd/worker/main.go:749-751` counts clamping to the cap as part of the planning; the leading range is not clamped (`PlanStaysBehindCapIff`).
- `internal/db/confidence.go:174-181` guards against series shorter than four but not against a bound larger than the series (`CrossCorrLag`, `EnrichLag`).
- `internal/db/helpers.go:84-87` calls the slope total least squares; the small-covariance fallback is an ordinary regression (`SlopeIsClosestIff`).
- `meter_index.first_seen` is the first arrival, not the earliest reading (`FirstSeenIsFirstArrival`, `FirstSeenCanBeLate`).
- A day page and the same day on a longer page use different lookbacks, first steps and glitch cutoffs (`SameDay.DayAgreesWithPageIff`).
- `internal/db/windows.go:119-126` reports a failed query as no open window, and the detector never asks again (`AtMostOneOpenIff`).
- `cmd/api/agent.go:27-29` says an agent that gives up ages out; its stale entry is swept only by a listing or a newcomer, and a return before that refreshes it silently (`StaleKeyIsAnnouncedIff`).

## Model

| member | source | states |
|---|---|---|
| UsbGate.OverflowLeavesMultiple | cmd/capture/main.go:160-171 | From the 29th doubling on, whatever the wrapped 64-bit shift leaves is a multiple of 2^39 ns |
| UsbGate.BackoffExact | cmd/capture/main.go:111-116 | For every count of failures the wrapping shift with its guard equals min(30 s * 2^(fails-1), 5 min) |
| UsbGate.BackoffMonotone | cmd/capture/main.go:160-171 | The penalty never shrinks with more failures and stays between 30 s and 5 min |
| UsbGate.OverflowIsReal | cmd/capture/main.go:165-168 | The sign test of the guard is needed: the 30th failure really shifts into the sign bit |
| UsbGate.UsbGate.Enter | cmd/capture/main.go:138-146 | After taking the token it is kept exactly when the backoff is over, else given back; nothing else changes |
| UsbGate.UsbGate.End | cmd/capture/main.go:150 | Gives the token back and changes nothing else |
| UsbGate.UsbGate.Ok | cmd/capture/main.go:153-158 | Clears the count of failures and the backoff |
| UsbGate.UsbGate.Fail | cmd/capture/main.go:161-171 | Sets the backoff to the exact capped power of two; from any state the protocol reaches this never brings it forward |
| GateProtocol.InvStep | cmd/capture/main.go:358-465 | Every action of a supervisor, an enumeration, a cancellation or the clock keeps the protocol invariant |
| GateProtocol.MutualExclusion | cmd/capture/main.go:123-150 | In every reachable state at most one goroutine is between begin and end, and the channel is full exactly then |
| GateProtocol.ReleasedExactlyOnce | cmd/capture/main.go:358-465 | On every path the window has been released as often as taken; nobody sleeps out a backoff holding it |
| GateProtocol.WindowCanBeGivenBack | cmd/capture/main.go:358-465 | A holder can always finish with the window by its own actions, without waiting |
| GateProtocol.NextOkNeverEarlier | cmd/capture/main.go:152-171 | Between two clearings, over any run, the end of the backoff never moves earlier |
| GateProtocol.BackoffRespected | cmd/capture/main.go:123-171 | After a failure no begin is admitted before the whole penalty (30 s, 1, 2, 4, then 5 minutes), whatever else ran in between, unless the count of failures was cleared |
| GateProtocol.OkIsEarned | cmd/capture/main.go:458-463 | Only an uncancelled capture run that lasted 60 s from its own admission clears the penalty; an enumeration never does. When it must be cleared: `VerdictOnARun` |
| GateProtocol.VerdictOnARun | cmd/capture/main.go:458-463 | In every reachable state a judged run of 60 s or more clears failures and backoff, and a shorter one is exactly one more failure with its penalty in seconds |
| GateProtocol.GateByLabel | cmd/capture/main.go:358-465 | Every other step by its name: what it does to failures, backoff and token, and which steps leave them alone |
| GateProtocol.StartFails | cmd/capture/main.go:389-398 | A failed start of rtl_tcp is one failure, then the window is given back, then the loop's head |
| GateProtocol.NeverListens | cmd/capture/main.go:399-420 | A server that never listens gives the window back first and is then one failure |
| GateProtocol.CancelledWhileListening | cmd/capture/main.go:399-420 | A cancelled supervisor gives the window back and is no failure |
| GateProtocol.Listens | cmd/capture/main.go:399-440 | A listening server gives the window back and counts nothing yet; the run dates from its admission |
| GateProtocol.Enumerates | cmd/capture/devices.go:36-106 | An enumeration that finds a device counts nothing; one that finds none is one failure |
| GateProtocol.TakesTheWindow | cmd/capture/main.go:138-146 | Taking the token admits at the present time when the backoff is over, and else returns it and waits again |
| GateProtocol.SleepsOutTheBackoff | cmd/capture/main.go:123-137 | An unfinished backoff is slept out to its very end, holding nothing |
| GateProtocol.WakesAtTheEnd | cmd/capture/main.go:126-137 | The sleeper can wake exactly from then on |
| GateProtocol.FirstToAsk | cmd/capture/main.go:118-150 | From the start state the first goroutine to ask is admitted at once |
| GateProtocol.LeavesWhenCancelled | cmd/capture/main.go:358-465 | A supervisor can be cancelled at any time and leaves its loop exactly when it was, the record untouched |
| Manager.Manager.StopStale | cmd/capture/main.go:279-287 | Exactly the devices whose parameters are still wanted stay, untouched |
| Manager.Manager.StartMissing | cmd/capture/main.go:288-301 | Starts exactly the missing devices with the wanted parameters |
| Manager.Manager.StopAll | cmd/capture/main.go:304-310 | Every supervisor is cancelled and awaited |
| Manager.Manager.Desired | cmd/capture/main.go:265-278 | The enabled devices of the inventory with override-or-default parameters, the last entry of a source winning |
| Manager.EnabledByDefault | internal/config/config.go:152-157 | A device is captured unless the configuration says so of it: unknown, and known without a switch, count as enabled |
| Manager.ParametersOf | internal/config/config.go:160-176 | Each parameter is the device's own where it is nonempty and the common one where not |
| Manager.Manager.Converge | cmd/capture/agent.go:338-370 | The running set becomes the desired set; unchanged devices are left alone; no source ever has two live supervisors; repeating does nothing |
| Manager.Manager.RescanNeeded | cmd/capture/main.go:205-221 | Down streaks grow and clear per device, and a rescan is asked for exactly when one is down twice running |
| Manager.TwoDownChecks | cmd/capture/main.go:202-221 | A streak of two means exactly that the last two health checks both found the device down |
| Manager.Manager.Stop | cmd/capture/main.go:282-285 | Cancels, awaits, then forgets the device; no source gets two live supervisors |
| Manager.Manager.Start | cmd/capture/main.go:292-301 | Starts one supervisor for a device that has none |
| Manager.Appended | cmd/capture/main.go:279-310 | One more event of a supervisor keeps every source at no more than one live supervisor, when a start finds none and an await finds one |
| Manager.Manager.Reconcile | cmd/capture/main.go:250-302 | Running map equals desired map afterwards, through rescans, failed configuration reads and an empty inventory, with the exact rescan condition |
| Manager.DeadRuns.Note | cmd/capture/main.go:550-559 | Escalates exactly at the third dead run in a row of that source |
| Manager.DeadStreakMeaning | cmd/capture/main.go:537-559 | The tally is the length of the run of dead outcomes at the end of the source's own history, whatever other sources did |
| Counters.StepExactIff | internal/db/helpers.go:43-62 | The signed step with any number of wraps is recovered exactly if and only if the rise is under half the field, or under the field without wrapping |
| Counters.DeltaExactIff | internal/db/helpers.go:57-62 | The same for two values of a true odometer shown modulo the field |
| Counters.DropIsNull | internal/db/helpers.go:57-62 | A displayed drop is refused exactly when it is at most half the field |
| Counters.HourlyIsBucketMaximum | internal/db/schema.go:191-201 | The hourly aggregate is the group-by maximum: ascending buckets, every reading bounded, every maximum attained |
| Counters.PacketsAreCounted | internal/db/schema.go:191-201 | Each bucket counts exactly its readings, in whatever order they come |
| Counters.PeaksBehindMaxima | internal/db/consumption.go:25-36 | Behind every hourly maximum stands a true reading, in odometer order, wraps inside a bucket included |
| Counters.DeltasAreTheTrueRise | internal/db/consumption.go:25-36 | If consecutive peaks rise by under half the field, every delta is present and exact and they add up to the true rise |
| Counters.FastMeterLosesItsStep | internal/db/helpers.go:43-62 | Past half the field, 24 bits for SCM and 32 for any other type, a wrapping step really is lost |
| Glitch.MedianIsMiddle | internal/db/consumption.go:37-41 | The interpolated percentile at one half is the middle value or the mean of the two middle values |
| Glitch.CutoffIsRobust | internal/db/consumption.go:37-48 | A strict minority of corrupt deltas cannot lift the cutoff past max(50 x largest clean, 1000) |
| Glitch.CutoffIs | internal/db/consumption.go:37-48 | By the positive deltas in ascending order: from three on, 25 times the sum of the two middle ones but at least 1000, else 1000 |
| Glitch.KeptMembers | internal/db/consumption.go:42-48 | The filter keeps exactly the rows with a delta at most the cutoff, each as often |
| Glitch.FilterRecoversCleanRows | internal/db/consumption.go:37-48 | Then, with clean deltas within a factor 50 and corrupt ones beyond the bound, exactly the clean rows survive and their sum is conserved |
| Glitch.SteadyStepsAreKept | internal/db/consumption.go:37-48 | Three or more equal steps are their own median and are kept however large |
| Glitch.LooseCutoffIff | internal/db/helpers.go:72-82 | The correlation variant of the cutoff is never stricter, and equal exactly in the stated windows |
| Calendar.JanuaryClosedForm | internal/db/consumption.go:88-103 | The month staircase meets the Gregorian day count at every January |
| Calendar.KnownDates | internal/db/consumption.go:88-103 | Anchors of the model in the real calendar: weekdays and leap years |
| Calendar.PeriodsTile | internal/db/consumption.go:88-117 | A date belongs to the period that starts at its period start and to no other |
| Calendar.PeriodStartIsStart | internal/db/consumption.go:88-103 | Truncation is idempotent and encloses its date |
| Calendar.PagingIsInvertible | internal/db/consumption.go:104-130 | On page starts, forward and back undo each other and land on page starts |
| Consumption.ConsumptionSlots | internal/db/consumption.go:142-163 | The loops produce exactly the closed-form slots, in order |
| Consumption.HourSlots | internal/db/consumption.go:145-148 | Hours from the truncated start to the end of the day |
| Consumption.DaySlots | internal/db/consumption.go:149-156 | Local midnights of a week or month |
| Consumption.MonthSlots | internal/db/consumption.go:157-161 | The twelve month starts of a year |
| Consumption.SlotStarts | internal/db/consumption.go:138-163 | Slots start at every whole hour of a day until its end is reached, at every local midnight of a week or month, at the first midnight of each month of a year |
| Consumption.SlotCounts | internal/db/consumption.go:138-163 | 7 a week, the days of the month, 12 a year, one per elapsed hour of a day |
| Consumption.SlotsPartitionThePage | internal/db/consumption.go:138-163 | Slots are contiguous, disjoint, distinct in key, and span the page; only the day view needs a whole-hour zone for it |
| Consumption.DayViewNeedsWholeHours | internal/db/consumption.go:145-148 | The day view starts with its page if and only if the zone is whole-hour; otherwise a day has 25 slots |
| Consumption.RowJoinsOneSlot | internal/db/consumption.go:142-181 | Every hourly row of the page joins exactly one slot, the one whose span contains it |
| Consumption.SlotsApart | internal/db/consumption.go:142-163 | Slots follow each other without overlap in every zone |
| Consumption.KeyIsSpan | internal/db/consumption.go:142-181 | A row of the page has a slot's key if and only if it lies between the slot's start and end |
| Consumption.ShareMembers | internal/db/consumption.go:249-253 | The rows of a span are exactly those with an hour in it, each as often |
| Consumption.GroupIsShare | internal/db/consumption.go:249-282 | A slot's group adds up the rows of its span and of no other |
| Consumption.SlotsConserveUnits | internal/db/consumption.go:281-301 | The slots' units add up to the page's rows: nothing lost or doubled |
| Consumption.QueryRowsOnPage | internal/db/consumption.go:249-257 | What the query returns lies on the page |
| Consumption.QueryRowsAre | internal/db/consumption.go:249-257 | And it is exactly the known steps from hour to hour of the page and the 48 hours before it that are within the cutoff over all of them and not before the page |
| Consumption.FillBuckets | internal/db/consumption.go:286-311 | One bucket per slot with its group's value or none; the total is the sum of the values shown, and the coverage counts the buckets that show one |
| Consumption.BucketShowsSlot | internal/db/consumption.go:291-299 | A slot's bucket holds its start and the multiplied sum of the rows in its span, or no value if there are none |
| Consumption.TimesAdds | internal/db/consumption.go:294-297 | A value is the units times the multiplier, so the values add up as the units do |
| Consumption.PrevTotalIsThePreviousPage | internal/db/consumption.go:333-342 | The previous-period query gives what the page at the previous anchor gives |
| Consumption.ConsumptionPage | internal/db/consumption.go:186-345 | Each bucket starts where its slot starts, shows a value exactly when a query row lies in the slot, and then the multiplier times the sum of exactly those rows; the total is the sum of the values shown, the coverage their number; the previous total is the previous page's |
| SameDay.DayAgreesWithPageIff | internal/db/consumption.go:246-257 | A window queried as its own page and as part of a longer page adds up to the same if and only if no hour is treated differently by the two pages' cutoffs (each over its own 48-hour lookback) and the short page loses no first step that the long one counts |
| SameDay.DaySlotAgreesWithDayPageIff | internal/db/consumption.go:246-301 | The same for a day's own page against its slot on a week or month page |
| SameDay.FirstRowCannotMakeUp | internal/db/consumption.go:42-48 | A lost first step within the cutoff cannot cancel against a step the cutoffs dispute, so the two conditions are each needed |
| SameDay.KeptOnLongPage | internal/db/consumption.go:29-48 | Inside a longer window every step of the day is the same but the first, which there has a predecessor |
| SameDay.WindowSplit | internal/db/consumption.go:246-251 | The rows of adjoining windows follow each other |
| SameDay.SlotIsShare | internal/db/consumption.go:281-301 | On a week or month page a day's slot is the page's share of that local day |
| SameDay.DayTotalsNeedNotSumToThePage | internal/db/consumption.go:37-48 | A family of counterexamples: a week that shows three steps of which none of its seven day pages shows any |
| SameDay.DayPageCanLoseItsFirstStep | internal/db/consumption.go:29-36 | And one with equal cutoffs: a meter back after four days, whose first step only the week page counts |
| Registry.Store.InsertReading | internal/db/db.go:64-105 | The stored log and both registries after one reading, with each statement's failure, keeping the registries in step |
| Registry.RowIsRecomputed | internal/db/db.go:74-90 | For any arrival order the row's packets, extremes, last seen and last consumption are the recomputation over the whole log |
| Registry.ArrivalOrderIrrelevant | internal/db/db.go:74-90 | Two orders of the same readings leave the same values |
| Registry.RowIsRecomputedWithGaps | internal/db/db.go:74-90 | Packets without consumption included: packets and last seen over all readings, the extremes over those that carry one |
| Registry.LatestTypeWins | internal/db/db.go:74-83 | The message type is that of the last arrival that says one |
| Registry.LatestEndpointTypeWins | internal/db/db.go:74-83 | And so is the endpoint type |
| Registry.LastIsSetBy | internal/db/db.go:86-89 | For any log the last consumption is that of the last arrival that carried one and was not overtaken in time |
| Registry.LatestIsKeptIff | internal/db/db.go:86-89 | It is the latest consumption in time if and only if no packet of the meter that arrived before it is later |
| Registry.FirstSeenIsFirstArrival | internal/db/db.go:74-83 | first_seen is the time of the first reading of the meter to arrive |
| Registry.FirstSeenIsEarliestIff | internal/db/db.go:74-83 | So it is the earliest time if and only if no reading of the meter is earlier than its first arrival |
| Registry.FirstSeenCanBeLate | internal/db/db.go:74-83 | Out-of-order delivery does make it late |
| Registry.NullAdvancesTheClock | internal/db/db.go:86-89 | A packet without consumption moves the time a later consumption is compared with: exactly when one is taken over |
| Registry.SourceCounts | internal/db/db.go:91-99 | A source's row counts its packets |
| Registry.SourceIsAsRecentAsItsPackets | internal/db/db.go:91-99 | A source's row is as recent as the latest of its packets |
| Registry.SourcesSumToMeter | internal/db/db.go:79-99 | The sources' counts add up to the meter's if and only if every reading named its source |
| Keepalive.Feed.OnSample | cmd/worker/main.go:568-584 | A sample is stored if the insert succeeds and remembered by the keepalive either way; other entities are untouched |
| Keepalive.Feed.OnState | cmd/worker/main.go:590-613 | An empty action clears the assertion and stores nothing; a real one is asserted only when stored |
| Keepalive.Feed.Tick | cmd/worker/main.go:497-513 | Every entity silent for five minutes is re-inserted unless its insert fails; likewise an asserted HVAC action |
| Keepalive.Feed.TickSamples | cmd/worker/main.go:500-507 | The loop over the remembered samples, in any order |
| Keepalive.Feed.TickOne | cmd/worker/main.go:501-505 | One entity's turn: re-inserted if silent for five minutes and the insert succeeds, every other entity untouched |
| Keepalive.LostSampleIsRepaired | cmd/worker/main.go:497-584 | A sample whose insert failed is made up for, with its own power, by the first successful tick five minutes on, and ticks change nothing before |
| Keepalive.NeverTenMinutesSilent | cmd/worker/main.go:490-516 | Over every healthy run stored samples are under ten minutes apart, up to the present |
| Keepalive.AlmostTenMinutes | cmd/worker/main.go:490-516 | The bound is tight: 599 s do occur |
| Keepalive.NoNullMinute | internal/db/reference.go:34-63 | Samples that dense leave no NULL minute from the first to ten minutes past the last |
| Keepalive.SourceIsLatest | internal/db/reference.go:36-52 | For any insertion order a minute carries the latest sample of the last minute with one |
| Keepalive.CarriedIsTheMean | internal/db/reference.go:36-52 | What a minute carries, times the number of samples in the last minute with any, is their sum, for up to fifteen minutes and no longer; for any insertion order |
| Keepalive.NothingToCarry | internal/db/reference.go:36-52 | Before the first sample nothing is carried |
| Keepalive.MeanIsBetween | internal/db/reference.go:38 | The carried value lies between any bounds of that minute's samples, so a constant feed is carried as itself |
| Keepalive.HealthyFeedHasNoNullMinute | internal/db/reference.go:10-63 | Keepalive and carry together: no minute is NULL from the first stored sample to the present |
| Keepalive.DeadFeedIsCreditedFifteenMinutes | internal/db/reference.go:16-52 | After the latest sample, wherever it stands among the rows, exactly fifteen further minute buckets are credited, each with the mean of the last minute |
| Keepalive.OutageEnergy | internal/db/reference.go:79-92 | An outage of any length fabricates the energy of at most fifteen minutes, at the mean of the last minute: a quarter of an hour of it and no more |
| Keepalive.HourIsIntegratedExactly | cmd/worker/main.go:720-729 | An hourly mean written every five minutes integrates back to exactly its energy |
| HvacHistory.ExpandHvacHistory | cmd/worker/hvac.go:91-112 | The nested loops compute the segment-wise expansion |
| HvacHistory.EmitSegment | cmd/worker/hvac.go:104-109 | The inner loop appends exactly the clipped grid points of one segment |
| HvacHistory.ExpandMembers | cmd/worker/hvac.go:91-112 | A point is emitted if and only if it lies on the grid of the event governing it, inside the window, with its nonempty action |
| HvacHistory.ExpandIncreasing | cmd/worker/hvac.go:91-112 | The output strictly increases, so no segment boundary is emitted twice |
| HvacHistory.ExpansionIsTheHistory | cmd/worker/hvac.go:83-112 | Each point carries the action of the latest event at or before it |
| HvacHistory.NoStretchWithoutPoint | cmd/worker/hvac.go:91-112 | Where an action is in force no stretch of a step's length is left without a point |
| HvacHistory.PlanHvacBackfill | cmd/worker/hvac.go:47-67 | The ranges to fetch: the whole window, or a leading range and the clamped gaps |
| HvacHistory.PlanCoversIff | cmd/worker/hvac.go:47-67 | A time is covered if and only if it lies in a gap and not past the cap, or, when the first sample is more than the minimum gap into the window, anywhere from the window's start to that sample |
| HvacHistory.ClampedCovers | cmd/worker/hvac.go:56-65 | Clamping drops nothing that lies before the cap |
| HvacHistory.PlanStaysBehindCapIff | cmd/worker/hvac.go:47-67 | The plan stays behind the cap unless a leading range is planned and the first sample is past the cap: exactly then it does not |
| HvacHistory.LeadingRangeCanPassTheCap | cmd/worker/hvac.go:53-55 | A thermostat seeded just now gets such a range: the plan holds it, two hours past the cap |
| Backfill.SampleTable.ReplaceBackfill | internal/db/hvac.go:23-37 | Delete then insert, each failing separately: the exact rows left in every case |
| Backfill.SampleTable.InsertLive | internal/db/hvac.go:12-17 | Appends one live row |
| Backfill.ReplaceIsIdempotent | internal/db/reference.go:164-181 | A second identical replacement leaves the table as it was |
| Backfill.ReplaceTouchesNothingElse | internal/db/hvac.go:19-37 | Live rows, other entities' rows and rows outside the span keep their multiplicity |
| Backfill.HolesIff | internal/db/hvac.go:48-54 | A hole is reported if and only if its ends are neighbouring sampled minutes more than minGap apart |
| Backfill.SampleGaps | internal/db/hvac.go:46-75 | The loop yields the interior holes and then the trailing one |
| Backfill.BackfillRange | cmd/worker/main.go:778-782 | Expanding and replacing one range as one state change of the table, with each statement's failure |
| Backfill.FilledRowsAre | cmd/worker/main.go:771-787 | After a range's backfill its derived rows are exactly those some event of the history prescribes, at multiples of 300 s after it |
| Backfill.BackfillIsIdempotent | cmd/worker/main.go:771-787 | Running it twice is running it once, and nothing outside its own derived rows moves |
| Backfill.PlanIsIdempotent | cmd/worker/main.go:771-787 | A whole plan run twice leaves the rows of running it once, however its ranges touch or overlap |
| Backfill.PlanTouchesNothingElse | cmd/worker/main.go:771-787 | Rows that are live, another entity's or outside every range keep their multiplicity |
| Backfill.FillingIsKeepingPlusWriting | internal/db/hvac.go:23-37 | What a plan writes does not depend on the rows that were there |
| Backfill.NoHoleLeftInRange | cmd/worker/main.go:752-788 | After a range's backfill no gap between neighbouring sampled minutes, wherever they lie, takes up more than six minutes of it, so no hole inside it is found again |
| Backfill.SampledEverySixMinutes | cmd/worker/main.go:771-787 | Every six-minute stretch of the range holds a sampled minute |
| Backfill.NoTrailingHole | internal/db/hvac.go:68-73 | A range up to the cap leaves no trailing hole |
| PlanCoverage.PlanIsSuccessive | cmd/worker/hvac.go:47-67 | What is planned from the gaps found is a succession of ranges that overlap by less than a minute |
| PlanCoverage.PlannedSample | cmd/worker/main.go:771-787 | After the whole plan no later range has removed what an earlier one needs: a sample at most five minutes old throughout every range |
| PlanCoverage.NoHoleLeftInPlan | cmd/worker/main.go:752-788 | After the whole plan no gap between sampled minutes takes up seven minutes of any planned range |
| PlanCoverage.RepairedPlan | cmd/worker/main.go:752-788 | So for what the worker plans from the gaps it finds, no hole is found within a planned range again |
| PlanCoverage.BackfilledMinutesAreCarried | internal/db/reference.go:43-62 | The five-minute density and the fifteen-minute carry together: no minute of a planned range is NULL from five minutes in to its end |
| AutoWindow.Detector.AutoDecide | cmd/worker/main.go:923-944 | New baseline, noise and verdict of one sample; nothing moves while a window is open |
| AutoWindow.Detector.StopTest | internal/db/windows.go:84-88 | Ends a window that is still open and leaves an ended one alone |
| AutoWindow.Detector.AutoWindow | cmd/worker/main.go:950-1002 | Detector and window table after one callback, with adoption, the switch-off branch and failing creation |
| AutoWindow.EndsIff | cmd/worker/main.go:937-1001 | Before the cap an enabled sample ends the open window if and only if the power is under the baseline plus the larger of half the threshold and 1.5 times the noise; its row ends now when three minutes old and is gone when younger; else nothing changes |
| AutoWindow.EndsAtTheCap | cmd/worker/main.go:937-942 | At fifteen minutes it ends at any power, its row kept |
| AutoWindow.BackAtTheBaseline | cmd/worker/main.go:937-942 | Power at the baseline or under it always ends the window |
| AutoWindow.OpensIff | cmd/worker/main.go:927-986 | A closed detector takes in 2% of the power and 5% of its distance, and opens if and only if five minutes have passed and the power reaches the new baseline plus the larger of the threshold and three times the new noise |
| AutoWindow.OffEnds | cmd/worker/main.go:966-975 | Switched off, an open window ends at any age with its row kept, and else nothing changes |
| AutoWindow.InvStep | cmd/worker/main.go:950-1002 | Every callback keeps the invariant tying the detector, the windows it governs and the table, whatever the open-window query answers after the first time |
| AutoWindow.WindowsAreSound | cmd/worker/main.go:894-1002 | Over every run whose first open-window query did not fail, for every window the detector opened or adopted: at most one auto window open, detector-closed ones last three minutes, shorter leave no row, a cooldown between any two |
| AutoWindow.AtMostOneOpenIff | cmd/worker/main.go:952-964 | With the query free to fail, at most one auto window is open over every run that continues a first answer if and only if that answer reports the window left open |
| AutoWindow.FailedQueryOrphans | internal/db/windows.go:119-126 | A failed first query does leave the old window open beside a new one |
| AutoWindow.CapEndsTheWindow | cmd/worker/main.go:937-942 | The first enabled sample at or past fifteen minutes ends the window, adopted ones included |
| AutoWindow.OpensOnlyAfterCooldown | cmd/worker/main.go:932-936 | A window opens only while enabled, with none open, a cooldown after the last end |
| AutoWindow.TrackingStaysInRange | cmd/worker/main.go:927-931 | Baseline and noise stay within the range the power stays in |
| AutoWindow.JitterNeverOpens | cmd/worker/main.go:923-944 | Over every run of the callback from the start, feature toggled and adopted windows included: if the first power and every power seen while closed stay in a range under the threshold, no window is opened and the baseline stays in the range |
| AutoWindow.StepOpensIff | cmd/worker/main.go:930-936 | From a flat baseline a step opens if and only if 98% of it reaches the threshold |
| AutoWindow.OpeningLevelHolds | cmd/worker/main.go:932-943 | Hysteresis: the level that opened a window does not close it before the cap |
| Correlation.CauchySchwarz | internal/db/confidence.go:241-247 | The accumulators satisfy sab^2 <= saa*sbb on all series |
| Correlation.PearsonBounded | internal/db/confidence.go:230-252 | |r| <= 1 |
| Correlation.Pearson | internal/db/confidence.go:230-252 | The loops compute the coefficient, with its three zero cases |
| Correlation.Means | internal/db/confidence.go:235-240 | The first loop computes the two means |
| Correlation.Accumulate | internal/db/confidence.go:241-247 | The second loop computes the three sums of products of deviations |
| Correlation.PerfectLineCorrelatesFully | internal/db/confidence.go:230-252 | Series on a common rising line have r = 1 |
| Correlation.FullCorrelationIsALine | internal/db/confidence.go:230-252 | And only those do |
| Correlation.ResidualFromSums | internal/db/confidence.go:241-247 | The three sums determine the squared distance of the data from every line through its centre |
| Correlation.CrossCorrLag | internal/db/confidence.go:179-201 | Fails exactly when it may shift past the series' end; otherwise the first best lag within the bound |
| Correlation.DelayedMeterIsFound | internal/db/confidence.go:174-201 | A meter reporting with a fixed delay is found with r = 1, at that delay unless an earlier lag fits as well |
| Correlation.EnrichLag | internal/db/correlate.go:365-396 | With the caller's bound of five and guard of four, the search fails exactly for series of length four; the penalty is a tenth per bucket |
| Deming.SlopeIsRoot | internal/db/helpers.go:88-96 | The formula solves the total-least-squares quadratic, with the covariance's sign |
| Deming.RootIsUnique | internal/db/helpers.go:88-96 | No other value of that sign does |
| Deming.SlopeBetweenRegressions | internal/db/helpers.go:84-96 | For every positive covariance the slope lies between sxy/sxx and syy/sxy |
| Deming.RootIsClosest | internal/db/helpers.go:84-96 | Its line has strictly the least squared perpendicular error of all slopes |
| Deming.SlopeIsClosestIff | internal/db/helpers.go:88-96 | The function picks the closest line if and only if the covariance is above the threshold, or the fallback's exact condition holds |
| Deming.ErrorOfData | internal/db/helpers.go:84-96 | That error is the data's, worked out from the sums |
| Deming.SlopeOfALine | internal/db/helpers.go:84-96 | On data that lies on a line the slope is the line's |
| Confidence.WeightsSumToOne | internal/db/confidence.go:104-113 | The flat-reference reweighting keeps the total weight at one |
| Confidence.BaseIsConvex | internal/db/confidence.go:115 | The base lies between any bounds its six components share |
| Confidence.BaseInHundredths | internal/db/confidence.go:53-115 | What each component is worth: 45, 10, 15, 10, 10 and 10 hundredths |
| Confidence.AnchorShare | internal/db/confidence.go:118-122 | An anchor is worth 55 hundredths and leaves the rest 45 |
| Confidence.MissingSignals | internal/db/confidence.go:53-102 | A missing correlation counts as none and a missing change point as one half (a missing r^2 as the square of the correlation: `MissingR2`) |
| Confidence.OutsideSignals | internal/db/confidence.go:53-122 | A signal outside [0, 1] counts as the nearer end |
| Confidence.PacketMarks | internal/db/confidence.go:86-90 | The scarcer of buckets out of thirty and counted packets out of sixty |
| Confidence.ReconByEnergy | internal/db/confidence.go:65-83 | The reconciliation score piece by piece as a line in the two energies, with its breakpoints and its neutral value |
| Confidence.FlatReferenceMoves | internal/db/confidence.go:104-113 | A reference of variation c under a quarter leaves the correlation 4c of its weight and gives the rest to reconciliation |
| Confidence.LagScales | internal/db/confidence.go:125-134 | The lag penalty multiplies the confidence |
| Confidence.LagOrder | internal/db/confidence.go:125-134 | With any other signals a larger penalty never lowers it, one and more is as none, zero leaves only the physics score |
| Confidence.UngatedConfidence | internal/db/confidence.go:115-134 | With nothing to gate it the confidence is the base |
| Confidence.PhysicsShare | internal/db/confidence.go:140-148 | A physics score counts half against the rest; a violation leaves a fifth |
| Confidence.CriticalIsBonferroni | internal/db/confidence.go:161-170 | The critical correlation squared times the buckets is twice the square of the inverse error function at one less five percent shared among the candidates, up to the cap of 0.95 |
| Confidence.ConfidenceInRange | internal/db/confidence.go:134-150 | The result is in [0, 1], at most 0.2 on a violation, and the first clamp never acts |
| Confidence.NondecreasingInR | internal/db/confidence.go:50-171 | On nonnegative r the confidence never falls as r grows |
| Confidence.NonincreasingOnNegativeR | internal/db/confidence.go:157-171 | On nonpositive r it never rises as r grows |
| Confidence.MonotoneInAllOfRIff | internal/db/confidence.go:157-171 | It is monotone over all r if and only if the snooping factor never acts |
| Confidence.NoCorrelationOutranksAntiCorrelation | internal/db/confidence.go:157-160 | A missing r scores at least as high as any nonpositive one |
| Confidence.NonincreasingInCandidates | internal/db/confidence.go:161-171 | More candidates never raise it |
| Confidence.NondecreasingInBuckets | internal/db/confidence.go:86-171 | From four buckets on, more buckets never lower it |
| Confidence.SnoopEnds | internal/db/confidence.go:153-171 | The factor is 0 exactly up to 0.7 r* and 1 exactly from 1.3 r* on |
| Confidence.RampEnds | internal/db/confidence.go:264-273 | The cubic ramp stays in [0, 1] and reaches its ends only at the ends |
| Confidence.ReconIsUnimodal | internal/db/confidence.go:67-82 | The reconciliation score only rises up to twenty times the subset and only falls from one times on |
| Confidence.Reconcile | internal/db/confidence.go:65-83 | Full marks exactly from one to twenty times the monitored energy, under 0.4 below half of it, 0.3 above a hundred times, one half when it cannot be told, never zero |
| Confidence.WeighComponents | internal/db/confidence.go:51-115 | The weighted base, and a breakdown that lists each component as the signals give it and alone gives the base back |
| Confidence.CombineConfidence | internal/db/confidence.go:46-151 | The stepwise blend computes that result; its breakdown lists every component, gate and share as the signals give them, and without a violation alone gives the result back |
| DailyScreen.BandStaysInside | internal/db/daily.go:184-190 | With or without a bill the band is not empty and inside 0.9 to 3 times the monitored mean |
| DailyScreen.BandWithoutBill | internal/db/daily.go:184-190 | Without a bill a mean passes from 0.9 to 3 times the monitored mean |
| DailyScreen.BandWithBill | internal/db/daily.go:184-190 | A bill tightens that to what also lies from 0.6 to 1.4 times it, unless nothing would be left |
| DailyScreen.DayHolds | internal/db/daily.go:299-309 | A day holds if and only if it falls short of the monitored energy by no more than 1.5 kWh or a twentieth of it |
| DailyScreen.ScoreMarks | internal/db/daily.go:312-320 | The score of a passing row, from the mean remainder and its spread |
| DailyScreen.DeviationSquared | internal/db/correlate.go:840-850 | The deviation squared, times one less than the count, is the sum of squares about the mean |
| DailyScreen.AtMostOneUnitFits | internal/db/daily.go:272-284 | At most one of the three units fits the band |
| DailyScreen.UnitsTried | internal/db/daily.go:276-280 | A unit fits if and only if the counts, or a tenth or a hundredth of them, lie in the band |
| DailyScreen.InferUnit | internal/db/daily.go:274-284 | The loop finds the unit that fits, if any; the logarithm never decides |
| DailyScreen.Row.EvalDailyRow | internal/db/daily.go:257-321 | Passes if and only if every day is covered, a unit fits and every day reads the monitored energy less the tolerance; reason, cells, figures and score exactly |
| DailyScreen.Row.Gate | internal/db/daily.go:299-309 | The cells of every day and the first day that reads below |
| DailyScreen.Gather | internal/db/daily.go:259-269 | The counts of every day, or the first day without any |
| DailyScreen.MeanOf | internal/db/correlate.go:818-827 | The loop computes the mean |
| DailyScreen.StdDevOf | internal/db/correlate.go:840-850 | The loop computes the sample standard deviation, zero under two values |
| DailyScreen.MeanResidual | internal/db/daily.go:310-311 | The mean remainder is the meter's daily mean less the monitored one |
| DailyScreen.RemainderIsBounded | internal/db/daily.go:181-190 | A passing meter's mean remainder lies between -0.1 and 2 times the monitored mean |
| DailyScreen.TrueMeterPasses | internal/db/daily.go:255-320 | A meter that counts the whole home in one of the units, with a mean in the band, is never screened out |
| DailyVerdicts.DailyReconciliation | internal/db/daily.go:206-251 | Verdicts for exactly the eligible meters with every day covered, each the row's; exactly the survivors and the requested meters listed, each as often as asked, passers first and by score; survivors counted |
| DailyVerdicts.Evaluate | internal/db/daily.go:206-229 | The loop over the meters, in any order |
| DailyVerdicts.EligibleMeters | internal/db/daily.go:212-216 | Unknown meters are never evaluated, requested ones always, any other if electric and not ignored |
| DailyVerdicts.AddUnheard | internal/db/daily.go:230-239 | A requested meter without readings gets a failed row |
| DailyVerdicts.RankedIsInOrder | internal/db/daily.go:241-246 | Sorting puts passers first and higher scores before lower, and lists the same rows as often |
| DailyVerdicts.InOrderMeans | internal/db/daily.go:241-246 | In that order every passing row comes before every other, and among equals in verdict the higher score first |
| DailyVerdicts.RankedIsStable | internal/db/daily.go:241-246 | Rows that compare equal keep their order |
| DailyVerdicts.CountPassing | internal/db/daily.go:247-251 | The loop counts the rows that pass |
| DailyVerdicts.VerdictShares | internal/db/correlate.go:345-360 | A passing score counts half against the rest of the confidence, a failure leaves a fifth, no verdict changes nothing |
| DailyVerdicts.VerdictBoundsConfidence | internal/db/correlate.go:345-360 | A failing verdict caps the confidence at 0.2, a passing one keeps it at 0.15 or more |
| PendingAgents.Pending.Add | cmd/api/agent.go:54-82 | New table after one attempt, and true exactly for an absent key |
| PendingAgents.Pending.List | cmd/api/agent.go:90-107 | Every fresh entry once, stale ones forgotten |
| PendingAgents.Pending.Remove | cmd/api/agent.go:84-88 | Forgets exactly that key |
| PendingAgents.Pending.GcLocked | cmd/api/agent.go:101-107 | Exactly the entries silent longer than ten minutes go |
| PendingAgents.Pending.Oldest | cmd/api/agent.go:68-75 | The loop finds a key silent the longest |
| PendingAgents.NeverMoreThanMax | cmd/api/agent.go:44-82 | Over every run the table holds at most 32 keys |
| PendingAgents.RetainedUntilSwept | cmd/api/agent.go:54-107 | Until it is removed, swept after its time to live, or followed by 32 distinct others, a key is kept |
| PendingAgents.Retained | cmd/api/agent.go:54-107 | A key heard within its time to live, not removed and followed by fewer than 32 others is still present |
| PendingAgents.PresentIffFewerThanMaxOthers | cmd/api/agent.go:54-107 | Without removals and within the time to live it is present if and only if fewer than 32 distinct others came after it |
| PendingAgents.EntryTells | cmd/api/agent.go:54-82 | Over every run an entry dates from its key's announcement, without a break since, and shows the time and address of the latest attempt and the latest nonempty name |
| PendingAgents.StaleKeyIsAnnouncedIff | cmd/api/agent.go:59-67 | Over every run: a key's next attempt is announced as new if and only if, after the time to live of its last, a listing or the arrival of an unknown key swept the table (not removed and fewer than 32 others in between) |
| PendingAgents.SilentReturn | cmd/api/agent.go:59-67 | An agent silent for any time over its time to live does come back unannounced |
| CaggBackfill.Worker.Once | cmd/worker/main.go:133-178 | One turn of the loop with every failure: the watermark advances by a step or to the boundary, or not at all |
| CaggBackfill.Worker.CaggBackfillLoop | cmd/worker/main.go:130-179 | The watermark never moves back nor past what was refreshed, the loop ends by itself only when history is covered, and undisturbed it stands exactly as many steps on as there were turns, or at the boundary |
| CaggBackfill.CatchesUpIff | cmd/worker/main.go:156-171 | That watermark has reached the boundary after n turns if and only if n steps span the history |
| CaggBackfill.BoundaryBehindTheClock | cmd/worker/main.go:132-156 | The boundary is a whole hour, two days behind the clock and less than an hour more; a step is a week |

## Left out

- The blocking loop of `usbGate.begin` as one method: its waiting and queueing are steps of the protocol; the class holds its critical sections.
- Fairness and liveness of the governor beyond a holder's own ability to finish.
- The assembly of the agent's desired map from a pushed configuration (`cmd/capture/agent.go:340-347`): only the convergence it shares with the manager.
- Integer widths other than the governor's shift: counters, times and counts do not wrap.
- AutoWindow.Detector.StopTest: the update and delete of a window row are taken to succeed, as `WindowsAreSound` needs; only creation may fail.
- AutoWindow.WindowsAreSound: assumes that at most one auto window was open when the worker started, that its start time parses, and that no window is stopped or deleted through the API meanwhile; windows closed before the start are not governed, so no cooldown after them is promised.
- Keepalive.Feed.OnSample: takes a sample's own timestamp for its arrival time when runs are judged healthy.
- Keepalive.NoNullMinute: reads the samples of one query window, so it says nothing of minutes before the window's first sample.
- Normalising Home Assistant energy sensors to power, and the HVAC branch's conversion of an action to watts.
- Registry.RowIsRecomputed: assumes consumption is present, as the decoder guarantees (`internal/ert/ert.go:64-75`); `RowIsRecomputedWithGaps` and `LatestIsKeptIff` say what holds without it.
- Calendar.Zone: assumes that every local midnight exists and that days follow each other; zones that skip midnight are not modelled.
- The page's navigation anchors, per-day average, packet counts, labels, overlays and currency.
- Rounding of the confidence breakdown and of displayed figures; labels and reason texts.
- `changePointCoherence` and the aggregation of confidences over several windows: single-branch or display logic.
- DailyVerdicts.DailyReconciliation: takes the analysed days as given, each with positive monitored energy, and leaves out the row fields that are only displayed.
- `referenceCoverage`, `billDailyBand` and the memo of the screen.
- PendingAgents.RetainedUntilSwept: assumes that no two clock readings are equal; fingerprints are not modelled.
- CaggBackfill: the pacing sleeps; a turn is whatever happens between two of them.
- Materialisation, compression and retention in TimescaleDB; `readings_1h` is taken as the exact hourly maxima.
- Admin deletes and maintenance operations, settings parsing, HTTP, WebSocket, MQTT and LISTEN plumbing, the agent handshake, and the web frontend.
