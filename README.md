# AssignAfield practice scheduler, modelled in Dafny

AssignAfield books practice time for a club's teams on the fields the club has reserved.
This project models the scheduling core of its server:

- `controllers/PracticeScheduler.js`, the current allocator. It sorts the club's
  reservations and chunks them by week. It ranks the teams: coaches with more teams come
  first, and within a coach longer practices come first. Then, chunk by chunk and team by
  team, it evaluates the reservations. Each reservation passes region, preferred-day,
  preferred-time, travel, coach and field-capacity checks, and the time solver
  `checkAndAssignTimes` places the practice. While a team's quota (one practice per
  preferred day) is not met, the checks are relaxed step by step. The staged schedules are
  upserted by team, club and date.
- `controllers/scheduleController.js`, the older allocator that the same server still
  exports. It checks a reservation against a team's preferred timing, and it checks a
  coach's availability. `schedulePractice` books one practice and cuts the booked window
  out of the field's ledger of free portions (`updateReservationArray`). That cut relies on
  fraction arithmetic on portion strings (`subtractPortions`, `calculateGCD`).
- `helper/insertQuery.js`, the time helpers used when reservations are first generated.
  They pick a random preferred timing, add minutes to "HH:MM" times, and choose the first
  field compatible with a team.

Representation choices:

- Times of day are whole minutes. The source stores "HH:MM" strings and compares them
  as strings. `Times.TimeStringOrder` proves that string order and minute order agree below
  100 hours. `Times.MinutesToTimeRoundTrip` proves that the rendering is read back exactly.
- Calendar dates used for arithmetic are day numbers, counted from 1 January 1970.
  `Dates.FormatDateRoundTrip` proves that formatting a day as "MM/DD/YYYY" and parsing it
  back gives the same day. Dates used as keys stay the strings the database stores.
- The database becomes in-memory state. The allocator's `Schedule` collection is the
  `Store.ScheduleStore` class, whose methods update a sequence field in place. The older
  allocator's schedules and slot ledgers are the `Legacy.Allocator` class.
- Randomness (`Math.random`) becomes a `pick` parameter. The JavaScript integer operators
  are written out where negative operands matter (`Common.JsRem`, `Common.JsQuot`).

Modules: `Common`, `Text`, `Times`, `Dates` and `Records` are shared vocabulary.
`Sorting`, `Chunker`, `Ranking`, `Checks`, `Solver`, `Evaluator`, `Store` and `Scheduler`
model `PracticeScheduler.js`. `Portions`, `Ledger` and `Legacy` model
`scheduleController.js`. `FieldHelpers` models `insertQuery.js`.

Where the code differs from the system's documented design, the model follows the code.
The one exception is the week cursor of `generateSchedules`: as written it can loop
forever at the end of a year (first row of "## Findings"), so `Scheduler.GenerateSchedules`
runs on the corrected cursor. The differences the model keeps:

- The week of `getWeekRange` runs from Monday to Saturday. The end is computed as
  `6 - getDay()` days ahead, and a Sunday is read as the end of a week that runs from the
  Monday before to the Saturday after. The design describes an ISO week, Monday to Sunday.
- The `skipSlotAvailability` flag of the escalation is set but read by no check.
- The staged `practice_length` is the team's ideal length, even when the solver placed the
  minimum length.
- `checkAndAssignTimes` can return a window that runs past the reservation's end, and the
  evaluation stages it (second and third rows of "## Findings").
- `schedulePractice` cuts its ledger with `subtractPortions` as written, which can keep an
  overbooked piece (last row of "## Findings").
- The second chunking pass re-chunks whole weeks, so a reservation can appear in two
  chunks. The design says each date is claimed by exactly one chunk.
- The region test of the older allocator compares exactly, without lower-casing.
- The travel test of the older allocator reads dates with `convertDateToMilliseconds`,
  which splits on '-' and returns 0 for an Invalid Date. A "MM/DD/YYYY" reservation date
  therefore reads as 0: trips that start after 1970 never exclude it, and trips whose dates
  have no '-' either exclude it always (`Legacy.UndashedDateNeverAway`,
  `Legacy.UndashedTripAlwaysAway`). Between "YYYY-MM-DD" dates the test compares days
  (`Legacy.IsoDatesCompareByDay`).
- A free coach in the older allocator is available whatever their coaching window.

## Model

| member | source | states |
|---|---|---|
| Dates.Weekday | controllers/PracticeScheduler.js:30 | the JavaScript `getDay()` of a day number lies in 0..6 (Sunday is 0) |
| Dates.WeekdayName | controllers/PracticeScheduler.js:262-263 | `toLocaleString(weekday: "long")` yields one of the seven English day names |
| Dates.CivilRoundTrip | controllers/PracticeScheduler.js:14-24 | converting a day number to year, month and day and back gives the same day number |
| Dates.ParseDigitsDate | controllers/PracticeScheduler.js:14-17 | `parseDate` of "MM/DD/YYYY" digit strings is the JavaScript `new Date(y, m-1, d)` day |
| Dates.MakeDayOfCivil | controllers/PracticeScheduler.js:14-17 | building a date from the calendar parts of a day gives that day back |
| Dates.FormatDateRoundTrip | controllers/PracticeScheduler.js:14-24 | `parseDate(formatDate(d)) == d` for every day from the year 100 on (earlier years would be read as 19xx) |
| Dates.SupportedRoundTrip | controllers/PracticeScheduler.js:14-24 | the same round trip for every day the chunker accepts |
| Dates.WeekBounds | controllers/PracticeScheduler.js:26-40 | the week of a day starts on a Monday and ends on a Saturday, contains the day, and spans six days, or thirteen when the day is a Sunday |
| Dates.GetWeekRange | controllers/PracticeScheduler.js:26-40 | the two formatted bounds of `getWeekRange` parse back to the Monday and the Saturday of that week |
| Times.TimeOfDigits | controllers/PracticeScheduler.js:489-492 | `convertTimeToMinutes("HH:MM")` is hours times 60 plus minutes |
| Times.MinutesToTimeRoundTrip | controllers/PracticeScheduler.js:478-492 | reading back a rendered minute count gives that count |
| Times.MinutesToTimeShape | controllers/PracticeScheduler.js:478-487 | below 100 hours the rendering is five characters: two hour digits, ':', two minute digits |
| Times.TimeStringOrder | controllers/PracticeScheduler.js:283-290 | string `<` and string equality on rendered times hold exactly when they hold on the minutes |
| Times.TimeStringOrderLe | controllers/PracticeScheduler.js:290 | string `<=` on rendered times is `<=` on the minutes |
| Sorting.SortBy | controllers/PracticeScheduler.js:49-63 | sorting yields a permutation of its input that is ordered by the key |
| Sorting.InsertSorted | controllers/PracticeScheduler.js:49-63 | inserting into an ordered sequence keeps it ordered |
| Sorting.InsertKeepsKeyOrder | controllers/PracticeScheduler.js:49-63 | insertion keeps the input order among elements with equal keys |
| Sorting.SortByStable | controllers/PracticeScheduler.js:49-63 | the sort is stable: elements with equal keys keep their input order, as `Array.prototype.sort` does |
| Sorting.SortBySorted | controllers/PracticeScheduler.js:49-63 | an already ordered sequence is left unchanged |
| Chunker.SortReservations | controllers/PracticeScheduler.js:49-63 | the sorted reservations are a permutation of the input |
| Chunker.SortReservationsOrder | controllers/PracticeScheduler.js:49-63 | the sorted reservations are ordered by day, and on one day the longer reservation comes first |
| Chunker.InWeekSlice | controllers/PracticeScheduler.js:72-78 | a reservation is in a week's slice exactly when it is in the input and its day lies between the week's Monday and Saturday |
| Chunker.WeekOfIsSlice | controllers/PracticeScheduler.js:72-78 | `processChunk` on the formatted week bounds selects the reservations whose days lie in that week |
| Chunker.ScanKeeps | controllers/PracticeScheduler.js:85-93 | the weekly filter keeps at most one reservation per date, never a date already seen, and records the dates it keeps |
| Chunker.ScanInOrder | controllers/PracticeScheduler.js:85-93 | the kept reservations appear in the order of the week |
| Chunker.ScanCovers | controllers/PracticeScheduler.js:85-93 | every reservation of the week is either kept or set aside as a duplicate of a date seen |
| Chunker.ScanWindow | controllers/PracticeScheduler.js:85-93 | the loop over the week computes the filter's result |
| Chunker.SkipThrough | controllers/PracticeScheduler.js:99-101 | the cursor moves past exactly the reservations up to the week's end |
| Chunker.FirstPass | controllers/PracticeScheduler.js:81-102 | the first pass gives non-empty chunks inside distinct weeks with distinct dates overall, and every reservation lands in a chunk or among the duplicates of a date already chunked |
| Chunker.DuplicateChunk | controllers/PracticeScheduler.js:106-112 | a duplicate's chunk is the whole week of the duplicate |
| Chunker.RechunkStep | controllers/PracticeScheduler.js:105-118 | each turn of the second pass covers the first pending duplicate and removes at least one pending duplicate |
| Chunker.RechunkDuplicates | controllers/PracticeScheduler.js:105-118 | the second pass gives whole weeks that together contain every duplicate |
| Chunker.Compose | controllers/PracticeScheduler.js:81-118 | the two passes together cover every reservation with non-empty chunks, each inside its week |
| Chunker.FlattenContiguous | controllers/PracticeScheduler.js:84-93 | a first-pass chunk keeps only reservations with dates not seen before, so it has distinct dates and its reservations of one date are adjacent |
| Chunker.WeekSliceContiguous | controllers/PracticeScheduler.js:105-110 | a second-pass week slice of the day-sorted list, with every date string the rendering of its day, keeps the reservations of one date adjacent |
| Chunker.ChunkReservations | controllers/PracticeScheduler.js:47-121 | `chunkReservations` (with the week cursor corrected) covers every reservation; every chunk is non-empty and inside one week; first-pass chunks have distinct dates and increasing weeks, so the reservations of one date are adjacent in each; second-pass chunks are whole weeks, and when every stored date is its day's MM/DD/YYYY rendering (`Chunker.AllDated`) the reservations of one date are adjacent in them too |
| Chunker.AdvanceAsWritten | controllers/PracticeScheduler.js:99-101 | the cursor advance that compares "MM/DD/YYYY" strings stays within the reservations |
| Chunker.AdvanceByDay | controllers/PracticeScheduler.js:99-101 | the corrected advance moves past exactly the days up to the week's end |
| Chunker.FormatDateOrder | controllers/PracticeScheduler.js:19-24 | formatted dates compare by month and day, ignoring the year |
| Chunker.YearEndStall | controllers/PracticeScheduler.js:99-101 | for a week from 30 Dec 2024 to 4 Jan 2025 the string comparison does not advance the cursor; the day comparison does |
| Chunker.NextYearSkipped | controllers/PracticeScheduler.js:99-101 | the string comparison skips a reservation on 3 Jan 2026 that lies outside the week being chunked |
| Ranking.IndexOf | controllers/PracticeScheduler.js:129-138 | finds the group of a coach or proves it is absent |
| Ranking.GroupByCoachPartitions | controllers/PracticeScheduler.js:129-135 | grouping by coach gives one group per coach, each group holds exactly that coach's teams, and the groups are a permutation of the teams |
| Ranking.RankTeamsPermutation | controllers/PracticeScheduler.js:129-138 | the ranked teams are a permutation of the club's teams |
| Ranking.GroupsBySizeOrder | controllers/PracticeScheduler.js:136 | coach groups are ordered from most teams to fewest |
| Ranking.RankTeamsOrder | controllers/PracticeScheduler.js:137-138 | ranked teams are ordered by practice length, longest first |
| Ranking.RankTeamsTies | controllers/PracticeScheduler.js:129-138 | teams with equal practice length keep the order of their coach groups (the sorts are stable) |
| Checks.Overlaps3Iff | controllers/PracticeScheduler.js:281-292 | the three-way overlap test of the query is ordinary intersection of half-open intervals |
| Checks.OverlapTextAgrees | controllers/PracticeScheduler.js:455-475 | the overlap test on "HH:MM" strings agrees with the test on minutes |
| Checks.CheckRegion | controllers/PracticeScheduler.js:575-586 | a skipped check, a team region "all", or equal regions after ASCII lower-casing all pass |
| Checks.CheckRegionIff | controllers/PracticeScheduler.js:575-586 | without skip flags the region check passes exactly when either side is "all" or the regions are equal after ASCII lower-casing, and it is symmetric |
| Checks.CheckRegionIgnoresCase | controllers/PracticeScheduler.js:575-586 | lower-casing either region does not change the check |
| Checks.CheckTeamsPrefferedDay | controllers/PracticeScheduler.js:589-593 | the day check passes exactly when the day name is among the preferred days, or the check is skipped |
| Checks.CheckTeamPrefferedTime | controllers/PracticeScheduler.js:596-604 | unless skipped, the time check passes exactly when the preferred start plus the minimum length fits before the reservation end |
| Checks.CheckTeamTravelling | controllers/PracticeScheduler.js:565-572 | a team is travelling exactly when both travel dates are set and the day lies between them |
| Checks.FindCoach | controllers/PracticeScheduler.js:496 | the team's coach is found when present and reported absent otherwise |
| Checks.FindCompatibleCoach | controllers/PracticeScheduler.js:494-562 | the loop with its early exit decides `CoachCompatible` |
| Checks.CoachCompatibleDisjoint | controllers/PracticeScheduler.js:494-562 | a coach is compatible exactly when their window contains the candidate and either no other team of theirs practises that day or one such practice is on the same field and does not overlap |
| Solver.CountMatchingSchedulesIff | controllers/PracticeScheduler.js:455-475 | a staged schedule matches exactly when it has the same club, field and date and intersects the candidate |
| Solver.LatestEnd | controllers/PracticeScheduler.js:305-317 | the latest end among the coach's schedules bounds all of them and is one of them, or 0 when there are none |
| Solver.LatestEndOf | controllers/PracticeScheduler.js:305-317 | the loop computes that latest end |
| Solver.FirstFit | controllers/PracticeScheduler.js:338-369 | the capacity loop picks a window starting at the end of an overlapping schedule, of the ideal length or else the minimum one, within the reservation; none means no such end fits |
| Solver.FirstFitOf | controllers/PracticeScheduler.js:338-369 | the loop computes that first fit, and leaves its end past the reservation when nothing fits |
| Solver.SolveStep | controllers/PracticeScheduler.js:275-372 | a retry moves the candidate strictly later and keeps it within the reservation |
| Solver.SolveStepSound | controllers/PracticeScheduler.js:275-372 | each outcome of one solver step means what `checkAndAssignTimes` does: a retry starts at an overlapping end, a failure means the field is full and nothing fits, and a success within the reservation has room and no same-coach overlap |
| Solver.SolveSound | controllers/PracticeScheduler.js:275-372 | the corrected solver's window lies within the reservation, has room on the field and clashes with no schedule of the same coach |
| Solver.CheckAndAssignTimes | controllers/PracticeScheduler.js:275-373 | the recursive method computes the solver as written |
| Solver.AssignTimes | controllers/PracticeScheduler.js:275-373 | the method computes the corrected solver |
| Solver.SolverOverrun | controllers/PracticeScheduler.js:305-372 | the solver as written returns a window ending at 11:30 for a reservation that ends at 11:00; the corrected solver returns none |
| Evaluator.SearchSound | controllers/PracticeScheduler.js:272-381 | the window `checkAndAssignTimes` finds from the initial candidate starts no earlier than it and has positive length; when it ends by the reservation end it is sound (room on the field, no same-coach overlap); when it runs past that end it is the initial candidate or has the minimum length |
| Evaluator.Candidate | controllers/PracticeScheduler.js:245-443 | a staged practice has a new key and a new date, is on the reservation's field, starts no earlier than the reservation, ends by its end unless it is the initial candidate or has the minimum length (the overrun `checkAndAssignTimes` allows), and carries the team's coach, ideal length and a portion of at least one |
| Evaluator.CandidateSound | controllers/PracticeScheduler.js:378-432 | a staged practice passed every check and starts no earlier than the initial candidate; when it ends by the reservation end it has room on the field and clashes with no same-coach practice; when it runs past that end it is the initial candidate or has the minimum length |
| Evaluator.CandidateOverrun | controllers/PracticeScheduler.js:270-372 | a team preferring 09:00 to 10:00 with a 90-minute practice, on an empty field reserved 09:00 to 10:00, is staged 09:00 to 10:30, where the search with the reservation's end enforced finds nothing |
| Evaluator.Turn | controllers/PracticeScheduler.js:245-443 | once the quota is met nothing changes; otherwise one turn stages at most one practice on a new date and counts it |
| Evaluator.Evaluate | controllers/PracticeScheduler.js:221-453 | the count equals the number of staged practices, never exceeds the quota, and the last date is the date of the last staged practice |
| Evaluator.EvaluateIdle | controllers/PracticeScheduler.js:245 | reservations after the quota is met change nothing |
| Evaluator.EvaluateStaged | controllers/PracticeScheduler.js:420-432 | every staged practice belongs to the team, was not persisted before, and starts within a reservation of the chunk on its date and field, ending by that reservation's end unless it is an overrun `checkAndAssignTimes` allows |
| Evaluator.EvaluateDistinctDates | controllers/PracticeScheduler.js:435-443 | in a chunk where the reservations of one date are adjacent (every first-pass chunk, and every chunk when each stored date is its day's rendering: `Chunker.ChunkReservations`, `Scheduler.GenerateSchedules`), no two staged practices share a date |
| Evaluator.EvaluateAndCountSchedules | controllers/PracticeScheduler.js:221-453 | the loop computes the count and the staged practices of `Evaluate` |
| Evaluator.SearchWindow | controllers/PracticeScheduler.js:272-376 | the method computes the window search with `checkAndAssignTimes` as written |
| Evaluator.StepReservation | controllers/PracticeScheduler.js:245-443 | the loop body computes one reservation's candidate |
| Store.FindKey | controllers/PracticeScheduler.js:189-194 | the lookup by team, club and date finds the first matching schedule or proves there is none |
| Store.UpsertSpec | controllers/PracticeScheduler.js:187-219 | an upsert keeps keys unique, stores the item, replaces only a schedule with the item's key, and grows the collection only for a new key |
| Store.LastWithKey | controllers/PracticeScheduler.js:187-219 | finds the last item with a key or proves there is none |
| Store.SaveAllSpec | controllers/PracticeScheduler.js:187-219 | saving a batch keeps keys unique, keeps every untouched schedule, and for each key the last item of the batch wins |
| Store.ScheduleStore.Save | controllers/PracticeScheduler.js:189-214 | one upsert updates the collection in place |
| Store.ScheduleStore.SaveSchedules | controllers/PracticeScheduler.js:187-219 | the batch of upserts updates the collection in place |
| Scheduler.FlagsAt | controllers/PracticeScheduler.js:159-169 | the escalation first skips the timing check, then slot availability, then the region check, and never the preferred days |
| Scheduler.FinalLevel | controllers/PracticeScheduler.js:151-174 | the escalation stops at the first level whose attempt meets the quota, or after the last level |
| Scheduler.SlotFlagInert | controllers/PracticeScheduler.js:159-169 | skipping slot availability changes no attempt |
| Scheduler.FinalLevelSkipsSlot | controllers/PracticeScheduler.js:159-169 | so the escalation never ends on that level |
| Scheduler.SaveAllValid | controllers/PracticeScheduler.js:153-174 | saving keeps the schedules well formed |
| Scheduler.AddCount | controllers/PracticeScheduler.js:153-174 | only the served team's count grows, by the number saved |
| Scheduler.ServeSpec | controllers/PracticeScheduler.js:146-179 | serving a team keeps the schedules well formed and raises that team's count by at most its quota, and no other count changes |
| Scheduler.ServeKeeps | controllers/PracticeScheduler.js:146-179 | serving a team keeps every earlier schedule and adds only schedules of that team |
| Scheduler.ServeAll | controllers/PracticeScheduler.js:146-179 | serving the teams of a chunk never lowers a count |
| Scheduler.RunAll | controllers/PracticeScheduler.js:146-179 | serving every chunk never lowers a count and keeps the schedules well formed |
| Scheduler.ZeroCounts | controllers/PracticeScheduler.js:145 | every team starts at zero |
| Scheduler.Ranked | controllers/PracticeScheduler.js:129-138 | the ranking permutes the teams |
| Scheduler.ServeTeam | controllers/PracticeScheduler.js:146-179 | the imperative escalation with one save updates the store and the counts as `ServeSpec` says |
| Scheduler.ServeTeams | controllers/PracticeScheduler.js:146-179 | serving the ranked teams in turn updates the store as `ServeAll` says |
| Scheduler.ServeChunks | controllers/PracticeScheduler.js:146-178 | serving the chunks in turn, every ranked team on each, updates the store and counts as `RunAll` says |
| Scheduler.GenerateSchedules | controllers/PracticeScheduler.js:123-185 | every reservation is chunked by the corrected week cursor, and the store and counts end as serving every ranked team on every chunk says; when every stored date is its day's rendering, the reservations of one date are adjacent in every chunk |
| Portions.CalculateGcd | controllers/scheduleController.js:533-540 | the loop computes Euclid's algorithm with JavaScript's truncating `%` |
| Portions.GcdDivides | controllers/scheduleController.js:533-540 | that result divides both arguments |
| Portions.GcdGreatest | controllers/scheduleController.js:533-540 | every common divisor divides that result |
| Portions.GcdZero | controllers/scheduleController.js:533-540 | that result is zero only for two zero arguments |
| Portions.GcdNegative | controllers/scheduleController.js:533-540 | for -1 and 2 that result is -1, where the greatest common divisor is 1 |
| Portions.Gcd | controllers/scheduleController.js:533-540 | the corrected gcd is non-negative and zero only for two zeros |
| Portions.GcdSpec | controllers/scheduleController.js:533-540 | the corrected gcd is a common divisor that every common divisor divides |
| Portions.SubtractedDen | controllers/scheduleController.js:517-530 | the common denominator of two portion fractions is never zero |
| Portions.SubtractAsWrittenValue | controllers/scheduleController.js:517-530 | `subtractPortions` as written is undefined only for 0/0 and otherwise has the value of the difference |
| Portions.LowestTerms | controllers/scheduleController.js:526-529 | dividing by the corrected gcd leaves a fraction in lowest terms |
| Portions.SubtractPortionsSpec | controllers/scheduleController.js:517-530 | the corrected difference has the right value, a positive denominator, a numerator with the sign of the difference, and lowest terms |
| Portions.NegativeRemainder | controllers/scheduleController.js:517-540 | "1/2" minus "1" gives "1/-2" as written, with a positive numerator, and "-1/2" corrected |
| Portions.ZeroDifference | controllers/scheduleController.js:517-530 | subtracting a portion from itself gives "0/1" either way |
| Ledger.Pieces | controllers/scheduleController.js:440-470 | an overlapped slot yields at most three pieces, an untouched one itself, and every piece keeps the slot's coach flag |
| Ledger.PiecesSpec | controllers/scheduleController.js:440-470 | an untouched slot is kept; an overlapped one leaves the parts before and after the practice with their old portion, and the middle with the reduced portion only when something remains; every free minute outside the practice stays covered |
| Ledger.UpdateReservationArray | controllers/scheduleController.js:434-475 | the loop builds the new ledger that `Updated` describes |
| Ledger.Cut | controllers/scheduleController.js:445-469 | the pushes for one overlapped slot are its pieces |
| Ledger.UpdatedMembers | controllers/scheduleController.js:434-475 | every piece of the new ledger comes from a slot, and every piece of every slot is in it |
| Ledger.UpdatedLength | controllers/scheduleController.js:434-475 | the new ledger holds at most three entries per slot |
| Ledger.UpdatedFlatMap | controllers/scheduleController.js:434-475 | the new ledger is the concatenation of each slot's pieces |
| Ledger.UpdatedAppend | controllers/scheduleController.js:434-475 | updating a concatenated ledger is concatenating the updated parts |
| Ledger.UpdatedSpec | controllers/scheduleController.js:434-475 | every entry of the new ledger is an untouched slot, an outside part of an overlapped slot, or its reduced middle |
| Ledger.UpdatedUntouched | controllers/scheduleController.js:434-475 | a practice that overlaps no slot leaves the ledger unchanged |
| Ledger.KeepsMiddleIff | controllers/scheduleController.js:455-462 | with the corrected subtraction, the middle is kept exactly when the remaining portion exceeds the practice's portion |
| Ledger.OverbookedAsWritten | controllers/scheduleController.js:455-462 | as written, booking a whole field on a half-free slot keeps the middle with portion "1/-2"; corrected, the middle is dropped |
| Legacy.CheckOverlapsIff | controllers/scheduleController.js:597-603 | `checkOverlaps` holds exactly when the two intervals intersect |
| Legacy.CheckOverlapsEmpty | controllers/scheduleController.js:597-603 | it also holds for an empty interval inside another |
| Legacy.CoachDay | controllers/scheduleController.js:491-495 | the query selects exactly the coach's schedules on the date |
| Legacy.CoachAvailabilitySpec | controllers/scheduleController.js:489-514 | a coach is available exactly when under their team limit, clear of their own schedules that day, and, when they already have one, with a window meeting the practice |
| Legacy.FreeCoachIgnoresWindow | controllers/scheduleController.js:489-514 | a coach with no schedule that day is available outside their window |
| Legacy.FirstAvailableSpec | controllers/scheduleController.js:478-486 | the first available coach in order is returned, or none when no coach is available |
| Legacy.FindCompatibleCoach | controllers/scheduleController.js:478-486 | the loop returns that first available coach |
| Legacy.ClubCoaches | controllers/scheduleController.js:346 | exactly the club's active coaches are candidates |
| Legacy.UndashedMillis | controllers/scheduleController.js:580-595 | a date string without '-' is a single part, so `convertDateToMilliseconds` reads it as an Invalid Date and returns 0 |
| Legacy.FormattedDateMillis | controllers/scheduleController.js:580-595 | every "MM/DD/YYYY" date `formatDate` writes reads as 0 |
| Legacy.IsoDateDay | controllers/scheduleController.js:580-595 | a "YYYY-MM-DD" date from the year 100 on reads back as its own day |
| Legacy.IsoDateMillis | controllers/scheduleController.js:580-595 | within the range a Date holds, that reading is the day times 86 400 000 milliseconds |
| Legacy.IsoDatesCompareByDay | controllers/scheduleController.js:313-323 | between "YYYY-MM-DD" dates the millisecond comparison of the travel test is the comparison of days |
| Legacy.OnTrip | controllers/scheduleController.js:313-323 | a reservation's time value is on a trip exactly when some trip's start and end, read by `convertDateToMilliseconds`, enclose it |
| Legacy.WithinPreferredTiming | controllers/scheduleController.js:303-336 | a reservation suits a team exactly when the regions are equal, the day is preferred, no trip of a travelling team encloses the reservation date as `convertDateToMilliseconds` reads the three dates, and the preferred start plus the practice length fits |
| Legacy.UndashedDateNeverAway | controllers/scheduleController.js:313-323 | a reservation date without '-' ("MM/DD/YYYY") reads as 0, so trips starting after 1970 never exclude it and travelling changes nothing |
| Legacy.UndashedTripAlwaysAway | controllers/scheduleController.js:313-323 | when a trip's dates have no '-' either, all three read as 0 and a travelling team is excluded |
| Legacy.StartOfSpec | controllers/scheduleController.js:351-357 | the practice starts at the preferred start when the preferred window fits the reservation, and at the reservation start otherwise |
| Legacy.SameWindow | controllers/scheduleController.js:363-368 | the count is the number of practices already placed on the field and date with exactly this window |
| Legacy.PracticeAdvancesName | controllers/scheduleController.js:363-371 | a recorded practice adds one to its window's count, so the next practice in that window gets the next letter |
| Legacy.PortionName | controllers/scheduleController.js:371 | the portion name is the letter after 'A' by the count, below 26 |
| Legacy.ScanSlots | controllers/scheduleController.js:378-392 | the nested loop decides whether some ledger entry of the field and date covers the practice |
| Legacy.SetEntries | controllers/scheduleController.js:421-425 | only the slot with the given id gets the new ledger |
| Legacy.PracticeSpec | controllers/scheduleController.js:339-431 | a practice is saved exactly when a slot covers it, it fits before the reservation end, and a club coach is available; the saved schedule carries the team, field, date, portion, an available coach and the next portion letter; otherwise nothing changes |
| Legacy.PracticeLedger | controllers/scheduleController.js:418-425 | after a saved practice the chosen slot's ledger is cut by the practice with `subtractPortions` as written, and nothing else changes |
| Legacy.Allocator.SchedulePractice | controllers/scheduleController.js:339-431 | the method updates the schedules and the slot ledgers as `Practice` says |
| FieldHelpers.TimeParts | helper/insertQuery.js:133-135 | splitting a rendered time gives its hours and minutes |
| FieldHelpers.CompareParts | helper/insertQuery.js:133-142 | `compareTimings` is the hour difference, or the minute difference on equal hours |
| FieldHelpers.CompareTimingsSign | helper/insertQuery.js:133-142 | the sign of `compareTimings` on rendered times is the order of the minutes |
| FieldHelpers.AddMinutesSpec | helper/insertQuery.js:145-155 | `addMinutes` renders the new total as `convertMinutesToTime` does and reads back as that total |
| FieldHelpers.AddMinutesRoundTrip | helper/insertQuery.js:145-155 | adding minutes to a rendered time is rendering the sum |
| FieldHelpers.AvailableTimings | helper/insertQuery.js:89-97 | the candidates are the preferred timings between open and close, or none when an evening team meets a field without lights |
| FieldHelpers.StartTimeSpec | helper/insertQuery.js:87-104 | the start is the open time or a preferred timing between open and close; it is the open time for an evening team without lights |
| FieldHelpers.StartTimeReachable | helper/insertQuery.js:99-103 | every candidate timing can be picked |
| FieldHelpers.EndTimeSpec | helper/insertQuery.js:106-130 | the end is the start plus 90 minutes when that is by the close time, and the close time otherwise |
| FieldHelpers.ClampEndMinutes | helper/insertQuery.js:124-129 | on rendered times the clamp is the minimum of the end and the close |
| FieldHelpers.CeilDivSpec | helper/insertQuery.js:169 | the rational ceiling is the least integer at or above the quotient |
| FieldHelpers.TeamsNeededIff | helper/insertQuery.js:163-169 | a field takes enough teams exactly when teams times the preferred size reaches the field size |
| FieldHelpers.FirstCompatible | helper/insertQuery.js:162-172 | a team window with an end never makes the search throw, and a field found is one of the fields |
| FieldHelpers.GetCompatibleField | helper/insertQuery.js:158-173 | a `preferred_timing` with " to " never throws |
| FieldHelpers.FirstCompatibleSpec | helper/insertQuery.js:158-173 | the result is decided by the first field the test does not pass over: a TypeError there, only possible for a window without an end and a field opening no earlier than its start, or that field; nothing is found exactly when every field is passed over |

## Left out

- Database access (Mongoose `find`, `exists`, `findOneAndUpdate`, `save`, `findByIdAndUpdate`) is modelled as reads and writes of in-memory sequences; query projections, `populate` and ObjectId conversion are not modelled.
- `Promise.all` and `await` are sequential in the model, in source order; concurrency is not modelled.
- Logging (`console.log`) and the HTTP request and response handling around the allocators are not modelled.
- The older allocator's own `generateSchedules` driver (controllers/scheduleController.js:199-300) is not modelled: it initialises ledger portions from floating-point division. Only the `schedulePractice` step it calls is modelled.
- `compareTimes` (controllers/scheduleController.js:543-557) is not modelled: nothing in the modelled code calls it.
- Legacy.DateMillis: `new Date(year, month - 1, day)` is local midnight; the model takes midnight UTC, the day number times 86 400 000. The time zone is not modelled.
- Checks.CheckTeamTravelling: an absent travel date (`None`) stands for an undefined field, which `new Date` reads as an Invalid Date; a stored `null`, which `new Date` reads as 1 January 1970, is not modelled.
- `toLocaleString` is modelled only for the English weekday name of a day (`Dates.WeekdayName`).
- `Math.random` is a `pick` parameter of `FieldHelpers.GetRandomStartTime` and `FieldHelpers.GetRandomEndTime`.
- FieldHelpers.FirstCompatibleSpec: `Math.ceil(1 / (preferredFieldSize / field_size))` is modelled as an exact rational ceiling, not as floating-point division.
- Portions.SubtractPortionsSpec: portion strings are parsed as integer numerator and denominator; whitespace trimming and `NaN` from malformed strings are not modelled.
- Solver.SolveSound: practice and minimum lengths are required to be positive (`ValidTeam`), since a zero length could make the solver's recursion stall.
- Legacy.PracticeSpec: with an empty ledger `updateReservationArray` receives the reservation object and fails; the model saves the schedule and leaves the ledger unchanged.
- Checks.CheckRegion: a team without a region makes `team.region.toLowerCase()` throw (controllers/PracticeScheduler.js:579); the model's team region is always a string.
- Times.TimeOfDigits: `convertTimeToMinutes` of a missing time throws (controllers/PracticeScheduler.js:489-492); the model reads only times that are present.
- Scheduler.GenerateSchedules: an exception inside an evaluation is rethrown (controllers/PracticeScheduler.js:445-449) and caught by `generateSchedules` (182-184), which abandons the remaining chunks and teams and keeps what was saved; the model has no exception path and serves every chunk and team.
- Scheduler.GenerateSchedules: the week cursor is the corrected one (`Chunker.ChunkReservations`), because the cursor as written can loop forever at the end of a year, which a terminating model cannot express; `Chunker.YearEndStall` and `Chunker.NextYearSkipped` show the cursor as written.
- Store.ScheduleStore.Valid: the `Schedule` collection is assumed to hold at most one schedule per team, club and date (`UniqueKeys`), each starting before it ends (`ProperTimes`), and `Scheduler.ServeTeam`, `Scheduler.ServeTeams` and `Scheduler.GenerateSchedules` require it. The schema enforces neither, and `schedulePractice` saves without a key check. Schedules of positive length keep the search's recursion finite; with duplicate keys `findOneAndUpdate` updates the first match, as `Store.FindKey` finds it, but the model does not follow such a collection.
- Evaluator.EvaluateDistinctDates: the distinct-dates promise needs the reservations of one date adjacent in the chunk; a second-pass chunk is ordered by day, so when two date strings name the same day ("1/6/2025" and "01/06/2025") they may interleave and the model does not promise distinct dates for that chunk.
- Text.Lower: folds ASCII letters only, while `toLowerCase` also folds other Unicode letters, so `Checks.CheckRegion` treats regions such as "ÉST" and "ést" as different where the program treats them as equal.
- Text.ToNumber: reads only strings of decimal digits (and the empty string as 0); JavaScript's `Number` also accepts a sign, surrounding blanks and decimals, and reads a blank string as 0.
- Text.ParseInt: reads only a leading run of decimal digits; JavaScript's `parseInt` also accepts a sign and leading blanks.
- Chunker.ChunkReservations: reservations before the year 400 are excluded (`AllSupported`), where the calendar conversion of the model is not defined.
- The stored schema and the fields the code reads disagree (for example the coach's coaching window and team limit); the model follows the fields the code reads, with absent values as `None`.

## Findings

| source | as written | input that shows it | evidently intended | confidence | as-written member | corrected member |
|---|---|---|---|---|---|---|
| controllers/PracticeScheduler.js:99-101 | the cursor advances while the reservation's "MM/DD/YYYY" string is `<=` the week's end string, which orders by month and day and ignores the year | a reservation on 30 Dec 2024, whose week ends on 4 Jan 2025: "12/30/2024" is not `<=` "01/04/2025", so the cursor never moves and the loop never ends; and one on 3 Jan 2026 is skipped as inside a week of 2025 | advance while the reservation's day is within the week | not executed | Chunker.YearEndStall | Chunker.ChunkReservations |
| controllers/PracticeScheduler.js:305-372 | when the coach's other practice ends too late for both the ideal and the minimum length, the same-coach branch falls through to the base case, which returns the moved window even though it ends after the reservation | a reservation ending at 11:00, ideal length 90, minimum 60, field capacity 2, one practice of the same coach on the field from 09:00 to 10:30: the result is the window 10:30-11:30 | report no window when nothing fits within the reservation | not executed | Solver.SolverOverrun | Solver.SolveSound |
| controllers/PracticeScheduler.js:270-372 | the first candidate, the preferred start plus the ideal length, is never compared with the reservation's end: when nothing overlaps it, the base case returns it as it is, and `checkTeamPrefferedTime` tests only the minimum length | a reservation from 09:00 to 10:00 on an empty field, and a team preferring 09:00 to 10:00 with an ideal length of 90 and a minimum of 60: the practice 09:00-10:30 is staged | report no window when the candidate does not end by the reservation's end | not executed | Evaluator.CandidateOverrun | Solver.SolveSound |
| controllers/scheduleController.js:533-540 | `calculateGCD` uses JavaScript's truncating `%`, so a negative numerator gives a negative gcd, and `subtractPortions` divides the denominator by it | "1/2" minus "1": the difference -1/2 is rendered "1/-2", whose numerator is positive, so `updateReservationArray` keeps an overbooked middle slot | reduce by the absolute gcd, giving "-1/2", and drop the middle | not executed | Ledger.OverbookedAsWritten | Ledger.KeepsMiddleIff |
