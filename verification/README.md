# Appointment slot recommender, modelled in Dafny

This project models the slot recommendation engine of the NextEra EHR
backend, `AppointmentsService.getRecommendedSlots`
(`src/appointments/appointments.service.ts`). Given a clinic, physician,
patient, date and duration, the service does the following:

- It checks that the three entities exist.
- It turns the physician's availability records for that date into local
  time windows. A recurring record counts only on its weekday. A
  date-specific record is taken as stored.
- It cuts every window into slots of the requested duration on a 15-minute
  stride.
- It drops each slot that overlaps an existing appointment.
- It picks the billing rule that governs the duration. That rule supplies
  the minimum gap to keep next to other appointments.
- It scores each slot. The score starts at 100. It loses 10 per minute that
  a neighbouring gap falls short, and gains +20 when both gaps are kept,
  +15 for a morning start, and +25/−15 for a quiet or busy hour. The
  score is clamped at 0.
- It returns the ten best slots with a positive score, by score and then
  start time, as UTC instants with a status.

Time is an `int` count of minutes on the clinic's local timeline of the
requested date, with minute 0 at local midnight. The zone's offset from UTC
is a parameter, so a local minute `t` is the UTC minute `t - utcOffset`.

Modules, in pipeline order:

- `Clock`: hour and minute of a local instant, the weekday numbering
  (`weekday % 7`, Sunday = 0), and the UTC conversion.
- `Entities`: availability records, windows, appointments, billing rules,
  slots and scored candidates.
- `WindowBuilder`: one window per availability record, or none for a
  recurring record of another weekday.
- `Slicer`: the 15-minute grid of each window, and the conflict filter.
- `Billing`: choice of the governing rule and its minimum gap.
- `Scoring`: neighbour gaps, penalties, bonuses, density, clamping.
- `Ranking`: keep positive scores, a stable sort by rank, keep the top ten.
- `Recommender`: the guards, the statuses and messages, and the UTC answer.
- `Scenarios`: the service's unit tests, evaluated on the model.

A few source behaviours are modelled explicitly:

- **Inverted intervals fail the request.** The date library marks an
  interval whose end is before its start as invalid and leaves its start
  and end empty. An inverted window makes the slicing loop throw. An
  inverted appointment never conflicts with a slot, but it makes scoring
  throw as soon as one slot is left to score. The model returns
  `Failed(InvalidInterval)` in exactly these cases.
- **Ties go to the earlier rule or slot.** The runtime's sort is stable. So
  among qualifying billing rules with the same largest minimum duration,
  the earliest in the list governs. `Ranking.RankedArrangementUnique`
  shows that the rank order leaves no freedom among slots of one duration,
  so the answer does not depend on which sorting algorithm runs.
- **Duplicates are returned.** The code does not deduplicate. A slot occurs
  once for every window whose grid holds it (`Slicer.SliceAllCounts`), so
  two availability records that cover the same time make the answer list
  the same instant twice (`Scenarios.RepeatedSlotScenario`). The unit test at
  `src/appointments/appointments.service.spec.ts:219` expects all instants
  to be unique. Its input has a single window, so it never meets the case.
- **`no_availability` depends on records, not windows.** The answer is
  `no_availability` only when the availability query returned no records
  at all. A non-empty list whose recurring records all belong to another
  weekday yields no windows, and then the answer is `no_slots_available`.

## Model

| member | source | states |
|---|---|---|
| Clock.HourOf | src/appointments/appointments.service.ts:227 | the hour shown on a local clock: in 0..23, and the instant's minute of the day lies within that hour |
| Clock.DayOfWeek | src/appointments/appointments.service.ts:54 | ISO weekday modulo 7: Sunday (7) becomes 0, Monday..Saturday keep 1..6 |
| WindowBuilder.OnRequestedDate | src/appointments/appointments.service.ts:125-136 | the instant on the requested date shows the placeholder's hour and minute and lies within that day |
| WindowBuilder.OnRequestedDateKeepsTimeOfDay | src/appointments/appointments.service.ts:125-136 | reapplying hour and minute keeps the placeholder's time of day (its minute of the day) |
| WindowBuilder.BuildWindow | src/appointments/appointments.service.ts:106-148 | a recurring record gives a window iff its weekday is the requested one, at the placeholders' times of day on the requested date; a date-specific record gives its stored interval |
| WindowBuilder.BuildWindows | src/appointments/appointments.service.ts:105-150 | a window is built iff some record yields it; there are never more windows than records |
| WindowBuilder.BuildWindowsAppend | src/appointments/appointments.service.ts:105-150 | building windows distributes over concatenation of the record list |
| WindowBuilder.OtherWeekdayDropped | src/appointments/appointments.service.ts:113-116 | inserting a recurring record for another weekday anywhere in the list changes no window |
| Slicer.SliceFrom | src/appointments/appointments.service.ts:156-161 | slot i starts 15·i minutes after the first start, lasts the duration, ends inside the window, and one more slot would not fit |
| Slicer.SliceWindow | src/appointments/appointments.service.ts:155-162 | the first slot starts at the window start; each slot lasts the duration and lies in the window; successive starts are 15 minutes apart; the grid is maximal |
| Slicer.SliceWindowIsGrid | src/appointments/appointments.service.ts:155-162 | a slot is produced iff it starts on the window's 15-minute grid, lasts the duration and ends by the window end |
| Slicer.SliceAll | src/appointments/appointments.service.ts:154-162 | a slot is produced iff it lies on the grid of some window |
| Slicer.SliceWindowCounts | src/appointments/appointments.service.ts:155-162 | one window yields each slot of its grid exactly once and no other slot |
| Slicer.SliceAllCounts | src/appointments/appointments.service.ts:154-162 | nothing is deduplicated: a slot occurs once for every window whose grid holds it |
| Slicer.RemoveConflicts | src/appointments/appointments.service.ts:172-177 | every kept slot came from the input and overlaps no appointment (touching a boundary is no overlap) |
| Slicer.RemoveConflictsCounts | src/appointments/appointments.service.ts:172-177 | a conflicting slot is dropped entirely; every other slot keeps all its occurrences |
| Billing.ApplicableIndex | src/appointments/appointments.service.ts:183-185 | no index iff no rule's minimum duration is within the request; otherwise the position of a qualifying rule with the largest minimum duration, the first among ties |
| Billing.SelectRule | src/appointments/appointments.service.ts:183-185 | no rule iff none qualifies; else a listed, qualifying rule whose minimum duration no qualifying rule exceeds, and among ties the first in the list |
| Billing.ApplicableUnique | src/appointments/appointments.service.ts:183-185 | at most one position is the governing rule |
| Billing.MinGap | src/appointments/appointments.service.ts:187 | 0 when no rule qualifies, otherwise the governing rule's minGapAfter |
| Scoring.LatestEndBefore | src/appointments/appointments.service.ts:192-194 | none iff every appointment ends after the slot start; else the largest end at or before it, which is some appointment's end |
| Scoring.EarliestStartAfter | src/appointments/appointments.service.ts:195-197 | none iff every appointment starts before the slot end; else the smallest start at or after it, which is some appointment's start |
| Scoring.GapPenalty | src/appointments/appointments.service.ts:201-214 | never negative; zero iff there is no neighbour or the gap meets the minimum; at least 10 otherwise |
| Scoring.NearbyCount | src/appointments/appointments.service.ts:230-234 | at most the number of appointments; zero iff none is within an hour; all iff every one is |
| Scoring.NearbyCountIsFilterLength | src/appointments/appointments.service.ts:230-234 | the count is exactly the number of list positions whose appointment starts or ends within an hour of the slot start |
| Scoring.DensityAdjustment | src/appointments/appointments.service.ts:235-239 | between −15 and +25 |
| Scoring.RawScore | src/appointments/appointments.service.ts:199-239 | the unclamped score never exceeds 160 = 100 + 20 + 15 + 25 |
| Scoring.Score | src/appointments/appointments.service.ts:240 | between 0 and 160; positive iff the raw score is, and then equal to it |
| Scoring.GapsNonNegative | src/appointments/appointments.service.ts:192-197 | the gap to the preceding and to the following appointment is never negative |
| Scoring.RespectedGapsScoreHigh | src/appointments/appointments.service.ts:216-224 | a slot that keeps both gaps scores at least 105 |
| Scoring.NoMinGapScoresHigh | src/appointments/appointments.service.ts:187 | with no minimum gap every slot scores at least 105 |
| Scoring.ShortGapBeforeCosts | src/appointments/appointments.service.ts:201-207 | a gap before the slot k minutes short caps the score at max(0, 140 − 10k) |
| Scoring.ShortGapAfterCosts | src/appointments/appointments.service.ts:208-214 | a gap after the slot k minutes short caps the score at max(0, 140 − 10k) |
| Scoring.ScoreAll | src/appointments/appointments.service.ts:190-241 | one candidate per slot, in order, each with that slot's score |
| Ranking.Insert | src/appointments/appointments.service.ts:247-249 | inserting into a ranked list keeps it ranked and adds exactly the one candidate |
| Ranking.Sort | src/appointments/appointments.service.ts:247-249 | the result is a ranked permutation of the input |
| Ranking.KeepPositive | src/appointments/appointments.service.ts:246 | every kept candidate has a positive score and comes from the input |
| Ranking.KeepPositiveCounts | src/appointments/appointments.service.ts:246 | a positive candidate keeps all its occurrences; a non-positive one has none |
| Ranking.Rank | src/appointments/appointments.service.ts:245-250 | ranked, positive scores only, drawn from the input, and exactly min(10, number of positive candidates) long |
| Ranking.RankKeepsBest | src/appointments/appointments.service.ts:245-250 | a positive candidate left out ranks no better than any candidate kept |
| Ranking.RankedArrangementUnique | src/appointments/appointments.service.ts:247-249 | two ranked arrangements of the same candidates of one duration are identical |
| Ranking.RankOfFew | src/appointments/appointments.service.ts:245-250 | with at most ten positive candidates, the list is their rank order |
| Recommender.OpenSlotsCounts | src/appointments/appointments.service.ts:154-177 | an open slot occurs once per window holding it on its grid if it overlaps no appointment, and never otherwise |
| Recommender.Shortlist | src/appointments/appointments.service.ts:190-250 | at most ten entries, ranked, each scoring between 1 and 160 |
| Recommender.ShortlistSound | src/appointments/appointments.service.ts:154-250 | each shortlisted slot is an open slot on some window's grid and conflicts with no appointment |
| Recommender.UtcStarts | src/appointments/appointments.service.ts:251 | one instant per candidate, in order, each the candidate's start in UTC |
| Recommender.Recommend | src/appointments/appointments.service.ts:23-270 | fails iff an entity is missing, before anything else; no_availability iff there are no records; no_slots_available with the billing message when rules are missing; fails on an inverted interval exactly as the source does; otherwise success iff the shortlist is non-empty, answering its UTC starts, at most ten |
| Recommender.SuccessAnswer | src/appointments/appointments.service.ts:266-269 | with every guard passed and a non-empty shortlist the answer is success with the shortlist's UTC starts and no message |
| Recommender.AnsweredSlotIsShortlisted | src/appointments/appointments.service.ts:245-251 | the i-th returned instant is the UTC start of the i-th shortlisted slot |
| Recommender.RecommendedSlotsConflictFree | src/appointments/appointments.service.ts:172-177 | no returned instant starts a slot of the duration that overlaps an appointment |
| Recommender.RecommendedSlotsInWindows | src/appointments/appointments.service.ts:155-162 | every returned instant starts a slot on the 15-minute grid of a window for that date |
| Scenarios.MorningHourOpen | src/appointments/appointments.service.ts:172-177 | a slot that only touches an appointment's end is kept; the overlapping one is dropped |
| Scenarios.MorningHourScores | src/appointments/appointments.service.ts:199-240 | the test's three slots score 15, 135 and 135 |
| Scenarios.MorningHourRanked | src/appointments/appointments.service.ts:245-250 | equal scores are ordered by start, ahead of the lower score |
| Scenarios.MinGapScenario | src/appointments/appointments.service.spec.ts:155-192 | the whole minimum-gap test: success with 13:30Z, 13:45Z, 13:15Z |
| Scenarios.RuleByDurationScenario | src/appointments/appointments.service.spec.ts:230-256 | rules of 10, 15 and 30 minutes: a 15-minute request takes gap 20, a 30-minute one gap 30, a 5-minute one gap 0 |
| Scenarios.FullyBookedScenario | src/appointments/appointments.service.spec.ts:128-153 | a half hour overlapped past 09:15 answers no_slots_available with the generic message |
| Scenarios.BusyHourScenario | src/appointments/appointments.service.ts:230-239 | three appointments within the hour of 09:00 and one at 15:00 count as three, which costs 15 points |
| Scenarios.RepeatedSlotScenario | src/appointments/appointments.service.ts:105-162 | two records covering the same quarter hour make the answer list 13:00Z twice |

`Scenarios.FullyBookedScenario` also covers the test at
`src/appointments/appointments.service.spec.ts:258-285`. That test is named
after scoring, but its appointment ends at 09:29, so both slots are
removed by the conflict filter before any scoring happens.

## Left out

- The three entity lookups and the three data queries
  (`src/appointments/appointments.service.ts:34-38`, `272-334`). They are
  inputs to the model: three found/not-found flags, and the record,
  appointment and rule lists as the queries return them. Filtering by
  physician, clinic, date, weekday, availability flag and appointment
  status is the database's job.
- Time zones, daylight saving time and date parsing. The requested date is
  given as its ISO weekday and a fixed UTC offset for that day. A window
  that spans a daylight-saving change is not modelled.
- The ISO-8601 text of the answer. The model answers UTC minutes.
- Precision below one minute. Seconds in stored times, and fractional
  minute differences, are not modelled.
- Logging, and the concurrency of the parallel lookups. Neither affects
  the result.
- The message carried by the thrown errors. `Failed` records only which
  failure happened. The controller's mapping to HTTP codes is not
  modelled either.
- Input validation. The request's duration is taken within 5..480, as the
  request type's validators require, and the weekday within 1..7, as the
  date library guarantees.
- The listing controllers, module wiring, the server entry point and the
  seed script. They contain no recommendation logic.
- Slots are assumed to start after 1970-01-01T00:00Z. Only then does the
  comparison with an invalid interval's missing bounds report no overlap,
  as the model does.
