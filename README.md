# Shift proposal pipeline: a Dafny model

This project models the shift-proposal logic of a part-time work planner.
The logic lives in four JavaScript files, and each is modelled as written,
in its own module:

- **`ShiftScheduler`** (`public/script/shiftScheduler.js`). This is the unavailability aggregator.
  - It enumerates the dates of a window.
  - It turns the sleep hours and the store-closed hours into dated blocks, splitting a block at midnight.
  - It expands the registered records (`none`, `daily`, `weekly`, `monthly`) into the window.
  - It concatenates all blocks and sorts them by start instant.
  - It derives the window from the month text the way `Date.UTC` reads it. Years 0-99 are 1900-1999, months outside 1..12 carry into the next or previous year, and an unreadable text is an invalid date. It derives the sleep hours from a lifestyle.
- **`CappedProposal`** (`TestCode/test2.js`). This draft carves each day around its blocked times under an eight-hour daily cap.
  - It prices each shift hour by hour, with a night rate and an additive weekend surcharge.
  - It selects shifts with the test `total <= target` and never stops early.
- **`FlatRateProposal`** (`TestCode/test.js`). This is the earlier draft.
  - Its gap finder ends with an opening-hours filter.
  - It generates one candidate per slot at one flat rate.
  - It selects a prefix, stopping once the total reaches the target, and sorts the result by start.
- **`Calendar`** (`public/script/calendar.js`). This is the display side.
  - It expands stored records up to today plus three months.
  - It keeps the first occurrence of each part-time shift's (start, end) pair.
  - It builds the holiday events and answers the holiday test.
  - It builds the job colour table and the weekend day-cell classes.

Shared modules:

- `CivilTime`: Gregorian dates, day numbers, weekdays (0 = Sunday, as `getDay`), minute instants, and the `setDate`/`setMonth` steps.
- `IsoText`: the `YYYY-MM`, `YYYY-MM-DD` and `HH:MM` texts.
- `JsText`: `split`, `parseInt` and the `Number` reading of a year text, as `getShifts` applies them to the month picker's value.
- `Blocks`: dated blocks, the midnight split, the date range and the stable sort by start.
- `Recurrence`: the recurrence tags and the dates a repeating record visits.
- `Seqs`: stable sort, filter and subsequence.
- `Store`: the stored documents as plain values.
- `Results`: the `Option` and `Result` types and the failures.

Representation:

- A date is a `Civil` value or its day number; day 0 is 0001-01-01, a Monday.
- A time of day is a whole number of minutes from 0 to 1440, where 1440 is the sentinel `"24:00"`.
- An instant is `day * 1440 + minute`.
- Earnings are exact `real` values.

The store's documents, the holiday API's table and the current date are
parameters. Where the page would loop for ever, on a recurrence value the
loop never advances on, the model returns `Err(EndlessRecurrence)`.

## Model

| member | source | states |
|---|---|---|
| `Blocks.DateRange` | public/script/shiftScheduler.js:12-17 | The date list starts at the start day and climbs one day at a time. Every listed date's instant is at most the end instant, and the next date's would be past it. |
| `ShiftScheduler.WindowDatesAreTheWindow` | public/script/shiftScheduler.js:12-17 | The window's dates are exactly startDay, startDay+1, …, endDay, with no repeats. The window is empty when start > end. |
| `Blocks.SplitEachDateShape` | public/script/shiftScheduler.js:19-29 | For every date d: if from > to, two blocks (d, from, 24:00) and (d+1, 00:00, to); otherwise one block (d, from, to). Blocks come out date by date. |
| `Blocks.SplitIsContiguous` | public/script/shiftScheduler.js:19-41 | A split period runs without a gap from `from` on d to `to` on d or d+1. It covers (to − from) minutes modulo a day. |
| `ShiftScheduler.WindowSplitMembers` | public/script/shiftScheduler.js:19-41 | A block belongs to the split of the window exactly when it is one of the split blocks of some date in [startDay, endDay]. |
| `ShiftScheduler.NoneRecordBlocks` | public/script/shiftScheduler.js:73-80 | A `none` record contributes at most one block. It contributes (date, startTime, endTime) exactly when its date is a real date inside the window. |
| `ShiftScheduler.RepeatingRecordBlocks` | public/script/shiftScheduler.js:82-99 | A daily, weekly or monthly record contributes exactly the blocks at the iterates base, step(base), … that lie in the window. Each carries the stored times unchanged. |
| `ShiftScheduler.RepeatingRecordAscends` | public/script/shiftScheduler.js:82-99 | A repeating record's blocks come out in strictly ascending date order. |
| `ShiftScheduler.WeeklyJuneExample` | public/script/shiftScheduler.js:82-99 | A weekly record from June 3 over the June window gives blocks on the 3rd, 10th, 17th and 24th, in any year. |
| `ShiftScheduler.EndlessRecords` | public/script/shiftScheduler.js:83-98 | The expansion fails exactly for an unknown recurrence whose date is not after the window end. For such a record the loop test holds at every iterate, because the date never moves. |
| `ShiftScheduler.RecordBlocksInWindow` | public/script/shiftScheduler.js:74-90 | Every block a record contributes lies in [startDay, endDay] and keeps the record's start and end times. |
| `ShiftScheduler.ExpandRecord` | public/script/shiftScheduler.js:69-100 | The while loop over one record's dates returns exactly that record's blocks. |
| `ShiftScheduler.RegisteredTimesMembers` | public/script/shiftScheduler.js:63-104 | The registered times exist exactly when no record is endless. Then a block is registered exactly when some record contributes it. |
| `ShiftScheduler.LoadRegisteredTimes` | public/script/shiftScheduler.js:63-104 | The forEach over the documents returns the registered times of the record list. |
| `ShiftScheduler.UnavailableTimes` | public/script/shiftScheduler.js:49-60 | The result is sorted by start instant. As a multiset it is registered ++ sleep blocks ++ store-closed blocks (closed from close to open). It fails exactly when the registered times fail. |
| `ShiftScheduler.UnavailableTimesMembers` | public/script/shiftScheduler.js:19-60 | A block is unavailable exactly when it is registered, or is a sleep block or closed block of some date in the window. |
| `ShiftScheduler.GetUnavailableTimes` | public/script/shiftScheduler.js:9-61 | getUnavailableTimes returns the sorted union above for the window and the given hours. |
| `Seqs.SortByIsStable` | public/script/shiftScheduler.js:56-60 | The sort keeps the input order of blocks that start at the same instant. |
| `ShiftScheduler.SleepIsEightHours` | public/script/shiftScheduler.js:141-152 | Each lifestyle's sleep period (morning 22:00–06:00, night 02:00–10:00, else 23:00–07:00) covers 480 minutes. It stays within one date exactly for `night`. |
| `ShiftScheduler.MonthWindow` | public/script/shiftScheduler.js:138-139 | A month's window runs from day 1 to the month's last day and holds as many dates as the month has days. |
| `ShiftScheduler.GetShifts` | public/script/shiftScheduler.js:135-165 | No job: NoJobs (the `jobsData[0]` TypeError, which line 156 meets first). A month text whose window is not a valid JS date: InvalidDate (the RangeError of `toISOString` at line 159 or 160). Otherwise: the unavailable times of the text's window, with the lifestyle's sleep hours and the first job's opening hours. |
| `ShiftScheduler.WindowAt` | public/script/shiftScheduler.js:138-139 | A window that exists spans 28 to 31 days, first to last. Its last day is within 10^8 days of 1970-01-01, the range of JS dates. |
| `ShiftScheduler.PickerWindow` | public/script/shiftScheduler.js:136-139 | A `YYYY-MM` picker value with month 01..12 gives that month's window. Years 0000-0099 give the window of 1900-1999, as `Date.UTC` does. |
| `ShiftScheduler.WindowOfMonth` | public/script/shiftScheduler.js:138-139 | Year y and month 1..12 give the window from day 1 to the last day of month m of y, or of 1900 + y for y ≤ 99. |
| `ShiftScheduler.MonthCarries` | public/script/shiftScheduler.js:138-139 | Month m + 12 of year y is month m of year y + 1, and month 0 is December of the year before, as `Date.UTC` normalises the month. |
| `ShiftScheduler.ReadPadded` | public/script/shiftScheduler.js:136-137 | A four-digit year, `-` and any two-digit month (00 and 13-99 as well) read as those two numbers. |
| `ShiftScheduler.ReadUnpadded` | public/script/shiftScheduler.js:137 | An unpadded one-digit month is read too: `2024-6` is year 2024, month 6. |
| `ShiftScheduler.ExtraPiecesIgnored` | public/script/shiftScheduler.js:136-137 | Only the first two pieces count: `2024-06-15` reads the same as `2024-06`. |
| `ShiftScheduler.NoMonthPiece` | public/script/shiftScheduler.js:137 | A text with no `-` (the empty text as well) has no month piece. It reads as NaN, so the window is an invalid date. |
| `JsText.SplitJoin` | public/script/shiftScheduler.js:136-137 | `split('-')` loses only the separators: joining its pieces with `-` gives the text back, and no piece holds a `-`. |
| `JsText.ParseInt` | public/script/shiftScheduler.js:137 | `parseInt` of a text with no `-` is never negative, so the month pieces of a split text read as non-negative numbers. |
| `JsText.ParseIntPad2` | public/script/shiftScheduler.js:137 | `parseInt` reads a zero-padded two-digit text as its number. |
| `JsText.ToNumberPad4` | public/script/shiftScheduler.js:136-138 | `Number`, which `Date.UTC` applies to the year text, reads a zero-padded four-digit text as its number. |
| `IsoText.IsoDateRoundTrip` | public/script/shiftScheduler.js:15 | The ISO key of a date reads back as that date, so distinct dates have distinct keys. |
| `CivilTime.DayNumberOrder` | public/script/shiftScheduler.js:14 | A valid date earlier in (year, month, day) order has a smaller day number, so `currentDate <= endDate` on day numbers is the calendar order. |
| `CivilTime.NextDayIsNext` | public/script/shiftScheduler.js:16 | `setDate(getDate() + 1)` gives a real date whose day number is one more. |
| `CivilTime.AddMonthsIsLater` | public/script/shiftScheduler.js:97 | `setMonth(getMonth() + n)` gives a real date after the original, no earlier than the first day of the n-th month on. |
| `CivilTime.AddMonthKeepsDay` | public/script/shiftScheduler.js:97 | For a day of month up to 28, one `setMonth` step keeps the day and moves to the next month. |
| `Recurrence.OccurrencesComplete` | public/script/shiftScheduler.js:83-98 | The k-th iterate of the base date is visited by the loop exactly when it is not after the end date. |
| `Recurrence.OccurrencesAscend` | public/script/shiftScheduler.js:83-98 | Visited dates strictly ascend. |
| `Recurrence.IterateDays` | public/script/shiftScheduler.js:92-95 | The k-th daily iterate is k days after the base, and the k-th weekly iterate 7k days. |
| `Recurrence.IterateMonths` | public/script/shiftScheduler.js:96-97 | For a base day up to 28, the k-th monthly iterate is the same day of the month, k months later. |
| `Recurrence.NonRepeatingNeverMoves` | public/script/shiftScheduler.js:92-98 | For any value other than daily, weekly or monthly, every iterate is the base date. |
| `Recurrence.TagRoundTrip` | public/script/shiftScheduler.js:73 | Reading the stored recurrence tag loses nothing, and writing back a well-formed value gives it again. |
| `Blocks.MockBlocksDates` | TestCode/test2.js:31-34 | Anchor for the fixed data, not a property: the day numbers of the four mock appointments are those of 2024-06-01, 06-05, 06-10 and 06-15. |
| `CappedProposal.MockUnavailable` | TestCode/test2.js:19-44 | The mock blocks plus the sleep blocks of every date, as a multiset, sorted by start. |
| `CappedProposal.GetUnavailableTimes` | TestCode/test2.js:10-45 | The method returns the sorted mock-plus-sleep list. |
| `CappedProposal.ScanInvariant` | TestCode/test2.js:70-86 | Through the block loop: minutes used = total of the shifts ≤ 480. The cursor never goes before the opening instant. Every shift is non-empty and starts at or after the opening. |
| `CappedProposal.ScanEnds` | TestCode/test2.js:73-82 | Each shift of the block loop ends at the start of a block of that day. The last one may instead end where the day reaches 8 hours. |
| `CappedProposal.ScanOrdered` | TestCode/test2.js:70-86 | With blocks sorted by start and start ≤ end: shifts ascend without overlap and end no later than the cursor and the last block's start. |
| `CappedProposal.DayShiftsBounded` | TestCode/test2.js:63-97 | A day's shifts total at most 8 hours. Each has start < end and starts at or after the day's opening instant. |
| `CappedProposal.TrailingClamp` | TestCode/test2.js:89-97 | The trailing shift starts at the cursor. It never ends after closing and never takes the day past 8 hours. It ends at closing time or exactly at the 8-hour cap. |
| `CappedProposal.IntermediateShiftPassesClose` | TestCode/test2.js:73-97 | A shift of the block loop is not clamped to closing. Store 08:00–12:00 with one block 14:00–15:00 gives the shift 08:00–14:00. |
| `CappedProposal.OtherDatesIgnored` | TestCode/test2.js:68 | Adding a block dated another day does not change a day's shifts. |
| `CappedProposal.DayShiftsWithinDay` | TestCode/test2.js:68-97 | Every shift of a day lies between its opening and the following midnight. |
| `CappedProposal.DayShiftsOrdered` | TestCode/test2.js:70-98 | With blocks sorted by start and start ≤ end, a day's shifts ascend and do not overlap. |
| `CappedProposal.ProposalInWindow` | TestCode/test2.js:54-102 | Every proposed shift starts at or after the window start, is non-empty, and starts no later than the end day. |
| `CappedProposal.ProposeFromOrdered` | TestCode/test2.js:59-102 | With sorted, well-formed blocks, the whole proposal runs forward in time with no two shifts overlapping. |
| `CappedProposal.CarveDay` | TestCode/test2.js:60-99 | One pass of the day loop returns that day's shifts: the block loop, then the trailing shift. |
| `CappedProposal.ProposeShifts` | TestCode/test2.js:48-106 | proposeShifts returns the proposal over the mock-plus-sleep blocks, day by day from the first opening not before the start. |
| `CappedProposal.SlicesCover` | TestCode/test2.js:135-141 | Slices run back to back from the start in steps of at most 1 hour, the last clipped at the end. Their lengths sum to the shift length. |
| `CappedProposal.FlatRate` | TestCode/test2.js:135-156 | When all three rates are equal, a shift earns its hours times that rate, so slicing loses nothing. |
| `CappedProposal.SaturdayNightHour` | TestCode/test2.js:143-153 | A Saturday 23:00 hour at 1000/1200/1500 earns 1200 + 500 = 1700. |
| `CappedProposal.PayNotNegative` | TestCode/test2.js:143-153 | With non-negative rates and holidayPay ≥ hourlyWage, no shift earns less than zero. |
| `CappedProposal.ShiftEarnings` | TestCode/test2.js:129-156 | The wage loop returns the sum of the slice pays. |
| `CappedProposal.SelectionTotal` | TestCode/test2.js:158-161 | The chosen shifts keep input order and the total is their earnings. Before the last chosen shift was added, the total was ≤ the target, so any overshoot is at most that shift's earnings. |
| `CappedProposal.SelectionIsPrefix` | TestCode/test2.js:158-161 | The chosen shifts are a prefix of the input, whatever the earnings. Any shift left out means total > target. A final total ≤ target means every shift was chosen. |
| `CappedProposal.SelectShifts` | TestCode/test2.js:126-162 | The selection loop returns the greedy selection and its total. |
| `FlatRateProposal.AllUnavailable` | TestCode/test.js:155-184 | Mock blocks plus one sleep block per date (two when start > end), as a multiset, sorted by start. |
| `FlatRateProposal.GetAllUnavailableTimes` | TestCode/test.js:155-184 | The push loop followed by the in-place sort returns that list. |
| `FlatRateProposal.DaySlotsShape` | TestCode/test.js:42-64 | Every slot of a day has start < end. It starts at the day's opening or at the end of a block of that date. |
| `FlatRateProposal.AvailableSlotsSpec` | TestCode/test.js:21-76 | The result is a subsequence of the raw slots. A raw slot is kept iff (startHour ≥ open ∨ startHour < close) ∧ (endHour > open ∨ endHour ≤ close). Kept slots are non-empty and start at a day's opening or a block's end. |
| `FlatRateProposal.DuplicateSlotExample` | TestCode/test.js:47-55 | Store 08:00–02:00 with one block 23:00–24:00 gives the slots 08:00–23:00 twice, then 00:00–02:00 of the next day. |
| `FlatRateProposal.CorrectedSlotsAscend` | TestCode/test.js:47-58 | With each gap pushed once, a day's slots start strictly one after another, so none repeats. |
| `FlatRateProposal.FindAvailableSlots` | TestCode/test.js:21-76 | The day loop with its block loop, then the filter, returns the available slots. dayEnd is on the next day when close ≤ open. |
| `FlatRateProposal.CandidateWithinSlot` | TestCode/test.js:83-90 | A candidate starts with its slot, ends within it, and lasts at most 8 hours. It is shorter only when the slot is. |
| `FlatRateProposal.CandidateRate` | TestCode/test.js:92-94 | Night wage if the start hour is ≥ 22 or the end shows an hour ≤ 5, even on a weekend. Else holiday pay when the start day's weekday is 0 or 6. Else, on weekdays 1-5, the hourly wage. A candidate ending at midnight shows hour 0, so it pays the night wage. |
| `FlatRateProposal.GenerateShiftCandidates` | TestCode/test.js:79-99 | Exactly one candidate per slot, in slot order. |
| `FlatRateProposal.GreedyPrefixUnique` | TestCode/test.js:140-146 | Well-definedness of the specification, not a property of the code: at most one break point fits a candidate list and target, so `GreedyPrefix` pins the selection down. |
| `FlatRateProposal.NothingForNoTarget` | TestCode/test.js:140-141 | A target ≤ 0 selects nothing. |
| `FlatRateProposal.SelectOptimalShifts` | TestCode/test.js:132-152 | The result is the longest prefix where the total before each addition was < target. It stops only once the total reaches the target. The total is those candidates' hours × wage, and the output is that prefix stably sorted by start. |
| `Calendar.StampTextInjective` | public/script/calendar.js:33-37 | Two `date + 'T' + time` texts are equal exactly when date and time are, so `===` on them is equality of stamps. |
| `Calendar.EventsAt` | public/script/calendar.js:170-186 | One event per visited date, in order, each with the record's name and times on that date. |
| `Calendar.HorizonThreeMonths` | public/script/calendar.js:153-155 | endDate is a real date after today, no earlier than the first day of the third month ahead. For days up to 28 it is the same day three months on. |
| `Calendar.NoneRecordEvent` | public/script/calendar.js:162-168 | A `none` record gives exactly one event: start = (date, startTime), end = (date, endTime). |
| `Calendar.RepeatingRecordEvents` | public/script/calendar.js:170-186 | The k-th event falls on the k-th iterate of the base date, which is never before the base and never after endDate. An iterate gets an event exactly when it is not after endDate. |
| `Calendar.RecurringEventDates` | public/script/calendar.js:179-185 | The k-th event is k days after the base (daily) or 7k days (weekly). A monthly event is k months on, same day, for base days up to 28. |
| `Calendar.RecordEventsPainted` | public/script/calendar.js:172-177 | Every event of a record carries its name and the colour it was expanded with. |
| `Calendar.EndlessRecordEvents` | public/script/calendar.js:171-186 | The expansion fails exactly for an unknown recurrence whose date is not after endDate. The loop test then holds for ever. |
| `Calendar.ExpandRecordEvents` | public/script/calendar.js:170-186 | The while loop over one record's dates returns that record's events. |
| `Calendar.AllEventsMembers` | public/script/calendar.js:157-189 | The list's events exist exactly when no record is endless. They are then exactly the events of the individual records. |
| `Calendar.PartTimeShiftColors` | public/script/calendar.js:204-229 | Every part-time shift event carries the colour and name of a record it came from. |
| `Calendar.UnavailableEventsRed` | public/script/calendar.js:162-177 | Every unavailable-time event is red. |
| `Calendar.ExpandRecords` | public/script/calendar.js:157-189 | The forEach over the documents returns the events of the record list. |
| `Calendar.LoadUnavailableTimes` | public/script/calendar.js:150-190 | The records' events up to today + 3 months, in red. |
| `Calendar.LoadPartTimeShifts` | public/script/calendar.js:192-232 | The records' events up to today + 3 months, in each record's colour. |
| `Calendar.FindIndexSpec` | public/script/calendar.js:34-36 | The first index with the same (start, end), or −1 when there is none. |
| `Calendar.FirstOccurrencesMembers` | public/script/calendar.js:33-37 | An event is kept exactly when it sits at the first index of its (start, end) pair. |
| `Calendar.UniqueShiftsSpec` | public/script/calendar.js:33-37 | The result is a subsequence of the input. No two kept events share a (start, end) pair. Every pair of the input is present. |
| `Calendar.UniqueShiftsIdempotent` | public/script/calendar.js:33-37 | Filtering twice gives the same list as filtering once. |
| `Calendar.EventDates` | public/script/calendar.js:87-101 | One event per holiday key, in key order. Each has start = holiday = key, title = name, class `holiday` and colour red. |
| `Calendar.GetEventDates` | public/script/calendar.js:87-101 | The for loop returns the holiday events. |
| `Calendar.HolidayHasEvent` | public/script/calendar.js:103-105 | isHoliday holds exactly when some holiday event starts on the date's ISO key. |
| `Calendar.OneKeyOneDate` | public/script/calendar.js:103-105 | A consequence of ISO keys being distinct per date: a table with one key marks that date and no other. |
| `Calendar.DistinctHolidayEvents` | public/script/calendar.js:87-101 | When the keys are distinct, as `Object.keys` gives them, no two holiday events start on the same key. |
| `Calendar.ColorMapLastWins` | public/script/calendar.js:27-30 | The colour table's keys are exactly the job names. Each name maps to the colour of the last job with that name. |
| `Calendar.BuildJobColorMap` | public/script/calendar.js:27-30 | The forEach builds that colour table. |
| `Calendar.DayCellClassWeekend` | public/script/calendar.js:76-82 | `fc-sun` exactly on Sunday and `fc-sat` exactly on Saturday. A cell gets a class exactly on weekend days. The class repeats every 7 days, and an `fc-sat` cell is always followed by an `fc-sun` cell. |
| `Calendar.JuneFirstWeekend` | public/script/calendar.js:76-82 | Anchor for the weekday formula, not a property: 2024-06-01 gets `fc-sat` and 2024-06-02 gets `fc-sun`. |

## Left out

- Store reads (`getDocs`, `loadJobData`) are left out. Their results are list parameters.
- The holiday API call is left out. Its result is a `HolidayTable` parameter: keys in `Object.keys` order, each with a name.
- The clock (`new Date()` for today) is a parameter.
- A record hangs the page when its unknown recurrence value never advances the loop. The model returns `Err(EndlessRecurrence)` instead.
- Time zones are not modelled: every date and instant is read in one zone. The UTC shift of `toISOString` against local `setHours`/`getHours` is the same zone.
- Date-string parsing is not modelled. A stamp `date + 'T' + "24:00"` is taken as the midnight that ends that date (minute 1440), as ECMAScript date strings define it.
- In `TestCode/test.js`, the sleep-hour texts `${h}:00` are unpadded for hours below 10 (`"7:00"`). The model reads them as the hour meant.
- `setMonth` day overflow follows the JS rule: a day the target month lacks spills into the next month.
- `Calendar.RecurringEventDates` states the monthly dates only for base days 1..28. For later days only "strictly later than the previous date" is proved.
- `Recurrence.IterateMonths` has the same limit.
- Floating-point hour fractions are not modelled. Durations are whole minutes and pay is an exact `real`.
- `shuffle` and `selectOptimalShifts(…, randomize = true)` are not modelled, because they depend on `Math.random`.
- FullCalendar rendering is not modelled. That covers the event array at `public/script/calendar.js:50`, `eventClick`, `eventContent`, `showPopup`, and the `escapeHTML` calls: titles are raw strings.
- The `loadUnavailableTimes` declared inside `isHoliday` after its `return` is never reached and is not modelled.
- `public/script/authentication.js` and `public/script/mainpage.js` (login, logout, redirects) are not part of this model.
- `console.log` output, `runTests` and `window.onload` are not modelled beyond the computations they call.
- Some behaviour has no code in these four files, so it is not part of this model:
  - a preferred-weekday selection pass;
  - weekly/monthly closure days;
  - looping over several jobs (`getShifts` uses the first job only);
  - saving the selected shifts.
- `ShiftScheduler.ReadMonth` reads a year piece only when it is white space, an optional `+` and digits. `Number` also reads decimal fractions, exponents, hex/octal/binary literals and `Infinity` (`"2024.5"` is year 2024). The model reads those as NaN and gives InvalidDate. A month picker never produces them.
- ISO keys are modelled for years 1..9999. `toISOString`'s six-digit years are not modelled.

## Findings

| source | as written | input that shows it | evidently intended | confidence | as-written member | corrected member |
|---|---|---|---|---|---|---|
| TestCode/test.js:47-55 | When a block ends on a different date than it starts, the gap before it is pushed a second time. | Store open 08:00–02:00 and one block 23:00–24:00 on date d: the slot 08:00–23:00 is pushed twice. | Each gap is pushed once. | medium, not executed | `FlatRateProposal.DuplicateSlotExample` | `FlatRateProposal.CorrectedSlotsAscend` |

`FlatRateProposal.FindAvailableSlots` keeps the draft's behaviour as written.
The corrected day (`FlatRateProposal.DaySlotsOnce`) is stated beside it.
