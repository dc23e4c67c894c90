# Event Planner Pro — a Dafny model of the planner's state and projections

Event Planner Pro is a single React component. It keeps a list of events
(name, date string), a list of vendors (name, category, dates the vendor was
marked available on) and, per event, the list of vendor ids assigned to it.
It also keeps the month shown by the calendar. The component shows:

- a Sunday-first month grid whose day cells list that day's events and, per
  category, how many vendors are available that day;
- under each event, an "Assign vendor" drop-down grouped by category, with
  Available vendors before Pending ones;
- under each event, the rows of the vendors assigned to it.

This project models that logic. The files are:

- `seqs.dfy` (`Seqs`): filtering, counting, subsequences and grouping by a
  key. These are the array operations the component uses: `filter`,
  `[...new Set(xs.map(key))]`, `filter(x => key(x) === k)`.
- `entities.dfy` (`Entities`): events, vendors, the fixed category list, and
  the pure updates each store operation performs.
- `planner.dfy` (`Planner`): the class `EventPlannerPro`. Its fields are the
  component state. Its methods are the store operations and the month
  navigation.
- `dates.dfy` (`Dates`): month lengths, leap years, weekday of a date, and
  previous/next month.
- `date_keys.dfy` (`DateKeys`): the `YYYY-MM-DD` day key and a parser that
  recovers the date from it.
- `calendar_view.dfy` (`CalendarView`):
  - the `eventsByDate` index, as a loop over the events;
  - the per-day category counts;
  - the month grid, as the two loops of `renderCalendar`.
- `vendor_options.dfy` (`VendorOptions`):
  - `getVendorAvailability`;
  - the stable status sort;
  - `renderVendorOptions`;
  - the assigned-vendor rows.

The model follows what the code does:

- Marking a vendor available appends the date even when it is already
  there: nothing de-duplicates the availability array.
- Assigning a vendor appends its id even when it is already assigned:
  nothing checks the event's list for the id.
- Removing a vendor deletes every occurrence of its id.
- Removing from an event that has no list throws a `TypeError` in the
  updater, and rendering throws. The model reports this as a failure with no
  state change; `RemoveVendorFromEvent` proves it cannot happen for an event
  of the list.
- Ids are whatever the caller supplies, so they may collide. The component
  uses `Date.now()`.
- The month navigation and the grid go through the `Date` constructor, which
  reads years 0..99 as 1900..1999. The class and `renderCalendar` model that
  (see "## Findings"); the intended calendar arithmetic is modelled beside it.

## Model

| member | source | states |
|---|---|---|
| Entities.CategoryIndex | simplified-event-planner-2.tsx:3 | Every category has a position in `VENDOR_CATEGORIES`, and the list holds that category at that position. |
| Entities.WithAvailability | simplified-event-planner-2.tsx:27-33 | The vendor list keeps its length and every vendor's id, name and category. Vendors with the given id get the date appended to their availability. All other vendors are unchanged. |
| Entities.MarkAddsOneOccurrence | simplified-event-planner-2.tsx:30 | Marking a date adds exactly one copy of it to a matching vendor. The count of every other date is unchanged. |
| Entities.MarkTwiceKeepsBoth | simplified-event-planner-2.tsx:27-33 | Marking the same date twice leaves two more copies: there is no de-duplication. |
| Entities.WithNewEvent | simplified-event-planner-2.tsx:18 | The new event's id gets an empty assignment list. Every other event's list is unchanged. |
| Entities.AssignVendor | simplified-event-planner-2.tsx:40-45 | The event's list (empty if absent) gains the vendor id at the end. Every other event's list is unchanged. |
| Entities.AssignAddsOneOccurrence | simplified-event-planner-2.tsx:43 | Assigning adds exactly one occurrence of the vendor id, even if it is already present. The count of every other id is unchanged. |
| Entities.AssignTwiceListsTwice | simplified-event-planner-2.tsx:40-45 | Assigning the same vendor twice lists it twice more. |
| Entities.Without | simplified-event-planner-2.tsx:50 | The filtered list holds exactly the ids other than the removed one. |
| Entities.WithoutKeepsOthers | simplified-event-planner-2.tsx:50 | Removal keeps every other id as often as before and in the same relative order. It removes every occurrence of the vendor. |
| Entities.UnassignVendor | simplified-event-planner-2.tsx:47-52 | The update fails exactly when the event has no list. Otherwise only that event's list changes, and it becomes the filtered list. |
| Entities.UnassignAfterAssign | simplified-event-planner-2.tsx:40-52 | Removing right after assigning equals removing alone. If the vendor was not assigned before, this restores the original list. |
| Planner.EventPlannerPro.constructor | simplified-event-planner-2.tsx:6-13 | The component starts with no events, no vendors, no assignments and the current month. |
| Planner.EventPlannerPro.AddEvent | simplified-event-planner-2.tsx:15-20 | Appends the event with the supplied id and gives it an empty assignment list. Nothing else changes. Every event keeps an assignment list. |
| Planner.EventPlannerPro.AddVendor | simplified-event-planner-2.tsx:22-25 | Appends the vendor with the supplied id and no available dates. Nothing else changes. |
| Planner.EventPlannerPro.UpdateVendorAvailability | simplified-event-planner-2.tsx:27-33 | The vendors become `WithAvailability` of the old vendors. Nothing else changes. |
| Planner.EventPlannerPro.AssignVendorToEvent | simplified-event-planner-2.tsx:40-45 | The assignments become `AssignVendor` of the old ones. Nothing else changes. |
| Planner.EventPlannerPro.RemoveVendorFromEvent | simplified-event-planner-2.tsx:47-52 | Succeeds exactly when the event has a list, which always holds for an event of the list. On success the assignments become `UnassignVendor` of the old ones. On failure nothing changes. |
| Planner.EventPlannerPro.ShowPreviousMonth | simplified-event-planner-2.tsx:100 | The shown month becomes `new Date(year, month - 1)`, years 0..99 read as 1900..1999 (`PrevMonthAsWritten`). Nothing else changes. |
| Planner.EventPlannerPro.ShowNextMonth | simplified-event-planner-2.tsx:102 | The shown month becomes `new Date(year, month + 1)`, years 0..99 read as 1900..1999 (`NextMonthAsWritten`). Nothing else changes. |
| Dates.DaysInMonth | simplified-event-planner-2.tsx:69 | The length of a month: 29 exactly for February of a leap year, 28 for other Februaries, 30 for April, June, September and November, 31 otherwise. |
| Dates.MonthStart | simplified-event-planner-2.tsx:100-102 | An out-of-range month is normalised into a valid month with the same absolute month number. |
| Dates.PrevMonth | simplified-event-planner-2.tsx:100 | January goes to December of the previous year. Any other month goes to the month before it in the same year. |
| Dates.NextMonth | simplified-event-planner-2.tsx:102 | December goes to January of the next year. Any other month goes to the month after it in the same year. |
| Dates.NavigationRoundTrip | simplified-event-planner-2.tsx:100-102 | "<" then ">" returns to the same month, and so does ">" then "<". |
| Dates.Weekday | simplified-event-planner-2.tsx:68 | `getDay()` of a date: a weekday in 0..6 (0 = Sunday). `NextDayInMonth` and `MonthBoundary` make consecutive days have consecutive weekdays. |
| Dates.WeekdayEpoch | simplified-event-planner-2.tsx:68 | 1 January 1970 is a Thursday (4). |
| Dates.FirstWeekday | simplified-event-planner-2.tsx:68 | The weekday of day 1, in 0..6: the number of leading blanks. `NextFirstWeekday` ties it to the previous month's length. |
| Dates.NextDayInMonth | simplified-event-planner-2.tsx:68 | Within a month, each day's day number and weekday are one more than the day before. |
| Dates.MonthBoundary | simplified-event-planner-2.tsx:68-69 | Day 1 of the next month immediately follows this month's last day. This covers leap Februaries and the year change. |
| Dates.NextFirstWeekday | simplified-event-planner-2.tsx:68-69 | The next month's grid starts on the weekday after this month's last day. |
| Dates.PrevMonthAsWritten | simplified-event-planner-2.tsx:100 | The "<" button as written, reading years 0..99 as 1900..1999. Yields a valid month. |
| Dates.NextMonthAsWritten | simplified-event-planner-2.tsx:102 | The ">" button as written, reading years 0..99 as 1900..1999. Yields a valid month. |
| Dates.FirstWeekdayAsWritten | simplified-event-planner-2.tsx:68 | The first weekday as written, reading years 0..99 as 1900..1999. Lies in 0..6. |
| Dates.DaysInMonthAsWritten | simplified-event-planner-2.tsx:69 | The month length as written, reading years 0..99 as 1900..1999. Lies in 28..31. |
| Dates.AsWrittenAgreesOutsideTwoDigitYears | simplified-event-planner-2.tsx:68-102 | Outside years 0..99, the as-written navigation, first weekday and month length equal the corrected ones. |
| Dates.AsWrittenInTwoDigitYears | simplified-event-planner-2.tsx:68-102 | For years 0..99, the component's "<", ">", first weekday and month length are those of the same month of 1900 + year. |
| Dates.AsWrittenRoundTrip | simplified-event-planner-2.tsx:100-102 | Away from years -1..100, the component's ">" and "<" undo each other. |
| Dates.TwoDigitYearFebruary | simplified-event-planner-2.tsx:69 | As written, February of year 0 gets 28 days, those of February 1900. The corrected length is 29. |
| Dates.TwoDigitYearNavigation | simplified-event-planner-2.tsx:100-102 | As written, "<" from January 100 reaches December 99. From there ">" goes to January 2000 and "<" to November 1999. The corrected functions give January 100 and November 99. |
| Dates.TwoDigitYearGrid | simplified-event-planner-2.tsx:68 | As written, December 99 starts on a Wednesday, the weekday of 1 December 1999. The corrected grid starts on Tuesday. |
| DateKeys.PadStart | simplified-event-planner-2.tsx:77 | `padStart` gives the wider of the string and the width. The string is at the end, preceded by fill characters. |
| DateKeys.TwoDigitsRoundTrip | simplified-event-planner-2.tsx:77 | Months and days 1..99 are written with exactly two digits and read back. |
| DateKeys.YearRoundTrip | simplified-event-planner-2.tsx:77 | `String(year)` of any integer year is read back as that year. |
| DateKeys.DateKey | simplified-event-planner-2.tsx:77 | The day key, `${year}-MM-DD`, parses back to its year, month and day. `KeySpelling` pins down its exact spelling. |
| DateKeys.DecimalNoLeadingZero | simplified-event-planner-2.tsx:77 | `String(n)` of a natural number starts with `0` only for 0 itself. |
| DateKeys.KeySpelling | simplified-event-planner-2.tsx:77-78 | A string parses back to a date and writes its year without leading zeros exactly when it is that date's key. So "02024-06-01" is not a key, and an event date string that spells a day this way is exactly that day's key and finds its cell. |
| DateKeys.DateKeyExample | simplified-event-planner-2.tsx:77 | The key of 1 June 2024 is `2024-06-01`, the value a date input gives for that day. |
| DateKeys.KeyInjective | simplified-event-planner-2.tsx:77 | Different days get different keys. |
| CalendarView.EventsByDate | simplified-event-planner-2.tsx:54-63 | The index has a bucket exactly for each date some event carries. Each bucket is the events of that date in creation order. |
| CalendarView.NoEventsOn | simplified-event-planner-2.tsx:78 | A date no event carries has no events: the `|| []` case. |
| CalendarView.EventBuckets | simplified-event-planner-2.tsx:54-63 | An event is in a date's bucket exactly when it carries that date. Buckets keep creation order. |
| CalendarView.BucketsTotal | simplified-event-planner-2.tsx:54-63 | The buckets together hold every event exactly once. |
| CalendarView.CountsFor | simplified-event-planner-2.tsx:88-91 | One line per category, in order, with the number of available vendors of that category. |
| CalendarView.VendorSummary | simplified-event-planner-2.tsx:79-91 | A day lists a category exactly when some vendor of it is available that day. Each category is listed once, and every count is at least 1. |
| CalendarView.SummaryCounts | simplified-event-planner-2.tsx:90 | Each line's count is the number of that day's available vendors of its category. |
| CalendarView.SummaryTotal | simplified-event-planner-2.tsx:79-91 | A day's counts add up to the number of vendors available that day. |
| CalendarView.SummaryOrder | simplified-event-planner-2.tsx:80 | Categories appear in the order of their first available vendor, as a `Set` keeps insertion order. |
| CalendarView.BucketOf | simplified-event-planner-2.tsx:78 | Looking up a day's bucket, or `[]` when there is none, gives exactly the events of that date. |
| CalendarView.DayCellContents | simplified-event-planner-2.tsx:76-94 | The cell `DayCell` of day `d` shows day `d`, and its key parses back to that day. It shows exactly the events carrying that key, and a category line exactly for each category with a vendor available that day. |
| CalendarView.DayCellOf | simplified-event-planner-2.tsx:76-94 | The cell built in the day loop is the specified cell of that day. |
| CalendarView.Grid | simplified-event-planner-2.tsx:71-95 | The grid has `first` leading blanks and then one cell per day. Day `d`'s cell is at position `first + d - 1`. |
| CalendarView.MonthGrid | simplified-event-planner-2.tsx:65-95 | The month grid has one blank per weekday before day 1, then the cells of days 1 to the month's length. |
| CalendarView.MonthGridAsWritten | simplified-event-planner-2.tsx:65-95 | The grid the component builds: as many blanks as the as-written first weekday, then the cells of days 1 to the as-written month length. |
| CalendarView.GridAgreesOutsideTwoDigitYears | simplified-event-planner-2.tsx:65-95 | Outside years 0..99, the component's grid is the month grid. |
| CalendarView.TwoDigitYearMonthGrid | simplified-event-planner-2.tsx:68-69 | December 99 gets 3 leading blanks (34 cells) as written. The month grid gives it 2 (33 cells). |
| CalendarView.RenderCalendar | simplified-event-planner-2.tsx:65-95 | The cells `renderCalendar` builds are the component's grid of the shown month, `MonthGridAsWritten`. |
| CalendarView.FillGrid | simplified-event-planner-2.tsx:71-95 | The two loops build exactly the grid of `firstDay` blanks followed by the day cells. |
| VendorOptions.SortByStatus | simplified-event-planner-2.tsx:125-128 | The sort keeps the number of options. `SortByStatusSpec` and `InsertionSortAgrees` give its full specification. |
| VendorOptions.SortByStatusSpec | simplified-event-planner-2.tsx:125-128 | The sorted options have no Pending before an Available. They are a permutation of the input. Within each status they keep the input order, as the stable `Array.prototype.sort` does. |
| VendorOptions.InsertAvailable | simplified-event-planner-2.tsx:125-128 | Inserting an Available option into "Available, then Pending" puts it after the Available options. |
| VendorOptions.InsertPending | simplified-event-planner-2.tsx:125-128 | Inserting a Pending option puts it at the end. |
| VendorOptions.InsertionSortAgrees | simplified-event-planner-2.tsx:125-128 | The sort equals an independent reference insertion sort on every input. |
| VendorOptions.SortByStatusSnoc | simplified-event-planner-2.tsx:125-128 | One more option is sorted after the options of its own status. |
| Entities.StatusOn | simplified-event-planner-2.tsx:114-115 | `getVendorAvailability`: Available exactly when the date was marked for the vendor, Pending exactly when it was not. |
| VendorOptions.Tag | simplified-event-planner-2.tsx:121-124 | Each vendor gets one option, in order, carrying `getVendorAvailability` for the event's date. |
| VendorOptions.TagMembers | simplified-event-planner-2.tsx:114-124 | An option is offered exactly for a listed vendor, with its status on the date. |
| VendorOptions.SortKeepsMembers | simplified-event-planner-2.tsx:125-128 | Sorting keeps the number of options and which options there are. |
| VendorOptions.CategoryOptions | simplified-event-planner-2.tsx:119-128 | `categoryVendors` has one option per vendor of the category not assigned to the event. `CategoryOptionsSpec` and `CategoryOptionsStable` say which options and in what order. |
| VendorOptions.CategoryOptionsSpec | simplified-event-planner-2.tsx:119-128 | A category's options are exactly its vendors not assigned to the event, each tagged with its status. There is one option per eligible vendor, and Available options come first. |
| VendorOptions.CategoryOptionsStable | simplified-event-planner-2.tsx:119-128 | Within each status, the options follow the order of the vendor list. |
| VendorOptions.GroupsFor | simplified-event-planner-2.tsx:118-130 | Every group that is kept is non-empty and holds its category's options. There are at most as many groups as categories. |
| VendorOptions.GroupsForComplete | simplified-event-planner-2.tsx:130 | Every category with options gets a group. |
| VendorOptions.GroupsInCategoryOrder | simplified-event-planner-2.tsx:118 | The categories of the groups form a subsequence of the category list. |
| VendorOptions.RenderVendorOptions | simplified-event-planner-2.tsx:117-141 | Every group is non-empty and holds exactly the options of its category, and there are at most as many groups as categories. `RenderInCategoryOrder` proves at most one group per category. |
| VendorOptions.RenderInCategoryOrder | simplified-event-planner-2.tsx:117-141 | The drop-down's groups follow `VENDOR_CATEGORIES` order, each category at most once. |
| VendorOptions.CandidateHasOptions | simplified-event-planner-2.tsx:119-130 | A category has options exactly when one of its vendors is not assigned to the event. |
| VendorOptions.RenderGroupWhenCandidate | simplified-event-planner-2.tsx:117-141 | A category has a group exactly when one of its vendors is not assigned to the event. |
| VendorOptions.RenderOffersOnlyCandidates | simplified-event-planner-2.tsx:117-141 | Every offered option is a vendor of its group's category that is not assigned to the event, tagged with its status on the event's date. |
| VendorOptions.AssignedNotOffered | simplified-event-planner-2.tsx:117-141 | Once a vendor is assigned to an event, it is not offered for that event any more. |
| VendorOptions.RemovedOfferedAgain | simplified-event-planner-2.tsx:117-141 | After removal, the vendor is offered again in its category's group. |
| VendorOptions.MarkedAvailableOffersAvailable | simplified-event-planner-2.tsx:114-124 | Marking an unassigned vendor available on the event's date makes its option Available. |
| VendorOptions.AvailableFirstExample | simplified-event-planner-2.tsx:117-141 | A Pending Catering vendor listed before an Available one is shown after it. |
| VendorOptions.FindVendor | simplified-event-planner-2.tsx:167 | `find` fails exactly when no vendor has the id. Otherwise it returns the first vendor with that id. |
| VendorOptions.AssignedRows | simplified-event-planner-2.tsx:166-176 | Each row is a vendor with a listed id, tagged with its status on the event's date. Each row shows the first vendor with its id, as `find` does. There are no more rows than ids. |
| VendorOptions.AssignedRowIds | simplified-event-planner-2.tsx:166-176 | The rows show the event's ids that resolve to a vendor, in list order and with repeats. Dangling ids are skipped. |
| VendorOptions.EventRows | simplified-event-planner-2.tsx:166-176 | The rows under an event show its assigned ids that resolve to a vendor, in list order. Each row shows the first vendor with that id and its status on the event's date. An event without a list shows none. |
| VendorOptions.RemoveDropsRows | simplified-event-planner-2.tsx:166-176 | After "Remove", the vendor has no row under the event. Every other row stays, in order. |

## Findings

| source | as written | input that shows it | evidently intended | confidence | as-written member | corrected member |
|---|---|---|---|---|---|---|
| simplified-event-planner-2.tsx:68-102 | `new Date(year, month ± 1)` and `new Date(year, month, 1)` read a year in 0..99 as 1900 + year | Start at January of year 100, press "<" (December 99), then ">" | ">" returns to January 100, and December 99's grid starts on the weekday of 1 December 99 (Tuesday) | not executed | Dates.TwoDigitYearNavigation | Dates.NavigationRoundTrip |

The as-written behaviour is `Dates.PrevMonthAsWritten`,
`Dates.NextMonthAsWritten`, `Dates.FirstWeekdayAsWritten` and
`Dates.DaysInMonthAsWritten`. The class's navigation methods and
`CalendarView.RenderCalendar` use them, as the component does:

- `Dates.TwoDigitYearNavigation` shows ">" jumping to January 2000.
- `Dates.TwoDigitYearGrid` and `CalendarView.TwoDigitYearMonthGrid` show the
  grid starting on a Wednesday.

The corrected behaviour is `Dates.PrevMonth`, `Dates.NextMonth`,
`Dates.FirstWeekday`, `Dates.DaysInMonth` and `CalendarView.MonthGrid`:

- `Dates.NavigationRoundTrip` proves that navigation round-trips.
- `Dates.NextFirstWeekday` proves that grids of consecutive months follow on
  from each other.

`Dates.AsWrittenAgreesOutsideTwoDigitYears` and
`CalendarView.GridAgreesOutsideTwoDigitYears` show that the two versions
differ only for years 0..99.

## Left out

- Rendering: the JSX markup, CSS classes and the weekday header row are not
  modelled. So are the add-event, add-vendor and e-mail modals, their form
  handling and the clipboard. A grid cell is modelled as its day number, key,
  events and category lines.
- Ids: `Date.now()` ids are parameters of `AddEvent` and `AddVendor`. The
  clock is not modelled, so neither is when two ids collide. The operations
  accept any ids, colliding or not, and the model gives colliding ids the
  component's behaviour: `WithNewEvent` overwrites the list, and `FindVendor`
  takes the first vendor.
- `new Date()`: the initial month is a parameter of the constructor.
- `toLocaleString`: the month title depends on the locale and is not
  modelled.
- `useMemo`, React re-rendering and the batching of state updates are not
  modelled. `eventsByDate` is recomputed from the events whenever the
  calendar is built. Each store operation reads the state it updates, which
  is what the functional updaters of lines 41 and 48 do.
- Categories: the category is one of the six values of `VENDOR_CATEGORIES`.
  The form's `<select>` lets the user pick only those values, so a free-text
  category is not modelled.
- CalendarView.EventsByDate: event dates are the values of a date input,
  never names of `Object.prototype` properties such as `constructor` or
  `toString`. For such a date `eventMap[event.date]` at lines 57-60 finds the
  inherited property, and the `push` throws a `TypeError` during render. The
  model builds an ordinary bucket for every date string, so it does not
  capture that throw.
- VendorOptions.GroupsFor: leaves out the `null` entries that
  `renderVendorOptions` returns for empty categories. React renders them as
  nothing.
- Vendor selection for e-mail, and the date input's `selectedDate`: these
  are UI state and are not modelled.
- The two loops of `renderCalendar` (`FillGrid`) take the weekday of day 1
  and the month length as parameters. `RenderCalendar` computes both and
  passes them in.
- Dates: `Date` objects carry a time of day and a time zone. The model works
  with calendar months and days only. `getDay` is computed in the proleptic
  Gregorian calendar, which is what JavaScript dates use.
- Date range: a JavaScript date holds at most 8.64e15 ms either side of
  1970, that is 100 000 000 days: from 20 April of year -271 821 to
  13 September of year 275 760. Beyond that `new Date(...)` is an Invalid Date
  and `getFullYear()` is NaN. `YearMonth.year` is unbounded, so the model
  does not capture either end of the range.
