# Earnings calendar core, modelled in Dafny

This project models the logic of the earnings calendar web application that sits
between its SQL query and its React markup, and proves properties about it:

- **Business-day generator** (`src/lib/businessDays.ts`). `isBusinessDay`,
  `getNextBusinessDays` and `toISODate` are modelled in `business_days.dfy`.
  `getNextBusinessDays` is kept as its `while` loop with a cursor and a growing
  result. It is proved equal to a reference definition, `BusinessDaysFrom`, whose
  window properties are proved as lemmas. Both test scenarios are restated as
  lemmas.
- **Calendar arithmetic** of `getDay`, `startOfDay` and the `yyyy-MM-dd` format.
  `gregorian.dfy` holds a proleptic Gregorian conversion between day numbers and
  year/month/day. `date_key.dfy` holds the zero-padded key, its parser (the
  `parseISO` reading of such a key) and the round trip between the two.
- **Search, group and sort** of the calendar view (`src/components/CalendarView.tsx`),
  in `calendar_view.dfy`. The group-by `reduce` that pushes into buckets is the
  method `Grouping.GroupByDate`. The two views run the same reduce, so they share
  this one method.
- **Fixed-window bucketing** and the display decisions of the previews view
  (`src/components/PreviewsView.tsx`), in `previews_view.dfy`. The page's date
  window (`src/app/previews/page.tsx:9-10`) is in `previews_page.dfy`.
- **Row mapping** (`src/lib/queries.ts`): `mapRow` and `rows.map(mapRow)`, in
  `queries.dfy`.

Representation choices:

- A calendar day is an integer day number counted from 1970-01-01, which was a
  Thursday. Its weekday is `(d + 4) % 7`, with 0 for Sunday, as `getDay` numbers them.
- An instant is an integer number of milliseconds in one fixed reference time zone.
  `startOfDay` is floor division by 86 400 000.
- The clock reading `new Date()` is the parameter `from` or `now`.
- Strings are sequences of characters.
- Lowercasing is ASCII-only. Trimming uses the ECMAScript white-space and
  line-terminator set.
- SQL `NULL` and JavaScript `null`/`undefined` are `Option.None`.

The model follows the code in these choices, where a reader might expect otherwise:

- A count of zero or less gives an empty list; it is not an error.
- The start day is included when it is a business day.
- The search term is lower-cased but not trimmed. Only the blank test trims it
  (`CalendarView.UntrimmedTermMatchesNothing`).
- Days are taken in one reference zone rather than in the process's local zone.
- The previews view groups by the raw `date` string without parsing it.

## Model

| member | source | states |
|---|---|---|
| BusinessDays.StartOfDay | src/lib/businessDays.ts:15 | the day returned is the one whose 24-hour span contains the instant |
| BusinessDays.StartOfDayOf | src/lib/businessDays.ts:15 | every instant of day d, midnight included, starts day d |
| BusinessDays.BusinessDayWeekdays | src/lib/businessDays.ts:5-8 | a day is a business day exactly when its weekday is 1 to 5, i.e. neither Sunday (0) nor Saturday (6) |
| BusinessDays.FirstBusinessDayFrom | src/lib/businessDays.ts:17-26 | the first business day on or after d. It is d itself on a weekday, one day later from a Sunday and two from a Saturday. No business day is skipped before it |
| BusinessDays.BusinessDaysFrom | src/lib/businessDays.ts:10-30 | reference definition of the output: n days, all of them business days |
| BusinessDays.BusinessDaysFromWindow | src/lib/businessDays.ts:17-26 | the list is strictly increasing, so it has no duplicates. It starts at the first business day on or after the start. Its elements are exactly the business days between the start and its last element, so there are no gaps |
| BusinessDays.InclusiveStart | src/lib/businessDays.ts:18-20 | the first element is the start day exactly when the start day is a business day; otherwise it is one or two days later |
| BusinessDays.BusinessDaysFromSnoc | src/lib/businessDays.ts:23-25 | each further push is the first business day strictly after the previous element |
| BusinessDays.GetNextBusinessDays | src/lib/businessDays.ts:10-30 | the loop returns max(count, 0) days, all business days. They equal the reference list from the start of `from`'s day, so the result depends only on the calendar day of `from` |
| BusinessDays.ToISODateRoundTrip | src/lib/businessDays.ts:32-34 | in years 1 to 9999 the key has 10 characters and parses back to the instant's day |
| BusinessDays.ToISODateIgnoresTime | src/lib/businessDays.ts:32-34 | every instant of a day has that day's key: the time of day is ignored |
| BusinessDays.ToISODateOfMidnight | src/lib/businessDays.ts:32-34 | the key of a day's midnight is the day's key |
| BusinessDays.MondayStartIsIncluded | src/lib/businessDays.test.ts:5-12 | from Monday 2025-10-20 at noon, three days give 2025-10-20, -21 and -22, and the first key is "2025-10-20" |
| BusinessDays.SaturdayStartSkipsWeekend | src/lib/businessDays.test.ts:14-21 | from Saturday 2025-10-18 at noon, three days give 2025-10-20, 2025-10-21 and 2025-10-22 |
| Gregorian.Weekday | src/lib/businessDays.ts:6 | `getDay` is a number from 0 to 6 |
| Gregorian.WeekdayStep | src/lib/businessDays.ts:23 | the next day's weekday is the following one, modulo 7 |
| Gregorian.DaysBeforeMonth | src/lib/businessDays.ts:33 | the days before a month, plus that month's length, fit within the year, and December ends the year |
| Gregorian.MonthStep | src/lib/businessDays.ts:33 | consecutive months start one month length apart |
| Gregorian.YearStep | src/lib/businessDays.ts:33 | consecutive January firsts are one year length apart |
| Gregorian.YearsMonotone | src/lib/businessDays.ts:33 | later years start at least 365 days per year later |
| Gregorian.EraShift | src/lib/businessDays.ts:33 | the calendar repeats every 400 years (146 097 days) |
| Gregorian.YearInEra | src/lib/businessDays.ts:33 | the year of a 400-year cycle that contains a given day of the cycle |
| Gregorian.MonthOf | src/lib/businessDays.ts:33 | the month of a year that contains a given day of the year |
| Gregorian.YearContaining | src/lib/businessDays.ts:33 | the year whose span contains a given day |
| Gregorian.CivilFromDays | src/lib/businessDays.ts:33 | every day number is a valid year/month/day that counts back to that same day |
| Gregorian.InsideYear | src/lib/businessDays.ts:33 | a valid date falls inside the span of its own year |
| Gregorian.MonthsMonotone | src/lib/businessDays.ts:33 | later months of a year start later |
| Gregorian.DaysFromCivilInjective | src/lib/businessDays.ts:33 | two valid dates with the same day number are the same date |
| Gregorian.CivilRoundTrip | src/lib/businessDays.ts:33 | converting a valid date to its day number and back gives the date |
| DateKey.Pad | src/lib/businessDays.ts:3 | a zero-padded field consists of digits, reads back as its number, and has exactly the width when the number fits |
| DateKey.EraYear | src/lib/businessDays.ts:3 | the "yyyy" year is at least 1, and is the year itself from year 1 on |
| DateKey.NatToString | src/lib/businessDays.ts:3 | the decimal digits of a number read back as that number |
| DateKey.DigitsValueInjective | src/lib/businessDays.ts:3 | two digit strings of the same length with the same value are equal |
| DateKey.FormatFields | src/lib/businessDays.ts:3 | a key in years 1 to 9999 has 10 characters: dashes at positions 4 and 7 and the three padded fields between them |
| DateKey.KeyRoundTrip | src/lib/businessDays.ts:32-34 | in years 1 to 9999 parsing a day's key gives the day back |
| DateKey.PadOfDigits | src/components/CalendarView.tsx:54 | a digit string is the padded rendering of its own value |
| DateKey.KeyShape | src/components/CalendarView.tsx:54 | a string of key shape is its three fields joined by dashes |
| DateKey.ParsedKeyIsCanonical | src/components/CalendarView.tsx:54 | a key that parses (year 1 or later) is exactly the rendering of the day it denotes |
| DateKey.ParseInjective | src/components/CalendarView.tsx:52-56 | two keys that parse to the same day are the same string |
| Text.LowerChar | src/components/CalendarView.tsx:19 | an ASCII capital becomes its small letter (32 code points on); every other character is unchanged |
| Text.Lower | src/components/CalendarView.tsx:19 | lowering keeps the length, turns each ASCII capital at its position into its small letter and keeps every other character |
| Text.LowerIdempotent | src/components/CalendarView.tsx:29 | lowering twice is lowering once |
| Text.LowerKeepsWhiteSpace | src/components/CalendarView.tsx:25-29 | lowering neither creates nor removes white space, so a term and its lowered form are blank together |
| Text.LeadingSpace | src/components/CalendarView.tsx:25 | the length of the all-white-space prefix |
| Text.TrailingSpace | src/components/CalendarView.tsx:25 | the length of the all-white-space suffix |
| Text.Trim | src/components/CalendarView.tsx:25 | the trimmed string is empty exactly when the input is all white space. Otherwise it starts and ends without white space. It occurs in the input |
| Text.ContainsOccurs | src/components/CalendarView.tsx:39 | `includes` holds exactly when the term occurs at some position |
| Text.ContainsEmpty | src/components/CalendarView.tsx:39 | every string includes the empty term, and the empty string includes only the empty term |
| Seqs.Filter | src/components/CalendarView.tsx:31 | a filtered list is no longer than its input, and every element kept satisfies the predicate and comes from the input |
| Seqs.FilterPositions | src/components/CalendarView.tsx:31 | the filtered list is the subsequence at increasing positions of the input, and every position that satisfies the predicate is among them |
| Seqs.FilterCount | src/components/CalendarView.tsx:31 | an element is kept with its full multiplicity when it satisfies the predicate, and never otherwise |
| Seqs.FilterEmpty | src/components/CalendarView.tsx:31 | the filtered list is empty exactly when no element satisfies the predicate |
| Sorting.Insert | src/components/CalendarView.tsx:52-56 | inserting adds exactly the element, once |
| Sorting.InsertSorted | src/components/CalendarView.tsx:52-56 | inserting into a sorted list keeps it sorted |
| Sorting.SortBy | src/components/CalendarView.tsx:52-56 | the comparator sort returns a permutation whose keys never decrease |
| Sorting.InsertDistinct | src/components/CalendarView.tsx:52-56 | inserting a new element into a list without duplicates leaves none |
| Sorting.SortByDistinct | src/components/CalendarView.tsx:52-56 | sorting a list without duplicates leaves none |
| Sorting.SameHead | src/components/CalendarView.tsx:52-56 | two strictly sorted permutations of each other start alike |
| Sorting.StrictlySortedUnique | src/components/CalendarView.tsx:52-56 | two strictly sorted permutations of each other are equal |
| Grouping.Dates | src/components/CalendarView.tsx:43-50 | the bucket keys have no duplicates and are exactly the dates of the events |
| Grouping.EventsOnSnoc | src/components/CalendarView.tsx:46-47 | pushing an event extends its own date's bucket and no other |
| Grouping.GroupByDate | src/components/CalendarView.tsx:43-50 | the reduce yields keys in first-appearance order. There is a bucket exactly for each key, and each bucket holds the events of its date in input order |
| Grouping.EventsOnCount | src/components/CalendarView.tsx:43-50 | each event is in its own date's bucket as often as in the input, and in no other bucket |
| Grouping.EventsOnOrder | src/components/PreviewsView.tsx:27-34 | a bucket is the subsequence of the input at the positions of its date, so input order is kept |
| Grouping.EventsOnNonEmpty | src/components/CalendarView.tsx:45-47 | a bucket is non-empty exactly when its date is a key |
| CalendarView.Normalize | src/components/CalendarView.tsx:18-19 | a missing value becomes "", any other value is lowered, keeping its length |
| CalendarView.MatchesTermIsSome | src/components/CalendarView.tsx:32-39 | an event matches exactly when some field among ticker, friendlyName, name and isin, normalized, includes the term |
| CalendarView.FilterEvents | src/components/CalendarView.tsx:24-41 | a blank term returns the events unchanged. Otherwise every event kept matches the lower-cased term |
| CalendarView.BlankIsAllWhiteSpace | src/components/CalendarView.tsx:25 | a term is blank exactly when all its characters are white space |
| CalendarView.FilterEventsCount | src/components/CalendarView.tsx:29-40 | for a non-blank term, an event is kept with its full multiplicity exactly when it matches; otherwise it is dropped |
| CalendarView.FilterEventsOrder | src/components/CalendarView.tsx:31 | the filtered list is a subsequence of the events that skips no event that passes (every event when the term is blank) |
| CalendarView.CaseInsensitive | src/components/CalendarView.tsx:24-41 | the search is case-insensitive: terms that differ only in letter case keep the same events, and so do a term and its lower-cased form |
| CalendarView.MissingFieldNeverMatches | src/components/CalendarView.tsx:18-19 | a missing field never includes a non-blank term |
| CalendarView.WhiteSpaceLedTermAbsent | src/components/CalendarView.tsx:39 | a term that starts with white space is included in no text free of white space |
| CalendarView.UntrimmedTermMatchesNothing | src/components/CalendarView.tsx:29 | the term is not trimmed, so " aapl" matches no company whose fields contain no white space |
| CalendarView.SortDatesStrict | src/components/CalendarView.tsx:52-56 | the sorted distinct keys are in strictly increasing day order, each once |
| CalendarView.SortDatesIgnoresOrder | src/components/CalendarView.tsx:52-56 | the heading order depends only on which dates occur |
| CalendarView.FilteredDatesParse | src/components/CalendarView.tsx:43-56 | every heading of well-formed events parses |
| CalendarView.NoDatesIffNoEvents | src/components/CalendarView.tsx:74-77 | there is no date heading exactly when there are no events |
| CalendarView.CalendarSections | src/components/CalendarView.tsx:24-77 | the dates are the sorted distinct dates of the filtered events, in strictly increasing day order. Each date has a non-empty bucket of its events. The "No earnings events found" message shows exactly when nothing passes the filter |
| PreviewsView.SectionsFor | src/components/PreviewsView.tsx:38-39 | one section per requested date, in the requested order |
| PreviewsView.PreviewSections | src/components/PreviewsView.tsx:27-39 | the group-then-lookup result is, for each requested date, the events of that date in input order, or [] when there are none |
| PreviewsView.EmptySectionIffNoEvent | src/components/PreviewsView.tsx:58-61 | a section shows the empty message exactly when no event has its date |
| PreviewsView.OutsideWindowHidden | src/components/PreviewsView.tsx:38-39 | an event whose date was not requested appears in no section |
| PreviewsView.InsideWindowShown | src/components/PreviewsView.tsx:38-39 | an event whose date was requested appears in that section as often as it was fetched |
| PreviewsView.ExactlyOneSection | src/components/PreviewsView.tsx:27-39 | with distinct dates, an event in the window is in exactly one section |
| PreviewsView.CountLabel | src/components/PreviewsView.tsx:51-54 | the label is "company scheduled" exactly when the count is 1, and "companies scheduled" otherwise |
| PreviewsView.FormatTimestamp | src/components/PreviewsView.tsx:17-24 | a missing or empty timestamp gives no text; any other gives exactly the formatter's result, with no text when the formatter fails |
| PreviewsView.PreviewSlotOf | src/components/PreviewsView.tsx:84-105 | "Preview pending" shows exactly when there is no preview. The link targets the storage URL, and its "Updated" line is the formatted generation time, absent when that time is empty |
| PreviewsView.RowPreviewSlot | src/components/PreviewsView.tsx:94-99 | a row shows a link exactly when it has a preview id and a storage URL, the link targets that URL, a row without a generation time shows no "Updated" line, and one with a non-empty time shows the formatter's text for it |
| PreviewsPage.KeysOfIncreasingDays | src/app/previews/page.tsx:10 | the keys of increasing days in four-digit years parse back to those days, and so are chronological and distinct |
| PreviewsPage.BusinessDayKeys | src/app/previews/page.tsx:9-10 | the window's keys are distinct and chronological, and each names a business day |
| PreviewsPage.PreviewWindow | src/app/previews/page.tsx:9-10 | five keys, the i-th being the key of the i-th business day on or after today |
| Queries.MapRow | src/lib/queries.ts:23-52 | id, date, source and every company field come from the row's matching columns. A preview is attached exactly when preview_id and preview_storage_url are both non-empty. Its name defaults to "Earnings Preview" and its generatedAt to "" |
| Queries.MapRowRoundTrip | src/lib/queries.ts:23-52 | the mapping loses nothing: every event with a well-formed preview is the mapping of a row |
| Queries.FetchEarningsCalendar | src/lib/queries.ts:102 | one event per row, the i-th mapped from the i-th row |

## Left out

- The SQL query of `fetchEarningsCalendar` and the connection pool (`src/lib/db.ts`) are not modelled: they are database semantics. Rows arrive as a sequence, in whatever order the query returns them.
- `fetchPreviewsForDates` is imported by the previews page, but no definition exists in `src/lib/queries.ts`. It is not part of this model: the previews view takes any list of events.
- The email route, the health route, the deployment and schema scripts and `src/lib/supabase.ts` are not modelled. They are network calls, environment reads and console output.
- The page shells and React machinery are not modelled: JSX, `useState`, `useMemo`, the layout and page markup. The clock reading `new Date()` becomes a parameter.
- Time zones and daylight saving time are not modelled: every instant is read in one fixed reference zone. With local-zone `startOfDay` the source can differ near midnight.
- Instants of JavaScript `Date` are bounded (±8.64e15 ms) and counts are floating point numbers. The model uses unbounded integers and integer counts.
- Display formatting ("EEEE, MMMM d, yyyy" and "MMM d, yyyy · HH:mm 'UTC'") is left out. `PreviewsView.FormatTimestamp` takes the formatter as a parameter that returns `None` when it fails.
- `parseISO` is modelled only on the exact ten-character `yyyy-MM-dd` form. Other accepted shapes and a parse of years before 1 are not modelled.
- `CalendarView.DayOf`: a key that does not parse sorts as day 0. The calendar method requires that every event date parses, so this case does not arise there.
- `toLowerCase` is ASCII-only: other scripts' case mappings are not modelled.
- `marketCapMillion` is a `real`: its floating point representation is not modelled.
- The company-name fallback and the "ticker · isin · country" subtitle join are not modelled. Neither affects which events appear.
- `src/lib/types.ts` is not used for the record shapes: the records are modelled as `mapRow` builds them. The previews view's `EarningsPreview` records are modelled as these same events.
- `PreviewsPage.PreviewWindow` states the window's distinctness and order only through `PreviewsPage.BusinessDayKeys`, for days in years 1 to 9999. Outside those years a key has more or fewer than four year digits.
