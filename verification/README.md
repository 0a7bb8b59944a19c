# Ouvidoria reports: a Dafny model of the reporting endpoint

The ouvidoria (ombudsman) application lets people file occurrences, lets
staff resolve them, and gives administrators three reports over them. The
reports come from one handler, `GET /api/reports`, whose `type` query
parameter selects the view:

- `quantity`: occurrences per UTC calendar day of creation, as
  `{date, count}` points in ascending order of day;
- `byCategory`: occurrence counts per category id, each labelled with the
  category's name, or with `"Categoria não encontrada"` when the id does
  not resolve or the name is empty;
- `resolutionDuration`: one sample per finished occurrence, with the
  elapsed time between creation and completion in whole hours
  (`Math.round`).

All three restrict `created_at` to `[startDate, endDate]`, bounds included,
but only when both parameters are given. Any other `type` is answered with
status 400, and any exception with status 500.

The model has three modules:

- `Calendar` (`calendar.dfy`): instants are integer milliseconds since the
  epoch. It defines the UTC day of an instant (`DayOf`), that day's
  midnight (`DayStart`) and `Math.round` of a duration in hours
  (`RoundHours`), each with the property that characterises it.
- `Tally` (`tally.dfy`): counting a sequence of keys by key. `IsTally`
  says what a correct count is, in any order of its entries. `TallyOf`
  builds one, and `TallyTotal` shows that the counts of any tally add up
  to the number of keys counted.
- `Reports` (`reports.dfy`): the rows, the query, the where clause and
  filter, the three reports, and the handler `Get`.

The `quantity` report follows the source's imperative shape. The `reduce`
into a dictionary is the loop of the method `CountByDay` over a `map`,
proved against the reference count `Count`. The entries-then-sort step is
the method `SortByDay`, proved to give ascending midnights with the map's
counts. `QuantityReport` chains the two and is proved against the
predicate `IsDailySeries`; the lemmas state the report's properties in
terms of that predicate. `byCategory` and `resolutionDuration` are
`map`/`find` pipelines in the source, so they are modelled as functions
with lemmas.

## Model

| member | source | states |
|---|---|---|
| `Calendar.DayOf` | src/app/api/reports/route.ts:39-41 | the day key of an instant is the day whose UTC midnight is at or before it, less than a day before |
| `Calendar.DayOfIff` | src/app/api/reports/route.ts:39-41 | an instant gets key `d` if and only if it lies between midnight of `d` (included) and the next midnight (excluded); so two instants share a bucket exactly when they fall on the same UTC day, at any time of day |
| `Calendar.SameDayExample` | src/app/api/reports/route.ts:39-41 | 2024-01-05T00:10Z and 2024-01-05T23:50Z both get key 19727 (2024-01-05), and 2024-01-06T00:10Z gets the next key |
| `Calendar.DayStart` | src/app/api/reports/route.ts:54 | the emitted `date` of a day is a whole number of days since the epoch, i.e. a UTC midnight |
| `Calendar.DayOfDayStart` | src/app/api/reports/route.ts:52-55 | the midnight emitted for a key maps back to that same key |
| `Calendar.RoundHours` | src/app/api/reports/route.ts:117-119 | the result `h` is the whole number of hours nearest the duration: `h - 1/2 <= d/3600000 < h + 1/2`, so halves round toward +infinity |
| `Calendar.RoundHoursUnique` | src/app/api/reports/route.ts:117-119 | only one whole number lies in that half-open bracket, so the rounding is fully determined |
| `Calendar.WholeHours` | src/app/api/reports/route.ts:117-119 | a duration of exactly `k` hours is reported as `k` |
| `Calendar.RoundHoursMonotone` | src/app/api/reports/route.ts:117-119 | a longer duration never gets fewer hours |
| `Calendar.NoClamping` | src/app/api/reports/route.ts:114-119 | a completion more than half an hour before creation gives negative hours, and under half an hour gives 0; nothing is clamped |
| `Tally.Count` | src/app/api/reports/route.ts:66-72 | the number of occurrences of a key is at most the length, and is 0 exactly when the key is absent |
| `Tally.TallyTotal` | src/app/api/reports/route.ts:66-72 | for any tally of a key sequence, in any entry order, the counts add up to the sequence's length |
| `Tally.Bump` | src/app/api/reports/route.ts:66-72 | counting one more key raises the count of its entry, or appends `(key, 1)` when it has none, and leaves every other entry alone |
| `Tally.CountIsMultiplicity` | src/app/api/reports/route.ts:66-72 | the count of a key is its multiplicity in the multiset of the keys |
| `Tally.TallyPermutation` | src/app/api/reports/route.ts:66-72 | whether entries form a tally of the keys depends only on the multiset of the keys, not on their order |
| `Tally.TallyOfIsTally` | src/app/api/reports/route.ts:66-72 | the reference grouping has distinct keys, one entry per key present, and each count equal to the number of occurrences |
| `Reports.WhereClause` | src/app/api/reports/route.ts:13-20 | the clause leaves dates unrestricted exactly when the two dates are not both given (present and non-empty); it fails exactly when both are given and one is an Invalid Date; a restriction carries the two given instants as its bounds |
| `Reports.Filtered` | src/app/api/reports/route.ts:13-20 | the filtered rows are exactly the table's rows that the filter admits, each kept as many times as it occurs |
| `Reports.FilterAllDates` | src/app/api/reports/route.ts:13-20 | with no date restriction, the table comes back unchanged |
| `Reports.FilterSemantics` | src/app/api/reports/route.ts:15-20 | without both dates, every row is kept; with both, a row is kept if and only if `start <= created_at <= end`; the where clause fails only when both dates are given and one of them is an Invalid Date |
| `Reports.MidnightEndBound` | src/app/api/reports/route.ts:18 | the end bound is an instant: if it is the midnight starting day `d`, a row created later on day `d` is dropped |
| `Reports.CountsOfSnoc` | src/app/api/reports/route.ts:43-46 | incrementing one key, after entering it with 0 when absent, turns the counts of a key sequence into the counts of that sequence plus the key |
| `Reports.CountStep` | src/app/api/reports/route.ts:38-48 | one pass of the `reduce` over the next row keeps the dictionary equal to the per-day counts of the rows seen so far |
| `Reports.CountByDay` | src/app/api/reports/route.ts:38-49 | the dictionary's keys are exactly the days of the rows, and each maps to the number of rows created that day |
| `Reports.SortByDay` | src/app/api/reports/route.ts:52-57 | the points have strictly ascending dates, one per dictionary key, each at that day's UTC midnight and carrying that key's count |
| `Reports.QuantityReport` | src/app/api/reports/route.ts:25-63 | the `quantity` output is a daily series of the filtered rows: ascending midnights, one point per day that has rows, none for other days, each counting that day's rows |
| `Reports.QuantityTotal` | src/app/api/reports/route.ts:38-57 | the counts of the series add up to the number of filtered occurrences |
| `Reports.QuantitySparse` | src/app/api/reports/route.ts:38-56 | every point counts at least one occurrence and is the midnight of the day some filtered occurrence was created on |
| `Reports.QuantityBucket` | src/app/api/reports/route.ts:39-49 | every occurrence falls in exactly one point: the one whose date is the midnight starting its UTC day |
| `Reports.AscendingUnique` | src/app/api/reports/route.ts:57 | two strictly ascending sequences with the same elements are equal, so sorting distinct dates leaves no choice |
| `Reports.QuantityUnique` | src/app/api/reports/route.ts:52-57 | the rows determine the series: any two series that meet the `quantity` specification for the same rows are equal |
| `Reports.DaysPermutation` | src/app/api/reports/route.ts:27-41 | reordering the rows reorders their day keys: both have the same multiset |
| `Reports.QuantityReorder` | src/app/api/reports/route.ts:27-57 | a series is the `quantity` report of the rows exactly when it is the report of any reordering of them, so the order the query returns rows in does not matter |
| `Reports.FindCategory` | src/app/api/reports/route.ts:83 | `find` returns the first catalog entry with the id, and nothing exactly when no entry has that id |
| `Reports.Label` | src/app/api/reports/route.ts:85 | the label is never empty; it is the name of the first catalog entry with the id, or the sentinel when there is no such entry or its name is empty |
| `Reports.CategoriesWithIds` | src/app/api/reports/route.ts:74-80 | the fetched categories are exactly the catalog entries whose id is among the groups' ids |
| `Reports.LookupInFetched` | src/app/api/reports/route.ts:74-85 | looking a group's id up among the fetched categories finds the same entry as looking it up in the whole catalog |
| `Reports.NameGroups` | src/app/api/reports/route.ts:82-88 | one output entry per group, in group order, with the group's count and its category's label |
| `Reports.NameGroupsTotal` | src/app/api/reports/route.ts:82-88 | naming the groups preserves the sum of the counts |
| `Reports.GroupByCategory` | src/app/api/reports/route.ts:66-72 | the groups are a tally of the rows' category ids: distinct ids, one group per id that occurs, each counting that id's rows |
| `Reports.CategoryReportSpec` | src/app/api/reports/route.ts:74-92 | for a grouping of the rows in any order, the report has one entry per group, in group order, with the group's count and its label from the whole catalog, and the counts add up to the number of rows |
| `Reports.CategoryRowsWitnessed` | src/app/api/reports/route.ts:82-88 | every report entry of a grouping carries the label and the number of rows of some row's category id |
| `Reports.CategoryReport` | src/app/api/reports/route.ts:65-92 | every entry of the `byCategory` output carries the label of some row's category id and that id's number of rows, and the counts add up to the number of rows |
| `Reports.ScenarioGroups` | src/app/api/reports/route.ts:66-72 | rows with category ids a, a, b group into (a, 2), (b, 1) |
| `Reports.ScenarioTally` | src/app/api/reports/route.ts:66-72 | ids a, a, b are counted as (a, 2), (b, 1), in that order |
| `Reports.ScenarioLabels` | src/app/api/reports/route.ts:83-85 | in a catalog of two categories with distinct ids and non-empty names, each id is labelled with its own name |
| `Reports.CategoryScenario` | src/app/api/reports/route.ts:65-88 | with catalog a to "A" and b to "B", those rows give [("A", 2), ("B", 1)] |
| `Reports.Finished` | src/app/api/reports/route.ts:95-101 | the `finished_in` not-null condition keeps exactly the finished rows, each as many times as it occurs in the table, and no open row |
| `Reports.Sample` | src/app/api/reports/route.ts:114-127 | a sample copies the row's id, category name and instants, and its duration is `RoundHours` of completion minus creation, the whole number of hours nearest to it |
| `Reports.Durations` | src/app/api/reports/route.ts:114-128 | one sample per row, in row order |
| `Reports.ResolutionReport` | src/app/api/reports/route.ts:94-132 | the report has as many samples as there are finished rows; the i-th is the sample of the i-th finished row, which is a row of the table |
| `Reports.ResolutionCoverage` | src/app/api/reports/route.ts:94-128 | every finished row of the table is sampled, and every sample is the sample of a finished row of the table |
| `Reports.ScenarioFinished` | src/app/api/reports/route.ts:95-101 | of two finished rows and one open row, the finished ones are kept, in order |
| `Reports.ResolutionScenario` | src/app/api/reports/route.ts:94-128 | of two finished rows (2 h and 5 h) and one open row, only the finished ones give samples, of 2 and 5 hours |
| `Reports.ParseReportType` | src/app/api/reports/route.ts:24-139 | exactly the strings `quantity`, `byCategory` and `resolutionDuration` select a report; any other string, and a missing type, falls to the default case |
| `Reports.Get` | src/app/api/reports/route.ts:4-147 | an unrecognised type gives 400 with "Tipo de relatório inválido"; for a known type, a failing query gives 500 with "Erro interno do servidor"; otherwise 200 with the chosen report of the filtered rows (a daily series, the category report, or the resolution report) |

## Left out

- The web framework plumbing is not modelled: `NextRequest`/`NextResponse`, reading the URL, JSON serialisation, and `console.log`/`console.error`. `Get` takes the query already split into its three parameters and returns a status with a body value.
- Parsing `startDate`/`endDate` with `new Date(text)` is not modelled. A `DateParam` carries the text and the instant it denotes, or None for an Invalid Date. The model assumes the ORM throws on an Invalid Date in the where clause, so that case gives 500. This is the ORM's behaviour and is not visible in the source.
- The ORM queries are modelled only by their results. The tables are input sequences, and a store whose queries throw is `Store.Failing`.
- The `orderBy: created_at asc` of the `quantity` query is not modelled. `QuantityReorder` shows that the series does not depend on the order of the rows.
- `Reports.GroupByCategory`: the ORM's `groupBy` does not specify its output order. The model lists groups in order of first occurrence. `CategoryReportSpec` and `TallyTotal` are stated for a tally in any order, so another order only permutes the `byCategory` entries.
- `Reports.SortByDay`: `Array.prototype.sort` is modelled as repeated extraction of the least remaining day. The keys are distinct, so any correct sort gives the same sequence.
- `Reports.DailyCount`, `Reports.ResolutionSample`: ISO timestamp strings are not modelled. The `date` of a point, and `created_at`/`finished_in` of a sample, are integer instants; the source sends their ISO strings.
- `Calendar.RoundHours`: the model divides exactly. The source subtracts and divides in double precision before `Math.round`. The two agree while the elapsed time is under 2^52 ms (about 1.25 billion hours). Up to that point the difference is exact. The quotient is then either exactly a half, which a double holds exactly, or further from the nearest half than its rounding error. Beyond 2^53 ms the subtraction itself is no longer exact. Dates can be up to 8.64·10^15 ms on either side of the epoch, so such differences are possible.
- The model follows the code as written, in particular:
  - Date bounds are used as given instants; they are not widened to whole days (see `MidnightEndBound`).
  - All three reports filter on `created_at`.
  - Durations are rounded to whole hours. They are not clamped to 0.01 hours or rounded to two decimals.
  - `byCategory` groups by category id and then looks up names.
- The other files of the application are not part of this model:
  - the dashboard components, with their client-side averages and percentages;
  - the database seeding script;
  - the occurrence routes, including the status update that stamps completion and sends notifications.
