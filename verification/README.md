# Job tracker analytics and application list, in Dafny

This project models the two pieces of the job-application tracker that hold
logic. The first is the dashboard's analytics: status counts, response and
success rates, the status pie chart's slices, and the per-month submission
timeline. The second is the applications collection endpoint: GET lists
every stored record newest first, and POST builds a record from the request
body with defaults for `status` and `dateApplied`.

Modules:

- `Wrappers` (`wrappers.dfy`): `Option` for JSON fields that may be absent.
- `Dates` (`dates.dfy`): timestamps, their order, and the "Mon YYYY" bucket
  label (for example "Mar 2024"). The label is proved injective on
  (year, month).
- `Records` (`records.dfy`): the stored application record. It also holds the
  five status values the status selector offers (`Applied`, `Interview`,
  `Offered`, `Rejected`, `Ignored`) and their string forms.
- `Dashboard` (`dashboard.dfy`): `calculateStats`, `getStatusData` and
  `getTimelineData`, lifted out of the page component as pure functions over a
  list of records.
- `ApplicationsRoute` (`applications_route.dfy`): the GET and POST handlers.
  The store is a sequence of records. What the database does is passed in as a
  parameter: whether it was reachable, and which id it assigned.
- `DashboardFeed` (`dashboard_feed.dfy`): what the dashboard computes from the
  list the GET handler returns.
- `Scenarios` (`scenarios.dfy`): worked instances of the rates, the chart
  slices, the timeline order and the create defaults.

Modelling decisions:

- Statuses are stored and compared as raw strings. The status selector
  (`src/app/page.tsx:328-332`) offers five values, but the create handler
  (`src/app/api/applications/route.ts:25`) stores any non-falsy string it is
  sent, and the dashboard counts exact string matches. The model follows the
  code: the five values are a predicate on records, not a constraint.
  `CreatedStatusWellFormed` states exactly when a created record carries one
  of the five values.
- No validation error is modelled for `company` or `position`. The handler
  copies them as sent. Every failure (an unparseable body, a database error)
  becomes a 500 response.
- `Math.round((k / n) * 100)` is modelled in exact arithmetic, as the whole
  percentage nearest to 100·k/n with halves rounded up:
  `2n·r <= 200k + n < 2n·(r + 1)`.
- Timeline buckets are keyed by the label string, as in the code. Bucket order
  is first-seen input order, as `Object.entries` gives it. "Mon YYYY" keys are
  never array-index-like, so JavaScript's integer-key reordering does not
  apply to them. `TimelineOfNewestFirstList` shows that when the timeline is
  fed the GET list (newest first), the first-seen order is strictly
  reverse-chronological by month.

## Model

| member | source | states |
|---|---|---|
| Records.Parse | src/app/page.tsx:328-332 | a status string maps to a status value only if it is that value's stored form; a string that is none of the five forms maps to nothing |
| Records.ParseName | src/app/page.tsx:328-332 | each of the five statuses reads back as itself |
| Records.NameInjective | src/app/page.tsx:328-332 | distinct statuses are stored as distinct strings |
| Dates.MonthLabelInjective | src/app/dashboard/page.tsx:103-104 | two timestamps share a "Mon YYYY" label exactly when they share calendar year and month |
| Dates.MonthLabel | src/app/dashboard/page.tsx:103-104 | the label is the three-letter short month name, one space, then exactly the year's decimal rendering `YearText(year)` |
| Dates.YearTextInjective | src/app/dashboard/page.tsx:104 | distinct years render as distinct digit strings |
| Dates.YearTextValue | src/app/dashboard/page.tsx:104 | the year's rendering, read back as a decimal numeral (`DigitsValue`), is the year itself |
| Dashboard.CountStatus | src/app/dashboard/page.tsx:63-67 | the filtered count for a status string equals the number of times that string occurs among the records' statuses, and is at most the list length |
| Dashboard.CountAllBounded | src/app/dashboard/page.tsx:61-67 | the five per-status counts sum to at most the total, with equality exactly when every record carries one of the five statuses |
| Dashboard.RoundPercent | src/app/dashboard/page.tsx:69-75 | the result is the whole percentage nearest to 100·k/n, halves rounded up, and lies in 0..100 when k <= n |
| Dashboard.RoundPercentMonotone | src/app/dashboard/page.tsx:69-75 | a larger numerator never gives a smaller rounded percentage |
| Dashboard.StatsOf | src/app/dashboard/page.tsx:69-85 | both rates are 0 for an empty list and otherwise the rounded percentages of responses and of offers; the success rate is at most the response rate, which is at most 100 |
| Dashboard.CalculateStats | src/app/dashboard/page.tsx:60-86 | total is the list length; each count is the multiplicity of that exact status string; the four counts sum to at most total; both rates are 0 on an empty list and otherwise rounded percentages, with 0 <= successRate <= responseRate <= 100 |
| Dashboard.CountStatusPermutation | src/app/dashboard/page.tsx:63-67 | per-status counts do not depend on the order of the records |
| Dashboard.StatsIgnoreOrder | src/app/dashboard/page.tsx:60-86 | two lists holding the same records give identical statistics |
| Dashboard.Candidates | src/app/dashboard/page.tsx:91-95 | four slices in the fixed order Applied, Interview, Offer, Rejected, carrying the applied, interview, offer (from `Offered`) and rejected counts |
| Dashboard.KeepPositive | src/app/dashboard/page.tsx:96 | the filter keeps a subsequence holding exactly the positive-valued slices, with the same value sum |
| Dashboard.GetStatusData | src/app/dashboard/page.tsx:90-97 | the chart slices are a subsequence of Applied, Interview, Offer, Rejected in that order; a status's slice is present exactly when its count is positive; no slice is Ignored; values sum to applied+interview+offer+rejected |
| Dashboard.StatusDataBounded | src/app/dashboard/page.tsx:90-97 | the charted values never sum to more than the number of records |
| Dashboard.Bump | src/app/dashboard/page.tsx:105 | incrementing an existing key keeps the number of entries; a new key adds exactly one entry |
| Dashboard.BumpMonths | src/app/dashboard/page.tsx:105 | incrementing a key keeps the key order, and appends the key when it is new |
| Dashboard.BumpCounts | src/app/dashboard/page.tsx:105 | incrementing a key adds one to that key's entry (or creates it with 1) and leaves every other entry unchanged |
| Dashboard.BumpSum | src/app/dashboard/page.tsx:105 | each increment adds exactly one to the sum of the counts |
| Dashboard.BumpNew | src/app/dashboard/page.tsx:105 | a key not yet present is appended at the end with count 1 |
| Dashboard.Tally | src/app/dashboard/page.tsx:100-111 | the accumulated object has pairwise distinct keys, exactly the labels that occur in the input |
| Dashboard.BumpCountsOccurrences | src/app/dashboard/page.tsx:102-106 | one more increment keeps every entry equal to the number of occurrences of its key |
| Dashboard.TallyCounts | src/app/dashboard/page.tsx:102-106 | every entry's count equals the number of occurrences of its label, and so is at least 1 |
| Dashboard.InFirstSeenOrderAppend | src/app/dashboard/page.tsx:102-108 | appending input keeps first-seen order; a new label may follow all earlier ones |
| Dashboard.TallyFirstSeenOrder | src/app/dashboard/page.tsx:100-111 | entries are listed in the order their labels first occur in the input |
| Dashboard.TallySum | src/app/dashboard/page.tsx:102-106 | the counts sum to the number of labels counted |
| Dashboard.TallyAppendSeen | src/app/dashboard/page.tsx:100-111 | counting an already-seen label leaves the key order unchanged |
| Dashboard.TallyAppendNew | src/app/dashboard/page.tsx:100-111 | counting a new label appends one entry with count 1 and changes nothing else |
| Dashboard.FirstIndexAppendKept | src/app/dashboard/page.tsx:102-108 | appending to the input never moves an existing label's first occurrence |
| Dashboard.MonthLabels | src/app/dashboard/page.tsx:102-104 | one month label per record, in list order, each the label of that record's `dateApplied` |
| Dashboard.GetTimelineData | src/app/dashboard/page.tsx:99-112 | the timeline's labels are distinct, are exactly the records' month labels, and come in first-seen order; each count equals that label's occurrences; counts sum to the list length; the timeline is empty exactly when the list is |
| Dashboard.LabelOccurrences | src/app/dashboard/page.tsx:102-105 | a month label occurs once per record submitted in that calendar month |
| Dashboard.TimelineCountsRecordsInMonth | src/app/dashboard/page.tsx:99-112 | each bar counts exactly the records submitted in its calendar month |
| Dashboard.TimelineAppendSeen | src/app/dashboard/page.tsx:99-112 | appending a record from a month already present leaves the label order unchanged |
| Dashboard.TimelineAppendNew | src/app/dashboard/page.tsx:99-112 | appending a record from a new month adds its bar last with count 1, other bars unchanged |
| ApplicationsRoute.PrependNewest | src/app/api/applications/route.ts:9 | a record at least as recent as every element may lead a newest-first list |
| ApplicationsRoute.Insert | src/app/api/applications/route.ts:9 | insertion into a newest-first list keeps it newest-first and adds exactly that record |
| ApplicationsRoute.SortNewestFirst | src/app/api/applications/route.ts:7-10 | the result is a permutation of the input ordered by dateApplied, most recent first |
| ApplicationsRoute.Get | src/app/api/applications/route.ts:5-15 | with a reachable store: status 200 and a permutation of the stored records, newest first; otherwise a 500 with the fetch error message |
| ApplicationsRoute.GetEmpty | src/app/api/applications/route.ts:7-11 | an empty store lists as an empty 200 response, not as an error |
| ApplicationsRoute.CreateData | src/app/api/applications/route.ts:22-31 | status is "Applied" when the body's status is absent or empty and the body's value otherwise; dateApplied is the body's when present, else now; the other six fields are copied verbatim |
| ApplicationsRoute.CreatedStatusNonEmpty | src/app/api/applications/route.ts:25 | a created record never has an empty status |
| ApplicationsRoute.CreatedStatusWellFormed | src/app/api/applications/route.ts:25 | the created status is one of the five exactly when the body's status was falsy or one of the five |
| ApplicationsRoute.CreateIgnoresOtherFields | src/app/api/applications/route.ts:22-31 | body fields outside the eight read never affect the created record |
| ApplicationsRoute.Post | src/app/api/applications/route.ts:18-37 | status 201 exactly when the body parsed and the store succeeded, with the stored record appended and returned; otherwise a 500 with the create error message and the store unchanged |
| ApplicationsRoute.PostKeepsIdsUnique | src/app/api/applications/route.ts:21-33 | a create whose assigned id is fresh keeps ids unique |
| ApplicationsRoute.PostKeepsStatusesWellFormed | src/app/api/applications/route.ts:21-33 | a create with a falsy or valid status keeps every stored status among the five |
| DashboardFeed.StatsOfListedApplications | src/app/dashboard/page.tsx:60-86 | the statistics of the GET list equal those of the store |
| DashboardFeed.TimelineOfNewestFirstList | src/app/dashboard/page.tsx:99-112 | fed a newest-first list, earlier bars belong to strictly later calendar months |
| DashboardFeed.StatsOfPayloadAsWritten | src/app/dashboard/page.tsx:39-86 | as written, statistics exist for a list payload and the render throws for an error payload |
| DashboardFeed.FailedListCrashesStats | src/app/dashboard/page.tsx:44-66 | a failed list request makes the statistics throw |
| DashboardFeed.StatsOfPayload | src/app/dashboard/page.tsx:60-86 | with the fix, a list payload gives its statistics and any other payload gives all-zero statistics |
| DashboardFeed.ListResponseGivesStats | src/app/dashboard/page.tsx:39-86 | with the fix, the dashboard shows the store's statistics when listing succeeds and zeros when it fails |
| Scenarios.RatesOfTenApplications | src/app/dashboard/page.tsx:69-75 | 4 Applied, 3 Interview, 1 Offered and 2 Rejected give a response rate of 60 and a success rate of 10 |
| Scenarios.DistributionSkipsZeroAndIgnored | src/app/dashboard/page.tsx:60-97 | records with statuses 2× Applied, 1× Offered and 3× Ignored chart as exactly [Applied 2, Offer 1] |
| Scenarios.TimelineFollowsFirstSeenOrder | src/app/dashboard/page.tsx:99-112 | input months A, B, A give bars A with 2 then B with 1, whatever their calendar order |
| Scenarios.CreateWithDefaults | src/app/api/applications/route.ts:25-26 | a body with only company and position gets status "Applied" and the current time |

## Left out

- PATCH and DELETE (`src/app/api/applications/[id]/route.ts`): update and delete lie outside the modelled core.
- The text-generation endpoint, authentication and session redirects, the settings page, React rendering, loading state and all `fetch` calls: these are UI, auth plumbing, network I/O or an opaque external service.
- The `include: { interviews: true }` relation on GET: this is a database join with no logic in the handler.
- Dashboard.RoundPercent: uses exact rational rounding, not IEEE doubles. `Math.round((k / n) * 100)` can differ where the floating-point product lands just below a half (for example k/n = 0.145).
- Dates.MonthLabel: renders the timestamp's own (year, month). It does not model `toLocaleDateString`'s time-zone conversion or invalid dates ("Invalid Date"). Years are 1 or later (the `Year` type): `en-US` formatting prints a year y <= 0 as the era year 1 - y, so year 0 would share year 1's label, and such years are not modelled.
- ApplicationsRoute.Get: Prisma's order among records with equal `dateApplied` is unspecified. The contract promises only a permutation sorted newest first. The model's own sort is one such order.
- ApplicationsRoute.CreateData: body fields are modelled as absent or a string. A non-string JSON value (`0`, `false`, a number for `salary`) and date-string parsing of `dateApplied` are not modelled. A body date is a parsed timestamp; an absent, null or empty one is `None`.
- ApplicationsRoute.Post: id generation and any constraints the database schema enforces (for example a required `company`) are not visible here. They are represented only by the store outcome parameter.
- The dashboard's own `Applications` type omits `notes`; the model uses one record type throughout, since the analytics read only `status` and `dateApplied`.

## Findings

| source | as written | input that shows it | evidently intended | confidence | as-written member | corrected member |
|---|---|---|---|---|---|---|
| src/app/dashboard/page.tsx:44-67 | the fetched JSON is stored as the application list even when the list request failed; `applications?.length ?? 0` then gives 0, but `applications?.filter` is not a function on the error object, so rendering throws | the list request answers 500 with `{ error: 'Failed to fetch applications' }` | a non-list payload reads as no applications (all-zero statistics), as the `?? 0` fallbacks suggest | not executed; medium | DashboardFeed.FailedListCrashesStats | DashboardFeed.ListResponseGivesStats |
