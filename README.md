# Incubation Platform — a verified model of its screen logic

This project models the data logic of the incubation platform's web screens.
It covers the logic that sits between the document store and what a screen
shows, in Dafny:

- the **indicative calendar**:
  - reading the two date-range snapshots;
  - de-duplicating them by id and filtering by tenant;
  - turning `tsToDayjs` values into instants;
  - building `buildItemsByDate`: one bucket per day, where grouped sessions merge by (day, intervention, subtitle, coordinator) and take an aggregate status, and single entries stay alone;
  - sorting each day;
  - the month and full-history export rows with their date range;
  - the HTML escaper of the print fallback;
- the **operations dashboard**:
  - the 06:00–18:00 window and the clash rule for new events;
  - task completion and the display order that puts completed tasks last;
  - notification read flags and the unread badge;
  - the direct-cost fields;
  - the compliance figures;
- the **incubatee dashboard**:
  - the pending-intervention list and the removals after accept or decline;
  - the monthly series with fallbacks;
  - quarters;
  - notification visibility, filtering, read flags and the unread count;
- **onboarding**:
  - age groups;
  - the compliance rate and its 10 % threshold;
  - expiring documents;
  - the upload of the complete documents;
  - the per-document form state;
  - the grouping of interventions by area;
- the **operations participants page**:
  - progress;
  - one row per accepted application;
  - the department or company restriction;
  - the filters;
  - the figures;
- the **operations compliance page**:
  - flattening the applications' documents into rows with ids of the form `appId-index`;
  - search and status filtering;
  - the statistics;
  - one reminder per contact email;
  - verification;
- the **incubatee application tracker**:
  - program names;
  - the programs not yet applied to;
  - the case-insensitive status figures;
  - tag colours;
- the **applications page**:
  - the gender and age-group filters;
  - the figures;
  - the distributions;
  - the status change that keeps the filtered list in step.

The project has 14 files.

Shared modules:

- `common.dfy`: the JavaScript idioms everything uses:
  - `x || d`;
  - a spread that overrides a key;
  - ASCII `toLowerCase`;
  - `localeCompare` as lexicographic order;
  - `filter`;
  - counts;
  - `Math.round` of a percentage;
  - decimal text of an index.
- `sorting.dfy`: the stable comparison sort that `Array.prototype.sort` performs, as an insertion sort on a key.
- `grouping.dfy`: the "object of arrays" grouping several screens build.

One module per screen:

- `calendar_entries.dfy`
- `calendar_aggregate.dfy`
- `calendar_export.dfy`
- `html_escape.dfy`
- `operations_dashboard.dfy`
- `incubatee.dfy`
- `onboarding.dfy`
- `participants.dfy`
- `compliance.dfy`
- `tracker.dfy`
- `applications.dfy`

**Data model.**

- Instants are epoch milliseconds.
- The day key `YYYY-MM-DD` is the day number `millis / 86400000`, in a fixed display zone. For years 0 to 9999 the key is fixed-width, so ordering day keys as strings is ordering day numbers; the model orders by day number for every instant.
- Optional store fields are `Option` values, and JavaScript's falsy tests are written out (`Truthy`, `Or`).
- Screen state that handlers update in place is a class with `modifies` clauses: `OperationsDashboard.Dashboard`, `Onboarding.DocumentForm` and `Compliance.ComplianceScreen`.
- Loops are methods proved equal to a specification function, and the properties are proved about that function.

**Store and network outcomes.** A store write or read that can fail is a boolean or `Option` parameter (`stored`, `uploaded`, `fetched`). The model follows the branch the screen takes on each outcome it models; the failures it does not model are listed under "Left out".

**Behaviour of the code worth noting (the model follows the code):**

- `statusAggregate([])` is `"processing"`, not `"planned"`: the set of normalised statuses is empty, not a singleton.
- The de-duplicated calendar rows keep the **last** row written for an id, at the position of the **first**, as a JavaScript `Map` does.
- The full-history fetch filters by tenant as it reads each document.

## Model

| member | source | states |
|---|---|---|
| CalendarEntries.DayOf | src/components/calendar/IndicativeCalendar.tsx:126-128 | the day number is the unique day whose 24-hour span contains the instant |
| CalendarEntries.DayOfMonotone | src/components/calendar/IndicativeCalendar.tsx:126-128 | a later instant never falls on an earlier day |
| CalendarEntries.ToMoment | src/components/calendar/IndicativeCalendar.tsx:95-105 | falsy values give no date; store timestamps and date-like objects give their instant; a number gives itself only inside the valid `Date` range |
| CalendarEntries.NumberRoundTrip | src/components/calendar/IndicativeCalendar.tsx:95-105 | a number converts to itself exactly when it is non-zero and within ±8.64e15 ms, else to no date |
| CalendarEntries.EntryOfDoc | src/components/calendar/IndicativeCalendar.tsx:280-303 | the entry takes the stored id, else the document id, and converts both dates; companyCode and status are copied, absent stays absent |
| CalendarEntries.EntriesOfDocs | src/components/calendar/IndicativeCalendar.tsx:301-302 | one entry per document, in snapshot order |
| CalendarEntries.PlacedAt | src/components/calendar/IndicativeCalendar.tsx:126-127 | the effective date is the implementation date when present, else the target date |
| CalendarEntries.StatusAggregate | src/components/calendar/IndicativeCalendar.tsx:107-112 | when all normalised statuses (absent → "planned", lower-cased) are equal the result is that status; otherwise, including the empty list, "processing" |
| CalendarEntries.StatusAggregateLowerCase | src/components/calendar/IndicativeCalendar.tsx:107-112 | the aggregate is always lower case |
| CalendarEntries.StatusAggregateEdges | src/components/calendar/IndicativeCalendar.tsx:107-112 | one status aggregates to itself normalised; an absent one to "planned"; no statuses to "processing" |
| CalendarEntries.StatusAggregateSnoc | src/components/calendar/IndicativeCalendar.tsx:152-153 | recomputing after a merge equals folding the new status into the old aggregate: it stays the same only when the new status agrees |
| CalendarEntries.LastIndex | src/components/calendar/IndicativeCalendar.tsx:305-307 | the position of the last row with an id, or -1 when none has it |
| CalendarEntries.FirstIndex | src/components/calendar/IndicativeCalendar.tsx:305-307 | the position of the first row with an id, or -1 when none has it |
| CalendarEntries.Dedup | src/components/calendar/IndicativeCalendar.tsx:305-307 | the `Map` values have distinct ids; every input id is present; each value is the last row written with its id; values are ordered by the first occurrence of their id |
| CalendarEntries.SetAll | src/components/calendar/IndicativeCalendar.tsx:306-307 | after setting all rows, the map's key order lists each id once in first-seen order and holds each id's last row |
| CalendarEntries.DedupOutput | src/components/calendar/IndicativeCalendar.tsx:309 | spreading the map's values in key order gives the four properties of `Dedup` |
| CalendarEntries.DedupStep | src/components/calendar/IndicativeCalendar.tsx:307 | one `dedup.set(r.id, r)` preserves the map state |
| CalendarEntries.StepFirst | src/components/calendar/IndicativeCalendar.tsx:307 | setting a new id appends it to the key order and keeps the first-seen order; setting a known id leaves the order alone |
| CalendarEntries.StepLast | src/components/calendar/IndicativeCalendar.tsx:307 | after a set, every key holds the last row seen with it |
| CalendarEntries.FirstIndexExtend | src/components/calendar/IndicativeCalendar.tsx:307 | appending a row moves no first occurrence and creates one at the end for a new id |
| CalendarEntries.TenantFilter | src/components/calendar/IndicativeCalendar.tsx:309-312 | with a tenant code only that tenant's entries remain, in order; without one, nothing is removed |
| CalendarEntries.TenantFilterKeeps | src/components/calendar/IndicativeCalendar.tsx:309-312 | an entry whose company code is the user's is kept; when the user has no company code, every entry is kept |
| CalendarEntries.LoadMonth | src/components/calendar/IndicativeCalendar.tsx:251-318 | on a failed fetch the entries are emptied and the error is the thrown message or "Failed to load calendar data"; otherwise no error, and the month's entries have distinct ids and belong to the tenant, each is the last row written for its id in the two snapshots, and every id of the snapshots whose last row belongs to the tenant (any id, without a company code) is present |
| CalendarEntries.SubsequenceUnique | src/components/calendar/IndicativeCalendar.tsx:309-312 | filtering keeps ids distinct |
| CalendarAggregate.IdKeyTextCollision | src/components/calendar/IndicativeCalendar.tsx:143-145 | two entries with different intervention and subtitle get the same text `idKey`, which the code as written merges |
| CalendarAggregate.IdKeyTextAgrees | src/components/calendar/IndicativeCalendar.tsx:143-145 | when no component contains a bar character, equal text keys are exactly equal (day, intervention, subtitle, coordinator) keys |
| CalendarAggregate.IdKeyText | src/components/calendar/IndicativeCalendar.tsx:143-145 | the grouped key as the code writes it: it begins with the day key followed by the group marker (the letter G between two bar characters) |
| CalendarAggregate.JoinInjective | src/components/calendar/IndicativeCalendar.tsx:143-145 | joining with a bar character is injective when the left part has none |
| CalendarAggregate.Participants | src/components/calendar/IndicativeCalendar.tsx:148-151 | one participant reference per entry, in order |
| CalendarAggregate.Aggregate | src/components/calendar/IndicativeCalendar.tsx:115-178 | the aggregation keeps its invariant: every day has a non-empty bucket listed once in day order; every item is well formed for its day; the grouped index points at the one grouped item of each key |
| CalendarAggregate.StepInv | src/components/calendar/IndicativeCalendar.tsx:125-178 | each loop step (skip, merge, new group, single) preserves the invariant |
| CalendarAggregate.Step | src/components/calendar/IndicativeCalendar.tsx:125-178 | one pass of the loop: an entry without an effective date changes nothing; otherwise only the list of the entry's day changes, that day has a list afterwards, and day keys are only appended |
| CalendarAggregate.MergeInv | src/components/calendar/IndicativeCalendar.tsx:146-153 | merging into an existing group keeps the invariant |
| CalendarAggregate.MergeItemWellFormed | src/components/calendar/IndicativeCalendar.tsx:148-153 | a merged item is still well formed: the participants match the entries and the status is the aggregate of all entries' statuses |
| CalendarAggregate.NewGroupInv | src/components/calendar/IndicativeCalendar.tsx:154-164 | a new group is indexed at its bucket position and keeps the invariant |
| CalendarAggregate.SingleInv | src/components/calendar/IndicativeCalendar.tsx:166-177 | a single item keeps the invariant |
| CalendarAggregate.ReplaceInv | src/components/calendar/IndicativeCalendar.tsx:147-153 | updating a grouped item in place, with the same key, keeps the invariant |
| CalendarAggregate.ReplaceSound | src/components/calendar/IndicativeCalendar.tsx:147-153 | in-place update keeps every index entry pointing at a group of its key |
| CalendarAggregate.ReplaceComplete | src/components/calendar/IndicativeCalendar.tsx:147-153 | in-place update keeps every group indexed at its own position |
| CalendarAggregate.AddItemKeeps | src/components/calendar/IndicativeCalendar.tsx:119-123 | `push` creates the day's bucket (and day key) only when absent and keeps all items well formed |
| CalendarAggregate.AppendSound | src/components/calendar/IndicativeCalendar.tsx:162-163 | indexing a new group at the end of its bucket keeps the index sound |
| CalendarAggregate.AppendComplete | src/components/calendar/IndicativeCalendar.tsx:162-163 | indexing a new group at the end of its bucket keeps every group indexed |
| CalendarAggregate.StepConserves | src/components/calendar/IndicativeCalendar.tsx:125-178 | one step adds the entry to the bucket of its effective day and changes no other bucket |
| CalendarAggregate.AggregateConserves | src/components/calendar/IndicativeCalendar.tsx:115-178 | a day's bucket holds exactly the input entries placed on that day, with multiplicity; dateless entries are dropped |
| CalendarAggregate.AggregatePlacement | src/components/calendar/IndicativeCalendar.tsx:125-128 | an entry is in a day's bucket iff it is an input entry whose effective date falls on that day |
| CalendarAggregate.ParticipantTotalIsEntries | src/components/calendar/IndicativeCalendar.tsx:148-151 | each item's participant count equals its number of entries |
| CalendarAggregate.ParticipantsConserved | src/components/calendar/IndicativeCalendar.tsx:115-178 | the participants shown on a day add up to the number of entries placed on it |
| CalendarAggregate.SameItemIffSameKey | src/components/calendar/IndicativeCalendar.tsx:142-165 | two grouped entries of a day are in the same item iff their (day, intervention, subtitle, coordinator) keys are equal |
| CalendarAggregate.GroupedEntryKey | src/components/calendar/IndicativeCalendar.tsx:142-165 | a grouped entry only ever sits in a grouped item of its own key |
| CalendarAggregate.SingleStaysAlone | src/components/calendar/IndicativeCalendar.tsx:166-177 | a non-grouped entry is alone in a single item |
| CalendarAggregate.InsertEntries | src/components/calendar/IndicativeCalendar.tsx:180-190 | inserting an item during the sort neither loses nor adds entries |
| CalendarAggregate.SortByEntries | src/components/calendar/IndicativeCalendar.tsx:180-190 | sorting a bucket keeps exactly its entries |
| CalendarAggregate.SortedBucket | src/components/calendar/IndicativeCalendar.tsx:180-190 | a sorted bucket is ordered by (instant, title), is a permutation of the bucket, and still holds exactly that day's entries and participants |
| CalendarAggregate.PermutedWellFormed | src/components/calendar/IndicativeCalendar.tsx:180-190 | reordering keeps every item well formed |
| CalendarAggregate.BuildItemsByDate | src/components/calendar/IndicativeCalendar.tsx:115-193 | the returned days and buckets are the aggregation with each bucket sorted |
| CalendarAggregate.CollectItems | src/components/calendar/IndicativeCalendar.tsx:125-178 | the loop over entries produces the aggregation state |
| CalendarAggregate.SortEachDay | src/components/calendar/IndicativeCalendar.tsx:180-190 | the loop over the map sorts every day's bucket and nothing else |
| Sorting.Insert | src/components/calendar/IndicativeCalendar.tsx:180-190 | inserting into a list adds exactly that element |
| Sorting.SortBy | src/components/calendar/IndicativeCalendar.tsx:180-190 | the sort is a permutation of its input |
| Sorting.SortBySorted | src/components/calendar/IndicativeCalendar.tsx:180-190 | the sort's output is ordered by the key |
| Sorting.InsertSorted | src/components/calendar/IndicativeCalendar.tsx:180-190 | inserting into an ordered list keeps it ordered |
| Sorting.InsertPast | src/components/calendar/IndicativeCalendar.tsx:180-190 | insertion passes over every element that is not greater: equal keys keep their input order (stability) |
| Sorting.SortByFlagIsPartition | src/routes/operations/OperationsDashboard.tsx:793-799 | sorting by a boolean flag puts the unflagged elements first and the flagged ones last, each in input order |
| CalendarExport.RowOf | src/components/calendar/IndicativeCalendar.tsx:340-346 | a row's title and area are never empty ("Intervention", "—"); its count is the item's participants; its date is the item's day |
| CalendarExport.RowsOf | src/components/calendar/IndicativeCalendar.tsx:338-348 | one row per item in bucket order |
| CalendarExport.Earliest | src/components/calendar/IndicativeCalendar.tsx:421 | no minimum exactly when there are no items |
| CalendarExport.Latest | src/components/calendar/IndicativeCalendar.tsx:422 | no maximum exactly when there are no items |
| CalendarExport.EarliestIsMinimum | src/components/calendar/IndicativeCalendar.tsx:421 | the minimum is at most every item's instant and is one of them |
| CalendarExport.LatestIsMaximum | src/components/calendar/IndicativeCalendar.tsx:422 | the maximum is at least every item's instant and is one of them |
| CalendarExport.VisitItem | src/components/calendar/IndicativeCalendar.tsx:411-422 | visiting one more item adds its row and updates the minimum and maximum as the `isBefore`/`isAfter` tests do |
| CalendarExport.ExportRowsMonth | src/components/calendar/IndicativeCalendar.tsx:332-359 | the month rows are the rows of all items in map order, sorted by (date, title) |
| CalendarExport.ExportRowsAll | src/components/calendar/IndicativeCalendar.tsx:409-430 | the nested loop yields the sorted rows and the days of the earliest and latest items |
| CalendarExport.ExportRowsOrdered | src/components/calendar/IndicativeCalendar.tsx:426-430 | the export rows are ordered by (date, title) and are a permutation of one row per item |
| CalendarExport.ExportRange | src/components/calendar/IndicativeCalendar.tsx:432-436 | the range is "—" exactly when there are no items; otherwise every row's date lies within it |
| CalendarExport.ItemsInOrderEmpty | src/components/calendar/IndicativeCalendar.tsx:338-348 | there are no items iff every listed bucket is empty |
| CalendarExport.CalendarEmptyIff | src/components/calendar/IndicativeCalendar.tsx:456-463 | the export is empty exactly when no entry has an effective date |
| CalendarExport.DaysInBuckets | src/components/calendar/IndicativeCalendar.tsx:119-123 | every listed day has a bucket |
| CalendarExport.PlacedEntryHasBucket | src/components/calendar/IndicativeCalendar.tsx:125-128 | an entry with a date gives a non-empty sorted bucket |
| CalendarExport.BucketHasPlacedEntry | src/components/calendar/IndicativeCalendar.tsx:125-128 | a non-empty bucket comes from an entry with a date |
| CalendarExport.BuildExportAll | src/components/calendar/IndicativeCalendar.tsx:372-437 | the full export is the rows of the tenant's aggregated entries, visited day by day in insertion order, sorted by day and title, with the range their earliest and latest instants give; the range is absent iff there are no rows, iff no entry has a date, and bounds every row |
| CalendarExport.Download | src/components/calendar/IndicativeCalendar.tsx:456-463 | no document is made exactly when there are no rows; otherwise the document carries the rows and range unchanged |
| CalendarExport.DownloadAll | src/components/calendar/IndicativeCalendar.tsx:456-463 | the full-history download reports "no items" iff no entry of the tenant has a date; otherwise the rows are sorted and the range is present |
| HtmlEscape.ReplaceAll | src/components/calendar/IndicativeCalendar.tsx:363-368 | a global replace leaves text without the character unchanged and leaves no occurrence when the replacement has none |
| HtmlEscape.ReplaceAllAppend | src/components/calendar/IndicativeCalendar.tsx:363-368 | a global replace distributes over concatenation |
| HtmlEscape.EntityOf | src/components/calendar/IndicativeCalendar.tsx:364-368 | a character maps to itself iff it is not one of `& < > " '`; otherwise to an entity starting with `&` |
| HtmlEscape.EscapeHtmlAppend | src/components/calendar/IndicativeCalendar.tsx:362-369 | escaping distributes over concatenation |
| HtmlEscape.EscapeHtmlChar | src/components/calendar/IndicativeCalendar.tsx:362-369 | the five chained replaces escape one character to its entity: `&` first, so no entity is escaped twice |
| HtmlEscape.EscapeHtmlIsEscapeChars | src/components/calendar/IndicativeCalendar.tsx:362-369 | the chain of five replaces equals the per-character escape |
| HtmlEscape.EscapeHtmlPlain | src/components/calendar/IndicativeCalendar.tsx:362-369 | text without special characters is unchanged |
| HtmlEscape.EscapeHtmlNoMarkup | src/components/calendar/IndicativeCalendar.tsx:362-369 | the output contains no `<`, `>`, `"` or `'` |
| HtmlEscape.EscapeHtmlAmpersands | src/components/calendar/IndicativeCalendar.tsx:362-369 | every `&` of the output starts one of the five entities |
| HtmlEscape.EscapeHtmlRoundTrip | src/components/calendar/IndicativeCalendar.tsx:362-369 | unescaping the output gives back the input |
| HtmlEscape.EscapeHtml | src/components/calendar/IndicativeCalendar.tsx:362-369 | the five chained global replaces, `&` first; escaping never shortens the text |
| HtmlEscape.UnescapeEntity | src/components/calendar/IndicativeCalendar.tsx:362-369 | an entity unescapes to its character whatever follows it |
| OperationsDashboard.MinuteOfDay | src/routes/operations/OperationsDashboard.tsx:408-420 | the minute of the day is the unique minute whose span in the instant's day contains it |
| OperationsDashboard.OutsideHoursIsWindow | src/routes/operations/OperationsDashboard.tsx:413-420 | the hour-and-minute test rejects exactly the times outside 06:00–18:00 inclusive |
| OperationsDashboard.OutsideHours | src/routes/operations/OperationsDashboard.tsx:413-420 | the guard on hour and minute: before 06:00, after 18:00, or 18 with minutes |
| OperationsDashboard.Clash | src/routes/operations/OperationsDashboard.tsx:422-427 | some event of the list has the same date and the same clock minute |
| OperationsDashboard.EventError | src/routes/operations/OperationsDashboard.tsx:408-449 | no error iff the time is in the window, no event has the same date and time, and the store write succeeds; the window message is given iff the time is outside it |
| OperationsDashboard.AddedEventBlocksSameSlot | src/routes/operations/OperationsDashboard.tsx:423-441 | after an event is added, the same date and time clash; before, no event held that slot |
| OperationsDashboard.TaskFigures | src/routes/operations/OperationsDashboard.tsx:725-749 | pending plus completed counts every task once, and "confirmed" tasks twice |
| OperationsDashboard.CompleteTaskIn | src/routes/operations/OperationsDashboard.tsx:485-501 | the task with the id becomes completed; every other task is unchanged; ids and titles are kept |
| OperationsDashboard.CompleteTaskPending | src/routes/operations/OperationsDashboard.tsx:487-490 | after completion, the pending tasks are the previously pending ones other than the id |
| OperationsDashboard.DisplayedTasks | src/routes/operations/OperationsDashboard.tsx:793-799 | incomplete tasks first, then completed ones, each in list order, a permutation of the list |
| OperationsDashboard.SetReadBy | src/routes/operations/OperationsDashboard.tsx:205-239 | only the notification with the id has its operations read flag set; all else is unchanged |
| OperationsDashboard.MarkReadBadge | src/routes/operations/OperationsDashboard.tsx:205-218 | marking read lowers the badge by exactly the unread notifications with that id |
| OperationsDashboard.MarkUnreadBadge | src/routes/operations/OperationsDashboard.tsx:226-239 | marking unread raises the badge by exactly the read notifications with that id |
| OperationsDashboard.Figures | src/routes/operations/OperationsDashboard.tsx:311-323 | the three status counts never exceed the total |
| OperationsDashboard.SpliceStart | src/routes/operations/OperationsDashboard.tsx:220-224 | `splice`'s start: a non-negative index clamped to the length, a negative one counted from the end and clamped to 0 |
| OperationsDashboard.Dashboard.constructor | src/routes/operations/OperationsDashboard.tsx:90-92 | the dashboard starts with no events, tasks or notifications and one empty cost field |
| OperationsDashboard.Dashboard.AddEvent | src/routes/operations/OperationsDashboard.tsx:408-449 | the event is appended iff there is no error; otherwise nothing changes; other state is untouched |
| OperationsDashboard.Dashboard.AddCostField | src/routes/operations/OperationsDashboard.tsx:191-193 | one empty cost field is appended |
| OperationsDashboard.Dashboard.UpdateCostField | src/routes/operations/OperationsDashboard.tsx:195-203 | only the description or amount of the field at the index changes |
| OperationsDashboard.Dashboard.RemoveCostField | src/routes/operations/OperationsDashboard.tsx:220-224 | `splice(index, 1)` removes the field at the splice start, if there is one |
| OperationsDashboard.Dashboard.CompleteTask | src/routes/operations/OperationsDashboard.tsx:485-501 | the task list becomes the completed list; other state is untouched |
| OperationsDashboard.Dashboard.SetRead | src/routes/operations/OperationsDashboard.tsx:205-239 | after a successful write the read flag changes; after a failed one nothing changes |
| Incubatee.PendingDisjoint | src/routes/incubatee/index.tsx:284-296 | no intervention is both pending and awaiting confirmation |
| Incubatee.IsPending | src/routes/incubatee/index.tsx:284-288 | the consultant accepted and the incubatee has not answered |
| Incubatee.NeedsConfirmation | src/routes/incubatee/index.tsx:290-296 | the incubatee accepted, the consultant is done and the incubatee has not confirmed |
| Incubatee.ItemOf | src/routes/incubatee/index.tsx:298-310 | the item is a confirmation iff the consultant is done and the user is pending |
| Incubatee.ItemsOf | src/routes/incubatee/index.tsx:298-310 | one item per intervention, in order |
| Incubatee.PendingListContents | src/routes/incubatee/index.tsx:284-310 | the list holds exactly the pending or to-confirm interventions: the pending ones first, then the ones to confirm |
| Incubatee.PendingList | src/routes/incubatee/index.tsx:298-310 | the list is as long as the pending and to-confirm filters together |
| Incubatee.RemoveById | src/routes/incubatee/index.tsx:369-371 | no item with the id remains |
| Incubatee.RemoveByIdKeeps | src/routes/incubatee/index.tsx:406-408 | an item remains iff it was there with another id, in order |
| Incubatee.Pick | src/routes/incubatee/index.tsx:194-205 | the monthly figure when numeric, else the participant's flat figure when numeric, else 0 |
| Incubatee.MonthlySeries | src/routes/incubatee/index.tsx:191-233 | there are twelve figures, one per month |
| Incubatee.MonthlySeriesFallback | src/routes/incubatee/index.tsx:211-233 | each month falls back from the monthly record to the participant's prefixed field, then to 0 |
| Incubatee.Quarter | src/routes/incubatee/index.tsx:331-337 | a month gives one of Q1–Q4; an invalid date gives "QNaN" |
| Incubatee.QuarterGroups | src/routes/incubatee/index.tsx:331-337 | two months share a quarter iff they are in the same block of three |
| Incubatee.VisibleNotifications | src/routes/incubatee/index.tsx:550-556 | only notifications visible to the role are shown; none without a role |
| Incubatee.VisibleMembers | src/routes/incubatee/index.tsx:550-556 | a notification is shown iff it is visible to the role |
| Incubatee.Visible | src/routes/incubatee/index.tsx:550-556 | the notification filter: a role is set, the role is a recipient, and an incubatee sees only its own notifications |
| Incubatee.FilteredNotifications | src/routes/incubatee/index.tsx:558-560 | with no type chosen all are kept; with one, a notification is kept iff it is visible and of that type |
| Incubatee.UnreadCount | src/routes/incubatee/index.tsx:562-565 | the unread count is at most the visible notifications; zero without a role |
| Incubatee.SetReadBy | src/routes/incubatee/index.tsx:526-548 | only the notification with the id has the role's read flag set |
| Incubatee.MarkReadVisible | src/routes/incubatee/index.tsx:526-536 | marking read keeps the visible list's length, and the marked notification is no longer unread |
| Onboarding.AgeGroupOf | src/routes/registration/onboarding/index.tsx:131-135 | Youth iff age ≤ 35; Adult iff 36–59; Senior iff ≥ 60 or unknown |
| Onboarding.AgeGroupMonotone | src/routes/registration/onboarding/index.tsx:131-135 | age groups never go down as age goes up |
| Onboarding.ComplianceRate | src/routes/registration/onboarding/index.tsx:289-304 | the rate is at most 100; it is 0 iff no document counts; it is 100 when all seven count |
| Onboarding.RoundPercentPositive | src/routes/registration/onboarding/index.tsx:303 | one document in seven already rounds to at least 10 % |
| Onboarding.ThresholdMeansOneDocument | src/routes/registration/onboarding/index.tsx:310-317 | the rate is below 10 % iff no document counts |
| Onboarding.ExpiredDocuments | src/routes/registration/onboarding/index.tsx:223-231 | a document is listed iff it is one of the form's documents and has an expiry date no later than a week from now |
| Onboarding.ExpiredIffNotCounted | src/routes/registration/onboarding/index.tsx:223-231 | a complete document with an expiry counts for compliance iff it is not listed as expiring; the two counts partition those documents |
| Onboarding.RecordOf | src/routes/registration/onboarding/index.tsx:270-279 | an uploaded record has the document's type, status "valid" and its issue day |
| Onboarding.Uploads | src/routes/registration/onboarding/index.tsx:264-287 | at most one record per document, each "valid" |
| Onboarding.UploadsFromComplete | src/routes/registration/onboarding/index.tsx:267-280 | every record comes from a document with a file and an issue date; when every upload succeeds there is one per such document |
| Onboarding.UploadAll | src/routes/registration/onboarding/index.tsx:264-287 | the loop gives the uploaded records |
| Onboarding.Submit | src/routes/registration/onboarding/index.tsx:306-317 | submission is refused iff the rate is below 10 %; otherwise it carries the rate and the records |
| Onboarding.InitialFields | src/routes/registration/onboarding/index.tsx:56-63 | one empty field per document type, in type order |
| Onboarding.DocumentForm.constructor | src/routes/registration/onboarding/index.tsx:56-63 | the form starts with the initial fields |
| Onboarding.DocumentForm.DateChange | src/routes/registration/onboarding/index.tsx:213-221 | only the issue or expiry date of the document at the index changes |
| Onboarding.DocumentForm.SetFile | src/routes/registration/onboarding/index.tsx:237-242 | only the file of the document at the index changes (also the removal at 657-661) |
| Onboarding.GroupByArea | src/routes/registration/onboarding/index.tsx:100-119 | one group per area, each area once and only areas that occur, in order of first appearance, each holding that area's interventions in order, all interventions placed once |
| Onboarding.RefsInCount | src/routes/registration/onboarding/index.tsx:100-119 | an area's group size is its number of interventions |
| Onboarding.GroupsPartition | src/routes/registration/onboarding/index.tsx:100-119 | every intervention is in exactly one group, the one of its area |
| Grouping.GroupBy | src/routes/registration/onboarding/index.tsx:100-119 | the grouping loop lists each key once, exactly the keys of the kept elements, in order of first appearance, each with its elements' values in order |
| Grouping.GroupStateOrder | src/routes/registration/onboarding/index.tsx:100-119 | the keys come in order of first appearance: wherever a later key occurs, every earlier key has occurred before |
| Grouping.KeysOfMembers | src/routes/operations/compliance/index.tsx:211-222 | a key is listed iff some kept element has it |
| Grouping.GroupValuesCount | src/routes/applications/index.tsx:86-94 | a group's size is the number of kept elements with its key |
| Grouping.GroupSizes | src/routes/applications/index.tsx:86-94 | over the distinct keys, the group sizes add up to the number of kept elements |
| Participants.Progress | src/routes/operations/participants/index.tsx:31-34 | 0 without requirements, else the nearest whole percentage; at most 100 when completed ≤ required, exactly 100 when equal |
| Participants.ProgressUnclamped | src/routes/operations/participants/index.tsx:31-34 | more completed than required gives at least 100: nothing caps it |
| Participants.ProgressExceeds | src/routes/operations/participants/index.tsx:31-34 | two completed of one required shows 200 % |
| Participants.RowOf | src/routes/operations/participants/index.tsx:199-233 | a row carries the application's participant, counts, codes (or "") and progress |
| Participants.RowsOf | src/routes/operations/participants/index.tsx:199-233 | one row per application, in order |
| Participants.AcceptedRowsFrom | src/routes/operations/participants/index.tsx:169-233 | there is one row per accepted application, and each row comes from one |
| Participants.AcceptedRows | src/routes/operations/participants/index.tsx:199-233 | there are as many rows as accepted applications |
| Participants.RestrictRows | src/routes/operations/participants/index.tsx:236-258 | no new list in the `undefined` department state (which the page never enters: it starts at `null`); none without a company code; a non-main department's rows; otherwise, also before a department is found, the company's or incubator's rows; always a subsequence |
| Participants.RestrictRowsMembers | src/routes/operations/participants/index.tsx:236-258 | a row is kept iff it passes the rule that applies |
| Participants.ApplyFilters | src/routes/operations/participants/index.tsx:55-81 | shown rows are a subsequence in the chosen program matching a search that is not blank (blank: only the white space and line terminators `trim()` strips); "all" with a blank search shows all |
| Participants.ApplyFiltersMembers | src/routes/operations/participants/index.tsx:55-81 | a row is shown iff it is in the program and either the search is blank, as `trim()` decides it, or the row matches the search |
| Participants.MetricsOf | src/routes/operations/participants/index.tsx:103-133 | participants needing assignment are at most all participants |
| Participants.MetricsOfRows | src/routes/operations/participants/index.tsx:105-118 | over built rows the figures are the applications' own totals |
| Compliance.RowsOfApp | src/routes/operations/compliance/index.tsx:179-196 | one row per stored document of the application, in order |
| Compliance.FlattenDocuments | src/routes/operations/compliance/index.tsx:167-206 | the nested loops produce the flattened list |
| Compliance.FlattenFrom | src/routes/operations/compliance/index.tsx:179-196 | every row comes from a document of an application taken |
| Compliance.FlattenHas | src/routes/operations/compliance/index.tsx:179-196 | every document of an application taken has its row |
| Compliance.Flatten | src/routes/operations/compliance/index.tsx:179-196 | the rows of each application whose company code matches, for a main-department user only; outside the main department the list is empty |
| Compliance.RowIdSplit | src/routes/operations/compliance/index.tsx:189 | an `appId-index` id determines both the application id and the index |
| Compliance.FlattenIdsDistinct | src/routes/operations/compliance/index.tsx:179-196 | with distinct application ids and no stored document ids, all row ids are distinct |
| Compliance.TypeLabel | src/routes/operations/compliance/index.tsx:447-462 | the label is the name of the first type naming the kind, else "" |
| Compliance.FilteredDocuments | src/routes/operations/compliance/index.tsx:447-462 | shown documents are a subsequence with the chosen status; with no search and no status all are shown |
| Compliance.FilteredMembers | src/routes/operations/compliance/index.tsx:447-462 | a document is shown iff it matches the search and the status |
| Compliance.SearchFindsLabel | src/routes/operations/compliance/index.tsx:447-462 | a search matching the type's label finds the document |
| Compliance.StatsOf | src/routes/operations/compliance/index.tsx:465-472 | the total is the list length and the five status counts add up to at most it |
| Compliance.GroupReminders | src/routes/operations/compliance/index.tsx:208-245 | one reminder per distinct contact email, exactly the emails of outstanding documents, each holding its documents in order, each document once |
| Compliance.ReminderPlacement | src/routes/operations/compliance/index.tsx:211-222 | a document is in an email's reminder iff it is outstanding and its contact has that non-empty email |
| Compliance.Verified | src/routes/operations/compliance/index.tsx:426-437 | documents with the id become valid, verified by the current user today; others are unchanged |
| Compliance.VerifiedIdempotent | src/routes/operations/compliance/index.tsx:426-437 | verifying twice is verifying once |
| Compliance.VerifiedValidCount | src/routes/operations/compliance/index.tsx:426-437 | after verifying, the valid documents are those valid before plus those with the id |
| Compliance.ComplianceScreen.constructor | src/routes/operations/compliance/index.tsx:167-206 | the screen starts with no documents |
| Compliance.ComplianceScreen.Load | src/routes/operations/compliance/index.tsx:167-206 | nothing changes until the user, department and read are present; then the list is the flattened documents |
| Compliance.ComplianceScreen.VerifyDocument | src/routes/operations/compliance/index.tsx:416-444 | the list changes only after a successful store write |
| Tracker.FindProgram | src/routes/incubatee/tracker/index.tsx:77-88 | the first program with the application's program id, or none iff no program has it |
| Tracker.ProgramName | src/routes/incubatee/tracker/index.tsx:83-86 | the program's name, else its other name, else "Unnamed Program"; never empty |
| Tracker.TrackedRows | src/routes/incubatee/tracker/index.tsx:77-88 | each application with its program name, in order |
| Tracker.UnmatchedIsUnnamed | src/routes/incubatee/tracker/index.tsx:83-86 | an application without its program shows "Unnamed Program" |
| Tracker.AppliedIds | src/routes/incubatee/tracker/index.tsx:92-95 | exactly the program ids of the user's applications |
| Tracker.AvailablePrograms | src/routes/incubatee/tracker/index.tsx:92-95 | a subsequence of the programs that no application names |
| Tracker.AvailableMembers | src/routes/incubatee/tracker/index.tsx:92-95 | a program is available iff no application names it |
| Tracker.AvailableOrApplied | src/routes/incubatee/tracker/index.tsx:92-95 | available and applied programs partition the programs |
| Tracker.CountStatuses | src/routes/incubatee/tracker/index.tsx:106-118 | the total is the number of applications and the three status counts add up to at most it |
| Tracker.HasStatus | src/routes/incubatee/tracker/index.tsx:107-116 | a matching application has a status; a status already in lower case matches itself |
| Tracker.CountsCaseInsensitive | src/routes/incubatee/tracker/index.tsx:106-118 | figures do not depend on the letter case of statuses |
| Tracker.StatusColour | src/routes/incubatee/tracker/index.tsx:128-137 | green iff accepted; red iff declined (any case); gold otherwise |
| Tracker.ColoursMatchCounts | src/routes/incubatee/tracker/index.tsx:125-137 | the green tags number the accepted count, the red tags the declined count |
| Applications.FilterApplications | src/routes/applications/index.tsx:71-76 | a subsequence passing the chosen gender and age-group filters; no filter keeps all |
| Applications.FilterApplicationsMembers | src/routes/applications/index.tsx:71-76 | an application is listed iff it passes the filters set |
| Applications.FiguresOf | src/routes/applications/index.tsx:78-84 | the accepted and rejected recommendation counts add up to at most the total |
| Applications.TallyCounts | src/routes/applications/index.tsx:86-94 | each distribution value is the number of applications with that key ("undefined" when absent), and the keys are exactly those present |
| Applications.Tally | src/routes/applications/index.tsx:86-94 | every tallied key has a count between one and the number of applications |
| Applications.DistributionTotal | src/routes/applications/index.tsx:86-94 | over its keys, a distribution adds up to the number of applications |
| Applications.SetStatus | src/routes/applications/index.tsx:326-340 | only the application with the id gets the new status |
| Applications.SetStatusKeepsFilter | src/routes/applications/index.tsx:319-338 | changing a status commutes with filtering, because the filters ignore status |
| Applications.ChangeStatus | src/routes/applications/index.tsx:323-336 | after a successful write both lists and the selected application carry the new status; after a failed one nothing changes |
| Applications.ChangeStatusKeepsFilter | src/routes/applications/index.tsx:319-338 | a filtered list that matched the full list still matches in the state the handler sets, before the unawaited refetch lands |
| Applications.Refetch | src/routes/applications/index.tsx:36-48 | on success both lists become the fetched records, whatever filters are selected; on failure nothing changes |
| Applications.RefetchIgnoresFilters | src/routes/applications/index.tsx:36-58 | with a gender filter selected, the refetch after a status change lists an applicant the filter excludes |
| Applications.RefetchFiltered | src/routes/applications/index.tsx:36-48 | the corrected refetch: the filtered list stays the filter of the full list |
| Applications.StatusChangeSettledKeepsFilter | src/routes/applications/index.tsx:55-58 | with the corrected refetch, a status change and the refetch after it keep the filters' result |

## Left out

- Firestore and Cloud Storage reads, writes and queries are not modelled. Their outcomes are parameters: snapshots, `fetched`, `stored` and `uploaded`.
- Authentication, roles and the current user are not modelled. They are parameters.
- Cloud-function email calls and notification writes are not modelled. They are side effects with no state the screens keep.
- Time zones and `dayjs` parsing and formatting are not modelled. One fixed display zone is assumed, and a day key is a day number.
- `formatDueDate` and the other display-only formatting are not modelled.
- PDF generation, the print window and blocked pop-ups are not modelled. `CalendarExport.Download` stops at the rows and range handed to the generator.
- Floating-point amounts are not modelled: currency, the 0.85 factor and upload progress. Percentages are modelled only as the rounded integers shown.
- `Promise.all` concurrency and the stale-response guard are not modelled. The two snapshots arrive as values.
- Clocks are not modelled. `Date.now`, today and `createdAt` are parameters.
- `Object.entries` lists integer-like keys first. The model keeps insertion order for the area groups and reminders, which is faithful for non-numeric keys only.
- Applications.ChangeStatusKeepsFilter holds for the state the status handler sets. The refetch that `updateStatus` starts without awaiting it lands later and replaces both lists (`Applications.Refetch`), which breaks the property; see Findings. The interleaving of that refetch with the handler's own updates is not modelled: the refetch is taken to land last.
- The document `id` override of a stored program is not modelled. The tracker uses the fetched id.
- The compliance rows' participant name is not modelled when the application has no email. It is modelled as the empty string.
- CalendarAggregate.CollectItems: the grouped item that the source mutates through its `groupedIndex` alias is updated by its position in the day's bucket. Aliasing itself is not modelled.
- CalendarEntries.Dedup: the JavaScript `Map` is modelled by its key order and its contents.
- Participants.Progress: rounding is exact on integers. Floating-point division in the source can differ only at exact halves.
- Onboarding.ComplianceRate: the display of the rate elsewhere on the page is not modelled.
- CalendarExport.ExportRowsMonth, CalendarExport.ExportRowsAll and CalendarExport.BuildExportAll order rows by day number. The source compares `YYYY-MM-DD` strings, which agrees only for years 0 to 9999; for instants with a five-digit year (allowed up to 8.64e15 ms) the string order differs.
- Applications.TallyCounts keys an absent gender or age group as "undefined". A field stored as `null` would be keyed "null" in the source; the model does not tell `null` from an absent field.
- CalendarAggregate.Aggregate, CalendarAggregate.CollectItems and CalendarAggregate.BuildItemsByDate group sessions by the structured key (day, intervention, subtitle, coordinator) rather than by the joined text `idKey`. The two agree when no component contains a bar character (`CalendarAggregate.IdKeyTextAgrees`); the text collision the code allows otherwise is shown under Findings.
- OperationsDashboard.Dashboard.UpdateCostField requires an index inside the cost list. The source would throw a TypeError on a missing index; the form only passes indices of rows it shows.
- Onboarding.DocumentForm.DateChange requires an index inside the document list. The source would throw a TypeError on a missing index; the form only passes indices of rows it shows.
- Onboarding.DocumentForm.SetFile requires an index inside the document list. The source would throw a TypeError on a missing index; the form only passes indices of rows it shows.
- OperationsDashboard.EventError and OperationsDashboard.Dashboard.AddEvent compare the clock minute of every listed event. In the source, events read back from the store hold a store timestamp object in `time`, and `dayjs(e.time).format('HH:mm')` on it is library behaviour this model does not capture; it may not give the clock time, in which case the clash rule only catches events added in the same session.

## Findings

| source | as written | input that shows it | evidently intended | confidence | as-written member | corrected member |
|---|---|---|---|---|---|---|
| src/components/calendar/IndicativeCalendar.tsx:143-145 | the grouping key joins day, intervention, subtitle and coordinator with a bar character and no escaping | two grouped entries on one day: intervention "x" with subtitle "y" + bar + "c", and intervention "x" + bar + "y" with subtitle "c", both without coordinator, get the same key and are merged into one session | sessions are identified by the four components themselves | low, not executed | CalendarAggregate.IdKeyTextCollision | CalendarAggregate.SameItemIffSameKey |
| src/routes/applications/index.tsx:36-58 | `updateStatus` starts `fetchApplications()`, which sets the filtered list to every fetched record while the gender and age-group selects keep their values | gender "Female" selected, applicants "m" (Male) and "f" (Female), the status of "f" changed: after the refetch "m" is listed under the Female filter | the refetch re-applies the selected filters | medium, not executed | Applications.RefetchIgnoresFilters | Applications.RefetchFiltered |
