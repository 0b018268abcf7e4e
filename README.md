# Campaign dashboard core, modelled in Dafny

This project models the core of the Campaign dashboard, a Next.js application for
running mutual-insurance marketing campaigns. The model covers:

- **The `/api/events` route.** It keeps calendar events in one JSON document of
  `{events, nextId}`. Every request reads the document whole, changes it in memory and
  writes it back whole (`EventStore`).
- **The browser-side event service.** It downgrades every failed request to an empty
  answer, and it formats dates for display and for storage (`EventService`).
- **The dashboard calendar.** This covers the month grid, the events shown on each day,
  and the previous-month and next-month buttons (`Calendar`, `CalendarDate`).
- **The dashboard pages.** These are the home page (upcoming events, recent activity,
  top tasks), the task list modal, the settings table with its sort and pagination, and
  the chat contact search (`Dashboard`, `TaskList`, `ArticleSort`, `Pagination`,
  `ChatMeetings`).
- **The employee-wallet stack.** This is the Circle configuration, the wallet API client
  that maps the Rails backend's loosely typed JSON into wallet records, the
  `useEmployeeWallet` hook, and the wallet card (`CircleConfig`, `CircleApi`,
  `EmployeeWalletHook`, `WalletCard`).

**How the JavaScript semantics are modelled**

- JSON is `Js.Value`. JavaScript truthiness, `a || b` and property access (including
  `?.`, and the TypeError on `null.x`) are written out in that module.
- Strings are `seq<char>`. `parseInt`, `padStart`, `slice` with negative indices,
  `toLowerCase` (ASCII), `includes` and `trim` are modelled in `Text`.
- Calendar dates are Gregorian `(year, month, day)` triples with a day number and a
  weekday.
- The world outside the code consists of the file system, `fetch`, the clock, and the
  environment variables. Each is a parameter:
  - the stored document, and whether a write succeeds;
  - the HTTP reply, as an oracle datatype;
  - today's date, and the current time as a string;
  - the environment, as a map.

Component state that React keeps in `useState` is a Dafny `class`. Its handlers are
methods that reassign the fields:

- the calendar's shown month;
- the settings table;
- the chat draft;
- the dashboard's loaded events;
- the wallet hook;
- the wallet card.

The event store is a class too. Its ghost `issued` set records every id ever handed out.
Its invariant `Valid()` says the stored ids:

- are positive;
- are strictly increasing;
- are below `nextId`;
- are all among the ids issued so far.

## Model

| member | source | states |
|---|---|---|
| EventStore.ReadDatabase | src/app/api/events/route.ts:23-31 | a missing or unparseable file reads as the empty, well-formed store `{events: [], nextId: 1}`; a parsed file reads as itself |
| EventStore.FindIndex | src/app/api/events/route.ts:102 | the index of the first event whose id is strictly equal to the given JSON value, or -1 exactly when none is (a string id never matches) |
| EventStore.Merge | src/app/api/events/route.ts:110-116 | an update keeps the id and creation time and stamps `updatedAt` with the clock |
| EventStore.MergeIdempotent | src/app/api/events/route.ts:110-116 | applying the same PUT twice gives the same event as applying it once |
| EventStore.MergeOnlyTime | src/app/api/events/route.ts:110-116 | a PUT of only `{id, time}` keeps title, date and type; an empty time keeps the old time |
| EventStore.AppendKeepsWellFormed | src/app/api/events/route.ts:71-82 | appending an event numbered `nextId` and counting up keeps the id invariant, and the new id is fresh |
| EventStore.RemoveKeepsWellFormed | src/app/api/events/route.ts:146-147 | splicing out one event keeps the id invariant, and no event with that id remains |
| EventStore.RemoveKeepsIds | src/app/api/events/route.ts:146-147 | splicing introduces no new id |
| EventStore.ReplaceKeepsWellFormed | src/app/api/events/route.ts:110-118 | replacing an event with one of the same id keeps the id invariant |
| EventStore.FirstMatchIsOnly | src/app/api/events/route.ts:102 | in a well-formed store the event `findIndex` finds is the only one with that id |
| EventStore.Store.Load | src/app/api/events/route.ts:23-31 | the database read is `ReadDatabase` of the current file |
| EventStore.Store.Save | src/app/api/events/route.ts:34-41 | a successful write replaces the file with the database; a failed one leaves it unchanged |
| EventStore.Store.Get | src/app/api/events/route.ts:44-52 | GET answers 200 with the stored events |
| EventStore.Store.Post | src/app/api/events/route.ts:55-91 | 400 when any of title, time, date, type is empty, 500 when the write fails, otherwise 201 with the new event numbered `nextId`, appended, `nextId` counted up; the store invariant is kept and the new id was never issued before |
| EventStore.Store.Put | src/app/api/events/route.ts:94-127 | 400 for a falsy id, 404 for an unknown one, 500 when the write fails, otherwise 200 with the first matching event merged in place; the store invariant is kept |
| EventStore.Store.Delete | src/app/api/events/route.ts:130-155 | 400 when `parseInt` of the `id` parameter is NaN or 0, 404 for an unknown id, 500 when the write fails, otherwise 200 with the removed event, which is spliced out; the invariant is kept and the id is gone |
| EventService.CreateEvent | src/services/eventService.ts:45-65 | network errors and non-ok replies give null; otherwise the reply's event |
| EventService.UpdateEvent | src/services/eventService.ts:68-88 | network errors and non-ok replies give null; otherwise the reply's event |
| EventService.DeleteTargetsId | src/services/eventService.ts:93 | the delete URL is the base URL, `?id=`, and text that the route's `parseInt` reads back as the same id |
| EventService.GetEventsReadsStore | src/services/eventService.ts:30-42 | for every response the route can send, `getEvents` returns exactly the event list of a list response and the empty list otherwise, in particular for every error status |
| EventService.EventReadsStore | src/services/eventService.ts:45-88 | for every response the route can send, `createEvent` and `updateEvent` return the route's event exactly when the route sent one with a success status, and null for every error status |
| EventService.DeleteReadsStore | src/services/eventService.ts:91-106 | for every response the route can send, `deleteEvent` reports success exactly when the status is below 400, that is exactly when the route did not answer with an error body |
| EventService.MonthDayText | src/services/eventService.ts:120-123 | the text is the three-letter month name of the date, a space, and decimal digits that read back as the day of the month |
| EventService.DisplayLabels | src/services/eventService.ts:109-125 | "Today" exactly for today's date, "Tomorrow" exactly for the next day, and the short month and day for every other date that parses |
| EventService.IsoYear | src/services/eventService.ts:128-130 | the year part of an ISO timestamp never contains the letter T |
| EventService.FormatDateForStorage | src/services/eventService.ts:128-130 | the text before the `T` of the ISO timestamp, which contains no `T` |
| EventService.StorageDateRoundTrip | src/services/eventService.ts:128-130 | for years 0..9999 the stored date is the 10-character `YYYY-MM-DD` text of the date, and it parses back to the same date |
| EventService.BeforeFirstAt | src/services/eventService.ts:129 | splitting at the first `T` returns exactly the text before it when the text has no earlier `T` |
| CalendarDate.DaysInMonth | src/app/dashboard/components/Calendar.tsx:30-34 | 28 to 31 days; February has 29 exactly in leap years; the other months have 31 exactly when they are January, March, May, July, August, October or December |
| CalendarDate.NextDay | src/services/eventService.ts:112-113 | the day after a valid date is a valid date |
| CalendarDate.DayNumberNextDay | src/services/eventService.ts:112-113 | the day number of the next day is one more |
| CalendarDate.DayNumberOrder | src/app/dashboard/settings/page.tsx:59-62 | a date earlier in year, month or day has a smaller day number |
| CalendarDate.WeekdayInMonth | src/app/dashboard/components/Calendar.tsx:36-40 | the weekday of day k is k-1 days after the weekday of the first of the month, modulo 7 |
| CalendarDate.WeekdayNextDay | src/app/dashboard/components/Calendar.tsx:36-40 | consecutive days have consecutive weekdays |
| CalendarDate.ParseIsoDate | src/app/dashboard/components/Calendar.tsx:58-64 | every date read from text is a valid calendar date with a four-digit year |
| CalendarDate.IsoDateText | src/app/dashboard/components/Calendar.tsx:56 | 10 characters without `T`, and `ParseIsoDate` reads it back to the same date |
| Calendar.DaysInShownMonth | src/app/dashboard/components/Calendar.tsx:30-34 | the day count is the distance from the first of the month to the first of the next month |
| Calendar.FirstDayOfMonth | src/app/dashboard/components/Calendar.tsx:36-40 | a weekday 0..6 |
| Calendar.GridShape | src/app/dashboard/components/Calendar.tsx:113-117 | the grid is the month's leading blanks followed by days 1..n, and it fits in six rows of seven |
| Calendar.GridColumns | src/app/dashboard/components/Calendar.tsx:113-117 | day k, placed after the leading blanks, sits in the column of its own weekday |
| Calendar.DayKeyIsIso | src/app/dashboard/components/Calendar.tsx:56 | for four-digit years the cell's key is the ISO text of that day and parses back to it |
| Calendar.DayEventsSelect | src/app/dashboard/components/Calendar.tsx:55-65 | a day's events are the events, in order, whose date resolves to that day |
| Calendar.TodayCell | src/app/dashboard/components/Calendar.tsx:67-72 | a cell is highlighted exactly when the shown month is today's month and the day is today's; that cell holds exactly the events that resolve to today, so every event dated "Today" and none dated "Tomorrow" |
| Calendar.CellSummary | src/app/dashboard/components/Calendar.tsx:133-153 | a cell shows the first two events, and a "+n more" label for the rest exactly when there are more than two |
| Calendar.SetMonthAsWritten | src/app/dashboard/components/Calendar.tsx:47-53 | `setMonth` lands in the target month on the same day when the day exists there; otherwise it lands in the month after the target, on the day minus the target month's length |
| Calendar.SetMonthCountsFromFirst | src/app/dashboard/components/Calendar.tsx:47-53 | in every case the date `setMonth` gives lies the old day of the month, less one, days after the first of the target month |
| Calendar.PreviousMonthAsWritten | src/app/dashboard/components/Calendar.tsx:47-49 | the as-written previous-month button always gives a valid date |
| Calendar.NextMonthAsWritten | src/app/dashboard/components/Calendar.tsx:51-53 | the as-written next-month button always gives a valid date |
| Calendar.SetMonthOverflow | src/app/dashboard/components/Calendar.tsx:47-53 | from 31 January 2025 the next-month button shows March, and from 31 March the previous-month button stays in March |
| Calendar.AsWrittenAgreesWhenDayFits | src/app/dashboard/components/Calendar.tsx:47-53 | the as-written move lands in the target month exactly when the day fits in it, and then it agrees with the corrected move |
| Calendar.ShiftMonth | src/app/dashboard/components/Calendar.tsx:47-53 | the corrected move lands exactly `delta` months away, with the day clamped to the target month's length |
| Calendar.ShiftMonthRollover | src/app/dashboard/components/Calendar.tsx:47-53 | next from December is January of the next year, and previous from January is December of the year before |
| Calendar.NextThenPrevious | src/app/dashboard/components/Calendar.tsx:47-53 | next then previous returns to the year and month started from |
| Calendar.CalendarView.PreviousMonth | src/app/dashboard/components/Calendar.tsx:47-49 | the button as written: the shown date becomes `setMonth(getMonth() - 1)` of the old one, which is exactly one month back precisely when the old day exists in the month before |
| Calendar.CalendarView.NextMonth | src/app/dashboard/components/Calendar.tsx:51-53 | the button as written: the shown date becomes `setMonth(getMonth() + 1)` of the old one, which is exactly one month on precisely when the old day exists in the month after |
| Calendar.CalendarView.PreviousMonthClamped | src/app/dashboard/components/Calendar.tsx:47-49 | the corrected button: the shown date moves exactly one month back, with the day clamped |
| Calendar.CalendarView.NextMonthClamped | src/app/dashboard/components/Calendar.tsx:51-53 | the corrected button: the shown date moves exactly one month forward, with the day clamped |
| TaskList.Partition | src/app/dashboard/components/TaskListModal.tsx:39-40 | the current and completed lists are subsequences of the tasks, split by status "Completed"; together they are a permutation of all tasks |
| TaskList.TabSelection | src/app/dashboard/components/TaskListModal.tsx:88-183 | whatever index the tab group reports, the selected tab lists, in order, exactly the open tasks for index 0 and exactly the completed tasks for any other index |
| TaskList.TabLabelsCount | src/app/dashboard/components/TaskListModal.tsx:99-110 | the tab labels carry the two lists' lengths, and the two tabs together show every task |
| Dashboard.UpcomingEvents | src/app/dashboard/page.tsx:40-52 | one row per loaded event, keeping id, title, time and type, with the date as `formatDateForDisplay` shows it |
| Dashboard.RecentActivity | src/app/dashboard/page.tsx:54-61 | one activity per upcoming row |
| Dashboard.ActivityRows | src/app/dashboard/page.tsx:54-61 | each activity keeps the row's id, title and event type; its description is the date, a bullet and the time, and its timestamp is the shown date |
| Dashboard.HighlightedIffToday | src/app/dashboard/page.tsx:211 | an upcoming row is highlighted exactly when its event is dated today |
| Dashboard.TopTasksPrefix | src/app/dashboard/page.tsx:176 | the home page shows the first three tasks, or all of them when there are fewer |
| Dashboard.DashboardPage.LoadEvents | src/app/dashboard/page.tsx:24-37 | the loaded events are what `getEvents` returns, and loading ends |
| ArticleSort.KeyOf | src/app/dashboard/settings/page.tsx:47-70 | sorting by title compares lower-cased titles and by engagement the engagement; by date the key is NaN exactly when the publish date does not parse; anything else compares the views |
| ArticleSort.DateKeyOrder | src/app/dashboard/settings/page.tsx:59-62 | by date one key is below another exactly when its publish date is earlier in the calendar, and an unparseable date is neither below nor above any key |
| ArticleSort.Compare | src/app/dashboard/settings/page.tsx:72-76 | the comparator answers only 1 or -1, never 0 |
| ArticleSort.CompareDistinct | src/app/dashboard/settings/page.tsx:72-76 | on distinct keys the comparator is -1 exactly when the first article comes first in the chosen order, and it is antisymmetric |
| ArticleSort.CompareTies | src/app/dashboard/settings/page.tsx:72-76 | on equal keys the comparator says -1 both ways |
| ArticleSort.BeforeTransitive | src/app/dashboard/settings/page.tsx:72-76 | the order on distinct keys is transitive |
| ArticleSort.InsertPermutes | src/app/dashboard/settings/page.tsx:47 | inserting adds exactly the one article |
| ArticleSort.SortPermutes | src/app/dashboard/settings/page.tsx:47 | sorting is a permutation |
| ArticleSort.InsertSorted | src/app/dashboard/settings/page.tsx:47 | inserting into a sorted list keeps it sorted |
| ArticleSort.SortOrders | src/app/dashboard/settings/page.tsx:47-77 | with distinct keys the sorted list is ordered by the comparator |
| Pagination.TotalPages | src/app/dashboard/settings/page.tsx:80 | the page count is the least number of pages of size `perPage` that hold every article |
| Pagination.PageSlice | src/app/dashboard/settings/page.tsx:81-84 | a page holds at most `perPage` articles, namely those from `(page-1)*perPage` on; every article is on exactly one page, and that page is within the page count |
| Pagination.ClampPage | src/app/dashboard/settings/page.tsx:94-96 | the page is kept in 1..totalPages: in-range pages are kept, low ones become 1 and high ones the last page |
| Pagination.GetPageSizeOptions | src/app/dashboard/settings/page.tsx:87-92 | always 5, 10, 20; then 50 exactly when there are more than 50 articles and 100 exactly when there are more than 100; increasing |
| Pagination.Range | src/app/dashboard/settings/page.tsx:121-123 | the pages a..b, in order |
| Pagination.PushRange | src/app/dashboard/settings/page.tsx:121-123 | the loop appends exactly the pages a..b |
| Pagination.GetPageNumbers | src/app/dashboard/settings/page.tsx:104-132 | the loop builds exactly the page-number list |
| Pagination.FewPages | src/app/dashboard/settings/page.tsx:107-112 | with at most 5 pages, every page is listed once, in order |
| Pagination.WindowBounds | src/app/dashboard/settings/page.tsx:114-115 | the window around the current page stays within 1..totalPages and spans at most five pages |
| Pagination.ManyPagesEnds | src/app/dashboard/settings/page.tsx:113-129 | with more than 5 pages the list starts at page 1, ends at the last page, and contains the current page |
| Pagination.ManyPagesGaps | src/app/dashboard/settings/page.tsx:113-129 | with more than 5 pages, consecutive page items are consecutive numbers, and an ellipsis stands only between two pages |
| Pagination.TableState.HandleSortChange | src/app/dashboard/settings/page.tsx:134-144 | the same column flips the order, a new column sorts it descending, and the table goes back to page 1 |
| Pagination.TableState.HandlePageSizeChange | src/app/dashboard/settings/page.tsx:98-101 | the new page size is set, and the table goes back to page 1 |
| Pagination.TableState.HandlePageChange | src/app/dashboard/settings/page.tsx:94-96 | the page becomes the clamped request; an in-range request is kept |
| ChatMeetings.MatchesAt | src/app/dashboard/chat-meetings/page.tsx:93-96 | a contact matches exactly when the lower-cased query occurs inside the lower-cased name or department |
| ChatMeetings.SearchSelects | src/app/dashboard/chat-meetings/page.tsx:93-96 | the results are the matching contacts, in order |
| ChatMeetings.EmptyQueryKeepsAll | src/app/dashboard/chat-meetings/page.tsx:93-96 | an empty query keeps every contact |
| ChatMeetings.SearchIgnoresQueryCase | src/app/dashboard/chat-meetings/page.tsx:93-96 | the query's case does not change the results |
| ChatMeetings.ResultLine | src/app/dashboard/chat-meetings/page.tsx:305-309 | the result line is shown exactly when there is a query, with the count and "result" or "results" |
| ChatMeetings.DraftAfterSend | src/app/dashboard/chat-meetings/page.tsx:131-137 | a draft with a non-blank character is cleared; an all-blank draft stays as it was |
| ChatMeetings.ChatState.HandleSendMessage | src/app/dashboard/chat-meetings/page.tsx:131-137 | the draft after sending is `DraftAfterSend` of the old draft |
| ChatMeetings.HeaderName | src/app/dashboard/chat-meetings/page.tsx:375 | the header shows the name of the first contact with the selected id, or nothing when none has it |
| CircleConfig.LoadConfig | src/config/circle-config.ts:4-13 | each setting is its environment variable when that is non-empty, and otherwise the placeholder key, `sandbox` or the sandbox URL |
| CircleConfig.ValidIffKeySet | src/config/circle-config.ts:4-22 | the configuration is valid exactly when `CIRCLE_API_KEY` is set to something other than empty text and the placeholder |
| CircleApi.ApiUrl | src/lib/circle-api.ts:20-29 | the constructor argument, else `RAILS_API_URL`, else `NEXT_PUBLIC_RAILS_API_URL`, else the localhost URL |
| CircleApi.BalanceErrorHidesStatus | src/lib/circle-api.ts:34-53 | an ok reply's body comes back unchanged, whatever it is; every non-ok reply, whatever its status text and body, and every network error give the same "Failed to fetch wallet balance" error |
| CircleApi.ListWallet | src/lib/circle-api.ts:72-84 | mapping a listed wallet fails exactly on null or undefined, and the balance's wallet id is the wallet's id |
| CircleApi.IdentityFallbacks | src/lib/circle-api.ts:73-77 | the wallet id is `wallet_id` when truthy and `id` otherwise, the employee id is `employee_id` when truthy and the requested employee otherwise, a record with neither address field gets the empty address, and the two mappings agree on everything but balance and time |
| CircleApi.AmountDefaults | src/lib/circle-api.ts:76-83 | a listed wallet without a truthy balance shows "0", one without any currency shows "USD", and every amount and the currency are truthy |
| CircleApi.BalanceMappingsDiffer | src/lib/circle-api.ts:76-121 | the list mapping and the create mapping read the balance from different fields, so they disagree exactly when those fields do |
| CircleApi.BalanceMappingsExample | src/lib/circle-api.ts:76-121 | a wallet carrying only `balance` lists with that balance but is created with "0" |
| CircleApi.MapWallets | src/lib/circle-api.ts:72-84 | the list maps exactly when no item is null or undefined, and each item maps to the wallet record of that item |
| CircleApi.GetEmployeeWallets | src/lib/circle-api.ts:58-90 | an ok reply whose body is an array of non-null items gives their records, in order; anything else fails with "Failed to fetch employee wallets" |
| CircleApi.WalletNameShape | src/lib/circle-api.ts:102-104 | the name sent is never empty; the default is "Employee ", the employee id and " Wallet", so two employees' default names differ |
| CircleApi.CreatedWallet | src/lib/circle-api.ts:112-124 | mapping a created wallet fails exactly on null or undefined, and it is stamped with the current time |
| CircleApi.CreateEmployeeWallet | src/lib/circle-api.ts:95-129 | an ok reply with a non-null body gives the created record; anything else fails with "Failed to create employee wallet" |
| CircleApi.GetWalletTransactions | src/lib/circle-api.ts:134-153 | an ok reply with a non-null body gives its `transactions` field when that is truthy, and the body itself otherwise; anything else fails with "Failed to fetch wallet transactions" |
| EmployeeWalletHook.WalletHook.RefreshWallets | src/hooks/useEmployeeWallet.ts:21-38 | without configuration sets the not-configured error; otherwise replaces the wallets on success, keeps them and records the error on failure, and ends loading |
| EmployeeWalletHook.WalletHook.GetWalletBalance | src/hooks/useEmployeeWallet.ts:40-52 | the balance of a successful request and null otherwise, recording the error; the wallet list is untouched |
| EmployeeWalletHook.WalletHook.CreateWallet | src/hooks/useEmployeeWallet.ts:54-75 | without configuration sets the not-configured error; otherwise appends the created wallet on success or records the error, and ends loading |
| EmployeeWalletHook.WalletHook.Mount | src/hooks/useEmployeeWallet.ts:77-81 | with an employee id, refreshes the wallets; without one, nothing changes |
| WalletCard.ViewAfterCreate | src/components/EmployeeWalletCard.tsx:49-96 | once a wallet has been added the list is shown, loading or not; with no wallets the card shows the skeleton while loading and the empty state otherwise |
| WalletCard.WalletLabel | src/components/EmployeeWalletCard.tsx:129 | the last eight characters of the wallet id, or the whole id when it is shorter |
| WalletCard.AddressAbbreviation | src/components/EmployeeWalletCard.tsx:153 | the two halves are prefixes and suffixes of at most eight characters, and an address of eight or fewer characters is shown twice in full |
| WalletCard.MaskHidesAmount | src/components/EmployeeWalletCard.tsx:142 | while balances are hidden every amount reads as the same non-empty mask; while shown, two amounts read alike only when they are equal |
| WalletCard.CardState.ToggleBalances | src/components/EmployeeWalletCard.tsx:73 | the balance visibility flips and nothing else changes |
| WalletCard.CardState.HandleCreateWallet | src/components/EmployeeWalletCard.tsx:31-43 | a created wallet is appended to the hook's list and its id goes to the callback when there is one; a failure records the hook's error and passes nothing on; the creating flag always ends off; afterwards the card shows the list when a wallet was created and never the skeleton |
| Js.Or | src/config/circle-config.ts:6 | `a \|\| b` is truthy exactly when either operand is, and is `a` when `a` is truthy, else `b` |
| Js.FirstTruthy | src/lib/circle-api.ts:75-82 | a chain of `\|\|` is one of its operands, and is truthy exactly when some operand is |
| Js.FirstTruthyIsFirst | src/lib/circle-api.ts:75-82 | a chain of `\|\|` yields the first truthy operand |
| Js.Member | src/lib/circle-api.ts:73 | property access fails exactly on null and undefined, and otherwise reads the field |
| Js.OptionalMember | src/lib/circle-api.ts:78 | `?.` on a value with the field reads the field, and anything else that is not undefined came from the field |
| Text.ParseIntOfIntToString | src/app/api/events/route.ts:133 | `parseInt` reads back the decimal text of every integer |
| Text.Pad2 | src/app/dashboard/components/Calendar.tsx:56 | `padStart(2, '0')` of a day or month is two digits with the same value |
| Text.Slice | src/components/EmployeeWalletCard.tsx:153 | `slice` with negative or too-large bounds is the sub-sequence between the normalised bounds, or empty |
| Text.Lower | src/app/dashboard/chat-meetings/page.tsx:94 | lower-casing keeps the length and lowers each character |
| Text.ContainsAt | src/app/dashboard/chat-meetings/page.tsx:94 | `includes` holds exactly when the needle occurs at some index |
| Text.TrimEmpty | src/app/dashboard/chat-meetings/page.tsx:133 | the trimmed draft is empty exactly when every character is white space |
| Text.BeforeFirst | src/services/eventService.ts:129 | the text before the first separator is a prefix without that separator |
| Seqs.FilterMembership | src/app/dashboard/components/TaskListModal.tsx:39-40 | `filter` keeps exactly the elements that satisfy the predicate |
| Seqs.FilterSplits | src/app/dashboard/components/TaskListModal.tsx:39-40 | filtering by a predicate and by its negation splits the list |
| Seqs.FilterIsSubsequence | src/app/dashboard/components/Calendar.tsx:57 | `filter` keeps the order of the elements it keeps |
| StringOrder.Transitive | src/app/dashboard/settings/page.tsx:63-66 | string comparison of titles is transitive |
| StringOrder.Total | src/app/dashboard/settings/page.tsx:63-66 | of two different titles exactly one compares below the other |

## Left out

- File I/O, `fetch`, JSON parsing and React rendering. The document on disk, each HTTP
  reply and each write outcome are parameters. The JSON shape of a stored document that
  parses but is not `{events, nextId}` is not modelled.
- Concurrency. Two requests that read the file before either writes it can both take
  the same `nextId`. The model handles one request at a time.
- Time zones and locales. Calendar dates are abstract triples, with no time-of-day and
  no UTC/local shift. The storage formatter takes the date and time it would read in UTC
  as parameters. `toLocaleDateString` is modelled as a short English month name and the
  day.
- Date strings other than `YYYY-MM-DD`, "Today" and "Tomorrow". JavaScript's `Date`
  parser accepts many more; the model treats any other text as an invalid date.
- Calendar.DayKeyIsIso: holds only for years 1000..9999. Other years do not pad to four
  digits in the source's key, and are not stated.
- EventService.StorageDateRoundTrip: holds only for years 0..9999. The six-digit extended
  years of `toISOString` are modelled by `IsoYear`. The RangeError of a date outside
  the `Date` range is not.
- ArticleSort.KeyOf: compares dates by their day number instead of by `getTime()`
  milliseconds. The order is the same because dates carry no time-of-day. An
  unparseable date is NaN, as in the source.
- ArticleSort.Sort: is an insertion sort. The browser's `Array.prototype.sort`
  algorithm is not modelled. With distinct keys any correct sort gives the same result.
  On tied keys the comparator contradicts itself (it answers -1 both ways), so the
  source's order there is not specified.
- Pagination.TableState.HandlePageSizeChange: requires a positive size. The select only
  offers 5..100, and a size of 0 would make the page count divide by zero.
- Numbers are integers. Floating point, views and engagement fractions, NaN arithmetic
  and `formatCurrency` (src/lib/circle-api.ts:158-164) are not modelled.
- The request URLs, headers and request bodies that circle-api sends are not modelled,
  apart from the event service's delete URL. So the wallet name the card passes to
  `createWallet` (`WalletCard.NewWalletName`) and the default name of
  `CircleApi.WalletName` do not reach any reply in the model.
- The `catch` branches that only rethrow an already mapped error are modelled as that
  error.
- WalletCard.WalletLabel, WalletCard.AddressText: model a string `walletId` and a string
  `address`. If the backend sends a non-string value, `slice` throws; that case is not
  modelled.
- Strings are sequences of Unicode scalar values, where JavaScript counts UTF-16 code
  units. For text outside the Basic Multilingual Plane, `length`, `slice` offsets and
  `<` on strings differ from the source's.
- `lastUpdated` is `FromRecord` or `Now`. Parsing that value into a date is not modelled.
- `toLowerCase` lowers ASCII letters only.
- Pages without logic are not part of this model: account balance, performance, BI,
  create-ad, submit-content, messaging, and the dashboard layout. Neither are the Clock
  component (it only reads the clock) or the modal forms.
- The event type is not checked against meeting/review/event. The route stores any
  text it receives.
- An update or delete without an id is refused because the id is falsy (`!id`). This
  also refuses id 0, and it refuses an id that `parseInt` reads as NaN.

## Findings

| source | as written | input that shows it | evidently intended | confidence | as-written member | corrected member |
|---|---|---|---|---|---|---|
| src/app/dashboard/components/Calendar.tsx:47-53 | previous and next month call `setMonth(getMonth() ∓ 1)` on the shown date and keep its day, so a day that the target month lacks overflows into the month after it | shown date 31 January 2025, next month: gives 3 March 2025, so February is skipped; shown date 31 March 2025, previous month: gives 3 March, so the view does not move | each button moves the view exactly one month | not executed | Calendar.SetMonthOverflow | Calendar.ShiftMonth |
