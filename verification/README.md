# Ribeiro IT field-sales manager — a Dafny model of its core

The app is a single-page tool for a sales team. Each salesperson keeps a list of client
companies (area, classification, focal point, prospecting progress) and books visits to them
(Prospecção, Acompanhamento, Técnica). A visit is Agendada, Realizada or Cancelada. The app also
keeps a list of tasks.

This project models the logic under the screens, as pure functions over immutable records:

- **The app shell's state handlers** (`App`). These add a client, update a client, book a visit
  (which raises the client's prospecting counter for a Prospecção visit), change a visit's
  status, and add, toggle or delete a task. A refused form returns the reason instead of a new
  store.
- **The proximity monitor** (`Monitor`). Once a minute the app raises one alert for every
  scheduled visit that starts within the next half hour and has not alerted before. A tick is a
  function from (visits, clients, alerted ids, now) to (alerts, alerted ids). A run of the
  monitor is a sequence of ticks that threads the set of alerted ids through.
- **The input validators** (`Validators`):
  - the Mozambican phone formatter, which is re-applied on every keystroke;
  - the phone and e-mail checks;
  - the past-date check.
- **The pure derivations inside the screens:**
  - the agenda and the completion draft (`Schedule`);
  - the task panel's merged list (`TaskManager`);
  - the client list filters and progress bar (`ClientList`);
  - the report tallies and the monthly window (`Reports`);
  - the dashboard counts (`Dashboard`);
  - the map's day route and markers (`ClientMap`).

Supporting modules:

- `Basics`: options, results and `filter`.
- `Calendar`: proleptic Gregorian dates on one millisecond timeline whose day 0 is 0000-01-01.
- `Text`: JavaScript `trim`, `\d`, ASCII case folding, decimal rendering and `Number(...)` on decimal input.
- `Sorting`: the stable sort `Array.prototype.sort` performs.
- `Types`: the records and closed enumerations.

Time is an integer count of milliseconds. `Math.round(diffMs / 60000)` becomes
`(diffMs + 30000) / 60000` with floor division.

Where the code and the intended lifecycle differ, the model follows the code:

- Realizada and Cancelada are not terminal. `handleVisitStatusUpdate` overwrites any status
  (`App.StatusNotTerminal`).
- A visit whose client cannot be found is not skipped by the monitor. It alerts with the title
  "Visita Iminente: undefined" (`Monitor.MissingClientStillAlerts`).
- The app shell gives the agenda no completion handler and no service list (App.tsx:411-415). As
  wired, `useState(servicesList[0])` (components/Schedule.tsx:20) reads a property of `undefined`
  and throws on the first render, so the agenda screen never appears. The agenda is modelled as
  the component would behave with a service list, and the completion draft on its own, up to the
  value it hands over.
- The prospecting counter is raised when a Prospecção visit is booked, not when it is held.

## Model

| member | source | states |
|---|---|---|
| Types.ParseVisitType | types.ts:34 | A visit type string reads as one of exactly three kinds, and each kind is read back from its own label |
| Types.StatusLabelInjective | types.ts:8-12 | Comparing statuses by their Portuguese label is the same as comparing the statuses |
| Types.FindClient | App.tsx:183 | `find` returns nothing iff no client has the id, and otherwise the first client carrying it |
| Basics.Filter | components/Reports.tsx:15 | `filter` keeps exactly the elements passing the test, in their original order, never more often than they occur |
| Sorting.SortBy | components/Schedule.tsx:37 | The sort returns a permutation in ascending key order; elements with equal keys keep their relative order |
| Sorting.InsertSorted | components/Schedule.tsx:37 | Inserting into a sorted list keeps it sorted |
| Calendar.NextDay | components/Schedule.tsx:31 | `setDate(getDate() + 1)` gives a valid date whose day number is one more, and which comes after the original |
| Calendar.DayNumberOrder | utils/validators.ts:55-63 | On valid dates, calendar order is the order of day numbers, and equal dates have equal day numbers |
| Calendar.Weekday | components/Dashboard.tsx:17 | `getDay()` is a weekday from 0 to 6 |
| Calendar.EpochSundayIsSunday | components/Dashboard.tsx:17 | The anchor: Sunday 1970-01-04 is a valid date and has weekday 0 |
| Calendar.WeekdayCountsFromSunday | components/Dashboard.tsx:17 | For every instant, the weekday is the number of whole days since that Sunday, modulo 7, so 0 is Sunday and 6 is Saturday |
| Calendar.WeekdayStep | components/Dashboard.tsx:17 | One day later is one weekday later, Saturday wrapping to Sunday |
| Calendar.WeekdayNextDay | components/Dashboard.tsx:17 | The next calendar day falls on the next weekday |
| Text.Trim | components/TaskManager.tsx:19 | `trim()` is a slice of the input with only whitespace cut away before and after it. It leaves no whitespace at either end, and is empty iff the input is all whitespace |
| Text.NatToString | components/ClientList.tsx:95 | A count renders as decimal digits without a leading zero that read back as the count |
| Text.NatToStringParses | components/Schedule.tsx:47 | `Number` applied to a rendered count gives that count back |
| Validators.Digits | utils/validators.ts:9 | Removing non-digits leaves only digits and never lengthens the text |
| Validators.DigitsAppend | utils/validators.ts:9 | Removing non-digits distributes over concatenation |
| Validators.KeptDigits | utils/validators.ts:9-19 | The kept national digits are at most nine: the first nine left after one leading 258 is dropped |
| Validators.FormatMozPhoneNumber | utils/validators.ts:7-39 | The result is empty iff no digit is left after the 258 strip. Otherwise it starts '+258 ', has no trailing space, and its digits are 258 and the kept digits |
| Validators.FormatGroups | utils/validators.ts:22-38 | A non-empty result is '+258 ' followed by the kept digits in groups of 2, 3 and the rest |
| Validators.GroupsDigits | utils/validators.ts:25-35 | Grouping only inserts spaces: the groups' digits are the kept digits |
| Validators.LayoutIsTrimmed | utils/validators.ts:38 | The final `trim()` never changes the laid-out number |
| Validators.FormatIdempotent | utils/validators.ts:7-39 | Formatting an already formatted number returns it unchanged, so re-formatting on each keystroke is stable |
| Validators.IsValidMozPhoneNumber | utils/validators.ts:41-48 | A valid number has at least twelve characters, since it needs twelve digits |
| Validators.ValidIffNationalDigits | utils/validators.ts:41-48 | Any input is valid iff its digits, all other characters dropped, are 258 followed by nine digits of which the first is 2 or 8 |
| Validators.FormattedValidIff | utils/validators.ts:7-48 | A formatted number is valid iff it kept nine digits and the first of them is 2 or 8 |
| Validators.IsValidEmail | utils/validators.ts:50-53 | An accepted address contains '@' and has at least five characters |
| Validators.EmailScanMatchesPattern | utils/validators.ts:50-53 | The e-mail check accepts exactly the strings the regular expression matches: one '@', a non-empty local part, and a dot inside the domain with text on both sides, with no whitespace |
| Validators.ValidEmailMatches | utils/validators.ts:50-53 | An accepted address has positions for '@' and '.' that split it as the pattern requires |
| Validators.PatternIsValidEmail | utils/validators.ts:50-53 | Any split of the address the pattern allows makes the check accept it |
| Validators.IsDateInPast | utils/validators.ts:55-63 | On valid dates, a date is in the past iff its calendar day comes strictly before today's |
| Validators.DateInPastIsCalendarOrder | utils/validators.ts:55-63 | A date is in the past iff its calendar day is strictly before today's; today is never in the past |
| App.ReplaceClient | App.tsx:273-276 | Updating a client replaces exactly the entries carrying its id and keeps length, order and every other entry |
| App.ReplaceClientIdempotent | App.tsx:273-276 | Saving the same record twice is the same as saving it once |
| App.ReplaceClientFind | App.tsx:273-276 | After the update, the id is found with the new record and every other id finds what it found before |
| App.UpdateVisitStatus | App.tsx:348-349 | The status changes on exactly the visits carrying the id; every other visit is kept |
| App.UpdateVisitStatusKeepsRest | App.tsx:348-349 | Only the status changes: ids, order and all other fields are kept, and id uniqueness is preserved both ways |
| App.UpdateVisitStatusTwice | App.tsx:348-349 | The last status written wins |
| App.StatusNotTerminal | App.tsx:348-349 | A Realizada or Cancelada visit can be set back to Agendada: no current status is refused |
| App.CancelledVisitDoesNotAlert | App.tsx:174 | After a visit is cancelled, a monitor tick raises no alert for its id |
| App.ToggleTask | App.tsx:366-368 | Toggling flips `completed` on exactly the tasks with the id and keeps every other task |
| App.ToggleTwice | App.tsx:366-368 | Toggling twice restores the task list |
| App.DeleteTask | App.tsx:370-373 | Deleting removes exactly the tasks with the id: every other task keeps its number of occurrences and its order, and nothing changes when no task has the id |
| App.DeleteTaskIdempotent | App.tsx:370-373 | Deleting the same id again removes nothing more |
| App.AddTask | App.tsx:361-364 | A task from the panel is appended at the end |
| App.ClientRefusal | App.tsx:240-253 | A client form is refused iff the name or the focal point is empty, or a given phone or e-mail is invalid |
| App.NewClient | App.tsx:255-266 | A new client starts with no prospecting visits and keeps every typed field, address, last visit and notes included. An empty category becomes 'Geral' and an empty role 'Staff'; typed ones are kept. It is pinned at the default location |
| App.AddClient | App.tsx:238-271 | Adding a client either refuses with the first failing check and changes nothing, or appends the new record and leaves visits and tasks alone |
| App.AddedClientContactsValid | App.tsx:238-267 | An added client is named, has a focal point, starts at count 0, and carries a valid phone and e-mail or none |
| App.VisitRefusal | App.tsx:280-291 | A booking is refused iff no client is selected, the date is empty, or the date is before today |
| App.NewVisit | App.tsx:294-302 | A booked visit is Agendada, for the selected client, with no opportunities, notes defaulting to '' and planned services defaulting to [] |
| App.Bumped | App.tsx:307-310 | The selected client's count goes up by one and nothing else changes |
| App.AddVisit | App.tsx:278-313 | A booking either refuses and changes nothing, or appends exactly one visit and leaves tasks alone. Clients change only for a Prospecção visit, by replacing the client with the selected id |
| App.ProspectingVisitBumpsCount | App.tsx:306-313 | When the selected record is the stored one, a Prospecção booking raises that client's count by one and every other client is found as before |
| App.BookedVisitNotPast | App.tsx:288-304 | A successful booking appends one visit, keeps the earlier ones, and the new visit's day is not before today |
| App.AddTaskFromModal | App.tsx:329-346 | The modal refuses exactly an empty title; otherwise it appends one open task with the typed title, priority and date |
| App.BlankTitleAccepted | App.tsx:330 | The modal checks the title without trimming, so any non-empty all-whitespace title is accepted although it trims to empty |
| App.UrgentTasks | App.tsx:161 | The start-up warning counts exactly the open high-priority tasks due today: each keeps its number of occurrences and its list order, and no other task is counted |
| Monitor.RoundToMinutes | App.tsx:180 | `Math.round` gives the whole minute within half a minute of the difference, halves rounded up |
| Monitor.WindowInMs | App.tsx:178-183 | The rounded difference is in 1..30 iff the raw difference is at least 30 seconds and under 30 minutes 30 seconds |
| Monitor.MinutesUntil | App.tsx:178-180 | A visit with no readable time has no difference (NaN) |
| Monitor.ClientLabel | App.tsx:184-185 | The title uses the first client with the visit's client id, or the text "undefined" when there is none |
| Monitor.AlertFor | App.tsx:178-186 | An alert names its visit and the minutes in the window. Its title is "Visita Iminente: " with the client label, and its body gives the visit type and the minutes in decimal |
| Monitor.AlertIds | App.tsx:191 | The ids of an alert list are exactly the visit ids on its alerts |
| Monitor.Tick | App.tsx:171-194 | A tick adds exactly its alerts' ids to the set. It never alerts an id already in the set, never alerts one id twice, and raises at most one alert per visit |
| Monitor.TickSound | App.tsx:174-183 | Every alert of a tick comes from a visit in the list that is Agendada, not yet alerted, and due within the window |
| Monitor.TickComplete | App.tsx:174-191 | Every visit that passes the three guards has its id in the set after the tick |
| Monitor.TickIsExpected | App.tsx:173-191 | With unique visit ids, a tick raises one alert per admitted visit, in list order, and nothing else |
| Monitor.AlertedIffAdmitted | App.tsx:174-183 | With unique visit ids, a visit alerts in a tick iff it is Agendada, not yet alerted, and 1 to 30 rounded minutes away |
| Monitor.PastVisitNeverAlerts | App.tsx:183 | A visit that starts now or earlier never alerts |
| Monitor.MissingClientStillAlerts | App.tsx:184-191 | A due visit whose client is missing still alerts, titled "Visita Iminente: undefined" |
| Monitor.RunTicks | App.tsx:152 | Over a run of ticks the set only grows, by exactly the alerted ids, and no id already in it alerts |
| Monitor.RunTicksAlertOnce | App.tsx:152 | Over any run of ticks a visit id alerts at most once |
| Monitor.AlertedNeverAgain | App.tsx:175-176 | Once an id is in the set, no later tick alerts it, whatever its status becomes |
| Monitor.RunTicksAppend | App.tsx:196-197 | A run split in two raises the first part's alerts followed by those the second part raises from the set the first part leaves |
| Monitor.RunTicksAppendAlerted | App.tsx:196-197 | A run split in two leaves the set the second part leaves when started from the first part's set |
| Monitor.ExpectedIgnoresForeignIds | App.tsx:176 | Ids that no visit carries do not change which visits alert |
| Monitor.SampleFirstTick | App.tsx:171-191 | A visit at 10:00 seen at 09:45 raises one alert, "Visita Iminente: undefined", 15 minutes ahead |
| Monitor.SampleSecondTick | App.tsx:176 | The same visit seen at 09:50 stays silent, because its id is already in the set |
| Monitor.SampleRun | App.tsx:152-198 | Over those two ticks the visit alerts exactly once |
| Schedule.DaysFrom | components/Schedule.tsx:29-33 | Counting days forward gives consecutive valid dates starting at the first one |
| Schedule.WeekDates | components/Schedule.tsx:29-33 | The date strip is seven consecutive days starting today |
| Schedule.WeekDatesConsecutive | components/Schedule.tsx:29-33 | Each day of the strip is the day after the previous one, so no day repeats |
| Schedule.TimeKey | components/Schedule.tsx:37 | The 'HH:mm' order is minutes since midnight, and an empty time sorts first |
| Schedule.TimeKeyIsClockOrder | components/Schedule.tsx:37 | Comparing keys is comparing hours, then minutes |
| Schedule.DayAgenda | components/Schedule.tsx:35-37 | The agenda is the day's visits in ascending time, ties kept in list order |
| Schedule.DayAgendaMembers | components/Schedule.tsx:35-36 | A visit is on the agenda iff it is in the list and dated on the selected day |
| Schedule.DayAgendaCounts | components/Schedule.tsx:35-37 | Each visit of the day is on the agenda as often as in the list, and no other visit is |
| Schedule.RenderedRows | components/Schedule.tsx:102-104 | The rows drawn are exactly the agenda visits whose client is found, in agenda order |
| Schedule.HeaderCountsMissingClients | components/Schedule.tsx:92 | The header count is at least the rows drawn, and more when some agenda visit's client is missing |
| Schedule.ActionsOnEveryOpenStatus | components/Schedule.tsx:105 | Cancel and complete are offered iff the visit is not Realizada, so a Cancelada visit still gets both |
| Schedule.NumberOrZeroReadsCounts | components/Schedule.tsx:47 | A typed count is read as that count, and an empty field is read as 0 |
| Schedule.NewOpportunity | components/Schedule.tsx:43-48 | The opportunity records the selected service, describes it as "Interesse em" the service, and carries the typed value or 0 |
| Schedule.AddOpportunity | components/Schedule.tsx:41-51 | Without a service nothing changes. Otherwise exactly one opportunity is appended and the value field is cleared |
| Schedule.ConfirmCompletion | components/Schedule.tsx:53-59 | With a visit in progress the draft is handed over with that visit's id and then emptied. Otherwise nothing happens |
| Schedule.DismissCompletion | components/Schedule.tsx:203 | Closing the modal drops the opportunities recorded so far |
| Schedule.ConfirmHandsOverInOrder | components/Schedule.tsx:41-59 | Two opportunities added and confirmed are handed over in the order they were added |
| Schedule.ConfirmOnlyOnce | components/Schedule.tsx:53-59 | After a confirmation, nothing more is handed over until another visit is picked |
| TaskManager.HandleSubmit | components/TaskManager.tsx:18-29 | A title that is blank once trimmed adds nothing. Otherwise one open task is added with the typed title, priority and date |
| TaskManager.PanelStricterThanModal | components/TaskManager.tsx:19 | Any title the panel accepts, the modal accepts too, with the same result |
| TaskManager.TimeText | components/TaskManager.tsx:38 | A visit time renders as two digits, ':' and two digits that read back as the hour and the minute |
| TaskManager.VisitItem | components/TaskManager.tsx:36-43 | A pseudo-task has id 'visit-' and the visit id, priority Alta, the visit's date, and is done iff the visit is Realizada |
| TaskManager.UpcomingVisitItems | components/TaskManager.tsx:34-43 | One pseudo-task per visit whose day starts at or after now, in list order |
| TaskManager.UpcomingIffAfterToday | components/TaskManager.tsx:35 | Once today's midnight has passed, a visit counts as upcoming iff it is dated after today, so a visit later today is already left out |
| TaskManager.PseudoTasksAreUpcoming | components/TaskManager.tsx:35 | Every pseudo-task comes from an upcoming visit, whatever its status |
| TaskManager.AllItems | components/TaskManager.tsx:45 | The merged list has the tasks and the upcoming visits, sorted by due date, ties kept in merged order |
| TaskManager.TasksBeforeVisitsOnTies | components/TaskManager.tsx:45 | Among items due the same day, every manual task comes before every visit |
| TaskManager.ActionTarget | components/TaskManager.tsx:101-102 | The toggle and delete buttons act on exactly the manual tasks, by their own id |
| TaskManager.ManualRowTogglesItsTask | components/TaskManager.tsx:101 | Toggling a manual task's row flips that task and every task sharing its id, and leaves the rest as they were; when no other task shares the id, only that task changes |
| ClientList.FilteredClients | components/ClientList.tsx:18-23 | A client is listed iff it matches the area filter and the search ignoring case, in list order |
| ClientList.EveryoneListedByDefault | components/ClientList.tsx:14-23 | With 'All' and an empty search every client is listed, in order |
| ClientList.SearchIgnoresCase | components/ClientList.tsx:20-21 | Lower-casing the search term changes nothing |
| ClientList.AreaNarrowsList | components/ClientList.tsx:19 | Choosing one area lists only that area's clients, each of which 'All' also lists |
| ClientList.ProgressWidth | components/ClientList.tsx:100 | The bar never exceeds 100%, is full iff the count is at least 3, and is never negative |
| ClientList.ProgressMonotone | components/ClientList.tsx:100 | A larger count never gives a narrower bar |
| ClientList.ProgressLabel | components/ClientList.tsx:95 | The label shows the raw count in decimal between "Prospecção (" and "/3)" |
| ClientList.BarCapsLabelDoesNot | components/ClientList.tsx:95-100 | Beyond 3 the bar stays full while the label keeps counting |
| ClientList.EditNotes | components/ClientList.tsx:168-169 | Editing changes the selected copy's notes and nothing else |
| ClientList.SaveNotes | components/ClientList.tsx:25-29 | Leaving the notes box sends the selected copy to the client update, or does nothing without a selection |
| ClientList.SavingNotesTouchesOnlyNotes | components/ClientList.tsx:25-29 | With unique ids, saving an edit changes that client's notes and no other client |
| Reports.HasClientIn | components/Reports.tsx:14-15 | A visit's client belongs to an area iff some client of that area carries the id |
| Reports.VisitsByArea | components/Reports.tsx:13-17 | There is one bar per area, in enumeration order, and each bar is the number of Realizada visits whose client lies in that area (the length of the source's filter) |
| Reports.InAreaIffFound | components/Reports.tsx:14-15 | With unique client ids, a visit belongs to an area iff its client is found and lies there |
| Reports.OneVisitOneArea | components/Reports.tsx:13-17 | With unique client ids, a visit counts in exactly one bar if it is Realizada and its client is found, and otherwise in none |
| Reports.AreaBarsAddUp | components/Reports.tsx:13-17 | With unique client ids, the area bars add up to the Realizada visits whose client exists |
| Reports.UncountedVisitChangesNoBar | components/Reports.tsx:15 | A visit that is not Realizada, or whose client is unknown, leaves every bar unchanged |
| Reports.AllOpportunities | components/Reports.tsx:20 | Every opportunity of every visit is listed |
| Reports.AllOpportunitiesAppend | components/Reports.tsx:20 | Flattening distributes over concatenation of visit lists, so order is kept |
| Reports.OpportunityHasVisit | components/Reports.tsx:20 | Every listed opportunity was found on some visit |
| Reports.Bump | components/Reports.tsx:22 | One more opportunity raises its type's count by one and no other. A new type gets a row at the end |
| Reports.TallyFrom | components/Reports.tsx:21-24 | Tallying adds each type's number of opportunities to its count, and keeps type names distinct |
| Reports.OppsByType | components/Reports.tsx:21-29 | One row per service type, each named once, each counting the opportunities of that type; the counts add up to the number of opportunities |
| Reports.BarIffTypeFound | components/Reports.tsx:26-29 | A service type has a bar iff some opportunity is of that type |
| Reports.EstimatedValue | components/Reports.tsx:62 | The card, which adds only present non-zero values, equals the sum of all values with an absent value read as 0 |
| Reports.VisitsByMonth | components/Reports.tsx:32-36 | Twelve counters, each holding the visits dated in that month |
| Reports.MonthsAddUp | components/Reports.tsx:32-36 | Each visit lands in exactly one month, so the counters add up to the number of visits |
| Reports.MonthRows | components/Reports.tsx:37-39 | One point per month, in month order, carrying its counter |
| Reports.JsSlice | components/Reports.tsx:40 | `slice` counts a negative bound from the end, clamps both bounds, and is empty when they cross |
| Reports.MonthWindow | components/Reports.tsx:37-40 | As written, the chart is the six months ending with the current one from June on, and empty from January to May |
| Reports.MonthWindowFromJune | components/Reports.tsx:37-40 | From June on, the chart has six rows and the last is the current month |
| Reports.JanuaryVisitNotCharted | components/Reports.tsx:32-40 | A January visit seen in January is counted by its month's counter but does not appear in the chart |
| Reports.LastSixMonths | components/Reports.tsx:37-40 | The corrected window is six consecutive months, wrapping from December to January, ending with the current month and carrying each month's count |
| Reports.MonthlyData | components/Reports.tsx:37-40 | The chart the model uses always has six rows, the last of them the current month |
| Reports.MonthlyDataAgreesFromJune | components/Reports.tsx:37-40 | From June on, the corrected window equals the written one |
| Dashboard.ActiveProspects | components/Dashboard.tsx:14 | Active prospects are at most the number of clients |
| Dashboard.ActivePlusContracted | components/Dashboard.tsx:13-14 | Active prospects plus Contratado clients are all the clients |
| Dashboard.HotLeads | components/Dashboard.tsx:23 | The hot-lead card is the length of the Quente filter, and never more than the active prospects |
| Dashboard.HotLeadsAreActive | components/Dashboard.tsx:14-23 | A Quente client is not Contratado, so the Quente clients never outnumber the active prospects |
| Dashboard.ClassificationsPartition | components/Dashboard.tsx:31-34 | The four classifications split the clients |
| Dashboard.ClassificationData | components/Dashboard.tsx:31-34 | One bar per classification in enumeration order, zero counts included, each carrying the number of clients of that classification |
| Dashboard.ClassificationBarsAddUp | components/Dashboard.tsx:31-34 | The classification bars add up to the number of clients |
| Dashboard.AreaData | components/Dashboard.tsx:26-29 | The pie lists, in enumeration order, only areas with at least one client |
| Dashboard.AreaDataCounts | components/Dashboard.tsx:26-28 | Each slice carries its area's client count |
| Dashboard.AreaDataListsEveryArea | components/Dashboard.tsx:26-29 | Every area with a client has its slice |
| Dashboard.AreaSlicesAddUp | components/Dashboard.tsx:26-29 | The slices add up to the number of clients |
| Dashboard.StartOfWeek | components/Dashboard.tsx:16-17 | The week starts less than seven days before now, at the current time of day, on a day a whole number of weeks after the known Sunday 1970-01-04: the last Sunday at or before now |
| Dashboard.VisitsThisWeek | components/Dashboard.tsx:18-21 | The week card is the length of the filter keeping visits on or after the week start that are not Cancelada |
| Dashboard.WeekCountSkipsCancelled | components/Dashboard.tsx:18-21 | A Cancelada visit is never counted, so the card is at most the visits that are not Cancelada |
| Dashboard.WeekStartDayNeedsMidnight | components/Dashboard.tsx:16-20 | On the model's single local timeline, a visit on the week's first day counts only when the dashboard is computed exactly at midnight |
| Dashboard.LaterVisitsCount | components/Dashboard.tsx:18-21 | Any visit on a day starting after now is counted, however far ahead |
| ClientMap.DaysVisits | components/ClientMap.tsx:23-25 | The day's route is its non-Cancelada visits in ascending time, ties in list order |
| ClientMap.DaysVisitsMembers | components/ClientMap.tsx:23-24 | A visit is on the route iff it is in the list, on the selected day, and not Cancelada |
| ClientMap.VisitedOn | components/ClientMap.tsx:54 | The client is visited that day iff some day visit references it |
| ClientMap.MarkerFor | components/ClientMap.tsx:52-67 | A client gets a marker iff both coordinates are present and non-zero. The marker is highlighted iff some day visit references the client |
| ClientMap.ZeroCoordinateHidesMarker | components/ClientMap.tsx:53 | A coordinate of exactly 0 hides the client like a missing one |
| ClientMap.Markers | components/ClientMap.tsx:52-75 | Every client with coordinates has its marker drawn, and every marker drawn is some client's marker |
| ClientMap.MarkersOf | components/ClientMap.tsx:52-75 | Clients that all have coordinates give one marker each, in their order |
| ClientMap.MarkersAreClientsWithCoordinates | components/ClientMap.tsx:52-75 | The markers are exactly those of the clients with coordinates, one each, in client order |
| ClientMap.RoutePoints | components/ClientMap.tsx:78-85 | There are as many route points as day visits whose client is found with coordinates |
| ClientMap.RoutePointsAreResolvedVisits | components/ClientMap.tsx:79-85 | The route points are those of the day visits whose client is found with coordinates, in visit order; the other visits are skipped |
| ClientMap.RouteIffTwoResolved | components/ClientMap.tsx:78-87 | A route is drawn iff at least two day visits resolve to points; the outer check on the visit count adds nothing |

## Left out

- Rendering: JSX, modals, view switching, form field state, Leaflet and recharts drawing. Coordinates are only carried and compared with zero.
- Timers: `setInterval`/`clearInterval` and effect re-registration (App.tsx:196-198) are replaced by explicit runs of ticks. Toast auto-dismiss is left out.
- Toast messages and native notifications: refusals carry a reason, and an alert carries the notification's title and body.
- services/notificationService.ts, services/geminiService.ts, components/Auth.tsx, service-worker.js and vite.config.ts are not part of this model. They are browser APIs, network calls and build configuration.
- Time zones: `new Date('YYYY-MM-DD')` parses a date-only string as UTC midnight, while a date with a time and `setHours` work in local time. Every instant here lies on one local timeline. `isSameDay`, `isDateInPast`, the start of the week and the upcoming-visit test are therefore exact calendar comparisons, with no offset.
- `getTodayString`, `Date.now()` ids and "now" are parameters.
- Month and weekday names from `toLocaleString`: a month row carries its month index.
- `localeCompare` is modelled only on zero-padded 'HH:mm' strings and on the empty string.
- `toLowerCase` is ASCII case folding.
- `Number(...)` is modelled on decimal input with an optional sign and point. Other forms read as 0, like NaN.
- A NaN coordinate is not modelled.
- `prospectingCount` is a natural number. The app only ever sets it to a non-negative literal or adds one (App.tsx:258, App.tsx:310), so a negative or fractional count is not modelled.
- Object key order: `Object.keys` lists integer-like keys first. Service types are taken to be ordinary names, so rows keep first-seen order.
- `opportunitiesFound` is always present in the model. The `|| []` fallback in Reports.tsx:20 is the identity here.
- The completion handler `onCompleteVisit`: the app shell never passes it (App.tsx:411-415), so what happens when the draft is handed over is not modelled. `servicesList[0]` (Schedule.tsx:20) is a field of the draft.
- The missing service list: the app shell does not pass `servicesList` either, so `servicesList[0]` (components/Schedule.tsx:20) throws a TypeError on the first render and the agenda never renders as wired. The Schedule module models the screen as it would run with a service list; the crash itself is not modelled.
- TaskManager.AllItems: every task due date is taken to be a valid date. Both task forms accept a cleared date input (components/TaskManager.tsx:79-82, App.tsx:714-717). `new Date('')` is then an invalid date, and the comparator at components/TaskManager.tsx:45 returns NaN for it, which leaves the order implementation-defined.
- Number precision: JavaScript numbers are IEEE doubles. ClientList.ProgressWidth, Text.ParseDecimal, Schedule.NumberOrZero and Reports.EstimatedValue use exact rationals instead. The stated properties hold up to rounding, which is not modelled.
- Schedule.ConfirmCompletion: states the hand-over as a value returned to the caller. The call to a handler the shell never supplies is not modelled.
- Per-priority task tallies: no screen in the modelled core counts tasks per priority. Only the urgent-task filter uses the priority.
- Dashboard.StartOfWeek: works on the single local timeline. It does not model a daylight-saving shift inside the week.

## Findings

| source | as written | input that shows it | evidently intended | confidence | as-written member | corrected member |
|---|---|---|---|---|---|---|
| components/Reports.tsx:37-40 | The twelve months are cut with `slice(m - 5, m + 1)`, where m is the current month index. For m ≤ 4 the start is negative and counts from the end, past the end bound, so the slice is empty | Current month January (m = 0) and one visit dated in January: the January counter is 1, but the chart has no rows | The last six months ending with the current one, wrapping into the previous year's months | not executed | Reports.MonthWindow (shown by Reports.JanuaryVisitNotCharted) | Reports.LastSixMonths (used by Reports.MonthlyData, and equal to the written window from June on by Reports.MonthlyDataAgreesFromJune) |
