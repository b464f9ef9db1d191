# Work-timer model (controle-de-ponto-ilumeo)

This project models the work-timer engine of a small time-clock web app. A
worker identifies themself with an eight-character code, starts and stops a
clock, and sees their recorded work sessions grouped by day, with per-session
durations and a running grand total. The model covers:

- **Durations** (`DurationText`, `SessionServiceTsx`, `SessionService`):
  - the `"{h}h {m}m"` text of a millisecond interval, in both service variants;
  - the integer-division variant, which sums every session and counts an open one up to now;
  - the dayjs variant, which sums only the closed sessions;
  - the JavaScript operators these use, written out: floor division, truncating `%`, the
    template-literal rendering of an integer, and `parseInt`.
- **Client service calls** (`SessionService`): the input guards of
  `fetchSessions` and `saveSession`, how each maps a result, and how each turns a failure
  into a message. The HTTP round trip is replaced by a parameter: what the server answered.
- **Browser storage** (`TimerStorage`): the per-user start time under the key
  `timerStartTime_<code>`, as a class over a key/value map.
- **The timer hook** (`UseTimer`): `useTimer(userCode)` as a class whose fields are the
  hook's state. Its methods are:
  - mount: load the sessions, restore a saved start;
  - toggle, start and stop (stop saves a session);
  - the reset;
  - the once-a-second tick.
  The invariant is that the clock runs exactly when a start time is held, and storage holds
  exactly that start time.
- **Day grouping** (`SessionsByDay`): `groupSessionsByDate` as a loop over a map of
  buckets, proved against a filter-per-day specification. Also the `"Ativo"` and `"N/A"`
  display defaults.
- **Form validation** (`UserValidations`, `SessionSchema`): the zod schemas, as the
  ordered list of issue messages each one reports.
- **API routes** (`Db`, `Http` and one module per route): each handler maps a request and
  the table state to a status code, a JSON body and the new table state. Tables are
  classes over maps and sequences; reads are functions of the table contents. The routes
  are:
  - the timer route and its variant;
  - the paged and the unpaged session listing;
  - user registration and lookup.

Instants are integer milliseconds. `new Date(text)` on a request body is a parameter
`parse: string -> Option<int>`, where `None` is an Invalid Date. The calendar day and
clock text of an instant are parameters of the day grouping.

Where the design description of the system and its code disagree, the model follows the
code:

- The clock is reset to the text `"0h 00m"`, not `"0h 0m"`. `UseTimer.ResetTextIsNotADuration`
  shows that no formatted duration equals that text.
- Deleting a timer that is not there is not idempotent. The store rejects it, and both
  timer routes answer 500.
- Recording a session checks neither the dates nor a one-session-per-day rule.
- The hook keeps the running start time in browser storage, not behind a server call.
- The query parameters are `codeName`, `page` and `limit`.

## Model

| member | source | states |
|---|---|---|
| DurationText.JsRem | src/services/sessionService.tsx:30 | JavaScript `%` for a positive divisor: the dividend is the truncated quotient times the divisor plus the remainder, which has the dividend's sign and is smaller than the divisor in magnitude |
| DurationText.JsTruncDiv | src/services/sessionService.ts:147-151 | division that rounds toward zero, as dayjs's decomposition does: q*b <= a < (q+1)*b for a non-negative dividend, (q-1)*b < a <= q*b for a negative one |
| DurationText.ParseFormatRoundTrip | src/services/sessionService.tsx:31 | the `"{h}h {m}m"` text reads back to the same two integers |
| DurationText.FormatInjective | src/services/sessionService.tsx:31 | two duration texts are equal exactly when their hours and minutes are equal |
| DurationText.FloorComponents | src/services/sessionService.tsx:29-30 | for a non-negative interval the minutes lie in 0..59 and hours*60 + minutes is the whole number of minutes |
| DurationText.FloorFormat | src/services/sessionService.tsx:29-31 | the text of a non-negative interval is its whole minutes divided by 60 and modulo 60 |
| DurationText.FloorFormatSameMinutes | src/services/sessionService.tsx:27-32 | two non-negative intervals print the same text exactly when they have the same whole number of minutes |
| Decimal.NatToString | src/services/sessionService.tsx:31 | a natural prints as a non-empty digit string with no leading zero |
| Decimal.NatToStringRoundTrip | src/services/sessionService.tsx:31 | the digit string of a natural evaluates back to it |
| Decimal.IntToString | src/services/sessionService.tsx:31 | an integer prints as a non-empty text of digits and minus signs |
| Decimal.ParseInt | src/services/sessionService.tsx:31 | a strict decimal reader accepts exactly an optional minus sign followed by digits, with the sign of the result matching the text |
| Decimal.IntToStringRoundTrip | src/services/sessionService.tsx:31 | reading the printed integer gives it back |
| Decimal.JsParseInt | src/pages/api/sessions/index.api.ts:32-33 | `parseInt(text, 10)` is NaN for a text without digits and for one that starts with a character that is neither white space, a sign nor a digit |
| Decimal.IntToStringInjective | src/services/sessionService.tsx:31 | distinct integers print differently |
| Decimal.JsParseIntRoundTrip | src/pages/api/sessions/index.api.ts:32-33 | `parseInt(text, 10)` reads back every integer a template literal prints |
| SessionServiceTsx.CalculateDuration | src/services/sessionService.tsx:27-32 | for end >= start, the text is the whole minutes of the interval split into hours and minutes within the hour |
| SessionServiceTsx.ReduceIsSum | src/services/sessionService.tsx:35-41 | the left fold adds every session's interval to the accumulator, agreeing with the reference sum |
| SessionServiceTsx.CalculateTotalDuration | src/services/sessionService.tsx:34-50 | the grand total is the text of the sum of all intervals plus the live elapsed time, whatever the fold's grouping |
| SessionServiceTsx.TotalOfNothing | src/services/sessionService.tsx:34-50 | no sessions and no live time gives "0h 0m" |
| SessionServiceTsx.TotalOfOneClosedSession | src/services/sessionService.tsx:34-50 | the total of one closed session is that session's duration text |
| SessionServiceTsx.OpenSessionCountsToNow | src/services/sessionService.tsx:37-39 | an open session counts up to the current instant |
| SessionServiceTsx.SumConcat | src/services/sessionService.tsx:35-41 | the sum over two concatenated lists is the sum of the sums |
| SessionServiceTsx.SumPermutation | src/services/sessionService.tsx:35-41 | lists with the same sessions have the same sum |
| SessionServiceTsx.TotalIgnoresOrder | src/services/sessionService.tsx:34-50 | the grand total does not depend on the order of the sessions |
| SessionServiceTsx.HalfHourExample | src/services/sessionService.tsx:34-50 | a 30-minute session totals "0h 30m", and "2h 0m" with 90 live minutes added |
| SessionServiceTsx.TwoHoursFortyFiveExample | src/services/sessionService.tsx:27-32 | 2 h 45 min 30 s prints as "2h 45m" |
| SessionService.CalculateElapsedTime | src/services/sessionService.ts:138-145 | the elapsed time reaches the end instant, or the current instant when there is no end |
| SessionService.FormatDuration | src/services/sessionService.ts:147-151 | for a non-negative interval the dayjs formatting equals the integer-division formatting |
| SessionService.CalculateDuration | src/services/sessionService.ts:113-116 | for end >= start, the text is the whole minutes split into hours and minutes within the hour |
| SessionService.ReduceIsClosedSum | src/services/sessionService.ts:128-133 | the fold skips open sessions and adds the closed ones' intervals to the starting value |
| SessionService.CalculateTotalDuration | src/services/sessionService.ts:124-136 | the total is the text of the live elapsed time plus the closed sessions' intervals |
| SessionService.ClosedSumOfOpen | src/services/sessionService.ts:129 | sessions that are all still open contribute nothing |
| SessionService.TotalWithoutClosedSessions | src/services/sessionService.ts:124-136 | with only open sessions the total is the text of the live elapsed time |
| SessionService.ClosedSumConcat | src/services/sessionService.ts:128-133 | the closed-session sum splits over concatenation |
| SessionService.TotalWithNewSession | src/services/sessionService.ts:124-136 | a closed session put in front adds exactly its interval to the total |
| SessionService.ServerMessageOr | src/services/sessionService.ts:68-69 | the server's non-empty message wins, otherwise the fallback text |
| SessionService.WithDuration | src/services/sessionService.ts:51-59 | a listed session keeps its fields and gets a duration exactly when it has an end |
| SessionService.MapWithDuration | src/services/sessionService.ts:51-59 | every listed session is mapped, one for one, in order |
| SessionService.FetchSessions | src/services/sessionService.ts:34-76 | an empty code fails before any request; a reply with a `sessions` array succeeds with the mapped sessions and `total` (0 when missing); a malformed reply or a non-HTTP failure gives the "unknown" message; an HTTP failure gives the server's message or the fallback |
| SessionService.SaveSession | src/services/sessionService.ts:83-105 | an incomplete payload fails before any request; otherwise the saved session, or the server's message or the fallback |
| SessionService.EmptyCodeSendsNothing | src/services/sessionService.ts:37 | for an empty code the outcome does not depend on any server answer |
| TimerStorage.Key | src/utils/timerStorage.ts:4 | the storage key is the prefix `timerStartTime_` followed by the user code |
| TimerStorage.KeyInjective | src/utils/timerStorage.ts:3-10 | two codes share a key exactly when they are equal |
| TimerStorage.Lookup | src/utils/timerStorage.ts:5-8 | a start time is read exactly when the code's key is present |
| TimerStorage.LocalStorage.SaveStartTime | src/utils/timerStorage.ts:3-4 | the code's key now maps to the start time; nothing else changes |
| TimerStorage.LocalStorage.GetStartTime | src/utils/timerStorage.ts:5-8 | returns the saved instant, or none |
| TimerStorage.LocalStorage.ClearStartTime | src/utils/timerStorage.ts:9-10 | the code's key is removed; nothing else changes |
| TimerStorage.SaveThenGet | src/utils/timerStorage.ts:3-8 | a save followed by a read returns the saved instant; a second save overwrites |
| TimerStorage.ClearThenGet | src/utils/timerStorage.ts:5-10 | after a clear nothing is read, and clearing twice equals clearing once |
| TimerStorage.OtherUsersUntouched | src/utils/timerStorage.ts:3-10 | saving or clearing one code leaves every other code's entry as it was |
| UseTimer.TrimStart | src/hooks/userTime.ts:7-8 | removes exactly the leading JavaScript white space |
| UseTimer.TrimEnd | src/hooks/userTime.ts:7-8 | removes exactly the trailing JavaScript white space |
| UseTimer.IsValidUserCode | src/hooks/userTime.ts:7-8 | a user code is valid exactly when it has a character that is not white space |
| UseTimer.BlankCodeIsInvalid | src/hooks/userTime.ts:7-8 | a code made only of white space is invalid |
| UseTimer.CalculatePreciseDuration | src/hooks/userTime.ts:132-137 | for end >= start, the whole minutes of the interval split into hours and minutes |
| UseTimer.FormatSession | src/hooks/userTime.ts:123-130 | keeps the session's fields and sets the duration up to the end, or up to now while open |
| UseTimer.FormatSessions | src/hooks/userTime.ts:55 | formats each loaded session, one for one |
| UseTimer.ResetTextIsNotADuration | src/hooks/userTime.ts:107 | the reset text "0h 00m" equals no formatted duration |
| UseTimer.TimerController.constructor | src/hooks/userTime.ts:7-17 | the initial state: stopped, no start time, both texts "0h 00m", no sessions, loading only for a valid code |
| UseTimer.TimerController.RefreshTotal | src/hooks/userTime.ts:29-39 | while stopped the total is recomputed with no live time; while running it is kept |
| UseTimer.TimerController.LoadSessions | src/hooks/userTime.ts:52-59 | on success the fetched sessions, formatted, replace the list; a failure leaves it unchanged |
| UseTimer.TimerController.RestoreTimerState | src/hooks/userTime.ts:61-71 | a saved start time puts the clock in the running state with that start |
| UseTimer.TimerController.Mount | src/hooks/userTime.ts:19-50 | loading ends; for a valid code the sessions are loaded and the clock runs exactly when a start time was saved; for an invalid code nothing else changes |
| UseTimer.TimerController.StartClock | src/hooks/userTime.ts:81-86 | running from now, with now saved under the code's key and nothing else stored changed |
| UseTimer.TimerController.ResetClockState | src/hooks/userTime.ts:104-109 | stopped, no start, reset text, and the saved start cleared |
| UseTimer.TimerController.StopClock | src/hooks/userTime.ts:88-102 | a saved session is put in front of the list; a failed save leaves the list as it was and returns the error; either way the clock is reset and storage cleared |
| UseTimer.TimerController.ToggleClock | src/hooks/userTime.ts:73-79 | stopping resets the clock, clears the saved start, puts a saved session in front of the list (or returns the failure) and recomputes the total; starting saves the start and keeps the sessions, both texts and `loading`; for an invalid code, a no-op |
| UseTimer.TimerController.UpdateCurrentDuration | src/hooks/userTime.ts:111-121 | the clock text is the elapsed time since the start, and the total includes it as live time |
| UseTimer.TimerController.View | src/hooks/userTime.ts:139-155 | for a valid code it exposes the state; otherwise, the constant stopped view |
| SessionsByDay.SessionsOn | src/components/sessionsByDays.tsx:17-22 | every session in a day's group started on that day |
| SessionsByDay.GroupSessionsByDate | src/components/sessionsByDays.tsx:14-23 | the buckets are created in first-seen order; their keys are those days; each bucket holds exactly that day's sessions in input order |
| SessionsByDay.DaysAreStartDays | src/components/sessionsByDays.tsx:17-22 | a day has a bucket exactly when some session started on it |
| SessionsByDay.DaysDistinct | src/components/sessionsByDays.tsx:19 | each day gets one bucket |
| SessionsByDay.SessionInItsDay | src/components/sessionsByDays.tsx:18-20 | every session is in the bucket of its start day |
| SessionsByDay.OnlyInItsDay | src/components/sessionsByDays.tsx:18-20 | a session is in no other day's bucket |
| SessionsByDay.SessionsOnConcat | src/components/sessionsByDays.tsx:20 | grouping a concatenation concatenates the groups, so input order is kept within a day |
| SessionsByDay.GroupSizesSumToLength | src/components/sessionsByDays.tsx:17-22 | the bucket sizes add up to the number of sessions |
| SessionsByDay.NoSessionsNoGroups | src/components/sessionsByDays.tsx:17-22 | no sessions, no buckets |
| SessionsByDay.EndLabel | src/components/sessionsByDays.tsx:30-32 | an open session shows "Ativo"; a closed one shows its end's clock text |
| SessionsByDay.DurationLabel | src/components/sessionsByDays.tsx:33 | a missing or empty duration shows "N/A" |
| UserValidations.UserCodeIssues | src/validations/userValidations.ts:4-14 | an empty code reports all three messages; the length message appears exactly when the length is not 8 |
| UserValidations.UserCodeAcceptedIff | src/validations/userValidations.ts:5-13 | a login code is accepted exactly when it has 8 characters, each A-Z or 0-9 |
| UserValidations.LowerCaseRejected | src/validations/userValidations.ts:11-13 | a lower-case letter brings the pattern message, and the code is rejected |
| UserValidations.UpperChar | src/pages/home/index.page.tsx:30 | lower-case ASCII letters map to upper case; other characters stay |
| UserValidations.ToUpper | src/pages/home/index.page.tsx:30 | upper-cases the text character by character |
| UserValidations.UpperCasedCodeAccepted | src/pages/home/index.page.tsx:30 | eight ASCII letters and digits typed in any case are accepted once upper-cased |
| UserValidations.SampleCodeAccepted | src/validations/userValidations.ts:5-13 | "ABCD1234" is accepted, and "abcd1234" upper-cases to it |
| UserValidations.UserIssues | src/validations/userValidations.ts:17-26 | an empty name reports the name message first |
| UserValidations.RegistrableCodesAreLoginCodes | src/validations/userValidations.ts:17-26 | a user is registrable exactly when the name is non-empty and the code is an accepted login code |
| SessionSchema.SessionIssues | src/validations/sessionSchema.ts:3-7 | a field's message appears exactly when that field is empty; there are no issues exactly when all three are non-empty |
| SessionSchema.NoFormatCheck | src/validations/sessionSchema.ts:3-7 | any non-empty strings pass, even with start and end swapped |
| Db.FindTimer | src/pages/api/timer/index.api.ts:36-38 | a timer row is found exactly when the code has one, with its start time |
| Db.TimerTable.Upsert | src/pages/api/timer/index.api.ts:54-58 | the code's row now holds the start time; other rows are unchanged |
| Db.TimerTable.Delete | src/pages/api/timer/index.api.ts:70-72 | the row is removed; the delete succeeds exactly when the row was there |
| Db.FindUser | src/pages/api/users/index.api.ts:37-39 | a user is found exactly when some row has the code, and it is such a row |
| Db.UserTable.Create | src/pages/api/users/index.api.ts:47-49 | a free code appends one user; a taken code is refused and nothing changes |
| Db.CreateKeepsUsersValid | src/pages/api/users/index.api.ts:37-51 | creating a user under a free code keeps codes unique |
| Db.SessionsOfUser | src/pages/api/sessions.api.ts:36-39 | a session is listed exactly when it is a row of the table belonging to the user |
| Db.SessionsOfUserAppend | src/pages/api/sessions.api.ts:69-75 | appending a row extends only its owner's listing |
| Db.SessionTable.Create | src/pages/api/sessions.api.ts:69-75 | appends exactly one row, numbered by the row count, and keeps ids positional |
| Db.NextSessionIdIsFresh | src/pages/api/sessions.api.ts:69-75 | with positional ids, the next id is held by no existing row |
| Http.SingleText | src/pages/api/timer/index.api.ts:32 | a query value passes the handlers' non-empty-string guard exactly when it is one non-empty string |
| Http.TextOr | src/pages/api/sessions/index.api.ts:26-33 | an absent parameter takes its default; a single one is its text |
| TimerIndexApi.HandleGet | src/pages/api/timer/index.api.ts:29-45 | a missing or non-string code is 400; a code without a timer is 200 `{start_time: null}`; otherwise 200 with the row |
| TimerIndexApi.HandlePost | src/pages/api/timer/index.api.ts:47-61 | a missing field is 400 with the table unchanged; an unreadable date escapes as 500 with the table unchanged; otherwise the row is upserted and returned |
| TimerIndexApi.HandleDelete | src/pages/api/timer/index.api.ts:63-75 | a bad code is 400; an absent row escapes as 500; otherwise the row is removed and 200 |
| TimerIndexApi.Handler | src/pages/api/timer/index.api.ts:4-27 | dispatches GET, POST and DELETE; any other verb is 405 with `Allow: GET, POST, DELETE` and the table untouched |
| TimerIndexApi.GetAfterPost | src/pages/api/timer/index.api.ts:36-60 | after a successful POST, GET for that code returns the posted start |
| TimerIndexApi.GetAfterDelete | src/pages/api/timer/index.api.ts:36-74 | after a successful DELETE, GET for that code returns `{start_time: null}` |
| TimerIndexApi.OtherCodesUntouched | src/pages/api/timer/index.api.ts:54-74 | a POST or DELETE leaves every other code's row as it was |
| TimerIndexApi.SecondPostRebases | src/pages/api/timer/index.api.ts:54-58 | two successful POSTs for one code leave only the second start |
| TimerApi.HandleGet | src/pages/api/timer.api.ts:43-64 | a bad code is 400; a code without a timer is 404 "Timer não encontrado"; otherwise 200 with the row |
| TimerApi.HandlePost | src/pages/api/timer.api.ts:22-41 | a missing field is 400; an unreadable date is a caught 500; otherwise an upsert and 200, with the table unchanged on every failure |
| TimerApi.HandleDelete | src/pages/api/timer.api.ts:66-83 | a bad code is 400; an absent row is a caught 500; otherwise the row is removed and 204 |
| TimerApi.Handler | src/pages/api/timer.api.ts:4-20 | dispatches POST, GET and DELETE; other verbs are 405 and change nothing |
| TimerApi.GetAfterPost | src/pages/api/timer.api.ts:22-64 | after a successful POST, GET for that code returns the posted start |
| TimerApi.DeleteIsNotRepeatable | src/pages/api/timer.api.ts:51-82 | after a 204 delete, GET is 404 and a second delete is 500 and changes nothing |
| SessionsPagedApi.SortByStartDesc | src/pages/api/sessions/index.api.ts:50 | the ordering puts the newest start first and keeps exactly the same rows |
| SessionsPagedApi.Page | src/pages/api/sessions/index.api.ts:46-51 | a page holds at most `limit` rows: the slice from (page-1)*limit, or nothing past the end |
| SessionsPagedApi.CeilDiv | src/pages/api/sessions/index.api.ts:61 | `totalPages` is the least page count that covers `total` rows |
| SessionsPagedApi.PagesArePrefix | src/pages/api/sessions/index.api.ts:46-51 | pages 1..k concatenated are the first k*limit rows |
| SessionsPagedApi.AllPagesCoverRows | src/pages/api/sessions/index.api.ts:46-61 | pages 1..totalPages concatenated are exactly all the rows |
| SessionsPagedApi.PagesPastTheEndAreEmpty | src/pages/api/sessions/index.api.ts:46-61 | a page after `totalPages` is empty |
| SessionsPagedApi.HandleGet | src/pages/api/sessions/index.api.ts:25-67 | a bad code is 400; an unknown user is 404 naming the code; an unreadable or non-positive page or limit is 500; otherwise 200 with the page of the user's newest-first sessions, `total`, `page` and `totalPages` |
| SessionsPagedApi.Handler | src/pages/api/sessions/index.api.ts:7-20 | GET is served; anything else is 405 |
| SessionsPagedApi.DefaultIsTenNewest | src/pages/api/sessions/index.api.ts:26-51 | without `page` and `limit` the answer is the ten newest sessions, on page 1 |
| SessionsPagedApi.TotalIgnoresPage | src/pages/api/sessions/index.api.ts:53-61 | `total` and `totalPages` are the user's session count and its ceiling over `limit`, on every page |
| SessionsPagedApi.PagesYieldEverySession | src/pages/api/sessions/index.api.ts:46-61 | requesting pages 1..totalPages yields every session of the user exactly once, newest first |
| SessionsApi.HandleGet | src/pages/api/sessions.api.ts:29-48 | a bad code is 400; an unknown user is 404 naming the code; otherwise 200 with all of that user's sessions |
| SessionsApi.HandlePost | src/pages/api/sessions.api.ts:53-78 | a missing field is 400 and an unknown user 404, both writing nothing; an unreadable date escapes as 500; otherwise exactly one row with the user's id, start and end is appended and returned with 201 |
| SessionsApi.Handler | src/pages/api/sessions.api.ts:7-24 | dispatches GET and POST; other verbs are 405 and change nothing |
| SessionsApi.PostedSessionIsListed | src/pages/api/sessions.api.ts:36-77 | a recorded session appears at the end of its owner's listing; every other user's listing is unchanged |
| SessionsApi.RejectedPostWritesNothing | src/pages/api/sessions.api.ts:56-67 | a POST that does not answer 201 leaves the table as it was |
| SessionsApi.NoOrderCheck | src/pages/api/sessions.api.ts:53-77 | any readable start and end are recorded, even an end before the start |
| UsersApi.HandlePost | src/pages/api/users/index.api.ts:29-56 | a missing name or code is 400; a taken code is 409; both leave the table unchanged; otherwise one user is appended and returned with 201 |
| UsersApi.HandleGet | src/pages/api/users/index.api.ts:61-78 | a bad code is 400; otherwise 200 with `exists` true exactly when some user has the code |
| UsersApi.Handler | src/pages/api/users/index.api.ts:7-24 | dispatches POST and GET; other verbs are 405 and change nothing |
| UsersApi.PostKeepsCodesUnique | src/pages/api/users/index.api.ts:37-51 | every POST keeps user codes unique across the table |
| UsersApi.RegisteredCodeExists | src/pages/api/users/index.api.ts:37-73 | after a 201 the code reports `exists: true`, and posting it again is 409 |

## Left out

- Rendering: the React components, the pages, the chart and styling are not modelled. The component text per session (`HH:mm`, `DD/MM/YYYY`) is not modelled either: the day and clock-text functions are parameters.
- React's scheduling of the hook:
  - effect re-runs are not modelled;
  - the one-second interval is an explicit `UpdateCurrentDuration` call;
  - awaited steps are sequential method calls, with no interleaving, cancellation or unmounting.
- Dates and clocks: instants are integer milliseconds, and `Date.now()` is a parameter. ISO text and `new Date(text)` are abstracted: parsing is a parameter, and `toISOString` is taken to be exact at millisecond precision.
- Floating point: all arithmetic is on integers. Number-to-text has no exponent notation, which JavaScript uses from 1e21 on.
- dayjs: the duration object is modelled by integer arithmetic on its millisecond length.
- Transport and logging:
  - axios and its error objects are modelled only as a three-way reply;
  - the Prisma client's internals and `$connect`/`$disconnect` are not modelled;
  - `console` logging is not modelled.
- Store failures other than the rejections named in the model: a lost connection, for example, is not modelled. So the catch branches that only such failures reach are left out. These are the 500s of the timer variant's GET, of user registration and lookup, and of the paged listing's queries.
- JSON body members are modelled as strings only. A numeric or array body member is not modelled.
- Row ids are numbered in creation order. Prisma's generated ids and timestamp columns are not modelled.
- The unpaged listing `include: { sessions: true }` has no `orderBy`, so the database decides its order. The model lists a user's sessions in creation order, and `SessionsApi.PostedSessionIsListed` places a new session last on that basis.
- Prisma's order among sessions with the same start time is database-defined. The model fixes one such order, and its lemmas state only newest-first order and same rows.
- User codes are lists of Unicode code points, not UTF-16 units. `toUpperCase` is modelled on ASCII only.
- Concurrency is not modelled: neither the check-then-create race in user registration nor two tabs starting one user's timer.
- SessionsPagedApi.HandleGet: a `limit` or `page` below 1 is modelled as the store's 500. The model does not follow Prisma's own handling: an empty `take`, a negative `take` that reads backwards, a `totalPages` of Infinity.
- UseTimer.TimerController.Mount: `userCode` is fixed per controller, so the mount effect re-running on a changed code is not modelled. Its total is the stopped-clock recomputation over the loaded sessions, even when the clock is restored as running: the model runs the second effect after the load, whereas React may batch the renders so that effect never sees the clock stopped and the initial total stays until the first tick.
- UseTimer.TimerController.StopClock: the outcome of `saveSession` is a parameter. The ISO payload the hook sends is not modelled, nor its check against `SessionService.SaveSession`'s guard (always passed, since the code is valid and both times are printed).
- The `.tsx` service's `fetchSessions` and `saveSession` return the reply body unchanged and are not modelled.
- Not modelled, being pass-throughs or plumbing: `src/pages/api/users.api.ts`, `src/pages/api/users/[code].api.ts`, `src/services/userServices.ts`, `src/pages/api/users/useService.api.ts`, `src/pages/api/test-db.api.ts`, `prisma/seed.ts`, `src/lib/axios.ts`, `src/lib/prisma.ts`.
