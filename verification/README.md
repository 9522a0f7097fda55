# Battle quiz-show admin: a Dafny model of its core logic

This project models the parts of the Battle quiz-show admin web application that decide
something: who may see which page, how long a browser session lives, how often a login may
be tried, how user text is cleaned, how a category draft between two teams proceeds, and how
questions are imported, exported, listed and counted. The application is a Next.js/TypeScript
front end over a hosted database; everything that talks to the database, the browser or the
clock is replaced here by parameters, so each rule becomes a contract on a function or on a
method of a class whose fields stand for the state the application keeps.

One Dafny file per source file, plus two shared ones:

- `common.dfy` (`Common`): `Option`, and the array operations the source uses (`filter`,
  `map`, counting, concatenation, sums), with their algebra.
- `jsstring.dfy` (`JsString`): the JavaScript string behaviour the source relies on:
  `trim` and its white-space set, ASCII case folding as a case-insensitive regular expression
  without the `u` flag does it, `includes`/`startsWith`/`endsWith`, `split`, decimal
  rendering and `parseInt`.
- `rate_limiter.dfy` (`RateLimit`), `session_manager.dfy` (`Session`),
  `middleware.dfy` (`Middleware`), `auth_guard.dfy` (`AuthGuard`), `sanitize.dfy`
  (`Sanitize`), `file_validator.dfy` (`FileValidator`), `error_handler.dfy`
  (`ErrorHandler`), `activity_logger.dfy` (`ActivityLogger`), `category_selection.dfy`
  (`CategorySelection`), `team_setup.dfy` (`TeamSetup`), `bulk_import.dfy` (`BulkImport`),
  `master_bulk_import.dfy` (`MasterBulkImport`), `parse_excel.dfy` (`ParseExcel`),
  `parse_pdf.dfy` (`ParsePdf`), `backup_export.dfy` (`BackupExport`), `activity_logs.dfy`
  (`ActivityLogs`), `game_analytics.dfy` (`GameAnalytics`).

Time (`Date.now()`) is a `now` parameter in milliseconds, random identifiers are parameters,
the browser's local storage slot is a field of type `Option`, and what the database returns
is an input value.

## Model

| member | source | states |
|---|---|---|
| RateLimit.Admit | lib/rate-limiter.ts:17-36 | an attempt is allowed iff the identifier has no entry, its window has ended (`now > resetTime`; at `now == resetTime` the old window still applies) or fewer than `maxAttempts` were counted; a missing or ended window is replaced by one attempt and a window ending `windowMs` from now; inside a window the end is kept and the count grows by one exactly when the attempt is allowed |
| RateLimit.WindowAllows | lib/rate-limiter.ts:17-36 | inside one window, an entry that has counted `c` attempts lets exactly `min(n, max(0, maxAttempts - c))` of the next `n` calls through: all refusals come after all admissions |
| RateLimit.FreshWindowAllows | lib/rate-limiter.ts:21-35 | for an identifier with no entry, calls falling within `windowMs` of the first are allowed `min(n, max(1, maxAttempts))` times: never more than the limit, and the first call always |
| RateLimit.RemainingSeconds | lib/rate-limiter.ts:38-44 | the remaining time is never negative, 0 for an unknown identifier or an ended window, and otherwise the number of whole seconds rounded up: `(r - 1) * 1000 < resetTime - now <= r * 1000` |
| RateLimit.RateLimiter.constructor | lib/rate-limiter.ts:7-15 | a limiter starts with no entries and the given limit and window |
| RateLimit.RateLimiter.IsAllowed | lib/rate-limiter.ts:17-36 | returns the decision of `Admit` on the identifier's entry, stores the new entry under that identifier only, and keeps every count between 1 and `max(1, maxAttempts)` |
| RateLimit.RateLimiter.GetRemainingTime | lib/rate-limiter.ts:38-44 | returns `RemainingSeconds` of the identifier's entry and changes nothing |
| RateLimit.RateLimiter.Reset | lib/rate-limiter.ts:46-48 | removes exactly the identifier's entry, so its next attempt opens a fresh window |
| RateLimit.NewLoginRateLimiter | lib/rate-limiter.ts:52 | the login limiter allows 5 attempts per 900000 ms and starts empty |
| RateLimit.NewSearchRateLimiter | lib/rate-limiter.ts:53 | the search limiter allows 30 attempts per 60000 ms and starts empty |
| RateLimit.NewApiRateLimiter | lib/rate-limiter.ts:54 | the API limiter allows 100 attempts per 60000 ms and starts empty |
| RateLimit.LoginScenario | lib/rate-limiter.ts:52 | six login attempts one millisecond apart on a fresh login limiter give five admissions and then a refusal |
| Session.Created | lib/session-manager.ts:18-29 | the stored record has `loginTime == lastActivity == now`, expires one hour after login, and is live at `now` |
| Session.Read | lib/session-manager.ts:35-60 | `getSession` returns the stored record exactly when the slot holds a record that parses, `now <= expiresAt` and `now - lastActivity <= 1800000`, and returns it unchanged |
| Session.TouchAllKeepsExpiry | lib/session-manager.ts:62-69 | after any sequence of activity updates a surviving record is the original one with only `lastActivity` changed |
| Session.AbsoluteLifetime | lib/session-manager.ts:14-69 | however many activity updates follow a login, the session reads as absent once more than an hour has passed since login |
| Session.TouchKeepsAlive | lib/session-manager.ts:50-69 | an activity update at `t` keeps a live session readable, unchanged but for `lastActivity == t`, up to thirty minutes later within its hour |
| Session.ExtendWindow | lib/session-manager.ts:71-79 | extending at `t` sets the expiry to `t` plus one hour, but the session still lapses after thirty idle minutes |
| Session.TimerSignalsAsWritten | lib/session-manager.ts:110-117 | the timer callback as written signals only when the second clock reading is later than the first |
| Session.TimerNeverSignals | lib/session-manager.ts:110-117 | when both clock readings agree, the callback as written never signals, even when it is the callback that drops an idle session |
| Session.TimerSignals | lib/session-manager.ts:109-117 | the intended callback signals exactly when a parsed stored record has been idle for more than thirty minutes, and then the read drops it |
| Session.SessionManager.constructor | lib/session-manager.ts:12-16 | the manager starts with an empty slot, no timer and no expiry event |
| Session.SessionManager.SetSession | lib/session-manager.ts:18-33 | the slot holds `Created(...)`, replacing any previous record, and the timer is armed |
| Session.SessionManager.GetSession | lib/session-manager.ts:35-60 | returns `Read` of the old slot; a record that is refused (expired, idle or corrupt) is removed and the timer cancelled; an accepted one is kept |
| Session.SessionManager.UpdateActivity | lib/session-manager.ts:62-69 | a live record gets `lastActivity := now` with its expiry unchanged and the timer restarted; otherwise only the self-clearing read happens |
| Session.SessionManager.ExtendSession | lib/session-manager.ts:71-79 | a live record gets `expiresAt := now + 3600000` and `lastActivity := now`; the timer is not touched |
| Session.SessionManager.ClearSession | lib/session-manager.ts:81-87 | the slot is empty and no timer is pending, whatever the state before (so clearing twice is clearing once) |
| Session.SessionManager.IsSessionValid | lib/session-manager.ts:89-91 | true iff `getSession` would return a record, with the same self-clearing |
| Session.SessionManager.GetRemainingTime | lib/session-manager.ts:93-98 | 0 without a live session, otherwise `expiresAt - now`, which is never negative |
| Session.SessionManager.ValidateSession | lib/session-manager.ts:121-132 | true iff a live record has a non-empty session id, email and user id; a live record missing one of them is removed |
| Session.SessionManager.ForceLogout | lib/session-manager.ts:135-143 | the slot is empty and the timer cancelled |
| Session.SessionManager.CheckPageAccess | lib/session-manager.ts:146-156 | refuses exactly a path that starts with one of the four guarded prefixes while no live session exists, and then logs out; an allowed request keeps the slot |
| Session.SessionManager.ActivityTimerFires | lib/session-manager.ts:110-117 | the callback as written clears the session and dispatches one `sessionExpired` event exactly when `TimerSignalsAsWritten` holds |
| Session.SessionManager.ActivityTimerFiresCorrected | lib/session-manager.ts:110-117 | the intended callback drops a refused record and dispatches one event exactly when a record is dropped for inactivity |
| Session.SessionManager.OnFocus | lib/session-manager.ts:162-170 | the focus listener performs `updateActivity` on a live session and dispatches nothing |
| Middleware.Decide | middleware.ts:5-113 | a path outside the protected prefixes passes with no headers; a protected path with neither token redirects to `/login` with `redirect = pathname`; a redirect that carries the parameter always carries the requested path; a pass on a protected path carries exactly the eight security headers |
| Middleware.MasterRoutesProtected | middleware.ts:9-20 | every master-only prefix is also a protected prefix, so the role check only runs after authentication |
| Middleware.PassIff | middleware.ts:25-109 | a protected path is served iff a token is present, the configuration exists, the user lookup found a user, the admin record is found and active, and a master-only path is asked for by a `master_admin`; it is then served with exactly the security headers |
| Middleware.RedirectCases | middleware.ts:42-95 | a missing configuration, a thrown lookup, and a missing, failed or inactive admin record redirect to `/login` without the parameter; a failed or empty user lookup redirects with it; the redirect to `/dashboard` happens iff an active non-master admin asks for a master-only path |
| Middleware.DashboardRedirectSettles | middleware.ts:89-112 | following the redirect to `/dashboard` with the same credentials is served, not redirected again |
| AuthGuard.OrNull | components/auth-guard.tsx:51 | `email \|\| null` is absent exactly for a missing or empty email and is the email otherwise |
| AuthGuard.RoleFor | components/auth-guard.tsx:91 | the new local session's role is `master_admin` iff the email equals the configured master email, else `admin` |
| AuthGuard.Render | components/auth-guard.tsx:109-132 | the loading notice shows iff loading; the children show iff not loading and either authentication is not required or the guard is authenticated |
| AuthGuard.Guard.constructor | components/auth-guard.tsx:14-23 | a guard mounts unauthenticated, loading and without an email |
| AuthGuard.Guard.CheckAuth | components/auth-guard.tsx:60-107 | without a provider session, or on a provider error, the guard is signed out and pushes `/login` only when authentication is required and the path is not `/login`; an exception signs it out and pushes `/login` when required; a master-only guard pushes `/dashboard` for any other email and leaves the authentication flag and the local session (after its self-clearing read) alone; otherwise a live local session is touched, a missing one is created with `RoleFor`'s role, and the guard is signed in; loading ends on every path and the children show iff authentication is not required or it succeeded |
| AuthGuard.Guard.OnAuthStateChange | components/auth-guard.tsx:41-53 | a sign-out or an event without a session clears the local session, signs the guard out and replaces the route with `/login` when required; a sign-in with a session signs it in with `email \|\| null`; other events change nothing |
| Sanitize.SanitizeInput | lib/sanitize.ts:2-18 | empty input gives empty output; the result holds no `<`, `>`, `"`, `'`, CR, LF or TAB, every `&` in it opens one of the five entities, and it neither starts nor ends with white space |
| Sanitize.EscapeSafe | lib/sanitize.ts:6-15 | the escape step leaves no angle bracket or quote in text without control characters |
| Sanitize.EscapeEntities | lib/sanitize.ts:6-15 | in escaped text every `&` opens an entity, so an `&` of the input never survives bare |
| Sanitize.EscapeAppend | lib/sanitize.ts:6-15 | the global replace works character by character: escaping a concatenation is concatenating the escapes |
| Sanitize.EscapeCommutes | lib/sanitize.ts:6-16 | removing CR/LF/TAB after the escape step gives what removing them before it would |
| Sanitize.TrimKeepsEntities | lib/sanitize.ts:17 | trimming never cuts an entity in half |
| Sanitize.DecodeEscape | lib/sanitize.ts:6-15 | decoding the five entities undoes the escape step exactly (the replacement is a single pass, so no `&amp;` is re-escaped) |
| Sanitize.SanitizeInputDecodes | lib/sanitize.ts:2-18 | decoding the text before the trim recovers the input minus CR/LF/TAB; the result is that escaped text, trimmed |
| Sanitize.SanitizeForDB | lib/sanitize.ts:21-28 | the result holds no quote, backslash or semicolon; it is the first `min(n, 1000)` characters of the stripped and trimmed input of length `n`, so all of it when that fits |
| Sanitize.EscapeAngles | lib/sanitize.ts:35 | no angle bracket is left and every character comes from the input or from `&lt;`/`&gt;` |
| Sanitize.RemoveAllCI | lib/sanitize.ts:36 | removing `javascript:` case-insensitively introduces no character |
| Sanitize.RemoveOnAttrs | lib/sanitize.ts:37 | removing `on\w+=` introduces no character |
| Sanitize.SanitizeHTML | lib/sanitize.ts:31-38 | empty input gives empty output and no angle bracket survives |
| Sanitize.SanitizeHTMLPlain | lib/sanitize.ts:31-38 | text with no angle bracket and no `j`/`o` (in either case) passes through all three steps unchanged |
| FileValidator.ReplaceUnsafe | lib/file-validator.ts:81 | same length; each character outside `[a-zA-Z0-9.-]` becomes `_`, the others stay |
| FileValidator.CollapseUnderscores | lib/file-validator.ts:82 | no two underscores remain adjacent, no character is introduced, the text never grows, and its first and last characters are kept |
| FileValidator.CollapseRun | lib/file-validator.ts:82 | a run of one or more underscores becomes a single underscore |
| FileValidator.CollapseAppend | lib/file-validator.ts:82 | cut anywhere except inside a run of underscores, the collapse of a text is the collapse of each part; with CollapseRun this fixes the result for every text |
| FileValidator.CollapseKeepsOthers | lib/file-validator.ts:82 | every character other than an underscore is kept, in order |
| FileValidator.ReplaceKeepsSafe | lib/file-validator.ts:81 | the characters that are not underscores after the replacement are exactly the safe characters of the name, in order |
| FileValidator.SanitizeFileName | lib/file-validator.ts:79-84 | the stored name uses only `[a-zA-Z0-9._-]`, has no double underscore, is the first `min(n, 100)` characters of the replaced and collapsed name of length `n`, and is empty only for an empty name; its characters other than underscores are a prefix of the safe characters of the name, and all of them when the name has at most 100 characters |
| FileValidator.SanitizeFileNameFixpoint | lib/file-validator.ts:79-84 | a name that is already safe, free of double underscores and short enough is kept as it is |
| FileValidator.SanitizeFileNameIdempotent | lib/file-validator.ts:79-84 | sanitising twice is sanitising once |
| FileValidator.SuspiciousIff | lib/file-validator.ts:86-99 | a name is suspicious iff it ends in `.php`, `.js`, `.html`, `.exe`, `.bat` or `.sh` or contains `script`, all case-insensitively; the `javascript` pattern is subsumed |
| FileValidator.ValidateFile | lib/file-validator.ts:29-77 | accepted iff the size is at most 10 MiB, the type is allowed and the sanitised name is not suspicious; the checks run in that order with the source's three messages, and an accepted file carries its sanitised name |
| FileValidator.AcceptedNameSafe | lib/file-validator.ts:62-76 | an accepted file's name is safe, at most 100 characters, with none of the six extensions and no `script` |
| ErrorHandler.ValidateInput | lib/error-handler.ts:39-55 | accepted iff the input is text that is non-empty once trimmed and at most 1000 characters before trimming; accepted text comes back trimmed; a non-string, empty and over-long input are refused in that order with their three messages, each a 400 operational error |
| ErrorHandler.ValidateInputIdempotent | lib/error-handler.ts:39-55 | validating an accepted value again, under any field name, accepts it unchanged |
| ActivityLogger.SeverityLevel | lib/activity-logger.ts:91-96 | high iff the action is a deletion or the resource is `auth`; medium iff a creation of a non-auth resource; low otherwise |
| ActivityLogger.LogActivity | lib/activity-logger.ts:6-48 | a row is inserted iff all three fields validate; the logged email, id and name are `sanitizeInput` of the trimmed fields, with the given action and resource and the severity of `SeverityLevel`; an invalid email aborts with its validation error |
| ActivityLogger.LogFileOperation | lib/activity-logger.ts:79-89 | an upload is logged as a medium-severity creation and any other operation as a high-severity deletion, always of a `file` resource whose id and name are the same, with the file-operation flag set |
| ActivityLogger.SecurityErrorMessage | lib/activity-logger.ts:69-73 | a missing message reads "Unknown error"; otherwise the first `min(len, 200)` characters with each CR, LF and TAB replaced by a space, so none is left |
| CategorySelection.StartIsValid | app/category-selection/page.tsx:27-29 | the draft starts valid: no picks and team 1 to play |
| CategorySelection.Select | app/category-selection/page.tsx:60-86 | a category of the other team is ignored; one of the current team's own is dropped without passing the turn; a new one is appended while the team has fewer than three, and the turn passes iff fewer than six picks are then made; a team already holding three is unchanged |
| CategorySelection.SelectKeepsValid | app/category-selection/page.tsx:60-86 | every selection keeps each team at three picks or fewer, without duplicates, and the two teams disjoint |
| CategorySelection.CanClickIffChanges | app/category-selection/page.tsx:223-240 | in a valid draft a card's click guard holds iff the click changes the draft |
| CategorySelection.EnabledIsClickable | app/category-selection/page.tsx:214-226 | a card not shown disabled can be clicked |
| CategorySelection.DisabledYetClickable | app/category-selection/page.tsx:214-238 | with all six picks made, the `isDisabled` flag is set on the current team's own card, yet `canClick` holds and a click drops it; that card is rendered as selected, since the class chooser tests `isSelectedByCurrentTeam` first |
| CategorySelection.TeamName | app/category-selection/page.tsx:36-39 | the shown name has no angle bracket and is the stored name after `sanitizeHTML` when a non-empty one was stored |
| CategorySelection.DefaultTeamNames | app/category-selection/page.tsx:36-39 | without stored names `Team 1` and `Team 2` are shown unchanged |
| CategorySelection.SavedNamesShown | app/category-selection/page.tsx:36-39 | names saved by the team form are shown as the HTML-sanitised trimmed input |
| CategorySelection.DraftPage.constructor | app/category-selection/page.tsx:26-41 | the page mounts with the starting draft and the sanitised stored or default team names |
| CategorySelection.DraftPage.HandleCategorySelect | app/category-selection/page.tsx:60-86 | the new draft is `Select` of the old one, it stays valid and the team names do not change |
| CategorySelection.DraftPage.ClickCard | app/category-selection/page.tsx:240 | a guarded click has the same effect as `Select` and keeps the draft valid |
| CategorySelection.DraftPage.HandleStartGame | app/category-selection/page.tsx:93-99 | the game launches iff both teams hold three categories, saving both lists and going to `/game` |
| TeamSetup.OnNameChange | app/team-setup/page.tsx:80 | the field keeps the first `min(len, 30)` characters of what was typed, and all of it when it fits |
| TeamSetup.IsFormValid | app/team-setup/page.tsx:47 | the form is valid iff neither name is all white space |
| TeamSetup.HandleNext | app/team-setup/page.tsx:21-41 | names are stored iff the form is valid; the stored names are the trimmed inputs, non-empty and already trimmed |
| TeamSetup.ShowWarning | app/team-setup/page.tsx:141 | the warning shows iff something was typed and one of the names is all white space |
| TeamSetup.StoredNamesFit | app/team-setup/page.tsx:21-27 | names typed into the form are stored between 1 and 30 characters long |
| BulkImport.Number | app/bulk-import/page.tsx:116-120 | parsed row `k` becomes spreadsheet row `k + 2`, with no errors and no category yet |
| BulkImport.FindIndex | app/bulk-import/page.tsx:149-152 | the index of the first category whose Arabic or English name equals the name, or -1 when none does |
| BulkImport.FindCategory | app/bulk-import/page.tsx:149-152 | no match iff no category carries the name in either language; otherwise the first that does |
| BulkImport.Collect | app/bulk-import/page.tsx:132-160 | an error is listed iff it is one of the eight errors and its check failed; the listed errors appear in the order the checks push them, each once |
| BulkImport.CollectFields | app/bulk-import/page.tsx:134-154 | each of the eight errors, named one by one, is listed iff its own check failed |
| BulkImport.CollectEmpty | app/bulk-import/page.tsx:134-154 | no error is listed iff every check passed |
| BulkImport.BlankIsEmptyTrim | app/bulk-import/page.tsx:135-140 | a field counts as missing iff trimming leaves nothing, i.e. iff it is all white space |
| BulkImport.RowErrors | app/bulk-import/page.tsx:132-160 | a row has no errors iff it passes every check; each blank required text (category, both questions, both answers, diamonds), a diamonds value outside {10, 25, 50, 75, 100} and an unknown category (quoted as given) is reported iff it occurs, in the order of the checks, each once; at most eight errors |
| BulkImport.Check | app/bulk-import/page.tsx:132-160 | checking keeps the row's fields and number and sets its errors to the row's errors; on a match the row carries the id of the first category with that name, otherwise it keeps its category id and reports the name as not found; the row is error-free iff it passes every check, and then carries a category id |
| BulkImport.ValidateData | app/bulk-import/page.tsx:127-172 | the rows come back checked in order; the valid list is the checked rows without errors and the invalid list those with errors, both in order |
| BulkImport.ValidateDataPartition | app/bulk-import/page.tsx:127-172 | every row lands in exactly one list; valid rows pass every check and have their category, invalid ones fail some check |
| BulkImport.BlankDiamondsTwoErrors | app/bulk-import/page.tsx:140-146 | a blank diamonds cell is reported twice, as missing and as not an allowed value |
| BulkImport.Batches | app/bulk-import/page.tsx:184-185 | every batch holds between one and ten rows |
| BulkImport.BatchesFlatten | app/bulk-import/page.tsx:184-185 | the batches cover the rows exactly once, in order |
| BulkImport.HandleImport | app/bulk-import/page.tsx:174-207 | with no failing insert every batch of ten converted rows is inserted and the count is the number of valid rows; when batch `f` fails, batches `0..f` were attempted and `10 * f` rows counted; the attempted inserts are always a prefix of the batches |
| BulkImport.InsertInBatches | app/bulk-import/page.tsx:184-207 | the same for the batch loop itself, for any row conversion |
| BulkImport.NextBatch | app/bulk-import/page.tsx:184-185 | the batch cut at index `i` is `rows[i..min(i + 10, n)]` and the remaining batches follow it |
| MasterBulkImport.AfterLastDot | app/master-dashboard/bulk-import/page.tsx:54 | the index just past the last dot, with no dot after it, or 0 when the name has none |
| MasterBulkImport.Extension | app/master-dashboard/bulk-import/page.tsx:54 | the extension holds no dot and is no longer than the name |
| MasterBulkImport.ExtensionAfterLastDot | app/master-dashboard/bulk-import/page.tsx:54 | whatever precedes the last dot, the extension is the lower-cased text after it |
| MasterBulkImport.ClassifyExamples | app/master-dashboard/bulk-import/page.tsx:54-56 | `Quiz.Final.XLSX` is a spreadsheet and `notes.pdf.exe` is unsupported |
| MasterBulkImport.HandleFileChange | app/master-dashboard/bulk-import/page.tsx:50-62 | a file with a known extension is kept with its type; otherwise the file is cleared and the earlier type stays; the question list is untouched |
| MasterBulkImport.ToParsed | app/master-dashboard/bulk-import/page.tsx:89-105 | row `index` becomes the question `temp-<index>` with the row's texts after the column fallbacks, no category and 10 diamonds |
| MasterBulkImport.ToParsedAll | app/master-dashboard/bulk-import/page.tsx:89-105 | one question per row, in order, each numbered by its index |
| MasterBulkImport.HandleParse | app/master-dashboard/bulk-import/page.tsx:64-117 | without a file and type, for a PDF or for an unreadable sheet nothing changes; otherwise the list becomes one question per row; the file and type are kept |
| MasterBulkImport.TempIdsDistinct | app/master-dashboard/bulk-import/page.tsx:97 | different row indices give different ids |
| MasterBulkImport.ParsedIdsDistinct | app/master-dashboard/bulk-import/page.tsx:89-105 | every parsed list has pairwise distinct ids |
| MasterBulkImport.Apply | app/master-dashboard/bulk-import/page.tsx:120 | an edit writes its one field (each of the five text fields, or the diamonds picker's parsed number) and keeps the id and every other field |
| MasterBulkImport.UpdateQuestion | app/master-dashboard/bulk-import/page.tsx:119-121 | the list keeps its length and ids; entries with the id get the edit and all others stay as they were |
| MasterBulkImport.UpdateIdempotent | app/master-dashboard/bulk-import/page.tsx:119-121 | writing the same edit twice is writing it once |
| MasterBulkImport.DeleteQuestion | app/master-dashboard/bulk-import/page.tsx:123-125 | exactly the entries with the id are removed; DeleteAppend and DeleteOne give the order and repetitions of the rest |
| MasterBulkImport.DeleteAppend | app/master-dashboard/bulk-import/page.tsx:123-125 | deleting from a list cut in two deletes from each part and keeps the parts in order |
| MasterBulkImport.DeleteOne | app/master-dashboard/bulk-import/page.tsx:123-125 | a single entry survives iff its id differs |
| MasterBulkImport.DeleteAfterUpdate | app/master-dashboard/bulk-import/page.tsx:119-125 | deleting after editing the same id leaves what deleting alone leaves |
| MasterBulkImport.DeleteAbsent | app/master-dashboard/bulk-import/page.tsx:123-125 | deleting an id that is not in the list changes nothing |
| MasterBulkImport.HandleBulkImport | app/master-dashboard/bulk-import/page.tsx:127-158 | one insert is sent iff some question has a category, an English question and an English answer, and it carries exactly those, in order; a successful insert clears the list and the file, a failed one or none changes nothing |
| MasterBulkImport.SentRowsComplete | app/master-dashboard/bulk-import/page.tsx:128-146 | every sent row has a category id, an English question and an English answer |
| MasterBulkImport.FreshListNotImportable | app/master-dashboard/bulk-import/page.tsx:102-133 | a freshly parsed list has no category ids, so nothing in it can be imported until categories are chosen |
| ParseExcel.FirstNonEmpty | app/api/parse-excel/route.ts:37-40 | empty iff every listed column is missing or empty; otherwise the value of the first listed column that is not |
| ParseExcel.MapRow | app/api/parse-excel/route.ts:35-48 | each text is its own column's value when present and the other language's otherwise, so a question (answer) is empty in one language iff it is empty in both |
| ParseExcel.EnglishOnlyRow | app/api/parse-excel/route.ts:37-44 | a row with only a `Question` column gives that text in both languages |
| ParseExcel.Post | app/api/parse-excel/route.ts:4-57 | no file gives 400, a file over 10 MiB gives 400 before it is read, an unreadable file gives 500, and otherwise the response lists one mapped question per row, in row order |
| ParsePdf.Lines | app/api/parse-pdf/route.ts:49 | every line is non-empty and trimmed at both ends |
| ParsePdf.LinesConcat | app/api/parse-pdf/route.ts:49 | the lines of two texts joined by a line break are the lines of the first followed by those of the second |
| ParsePdf.LinesOfOneLine | app/api/parse-pdf/route.ts:49 | text without a line break is one trimmed line, or none when it is blank |
| ParsePdf.NumberedPrefix | app/api/parse-pdf/route.ts:63-64 | the matched question prefix never runs past the line |
| ParsePdf.LabelLength | app/api/parse-pdf/route.ts:71-91 | a label matches iff one of the listed labels starts the line, ignoring ASCII case; the length is that of the first listed label that does, and fits in the line |
| ParsePdf.QuestionLabelAsWritten | app/api/parse-pdf/route.ts:86-87 | with the labels in the order the regex lists them, `Question: x` is stripped to `uestion: x` |
| ParsePdf.AnswerLabelAsWritten | app/api/parse-pdf/route.ts:91-92 | likewise `Answer: x` is stripped to `nswer: x` |
| ParsePdf.QuestionLabelStripped | app/api/parse-pdf/route.ts:86-87 | with each long label tried before its one-letter prefix, `Question: x` gives `x` |
| ParsePdf.AnswerLabelStripped | app/api/parse-pdf/route.ts:91-92 | likewise `Answer: x` gives `x` |
| ParsePdf.Place | app/api/parse-pdf/route.ts:117-165 | a question (answer) goes to the Arabic field iff it contains a letter of the Arabic block, else to the English one, leaving the other field empty |
| ParsePdf.Emit | app/api/parse-pdf/route.ts:116-126 | a pair is kept iff both its question and answer are non-empty, and is then placed by script |
| ParsePdf.LookNumbered | app/api/parse-pdf/route.ts:67-82 | the look-ahead after a numbered question resumes within the next four lines, or finds no answer and leaves the index alone |
| ParsePdf.LookLabelled | app/api/parse-pdf/route.ts:90-96 | after a `Q:` question the answer is the first line within the next four that starts with one of the given answer labels, with that label stripped, and the scan resumes there; with none, no answer and the index stays |
| ParsePdf.Step | app/api/parse-pdf/route.ts:56-127 | one iteration of the scan, for the given `Q:`/`A:` label order, moves forward within the lines, and any pair it finds is placed by script |
| ParsePdf.Steps | app/api/parse-pdf/route.ts:56-127 | the step at every line, for the given label order, each moving forward |
| ParsePdf.ScanStepsUnfold | app/api/parse-pdf/route.ts:56-127 | the scan from line `i` is the pair of step `i` followed by the scan from one past where that step ended |
| ParsePdf.ScannedBound | app/api/parse-pdf/route.ts:56-127 | the pattern scan finds at most one pair per line, for either label order |
| ParsePdf.ScannedPlaced | app/api/parse-pdf/route.ts:56-127 | every pair the scan finds, for either label order, has a non-empty question and answer, each in the field its script calls for |
| ParsePdf.LabelledPairAsWritten | app/api/parse-pdf/route.ts:86-96 | the route's scan of the lines `Question: x`, `Answer: y` emits the pair (`uestion: x`, `nswer: y`) |
| ParsePdf.LabelledPairCorrected | app/api/parse-pdf/route.ts:86-96 | the same lines scanned with each long label tried first give the pair (`x`, `y`) |
| ParsePdf.LabelledStep | app/api/parse-pdf/route.ts:84-97 | a labelled question line directly followed by a labelled answer line gives the pair of their stripped texts |
| ParsePdf.FindNumberedAnswer | app/api/parse-pdf/route.ts:67-82 | the inner loop finds the answer and resume index `LookNumbered` defines |
| ParsePdf.FindLabelledAnswer | app/api/parse-pdf/route.ts:90-96 | the inner loop finds the answer and resume index `LookLabelled` defines for the answer labels in the route's order |
| ParsePdf.ScanLine | app/api/parse-pdf/route.ts:57-126 | the loop body at line `i` gives that line's step with the labels in the route's order: its pair and where the loop resumes |
| ParsePdf.Scan | app/api/parse-pdf/route.ts:56-127 | the scan loop, with its index jumps, collects exactly the pairs of the step specification with the labels in the route's order |
| ParsePdf.ExtractQuestions | app/api/parse-pdf/route.ts:47-136 | the result is the pattern scan of the lines with the labels in the route's order, or the table reading of the same lines when that scan finds nothing |
| ParsePdf.Cells | app/api/parse-pdf/route.ts:146 | every cell is non-empty |
| ParsePdf.TableRow | app/api/parse-pdf/route.ts:145-166 | a usable table line gives a pair placed by script |
| ParsePdf.TableRowOfCells | app/api/parse-pdf/route.ts:145-166 | the line `q\|a` gives the pair (q, a) unless `q` contains "question" or "answer" in any case, which marks a header row |
| ParsePdf.Present | app/api/parse-pdf/route.ts:160 | the kept values are values that were present, no more of them than entries |
| ParsePdf.TableRows | app/api/parse-pdf/route.ts:138-171 | at most one pair per line, each placed by script |
| ParsePdf.TableLine | app/api/parse-pdf/route.ts:142-166 | the loop body gives the line's table row, header rows skipped |
| ParsePdf.ExtractFromTable | app/api/parse-pdf/route.ts:138-171 | the loop collects the present table rows, in line order |
| ParsePdf.Post | app/api/parse-pdf/route.ts:6-45 | no file or a file over 10 MiB gives 400, an unreadable PDF gives 500, and otherwise a success carrying the route's scan of the text's lines, or their table reading when the scan finds nothing, every pair placed by script |
| BackupExport.Keys | app/backup-export/page.tsx:93 | the header list is the first record's keys, in order |
| BackupExport.Lookup | app/backup-export/page.tsx:97 | the value under the first entry with that key, or `undefined` when the record has none |
| BackupExport.Escape | app/backup-export/page.tsx:100 | doubling the quotes never shortens the text |
| BackupExport.Quote | app/backup-export/page.tsx:100 | a quoted field starts and ends with a double quote |
| BackupExport.Cell | app/backup-export/page.tsx:96-102 | a string holding a comma or a quote is quoted; every other value is written as `join` renders it and then holds no comma or quote |
| BackupExport.RenderPlain | app/backup-export/page.tsx:102-103 | numbers, booleans, `null` and `undefined` render without a comma or a quote |
| BackupExport.Row | app/backup-export/page.tsx:96-97 | one value per header, in header order, `undefined` for a header the record lacks |
| BackupExport.CsvLines | app/backup-export/page.tsx:93-104 | the header line is the first record's keys joined by commas, followed by exactly one line per record, in order, with its cells in header order |
| BackupExport.Csv | app/backup-export/page.tsx:90-104 | no file is produced iff there are no records |
| BackupExport.CsvSplitsIntoLines | app/backup-export/page.tsx:94-104 | when no line holds a line break, splitting the file at line breaks gives back its lines |
| BackupExport.ReadQuoted | app/backup-export/page.tsx:100 | a closed quoted field leaves strictly less text to read |
| BackupExport.FieldEnd | app/backup-export/page.tsx:103 | the first comma at or after the index, or the end of the text |
| BackupExport.ParseRecord | app/backup-export/page.tsx:96-103 | a well-formed record has at least one field |
| BackupExport.ReadQuotedEscape | app/backup-export/page.tsx:100 | reading back escaped text and its closing quote gives the text and what follows |
| BackupExport.QuoteRoundTrip | app/backup-export/page.tsx:100 | removing the outer quotes and undoubling the inner ones gives back the quoted text |
| BackupExport.LineRoundTrip | app/backup-export/page.tsx:96-103 | reading a data line back as a CSV record gives the text of each of the record's values, in header order |
| BackupExport.ParseCells | app/backup-export/page.tsx:96-103 | reading a line of cells back gives each cell's text, in order |
| BackupExport.ParseJoin | app/backup-export/page.tsx:103 | reading back encoded fields joined by commas gives their texts, in order |
| BackupExport.ParseField | app/backup-export/page.tsx:99-103 | a field, quoted or plain, followed by nothing or by a comma is read back as its text and then the rest |
| ActivityLogs.ApplyFilters | app/activity-logs/page.tsx:167-179 | the shown list is exactly the logs that match both filters, in their original order |
| ActivityLogs.FiltersCompose | app/activity-logs/page.tsx:167-179 | the action filter followed by the resource filter keeps exactly the logs matching both, in order |
| ActivityLogs.FiltersOff | app/activity-logs/page.tsx:167-179 | with both filters at `all`, every log is shown in order |
| ActivityLogs.PageCount | app/activity-logs/page.tsx:431 | the least number of twenty-log pages that holds all logs |
| ActivityLogs.PageItems | app/activity-logs/page.tsx:373 | page `p` shows at most twenty logs, namely the filtered logs from index `20(p-1)` on, as many as remain up to `20p` |
| ActivityLogs.Footer | app/activity-logs/page.tsx:419 | the range starts at `20(p-1)+1` and ends no later than the last log and the page's end |
| ActivityLogs.FooterCountsPage | app/activity-logs/page.tsx:373 | on every reachable page the footer's range counts exactly the shown logs, and there is at least one |
| ActivityLogs.ReadNat | app/activity-logs/page.tsx:54-62 | reading a number never moves backwards or past the text |
| ActivityLogs.FormatDuration | app/activity-logs/page.tsx:54-62 | the text ends in `m` and has an hours part iff the session lasted at least an hour; DurationRoundTrip reads it back as the minutes |
| ActivityLogs.DurationRoundTrip | app/activity-logs/page.tsx:54-62 | every duration text reads back as its number of minutes, so no two durations share a text |
| ActivityLogs.MinutesRoundTrip | app/activity-logs/page.tsx:56-58 | an `(m)m` text under an hour reads back as its minutes |
| ActivityLogs.HoursRoundTrip | app/activity-logs/page.tsx:59-61 | an `(h)h (m)m` text reads back as `60h + m` minutes |
| ActivityLogs.LogsPage.constructor | app/activity-logs/page.tsx:113-118 | the page mounts with no logs, both filters at `all` and page 1 |
| ActivityLogs.LogsPage.Refilter | app/activity-logs/page.tsx:125-128 | the effect recomputes the shown list from the logs and filters and returns to page 1 |
| ActivityLogs.LogsPage.SetLogs | app/activity-logs/page.tsx:158-165 | loading logs replaces them, keeps the filters and returns to page 1 with the list consistent |
| ActivityLogs.LogsPage.SetFilterAction | app/activity-logs/page.tsx:312 | choosing an action sets that filter only; a new value re-runs the effect and returns to page 1, the same value changes nothing; the list stays consistent |
| ActivityLogs.LogsPage.SetFilterResource | app/activity-logs/page.tsx:327 | choosing a resource type sets that filter only; a new value re-runs the effect and returns to page 1, the same value changes nothing; the list stays consistent |
| ActivityLogs.LogsPage.Previous | app/activity-logs/page.tsx:425 | one page back, never below page 1; nothing else changes |
| ActivityLogs.LogsPage.Next | app/activity-logs/page.tsx:416-437 | one page on, never past the last page; nothing else changes |
| ActivityLogs.LogsPage.Shown | app/activity-logs/page.tsx:364-373 | the current page's logs, never empty when some log passes the filters |
| GameAnalytics.QuestionsUsedAddUp | app/game-analytics/page.tsx:124-136 | over categories with distinct ids, the per-category `questions_used` counts add up to the number of used entries whose question lies in a listed category (entries are counted, not distinct questions) |
| GameAnalytics.UsagePush | app/game-analytics/page.tsx:146-152 | one more entry adds one to its truthy id's count, adding the id when it is new, and leaves every other count alone |
| GameAnalytics.UsageMap | app/game-analytics/page.tsx:145-152 | the loop builds exactly the map from each truthy used id to the number of entries using it |
| GameAnalytics.UsageKeys | app/game-analytics/page.tsx:145-183 | the map's keys are exactly the truthy ids used, each counted at least once |
| GameAnalytics.TimesUsedCounts | app/game-analytics/page.tsx:157 | `get(id) \|\| 0` is the number of entries using the question, 0 for an unused one |
| GameAnalytics.FindUse | app/game-analytics/page.tsx:158-161 | the index of the first entry whose question has the id, or the length when there is none |
| GameAnalytics.BuildQuestionStats | app/game-analytics/page.tsx:154-174 | the nested loops push one row per question of each category, in category then question order, with its use count and first use |
| GameAnalytics.RowsMatchQuestionCount | app/game-analytics/page.tsx:121-181 | the question table has as many rows as the categories' `total_questions` add up to |
| GameAnalytics.RowsMatchDiamonds | app/game-analytics/page.tsx:122-182 | the rows' diamonds add up to the sum of the categories' `total_diamonds` |
| GameAnalytics.Insert | app/game-analytics/page.tsx:176 | inserting a row adds exactly one row |
| GameAnalytics.InsertDescending | app/game-analytics/page.tsx:176 | inserting into rows ordered by use, largest first, keeps them ordered |
| GameAnalytics.SortedByUse | app/game-analytics/page.tsx:176 | the sorted rows are ordered by `times_used`, largest first, and as many as before |
| GameAnalytics.SortPermutes | app/game-analytics/page.tsx:176 | sorting only reorders the rows: the same multiset |
| GameAnalytics.SortIsStable | app/game-analytics/page.tsx:176 | the sort is stable (as `Array.prototype.sort` is required to be): rows used equally often keep their relative order |
| GameAnalytics.InsertAt | app/game-analytics/page.tsx:176 | one insertion step in the array: element `i` moves down past the strictly less used elements before it, which shift up one place; the rest stays |
| GameAnalytics.SortByUse | app/game-analytics/page.tsx:176 | sorting the array in place leaves it holding the stable descending order of its old contents |
| GameAnalytics.SortRows | app/game-analytics/page.tsx:176 | the sorted rows are `SortedByUse` of the pushed rows |
| GameAnalytics.SortedDiamonds | app/game-analytics/page.tsx:176-182 | sorting keeps the diamond total |
| GameAnalytics.TopTen | app/game-analytics/page.tsx:177 | the first `min(10, n)` rows |
| GameAnalytics.TopTenMostUsed | app/game-analytics/page.tsx:176-177 | every one of the ten rows shown is used at least as often as every row left out |
| GameAnalytics.MostPopularIndex | app/game-analytics/page.tsx:186-188 | the reduce ends on a category with the largest `questions_used`, the last such on ties |
| GameAnalytics.LeastUsedIndex | app/game-analytics/page.tsx:190-192 | the reduce ends on a category with the smallest `questions_used`, the last such on ties |
| GameAnalytics.OverallMatchesCategories | app/game-analytics/page.tsx:180-183 | the overall question count and diamond total are the sums of the category figures, and `questionsUsed` is the number of distinct truthy ids used |
| GameAnalytics.Analyze | app/game-analytics/page.tsx:117-204 | the category table, the ten-row question table and, for a non-empty category list only, the overall statistics, each as specified above |
| GameAnalytics.AnalyticsPage.constructor | app/game-analytics/page.tsx:36-47 | the page mounts with empty tables and zero totals |
| GameAnalytics.AnalyticsPage.FetchAnalytics | app/game-analytics/page.tsx:83-208 | without category data nothing changes; otherwise both tables are set from the data (a missing used list acting as empty), and the overall statistics are set unless the category list is empty, where the reduce throws and they keep their old value |
| JsString.Trim | lib/error-handler.ts:44 | `trim` returns the text between the first and last non-white-space characters: empty iff the text is all white space, otherwise starting and ending with a non-space, and introducing no character |
| JsString.TrimNoop | lib/error-handler.ts:44 | trimming text with no white space at either end changes nothing |
| JsString.Take | lib/sanitize.ts:27 | `substring(0, n)` keeps the first `min(len, n)` characters, so all of the text when it fits |
| JsString.Split | app/api/parse-pdf/route.ts:49 | `split` always gives at least one piece |
| JsString.JoinSplit | app/api/parse-pdf/route.ts:49 | joining the pieces of a split with the separator gives back the text |
| JsString.SplitJoin | app/backup-export/page.tsx:94-104 | splitting a join of separator-free pieces gives back the pieces |
| JsString.NatToStringValue | app/activity-logs/page.tsx:57-61 | the decimal rendering of a number reads back as that number |
| JsString.ParseInt | app/bulk-import/page.tsx:143 | `parseInt` of blank text is `NaN` |
| JsString.ParseIntNatToString | app/bulk-import/page.tsx:143 | `parseInt` of a rendered number gives the number back |
| Common.Filter | app/activity-logs/page.tsx:171-175 | `filter` keeps exactly the elements satisfying the predicate, never more than it was given |
| Common.FilterFilter | app/activity-logs/page.tsx:167-179 | filtering twice is filtering once by the conjunction |
| Common.Count | app/game-analytics/page.tsx:124-127 | the count is the length of the filtered list |
| Common.CountOr | app/game-analytics/page.tsx:124-127 | two predicates that never hold together count, between them, what their disjunction counts |
| Common.OrElse | app/api/parse-excel/route.ts:43-46 | `a \|\| b` on strings is empty iff both are, and is `a` unless `a` is empty |

## Left out

- Rendering, styling, toasts and alerts: only the values that decide what is shown (the render gate, the click guards, the footer range, the warning flag) are modelled. A navigation (`router.push`/`replace`) is a returned or recorded target.
- Every backend call (authentication, tables, storage): its outcome is an input value, which can be a failure or an exception where the source handles those.
- `Date.now()`, `Math.random()` and the generated session id are parameters.
- `localStorage` is one `Option` field per slot. `JSON.parse` and `JSON.stringify` are not modelled: a stored record is either parsed data or unreadable text.
- The `setTimeout` activity timer and the window focus listener (lib/session-manager.ts:104-118, 162-170) are modelled as methods the environment calls, not as scheduled callbacks.
- The `sessionExpired` event is a counter.
- Floating-point values are not modelled. These are the usage percentages and averages in app/game-analytics/page.tsx, the import progress, the `toFixed` megabyte sizes in the two parse routes' messages, and the rate limiter's seconds, which are computed with integer ceiling division.
- The spreadsheet reader (`XLSX`), `pdf-parse`, the CSV parser (lib/csv-parser.ts is not part of this model) and `FileReader` are not modelled. What they return is an input: rows as maps from header to text, the PDF's text, or `None` when they throw.
- Regular expressions are written out as prefix and character-class tests, and string lengths count characters rather than UTF-16 code units.
- `handleError` and `safeAsync` (lib/error-handler.ts:14-37) are left out because they only write to the console.
- `logSecurityEvent`'s insert (lib/activity-logger.ts:58-67) is left out because it is a backend call. Only the message it prints on failure is modelled.
- The `details` object, timestamps and user agent of a log row are left out.
- The page authentication checks (`checkUser`) of the bulk-import, activity-log and analytics pages are left out. They are backend reads followed by a redirect, and the same decision is modelled by the middleware and the auth guard.
- The create/update/delete counters above the activity-log list (app/activity-logs/page.tsx:273-293) are left out: each is a plain `filter(...).length`.
- The login-log list's `session_duration \|\| 0` fallback is left out. Only `formatDuration` is modelled.
- BackupExport.Cell: nested objects and arrays in a backend row are not modelled, because the model's values are strings, integers, booleans, `null` and `undefined`. JavaScript would render them as `[object Object]` or comma-joined.
- BackupExport.CsvSplitsIntoLines: values that hold a line break are not quoted by the source. That case is excluded by the lemma's precondition rather than modelled as a broken record.
- GameAnalytics.BuildQuestionStats: the rows' question texts are always empty. The categories query selects only `id` and `diamonds`, so `question.question_ar \|\| ''` is `''` there.
- GameAnalytics: the embedded `diamond_questions` of a used entry may come back as an array or as an object. The model reads the single linked question, which is what `dq[0]` or `dq` gives.
- GameAnalytics: a missing `diamond_questions` list of a category is the empty list.
- ActivityLogs.LogsPage.Next: modelled only where the button exists, i.e. when more than one page of logs is listed.
- CategorySelection.DraftPage: the category list fetched for display is left out, because the draft logic never reads it.
- MasterBulkImport.HandleParse: the PDF branch only reports that PDF parsing is disabled. The PDF route is modelled on its own in `ParsePdf`.
- ActivityLogs.FormatDuration: the duration is a natural number of minutes. The source accepts any number, and negative or fractional durations are not modelled.
- BulkImport.RowErrors: every cell the CSV parser returns is a string, so the not-found message quotes the name as given and never shows `undefined` for a missing cell.

## Findings

| source | as written | input that shows it | evidently intended | confidence | as-written member | corrected member |
|---|---|---|---|---|---|---|
| lib/session-manager.ts:110-117 | the inactivity callback calls `getSession()` first, which already removes an idle session and returns null, so the `sessionExpired` event is never dispatched | stored session with lastActivity = 0 and expiresAt = 3600000, timer firing at now = 1800001 | the event is dispatched whenever the callback finds the stored session idle and drops it | not executed | Session.TimerNeverSignals | Session.SessionManager.ActivityTimerFiresCorrected |
| app/api/parse-pdf/route.ts:86-97 | the label alternations `Q\|Question\|س\|سؤال` and `A\|Answer\|ج\|الإجابة` try the one-letter label first, so only that letter is removed from a `Question:` or `Answer:` line | the lines `Question: x` and `Answer: y` give the pair (`uestion: x`, `nswer: y`) | the whole label is removed, giving (`x`, `y`) | not executed | ParsePdf.LabelledPairAsWritten | ParsePdf.LabelledPairCorrected |
