# PM2 Manager in Dafny

PM2 Manager is a web panel for the PM2 process manager: an Express server over SQLite and a plain JavaScript client. This project models the parts of it whose correctness spans many steps or many functions, and proves the properties those parts are for.

| file | what it models |
|---|---|
| `Text`, `Runs` | characters, decimal numerals, SQLite's ASCII case folding and BINARY order; runs of a step function |
| `Json`, `JsonSearch` | `JSON.stringify` and `JSON.parse`; what a `LIKE '%…%'` pattern finds in serialised JSON |
| `Sessions`, `Accounts`, `LoginHistory`, `CredentialHistory`, `HandlerEffects`, `AuthServer` | users, sessions, two-step login, logout, account removal and revocation: the step functions, what each handler answers and changes, the theorems about all runs, and the handlers as methods of a class |
| `EventStream`, `Utf8`, `LogTail` | the log stream from the log files to the browser's callback |
| `Grouping`, `Metrics`, `Aggregate`, `SumLaw`, `Retention` | the metrics table, downsampling, the overall series and when it is the sum of the processes' series, collection and pruning |
| `Calendar`, `ActivityLog`, `ActivitySkips`, `ActivityBrowsing`, `ActivityTime` | dates as text, the activity log, its pager and its pruning |
| `Pm2Connection` | the connection to the PM2 daemon and its event bus, as interleaved steps |
| `Chart` | axis ceilings, scales, nearest point |
| `CsrfClient` | the retrying API client composed with the server's CSRF check |
| `CollectorTimers` | the collector's interval timers and the settings they follow |

Code that changes state is a class whose methods are proved equal to a step function of the old state; the theorems are about runs of those step functions. Pure code is functions, and theorems about them.

## What the proofs say about the code

Where a promise of the code or of its comments does not hold as stated, the model keeps the code and proves exactly when the promise holds.

- **The last-administrator guard cannot fire** (`Accounts.LastAdminGuardNeverFires`). Only an administrator reaches it, not for the own account, and in every reachable state that caller is another administrator's row.
- **The log tail may give up a whole line** (`LogTail.TailIsExactWhen`). When the file is longer than the window, its first non-empty line in the window is dropped even if the cut fell on a line boundary (`LogTail.BoundaryCutDropsWholeLine`); a line feed followed by one line of exactly 131072 bytes reads as no line at all (`LogTail.OneFullLineIsLost`). The result is the last 100 lines if and only if nothing was cut off, or the window shows at least 101 non-empty lines, or the file has none.
- **Launches are in order however buses end.** If `launchBus` answers each call once at most, one launch at most is unanswered, `busInitializing` is set exactly then and never together with a bus, whatever bus ends and disconnects do (`Pm2Connection.LaunchRuns`). This holds throughout a run if and only if every repeated answer finds no launch awaited (`LaunchesOkThroughoutWhen`).
- **One live bus depends on how PM2 behaves** (`Pm2Connection.StepIsSafeWhen`, `BusOkThroughoutWhen`). Launches in order and the live buses being exactly the one referred to, together, hold throughout a run if and only if every bus end, disconnect and launch answer in the run is safe: a bus may end when the service refers to no bus, or when it is the one referred to and stops delivering; a disconnect must stop the bus it closes; a launch answer must be awaited, or come when none is awaited and bring no second bus. Good behaviour of PM2 is not enough: even if each bus reports its end once at most and is silent once ended or closed, and each launch is answered once at most, a run is safe if and only if a bus closed by `disconnect` reports its end, if at all, while no bus is attached (`WellBehavedRunIsSafeWhen`); otherwise the late report clears the reference to the next bus (`ClosedBusDoublesPackets`). Three runs of a PM2 that behaves worse end the same way, every log line re-emitted twice: a bus that reports its end twice (`LateCloseDoublesPackets`), one that reports an error and goes on delivering (`LiveErrorDoublesPackets`), and one whose `close()` throws and that goes on delivering (`FailedCloseDoublesPackets`).
- **A synchronous PM2 answer would stick.** It breaks the connection invariant whenever `connect` makes an attempt (`Pm2Connection.SynchronousIsSafeWhen`); after a failure at once, after a success from the next disconnect on, the service never connects again (`SynchronousCallbackSticks`).
- **The overall chart is the sum of the process charts, whatever the readings are, if and only if** in each bucket each process has no sample or one per sample instant of the bucket (`SumLaw.SumLawExactWhen`). One row per process and instant is enough (`Aggregate.OneRowEachSums`). Several instances under one name break it: the overall series adds what the process series averages (`Aggregate.ClusterInstancesAreAveraged`).
- **A series has at most 501 points**, one more than the target of 500 (`Metrics.SeriesIsBounded`, `Aggregate.AggregateIsBounded`). The most a window can give, for one process or overall, is the number of buckets it meets (`Metrics.MostPoints`, `Aggregate.MostTotals`), and 501 is reached by every window of 500 ms (`Metrics.FiveHundredAndOne`).
- **Raising the retention setting shows windows whose samples are gone** (`Retention.RaisedRetentionShowsGap`). `PruningInvisibleWhen` is the exact condition for the rows of one window, `NamesInvisibleWhen` for the names endpoint.
- **The activity pager can skip an entry exactly when a pruning does not cut the old end.** As long as every pruning between loads removes only entries older than all it keeps, no walk skips anything, whatever is recorded in between and however it is stamped (`ActivityLog.WalkNeverSkips`, `RecordingNeverSkips`); a clock that does not go back is enough (`ActivityTime.ClockMakesWalkComplete`). Any other pruning makes some walk skip an entry that was there throughout (`ActivitySkips.PruningSkipsWhen`), for instance after a row was written while the clock stood in 1970 (`ActivityTime.ClockJumpHidesEntry`).
- **The client retries any 403** (`CsrfClient.Client.Mutate`). In this program 403 comes only from the CSRF check and from `requireAdmin`, both ahead of the handlers, so the handler runs at most once per call, also when a response is lost on the way back: a lost response is reported as an error and not retried. A handler that answered 403 itself would, when all fetches get through, run twice exactly when its first request passed the check.

## Model

| member | source | states |
|---|---|---|
| Json.BodyRoundTrip | src/controllers/logs.controller.ts:43 | reading an escaped string literal gives back the string and what follows it, for every character |
| Json.ValueRoundTrip | src/controllers/logs.controller.ts:43 | a written value is read back whatever text follows it, provided a number does not run on |
| Json.ParseWrite | public/static/js/api.js:133-134 | `JSON.parse` inverts `JSON.stringify` on every value the program serialises |
| JsonSearch.LikeIsSearch | src/repositories/session.repository.ts:25-26 | a pattern `%needle%` without inner wildcards matches exactly the texts containing the needle up to ASCII case |
| Text.FoldMeans | src/repositories/user.repository.ts:25-29 | two characters fold alike exactly when they are equal or the two cases of one ASCII letter |
| Text.LessMeans | src/repositories/activity.repository.ts:77 | text comparison is decided by the first differing character, or by length when one text begins with the other |
| JsonSearch.LiteralMatch | src/repositories/session.repository.ts:25 | a quoted word matched from inside a string literal ends at the literal's closing quote, so escaped text cannot imitate a key followed by a colon |
| JsonSearch.MatchIsHit | src/repositories/session.repository.ts:25 | every textual match of the revocation text starting inside a value comes from a structural hit in it |
| JsonSearch.HitIsMatch | src/repositories/session.repository.ts:25 | every structural hit, at any depth, leaves a textual match |
| JsonSearch.SearchIsExact | src/repositories/session.repository.ts:25-26 | for every JSON value the LIKE pattern matches its text if and only if the value has a member shown as `user` holding an object that begins with that id |
| Sessions.RevocationIsExact | src/repositories/session.repository.ts:25-26 | for every session, whatever names, secrets, pending challenge and property order, the pattern for user N matches its stored text if and only if the session is logged in as user N |
| Sessions.RevokeRemovesExactly | src/repositories/session.repository.ts:26 | the text search and a structural search delete the same rows of any sessions table |
| Sessions.OwnedCount | src/repositories/session.repository.ts:27 | the number of rows removed is the number of that user's sessions |
| Sessions.SessionTextRoundTrip | src/controllers/auth.controller.ts:61-65 | reading the stored JSON text of a session back gives the session, with every property it holds |
| Sessions.SessionRepository.DeleteByUserId | src/repositories/session.repository.ts:16-28 | removes all of that user's sessions and no others and returns their number; 0 when the store has no table yet |
| Accounts.FindByUsername | src/repositories/user.repository.ts:25-29 | gives a row whose name is equal up to ASCII case, and none only if there is no such row |
| Accounts.Without | src/repositories/user.repository.ts:66-68 | keeps exactly the rows with another id |
| Accounts.InitialInv | src/services/auth.service.ts:127-142 | a bootstrapped empty database satisfies the invariant: one administrator, no sessions |
| Accounts.LoginInv | src/controllers/auth.controller.ts:78-111 | login keeps the invariant, on all three outcomes |
| Accounts.VerifyInv | src/controllers/auth.controller.ts:117-148 | the second-factor step keeps the invariant |
| Accounts.SetupInv | src/controllers/auth.controller.ts:197-211 | starting TOTP enrolment keeps the invariant |
| Accounts.EnableInv | src/controllers/auth.controller.ts:217-236 | enabling TOTP keeps the invariant, with the secret and the flag set together |
| Accounts.DisableInv | src/controllers/auth.controller.ts:239-258 | disabling TOTP keeps the invariant |
| Accounts.ChangePasswordInv | src/services/auth.service.ts:81-96 | a password change keeps the invariant: it touches no id, name, flag or secret |
| Accounts.CreateInv | src/controllers/user.controller.ts:32-51 | creating a user keeps ids and case-folded names unique |
| Accounts.RemoveInv | src/controllers/user.controller.ts:59-93 | removing a user keeps every remaining session in agreement with the table and an administrator in it |
| Accounts.CallerIsAnotherAdmin | src/controllers/user.controller.ts:63-77 | whoever passes `requireAdmin` and does not name the own id is a different administrator's row, so a targeted administrator is never the only one |
| Accounts.StepInv | src/db/schema.ts:10-19 | every handler, taken as one step on any state with the invariant, keeps it |
| Accounts.SessionsAgreeWithTable | src/middleware/auth.middleware.ts:25-35 | in every reachable state each logged-in session is an existing row with the same id, name and admin flag, `requireAdmin` answers as the table would, and an administrator remains |
| Accounts.LastAdminGuardNeverFires | src/controllers/user.controller.ts:72-77 | in every reachable state no removal request is answered "last administrator" |
| Accounts.EnabledMeansSecret | src/repositories/user.repository.ts:56-64 | in every reachable state TOTP is on exactly when a secret is stored, which is never empty, and no two names differ only in case |
| LoginHistory.StepOrigins | src/controllers/auth.controller.ts:78-148 | a step puts a user into a session only under the new id, after a right password with TOTP off or a right token on a challenge; it puts a challenge there only after a right password with TOTP on |
| LoginHistory.SessionsAreJustified | src/controllers/auth.controller.ts:78-148 | over any run, a session that holds user u has in its past a direct login as u, or a token checked against u's stored secret on a session that had itself passed u's password step earlier |
| LoginHistory.LoginAnswers | src/controllers/auth.controller.ts:78-111 | login succeeds for a right password without second factor (fresh session id, no challenge and no CSRF secret in it, old session gone, all others untouched), asks for the second factor for one with it, and otherwise refuses and leaves every session alone |
| LoginHistory.VerifyAnswers | src/controllers/auth.controller.ts:117-148 | the second step succeeds exactly for a token checked against the stored secret of the account the session's own challenge names, and otherwise refuses and leaves every session alone |
| LoginHistory.TwoStepLoginCompletes | src/controllers/auth.controller.ts:78-148 | a right password followed in the same session by a token for the stored secret signs the account in under a fresh id |
| LoginHistory.AbsentStays | src/db/schema.ts:11 | an id that has been given out and has no row gets no row from any step |
| LoginHistory.RemovalIsFinal | src/controllers/user.controller.ts:79-82 | after a successful removal, at every later point of the run the user has no row and no session, and a leftover challenge for it is refused whatever token is sent |
| CredentialHistory.RowsChangeOnlyByTheirOwners | src/repositories/user.repository.ts:35-68 | the row of every id after any request: created or removed only by an administrator's session, never by the account's own; password and second factor changed only by the account's own session, after a check of the password or of a token for the new secret; every other row and column stays |
| CredentialHistory.StepHolds | src/controllers/auth.controller.ts:197-211 | a session gets a pending TOTP secret only from the setup request of its own user |
| CredentialHistory.SecretsAreConfirmed | src/controllers/auth.controller.ts:197-236 | over any run, a stored TOTP secret was confirmed with a token by a session of that account, to which it had been issued before while logged in as that account |
| CredentialHistory.HashesHaveAnOwner | src/services/auth.service.ts:81-116 | over any run, a stored password hash is the bootstrap one, or was given by an administrator at creation, or was set by the account's own session after a check of the password stored before |
| HandlerEffects.LogoutEndsSession | src/controllers/auth.controller.ts:151-164 | logout answers success, the request's session is gone, every other session and every user is as before |
| HandlerEffects.LogoutIsFinal | src/controllers/auth.controller.ts:151-164 | over any run, from a logout on its session id never names a session again, and a request that still carries it is nobody's |
| HandlerEffects.ReplacedIdIsDead | src/controllers/auth.controller.ts:61-65 | the same for the session id a sign-in replaces |
| HandlerEffects.SetupAnswers | src/controllers/auth.controller.ts:197-211 | enrolment is refused without an account and with TOTP on; otherwise exactly this session gains exactly the new secret |
| HandlerEffects.EnableAnswers | src/controllers/auth.controller.ts:217-236 | the three refusals change no session; success takes the pending secret out of this session and leaves the rest |
| HandlerEffects.DisableAnswers | src/controllers/auth.controller.ts:239-258 | success exactly for the password of the session's own account; no session changes |
| HandlerEffects.ChangePasswordAnswers | src/controllers/auth.controller.ts:177-191 | not signed in, no row, wrong password and success are told apart exactly so; no session changes |
| HandlerEffects.CreateAnswers | src/controllers/user.controller.ts:32-51 | the middleware's two refusals, a conflict exactly when a name is equal up to ASCII case, success otherwise; no session changes |
| HandlerEffects.RemovalAnswers | src/controllers/user.controller.ts:59-93 | which of the refusals or success is answered; success ends exactly the sessions of that user, and all others live on unchanged |
| HandlerEffects.IssueAnswers | src/middleware/csrf.middleware.ts:18-23 | a session that has a secret is left as it is; one without gets the new secret and keeps all its other properties |
| AuthServer.Server.constructor | src/services/auth.service.ts:127-142 | start-up on a new database reaches the bootstrapped state, which is valid |
| AuthServer.Server.EnsureInitialAdmin | src/services/auth.service.ts:127-142 | adds one administrator exactly when the table has no user, and reports it |
| AuthServer.Server.EstablishSession | src/controllers/auth.controller.ts:61-65 | the old session is gone; the new id holds the user and nothing else |
| AuthServer.Server.Login | src/controllers/auth.controller.ts:78-111 | does and answers exactly what the login step of the run theorems says, keeping the invariant |
| AuthServer.Server.VerifyTwoFactor | src/controllers/auth.controller.ts:117-148 | the same for the second factor |
| AuthServer.Server.Logout | src/controllers/auth.controller.ts:151-164 | answers success and the session of the request is gone, the rest being the logout step of the run theorems |
| AuthServer.Server.SetupTwoFactor | src/controllers/auth.controller.ts:197-211 | the same for enrolment, with its two refusals |
| AuthServer.Server.EnableTwoFactor | src/controllers/auth.controller.ts:217-236 | the same for enabling, with its three refusals |
| AuthServer.Server.DisableTwoFactor | src/controllers/auth.controller.ts:239-258 | the same for disabling |
| AuthServer.Server.ChangePassword | src/controllers/auth.controller.ts:177-191 | the same for a password change |
| AuthServer.Server.CreateUser | src/controllers/user.controller.ts:32-51 | the same for account creation behind `requireAdmin` |
| AuthServer.Server.RemoveUser | src/controllers/user.controller.ts:59-93 | the same for account removal behind `requireAdmin` |
| AuthServer.Server.DeleteUser | src/controllers/user.controller.ts:79-82 | the row goes first, then the sessions the text pattern finds |
| AuthServer.Server.IssueCsrfToken | src/middleware/csrf.middleware.ts:18-23 | a session's CSRF secret is created once and then kept on every later call, and the token given out is that secret |
| EventStream.FeedConcat | public/static/js/api.js:130-150 | the stream parser may be fed in any pieces |
| EventStream.WrittenHasNoBreaks | src/controllers/logs.controller.ts:43 | serialised JSON has no CR or LF, so a log line is one `data:` line |
| EventStream.FeedFrame | src/controllers/logs.controller.ts:117-128 | from an idle parser each frame (log, ready, ping) dispatches its one event or none and leaves the parser idle |
| EventStream.StreamRoundTrip | src/controllers/logs.controller.ts:42-44 | for any log lines with any text, mixed in any way with ready frames and pings, the client's callback gets exactly the log lines in order, each as an object with that line's channel, process name, id, message and time under their keys |
| EventStream.BytesRoundTrip | src/controllers/logs.controller.ts:42-44 | the same through the UTF-8 bytes of the connection, fields included |
| EventStream.CutStreamDeliversPrefix | public/static/js/api.js:126-153 | a connection cut after any number of bytes, also inside a character, has delivered the first lines, each with its fields |
| Utf8.DecodeSplits | src/controllers/logs.controller.ts:62 | decoding splits at every ASCII byte, also inside ill-formed input |
| Utf8.DecodeMakesNoAscii | src/controllers/logs.controller.ts:62 | decoding never invents an ASCII character |
| Utf8.DecodeEncode | src/controllers/logs.controller.ts:62 | decoding gives back every text from its UTF-8 form |
| Utf8.DecodedIsEncoded | src/controllers/logs.controller.ts:62 | every character that decoding produces, other than U+FFFD, is read from exactly its UTF-8 form |
| Utf8.DecodeCut | src/controllers/logs.controller.ts:56-62 | encoded text cut at any byte decodes to a prefix of the text, and one U+FFFD if the cut fell inside a character |
| LogTail.ReadTailLines | src/controllers/logs.controller.ts:51-71 | computes the window specification: decode, split, drop blanks, drop one line mid-file, keep 100; nothing for an unreadable file |
| LogTail.FilterNonEmpty | src/controllers/logs.controller.ts:63 | keeps exactly the non-empty pieces in order |
| LogTail.LinesDecode | src/controllers/logs.controller.ts:62-63 | cutting bytes into lines and decoding each gives the lines of the decoded file, for any bytes |
| LogTail.FileLinesAreTexts | src/controllers/logs.controller.ts:62-63 | texts written one after another, each ended by LF or CRLF and the last perhaps by nothing: the file's lines are exactly the non-empty texts in order |
| LogTail.SmallTextFile | src/controllers/logs.controller.ts:51-65 | such a file of at most 131072 bytes is read as the last 100 of its non-empty texts |
| LogTail.WindowIsTail | src/controllers/logs.controller.ts:56-57 | the window ends with the file and is the whole file up to 131072 bytes, and exactly that many bytes of a longer one |
| LogTail.CutKeepsSuffix | src/controllers/logs.controller.ts:56-64 | wherever a file is cut, inside a line, a CRLF or a character or on a boundary, what is kept is a proper suffix of the file's lines |
| LogTail.TailIsSuffix | src/controllers/logs.controller.ts:51-71 | for every file and cut the result is a suffix of the file's non-empty lines, at most 100 of them |
| LogTail.TailIsExactWhen | src/controllers/logs.controller.ts:47-65 | the result is exactly the last 100 non-empty lines if and only if nothing was cut off, or the window has at least 101 non-empty lines, or the file has none |
| LogTail.BoundaryCutDropsWholeLine | src/controllers/logs.controller.ts:61-64 | after a cut right behind a line feed the file's lines are those before and those in the window, and the first of the latter, a whole line, is dropped |
| LogTail.OneFullLineIsLost | src/controllers/logs.controller.ts:61-64 | a line feed and one line that fills the window: the file has one non-empty line, the reader gives none |
| LogTail.SmallFileIsExact | src/controllers/logs.controller.ts:28-65 | a file of at most 131072 bytes is read exactly |
| LogTail.Response.WriteLogEvent | src/controllers/logs.controller.ts:42-44 | appends the one frame of that line to the stream |
| LogTail.Response.SendLines | src/controllers/logs.controller.ts:87-95 | appends one frame per line, in order, with the time of each write |
| LogTail.Response.SendBacklog | src/controllers/logs.controller.ts:78-97 | appends the frames of the output file's lines and then of the error file's, skipping absent files |
| LogTail.Response.SendLive | src/controllers/logs.controller.ts:119-128 | after `ready`, appends a frame for each emitted line of this process, by id or by name, and a ping per heartbeat |
| LogTail.Response.Stream | src/controllers/logs.controller.ts:102-128 | the stream is the backlog's frames, the ready frame and the live frames |
| LogTail.LiveLines | src/controllers/logs.controller.ts:119-123 | the live frames carry exactly the lines of the process |
| LogTail.StreamReachesClient | src/controllers/logs.controller.ts:102-128 | over one connection, as bytes, the client's callback gets the backlog lines and then every line emitted for the process, by id or by name, in order, each with its fields, and nothing else; if the connection is cut at any byte, a prefix of that |
| LogTail.BacklogReachesClient | src/controllers/logs.controller.ts:78-97 | from the files to the browser: the client's callback gets the tail of both files, in order, each line an object with its channel, name, id, message and time |
| LogTail.TextFilesReachClient | src/controllers/logs.controller.ts:78-128 | end to end: for two text files written line by line and fitting the window, the callback gets the last 100 texts of standard output, the last 100 of standard error and the process's live lines, in order, each with its fields |
| Grouping.GroupsPartition | src/repositories/metrics.repository.ts:64 | distinct groups of a GROUP BY add up to the sum over the rows they cover |
| Grouping.AscendingIsDetermined | src/repositories/metrics.repository.ts:65 | a strictly ascending list is determined by its members |
| Metrics.BucketSpread | src/repositories/metrics.repository.ts:29-32 | instants at most n bucket widths apart lie at most n buckets apart |
| Metrics.BucketIsLeast | src/repositories/metrics.repository.ts:29-32 | the bucket is the least width of at least 1 ms of which 500 cover the window |
| Metrics.SelectedCounts | src/repositories/metrics.repository.ts:63-64 | the query reads every sample of the name and window as often as the table has it, and no other |
| Metrics.SeriesPartitions | src/repositories/metrics.repository.ts:53-70 | points ascend strictly in time and every matching sample lies in exactly one of them |
| Metrics.SeriesIsBounded | src/repositories/metrics.repository.ts:29-70 | for every window at most 501 points, each labelled in (since - bucket, until] |
| Metrics.MostPoints | src/repositories/metrics.repository.ts:29-70 | the largest number of points a window can give is exactly the number of buckets it meets |
| Metrics.FiveHundredAndOne | src/repositories/metrics.repository.ts:22-32 | every window of 500 ms can give 501 points |
| Metrics.NeverTooCoarse | src/repositories/metrics.repository.ts:29-70 | every window of at least 500 ms has rows for which a process's series has more than 250 points |
| Metrics.SeriesConserves | src/repositories/metrics.repository.ts:53-70 | the averages weighted by their sample counts add up to the raw cpu and memory totals |
| Metrics.RestartsAreMaxima | src/repositories/metrics.repository.ts:61 | a point's restart count is that of one of its samples and none has more |
| Aggregate.SameBuckets | src/repositories/metrics.repository.ts:85-97 | grouping by instant and then by bucket gives the buckets of the rows |
| Aggregate.AggregateConserves | src/repositories/metrics.repository.ts:77-103 | each point times the number of distinct instants in its bucket is the sum over all the bucket's rows, and the buckets add up to the window |
| Aggregate.AggregateAscends | src/repositories/metrics.repository.ts:97 | the overall points ascend strictly in time |
| Aggregate.AggregateIsBounded | src/repositories/metrics.repository.ts:77-103 | for every window at most 501 overall points, each labelled in (since - bucket, until] |
| Aggregate.MostTotals | src/repositories/metrics.repository.ts:77-103 | the largest number of overall points a window can give is exactly the number of buckets it meets |
| Aggregate.OverallNeverTooCoarse | src/repositories/metrics.repository.ts:77-103 | the same for the overall series |
| Aggregate.OverallIsSumOfProcesses | src/repositories/metrics.repository.ts:77-103 | when in each bucket each process has no row or as many as the bucket has instants, each overall point is the sum of the processes' points for the same bucket |
| Aggregate.OneRowEachSums | src/services/metrics.service.ts:73-84 | in particular with exactly one row per process at every instant, and then all series have the same points |
| SumLaw.MarkedBreaksLaw | src/repositories/metrics.repository.ts:53-103 | where the counts differ, cpu 1 for that process and 0 for the others breaks the sum |
| SumLaw.SumLawExactWhen | src/repositories/metrics.repository.ts:53-103 | for any samples: the sum law holds under all cpu readings if and only if the counts match |
| Aggregate.ClusterInstancesAreAveraged | src/repositories/metrics.repository.ts:57-58 | two rows of one name at one instant are added, cpu and memory, by the overall series and averaged by the process's own |
| Retention.MetricsTable.InsertMany | src/repositories/metrics.repository.ts:36-46 | the samples are appended in order |
| Retention.MetricsTable.DeleteOlderThan | src/repositories/metrics.repository.ts:124-127 | the rows at or above the cutoff remain, and the others are counted |
| Retention.MetricsTable.CollectOnce | src/services/metrics.service.ts:71-89 | appends one sample per process in order, each as listed but for the one timestamp, or changes nothing when the daemon cannot be listed |
| Retention.MetricsTable.RunRetention | src/services/metrics.service.ts:96-97 | the first statement of the sweep: deletes samples older than the retention window |
| Retention.SweepCounts | src/services/metrics.service.ts:95-97 | a sweep keeps every sample of the given number of days, as often as it is there, and no older one |
| Retention.TableIsRecentHistory | src/services/metrics.service.ts:71-101 | under a clock that never goes back, after any interleaving of collections and sweeps the table is every sample ever inserted at or above the largest cutoff used |
| Retention.PruningInvisibleWhen | src/services/metrics.service.ts:95-97 | a window query reads the same rows as on the never-pruned history if and only if the window has no sample older than the largest cutoff |
| Retention.NamesInvisibleWhen | src/controllers/history.controller.ts:52-55 | the names endpoint answers as on the never-pruned history if and only if every name sampled inside the retention window has such a sample at or above the largest cutoff |
| Retention.NamesIn | src/repositories/metrics.repository.ts:106-111 | the distinct names of the rows in strictly ascending order |
| Retention.RangesLast | src/controllers/history.controller.ts:19-28 | each shorthand range lasts the minutes, hours or days of its name |
| Retention.QueryWindow | src/controllers/history.controller.ts:39-40 | a query's window ends at its own end or now, and begins at its own start or one range before that end |
| Retention.NamedAnswer | src/controllers/history.controller.ts:42-44 | a query with a name is answered with that process's series over its window |
| Retention.OverallAnswer | src/controllers/history.controller.ts:45-48 | a query without a name, or with an empty one, is answered with the overall series over its window |
| Retention.HistoryNamesListed | src/controllers/history.controller.ts:52-55 | the names endpoint lists a name if and only if it was sampled inside the retention window |
| Retention.PruningIsInvisible | src/controllers/history.controller.ts:37-55 | if retention was never raised, the names endpoint and every series beginning inside the retention window answer as if nothing had been pruned |
| Retention.RaisedRetentionShowsGap | src/controllers/history.controller.ts:53-54 | after raising retention the names endpoint can miss a name the history has |
| Calendar.StampOf | src/services/activity.service.ts:59 | the calendar fields of a second are a valid date and time that denotes that second |
| Calendar.StampIsUnique | src/services/activity.service.ts:59 | every valid date and time of the years 0000 to 9999 is the calendar form of exactly its own second |
| Calendar.EpochSecond | src/services/activity.service.ts:59 | 1970-01-01 00:00:00 is second 0 |
| Calendar.MonthLengths | src/services/activity.service.ts:59 | every month has its usual number of days, February 29 in a leap year and 28 otherwise |
| Calendar.OrderOfStamps | src/repositories/activity.repository.ts:75-80 | comparing calendar fields is comparing seconds |
| Calendar.TextOrderIsTimeOrder | src/repositories/activity.repository.ts:75-80 | for all seconds of the years 0000 to 9999 the stored texts compare as the seconds do |
| Calendar.CutoffIsSqlText | src/services/activity.service.ts:59-61 | the cutoff text is the text SQLite stores for the cutoff's second |
| Calendar.ServerDateInvertsSqlText | public/static/js/app.js:143-149 | the client reads every stored text back as the instant it was made from |
| ActivityLog.ActivityRepository.Create | src/repositories/activity.repository.ts:25-35 | appends the row with all its columns under a new id, uses up that id, and returns the row as stored |
| ActivityLog.ActivityRepository.DeleteOlderThan | src/repositories/activity.repository.ts:75-80 | removes the rows with an earlier text and counts them |
| ActivityLog.PruneKeeps | src/repositories/activity.repository.ts:77 | a row stays if and only if its text is not before the cutoff's |
| ActivityLog.ApplyKeepsIds | src/db/schema.ts:22-28 | no recording and no pruning disturbs the order of ids |
| ActivityLog.EvolveIsLater | src/db/schema.ts:22-28 | after any recordings and any prunings that cut the old end, what a filter sees is what it saw without some of the oldest rows and with newer ones added |
| ActivityLog.ListIsByRank | src/repositories/activity.repository.ts:37-62 | a list holds exactly the rows its filter lets through with at least `offset` and fewer than `offset + limit` such rows of greater id, newest first, `offset` raised to 0 and `limit` brought into 1 to 500 |
| ActivityLog.ShownOnPage | src/repositories/activity.repository.ts:56-60 | an entry is on the page that covers the number of newer matching entries |
| ActivityLog.ShownNowhereElse | src/repositories/activity.repository.ts:56-60 | and on no other page |
| ActivityLog.WalkNeverSkips | public/static/js/app.js:686-709 | paging from the top until Next is disabled shows every matching entry that was there at the start and was not pruned, whatever is recorded between the loads and however stamped, if each pruning cuts the old end of what the filter sees |
| ActivityLog.RecordingNeverSkips | public/static/js/app.js:686-709 | while nothing is pruned, the walk skips nothing, with no condition on stamps |
| ActivityLog.ClockedWalkNeverSkips | public/static/js/app.js:686-709 | with stamps that do not go back, any prunings may run |
| ActivityLog.PagesAreWholeLog | src/repositories/activity.repository.ts:37-72 | on an unchanged log the pages until Next is disabled are the whole filtered log in strictly descending id, in max(1, ceil(total / 25)) pages |
| ActivitySkips.OtherPruningSkips | src/repositories/activity.repository.ts:56-80 | a pruning that keeps an entry older than one it removes: for any filter and any stamps of new rows there is a walk by enabled clicks up to a disabled Next that never shows the kept entry |
| ActivitySkips.PruningSkipsWhen | src/repositories/activity.repository.ts:56-80 | some walk with the pruning between two loads skips an entry that was there throughout, if and only if the pruning keeps an entry older than one it removes |
| ActivitySkips.BackdatedRowHidesAnother | public/static/js/app.js:1019 | 26 rows and a newest one with an earlier stamp: pruning between two loads hides the second row |
| ActivityBrowsing.Browse | public/static/js/app.js:1017-1019 | the pager object, clicked to the end over a changing repository, has shown exactly the pages of the walk theorems |
| ActivityBrowsing.BrowseToEnd | public/static/js/app.js:686-709 | and so has shown every entry that was there from the start to the end, if each pruning cut the old end |
| ActivityLog.Pager.Load | public/static/js/app.js:686-709 | shows the page at the offset and sets both buttons accordingly |
| ActivityLog.Pager.Next | public/static/js/app.js:1019 | moves on by 25 and shows that page |
| ActivityLog.Pager.Previous | public/static/js/app.js:1018 | moves back by 25, and does nothing on the first page |
| ActivityLog.Pager.Filter | public/static/js/app.js:1017 | starts over at the top under the new filter |
| ActivityTime.PruneAt | src/services/activity.service.ts:58-63 | prunes with the text of the instant `days` days ago and counts the removed rows |
| ActivityTime.PruneIsByTime | src/services/activity.service.ts:58-63 | exactly the entries from an earlier second than the cutoff go |
| ActivityTime.RunRetention | src/services/metrics.service.ts:95-101 | the whole sweep: samples past the retention window, activity past four such windows or 30 days, with both counts |
| ActivityTime.SweepSparesRecent | src/services/metrics.service.ts:98-99 | a sweep never removes activity of the last 30 days, nor of the last four retention windows |
| ActivityTime.SweepIsByAge | src/services/metrics.service.ts:95-99 | a sweep removes an activity entry if and only if its second is earlier than both 30 days and four retention windows ago |
| ActivityTime.ClockJumpHidesEntry | src/services/activity.service.ts:58-63 | with stamps and cutoff as the program writes them: a row written while the clock stood before the cutoff makes the pager skip a row of today |
| ActivityTime.ClockMakesWalkComplete | public/static/js/app.js:686-709 | under a server clock that does not go back the pager's guarantee holds |
| Pm2Connection.ConnectionRuns | src/services/pm2.service.ts:207-239 | in every interleaving, with late and repeated callbacks: at most one attempt is unsettled, `connecting` is set exactly when one is, and never together with `connected` |
| Pm2Connection.AttemptSettles | src/services/pm2.service.ts:215-237 | an open attempt is timed out by its timeout and rejected by an error, the service staying unconnected, and resolved by a success, which connects it; nothing is pending afterwards |
| Pm2Connection.ConnectedMeansSuccess | src/services/pm2.service.ts:207-255 | in every run, if the service is connected, PM2 reported success to an attempt then open and there was no disconnect since |
| Pm2Connection.ResolvedMeansSuccess | src/services/pm2.service.ts:224-237 | in every run, an attempt is resolved only by a success reported to it while it was open |
| Pm2Connection.SettledIsFinal | src/services/pm2.service.ts:215-228 | a settled attempt keeps its outcome, and a callback or timeout for it changes nothing, also while a newer attempt is pending |
| Pm2Connection.SettlesOnce | src/services/pm2.service.ts:215-228 | in every run an attempt settles at most once |
| Pm2Connection.BusEndIsSafeWhen | src/services/pm2.service.ts:439-446 | the end of a bus keeps the bus invariant if and only if the service refers to no bus, or to that one and it stops delivering |
| Pm2Connection.LaunchIsSafeWhen | src/services/pm2.service.ts:399-406 | a launch answer keeps it if and only if it is awaited, or no launch is awaited and it brings no second bus |
| Pm2Connection.DisconnectIsSafeWhen | src/services/pm2.service.ts:241-255 | a disconnect keeps the bus invariant if and only if there is no bus to close or close() takes effect |
| Pm2Connection.StepIsSafeWhen | src/services/pm2.service.ts:207-453 | every event keeps the bus invariant if and only if it is safe in that sense |
| Pm2Connection.BusOkThroughoutWhen | src/services/pm2.service.ts:207-453 | the bus invariant holds throughout a run if and only if every event of the run is safe |
| Pm2Connection.WellBehavedRunIsSafeWhen | src/services/pm2.service.ts:241-453 | if each bus reports its end once at most and is silent once ended or closed, and each launch is answered once at most, then every event of a run is safe if and only if a bus closed by `disconnect` reports its end, if at all, while no bus is attached |
| Pm2Connection.PacketOnce | src/services/pm2.service.ts:408-424 | with the bus invariant a packet is re-emitted once if there is a bus, else not at all |
| Pm2Connection.BusIsSought | src/services/pm2.service.ts:261-273 | a launch is asked for exactly when connected without a bus and with none on the way; a success attaches a new live bus, a failure none |
| Pm2Connection.LaunchesStayWhen | src/services/pm2.service.ts:397-405 | one awaited launch at most, named by `busInitializing` and never together with a bus: an event keeps this if and only if it is no repeated answer while another launch is awaited |
| Pm2Connection.LaunchesOkThroughoutWhen | src/services/pm2.service.ts:395-453 | it holds throughout a run if and only if no event of the run is such an answer |
| Pm2Connection.LaunchRuns | src/services/pm2.service.ts:395-453 | if `launchBus` answers each call once at most, then in every interleaving, however buses end: one unanswered launch at most, `busInitializing` set exactly then and never with a bus |
| Pm2Connection.BusRuns | src/services/pm2.service.ts:395-453 | in every interleaving of safe events, besides: the live buses are exactly the one referred to, and each packet is re-emitted once |
| Pm2Connection.LateCloseDoublesPackets | src/services/pm2.service.ts:439-446 | a run in which an old bus reports its end a second time leaves two live buses, and a packet is re-emitted twice |
| Pm2Connection.LiveErrorDoublesPackets | src/services/pm2.service.ts:443-446 | a run in which a bus reports an error and goes on delivering leaves two live buses, and a packet is re-emitted twice |
| Pm2Connection.ClosedBusDoublesPackets | src/services/pm2.service.ts:242-249 | with a PM2 that behaves well throughout: a bus closed by `disconnect` reports its one close after the next bus is attached, two live buses result, and a packet is re-emitted twice |
| Pm2Connection.FailedCloseDoublesPackets | src/services/pm2.service.ts:242-249 | a run in which close() throws and the bus goes on delivering leaves two live buses, and a packet is re-emitted twice |
| Pm2Connection.SynchronousIsSafeWhen | src/services/pm2.service.ts:207-239 | a callback before `pm2.connect` returns keeps the connection invariant if and only if `connect` makes no attempt |
| Pm2Connection.SynchronousCallbackSticks | src/services/pm2.service.ts:211-238 | at any attempt, after a failure called back before `pm2.connect` returns, and after such a success followed by a disconnect, no run ever connects or makes another attempt |
| Pm2Connection.Pm2Service.Connect | src/services/pm2.service.ts:207-239 | joins the pending attempt or makes one; the attempt returned is unsettled |
| Pm2Connection.Pm2Service.ConnectTimedOut | src/services/pm2.service.ts:216-221 | the timeout step, keeping the connection invariant |
| Pm2Connection.Pm2Service.ConnectAnswered | src/services/pm2.service.ts:224-236 | the callback step, also late or repeated, keeping the connection invariant |
| Pm2Connection.Pm2Service.Disconnect | src/services/pm2.service.ts:241-255 | the disconnect step, whether close() takes effect or throws, keeping the connection invariant |
| Pm2Connection.Pm2Service.EnsureBus | src/services/pm2.service.ts:261-273 | launches a bus only when connected without one and with no launch awaited |
| Pm2Connection.Pm2Service.BusLaunched | src/services/pm2.service.ts:399-406 | the launch callback step, first or repeated |
| Pm2Connection.Pm2Service.BusEnded | src/services/pm2.service.ts:439-446 | the close or error step of any bus, first or repeated, silent or not |
| Pm2Connection.Pm2Service.Deliver | src/services/pm2.service.ts:426-427 | every live bus re-emits the packet, which is exactly once under the bus invariant |
| Chart.FloorLog10 | public/static/js/chart.js:35 | the exponent k with 10^k <= v < 10^(k+1), for every positive v |
| Chart.NiceCeilIsLeast | public/static/js/chart.js:33-39 | `niceCeil(v)` is the least of all numbers 1, 2 or 5 times a power of ten that are at least v |
| Chart.ComputeChart | public/static/js/chart.js:54-106 | plot size, bounds and spans, the y span coming from the largest value when no maximum is given |
| Chart.DrawnInsidePlot | public/static/js/chart.js:102-103 | under default bounds every point of a non-negative ascending series is drawn inside the plot rectangle |
| Chart.ScalesRunRight | public/static/js/chart.js:102 | later times are drawn further right, the span filling the plot from edge to edge |
| Chart.ScalesRunUp | public/static/js/chart.js:103 | greater values are drawn higher, the span filling the plot from bottom to top |
| Chart.ScalesInvert | public/static/js/chart.js:102-104 | `xAt` and `sx` invert each other |
| Chart.NearestIndex | public/static/js/chart.js:177-187 | the point at the least distance to the pixel's time over all points, the earlier one on a tie |
| Chart.ServerSeriesAscend | src/repositories/metrics.repository.ts:53-103 | both series the server sends meet the search's precondition, whichever value is plotted |
| CsrfClient.Server.IssueToken | src/middleware/csrf.middleware.ts:18-23 | returns the session's secret, creating it only if there is none |
| CsrfClient.Server.Post | src/middleware/csrf.middleware.ts:36-54 | the route is reached if and only if the token is the session's secret |
| CsrfClient.Client.GetCsrfToken | public/static/js/api.js:88-93 | the cached token without touching the session, or the session's secret fetched and cached, or what the fetch throws |
| CsrfClient.Client.Send | public/static/js/api.js:53-76 | for each fate of a fetch what arrives and what the server has done: nothing on either side, a 429, the work done and no response, the status alone, or the route's answer, which is 403 exactly when the token is not the session's secret |
| CsrfClient.Client.Mutate | public/static/js/api.js:41-85 | whatever the network does on the way there or back: one retry at most; the check never refuses a retry; a route that refuses never runs the handler, and another runs it at most once unless it answers 403 itself; success is reported only for exactly one run, and after a run the caller gets the route's answer unless the response did not arrive whole; if all fetches get through, the check refuses once if and only if the cached token is not the session's secret (as after signing in), the caller gets exactly the route's answer, and the handler runs twice if and only if it answers 403 to a first request that passed the check |
| CollectorTimers.StepKeepsTimers | src/services/metrics.service.ts:112-148 | start, stop, reschedule and settings updates keep the live timers equal to the held handles with the right periods |
| CollectorTimers.TimersFollowSettings | src/controllers/settings.controller.ts:29-93 | over any run both timers are held or neither, the live timers are the held ones, the collect period is the effective persisted interval and the retention period an hour, and the settings page reports what the collector uses |
| CollectorTimers.TimersRunWhen | src/services/metrics.service.ts:112-148 | over any run the timers are held exactly from a start to the next stop, whatever is rescheduled or updated in between |
| CollectorTimers.DefaultsApply | src/services/metrics.service.ts:44-62 | without a stored setting, or with one that is no number, the configured interval and retention apply |
| CollectorTimers.UpdateTakesEffect | src/controllers/settings.controller.ts:65-93 | a saved interval is reported and, if the collector runs, in force at once |
| CollectorTimers.MetricsService.Start | src/services/metrics.service.ts:112-122 | makes both timers, or does nothing when started |
| CollectorTimers.MetricsService.Reschedule | src/services/metrics.service.ts:129-135 | replaces the collect timer, or does nothing when stopped |
| CollectorTimers.MetricsService.Stop | src/services/metrics.service.ts:138-148 | leaves no live timer |
| CollectorTimers.MetricsService.Set | src/repositories/settings.repository.ts:19-27 | inserts or overwrites one key |
| CollectorTimers.MetricsService.UpdateSettings | src/controllers/settings.controller.ts:65-93 | stores the given fields, reschedules on a new interval, returns the new reading |

## Left out

Assumptions that the theorems above rest on:

- Accounts and sessions: each handler is one atomic step; the awaits inside handlers (password hashing, session saving) do not interleave. New session ids come from a counter. The users table is empty before the first start.
- Accounts and sessions: CSRF checks, rate limits and input validation are not in the machine; it allows more requests than the server does, so its theorems cover them. Argon2 and TOTP are arbitrary predicates, hashes and secrets arbitrary texts.
- Text is sequences of Unicode scalar values; lone surrogates, which UTF-8 decoding cannot produce, are not represented.
- Json: arrays, fractions, whitespace between tokens and duplicate keys are outside the model of `JSON.parse`; the program's own texts have none of these.
- Event stream: event ids, retry times and reconnection are left out. `StreamReachesClient` is about the lines emitted after the listener is attached; lines emitted while the backlog is being read reach the client only as far as they are already in the files.
- LogTail.ReadTailLines: assumes that the read fills the buffer and that the file does not change meanwhile.
- Metrics: averages and sums are over the reals; timestamps are not negative; retention days are whole numbers.
- Retention and paging: the server clock never goes back, where a theorem says so.
- Calendar: the years 0000 to 9999; other inputs of `parseServerDate` (numbers, texts with a zone) are left out.
- Pm2Connection: PM2's callbacks are asynchronous, except where a synchronous one is treated by name. `BusRuns` takes every event to be safe; `BusOkThroughoutWhen` and `WellBehavedRunIsSafeWhen` say exactly when. That a launch is ever answered is not claimed.
- Chart: real numbers instead of floating point, so `Math.log10` does not round.
- CollectorTimers: `Number()` on stored texts is a parameter; its agreement with written numerals is a premise of `UpdateTakesEffect` only.

What the repository does and the model does not:

- The create-admin command, `GET /me`, user and activity listings beyond the pager, and the audit entries the handlers write.
- The `types` filter of the activity list (recent restarts), and page loads that overtake each other in the browser.
- `latestForAll`, the constant `status` column of a series, process listing and actions, dashboard counts, system information.
- Re-emission of process events, and how a log line is built from a packet.
- The removal of the stream's listener and timer, and what happens to them when a client disconnects during the backlog.
- The redirect to the login page on 401, pages, drawing, themes, configuration, start-up and shutdown wiring: each step of these is a single branch or a call into a library.
