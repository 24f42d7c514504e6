# Proxy upload admin: a Dafny model

This project models the logic of a small proxy-distribution web app, which has four parts.

- **Proxy upload** (`handleFileUpload` on the admin page). An administrator uploads a text file of `host:port` lines. Every non-blank line is trimmed and inserted into a `proxies` table whose `proxy_string` column is unique, one line at a time. Each answer is tallied as added, duplicate or ignored. A progress value moves through a fixed schedule. One `upload_history` row is written, and one of three summary messages is chosen.
- **Other admin handlers**: deleting an upload-history row, creating a user (guarded against empty fields), toggling a user's active flag, deleting a user (never the signed-in admin), and deleting every proxy.
- **Upload progress dialog** (`UploadProgressModal`). A pure function from the dialog's props to the icon, title, message, report panels and animations it shows.
- **Usage statistics.** The status page computes per-user totals, weekly totals, counts and last-use times from the usage log list, plus the system counters. The profile page computes the same figures for the signed-in user.

The remote table store is a class, `TableStore.Store`, holding the tables as maps and sequences. How the remote side answers each call is a parameter: normally, with an error object (`FailWith`), or by throwing (`Throw`). The admin page is a class, `AdminPage.Admin`, whose fields are the page's React state. Its handlers are methods. The field edits on the create-user form are modelled as one method, `EditNewUser`, which replaces the whole form.

The upload handler is proved against pure specification functions in `Ingestion`:
- `Candidates`, for parsing;
- `Run`, the table after each insert and the reply to each;
- `Count`, the tallies;
- `UploadTrace`, every progress value pushed;
- `SummaryFor`, the message.

A ghost field `progressTrace` records every value written to `uploadProgress`, so the whole progress schedule is part of the handler's contract.

Times are integer milliseconds. Progress is an exact `real`. Both statistics pages are pure functions from their previous state and the store's answers to their next state.

Module layout:
- `wrappers.dfy`: `Option` and `Result`.
- `text_ops.dfy`: JavaScript `trim`, `split('\n')` and `includes`.
- `table_store.dfy`: the store.
- `ingestion.dfy`: the upload specification.
- `admin.dfy`: the admin page.
- `upload_progress_modal.dfy`: the dialog.
- `usage_logs.dfy`: the log filters, sums and the week cutoff.
- `status.dfy`: the status page.
- `profile.dfy`: the profile page.

## Model

| member | source | states |
|---|---|---|
| TextOps.Trim | src/pages/Admin.tsx:122 | JavaScript `trim`; `TrimShape`, `TrimEmptyIffBlank`, `TrimIdempotent` and `TrimIgnoresPadding` state what it returns |
| TextOps.Contains | src/pages/Admin.tsx:127 | JavaScript `includes`; `ContainsIff` and `ContainsLength` state what it accepts |
| TextOps.ContainsIff | src/pages/Admin.tsx:127 | `t` is included in `s` exactly when `t` is a prefix of `s` from some index on |
| TextOps.ContainsLength | src/pages/Admin.tsx:127 | a string is never found inside a shorter one |
| TextOps.TrimShape | src/pages/Admin.tsx:104 | `trim` returns a contiguous slice of its input that neither starts nor ends with white space, and only white space is removed around it |
| TextOps.TrimEmptyIffBlank | src/pages/Admin.tsx:104 | a line's trim is empty exactly when the line is all white space, which is the filter's test |
| TextOps.TrimIdempotent | src/pages/Admin.tsx:122 | trimming an already trimmed value changes nothing |
| TextOps.TrimIgnoresPadding | src/pages/Admin.tsx:122 | white space added on either side never changes the trimmed value |
| TextOps.Split | src/pages/Admin.tsx:104 | `split('\n')` gives at least one piece, no piece holds a line feed, and joining the pieces with line feeds gives the text back |
| TextOps.SplitJoin | src/pages/Admin.tsx:104 | splitting undoes joining for pieces without line feeds |
| Ingestion.NonBlankLines | src/pages/Admin.tsx:104 | the filter keeps exactly the lines whose trim is non-empty |
| Ingestion.NonBlankLinesAppend | src/pages/Admin.tsx:104 | the filter keeps order: it distributes over concatenation |
| Ingestion.Candidates | src/pages/Admin.tsx:104 | every candidate is one of the pieces the file splits into at line feeds, untrimmed, holding no line feed and with a non-empty trim |
| Ingestion.CandidatesOfLines | src/pages/Admin.tsx:104 | for a file written as lines, the candidates are exactly its non-blank lines in file order |
| Ingestion.NoCandidatesIffBlank | src/pages/Admin.tsx:104-106 | the upload stops with "no valid proxies" exactly when the whole file is white space |
| Ingestion.Values | src/pages/Admin.tsx:121-123 | one value per candidate, each the candidate's trim |
| Ingestion.IsDuplicateError | src/pages/Admin.tsx:127 | the duplicate test on an error answer; `DuplicateErrorIff` and `DeniedIsNotDuplicate` state what it accepts |
| Ingestion.DuplicateErrorIff | src/pages/Admin.tsx:127 | an error answer is taken for a duplicate exactly when its code is 23505 or "duplicate" or "unique" occurs at some position of its message |
| Ingestion.DeniedIsNotDuplicate | src/pages/Admin.tsx:127-131 | every error whose code is not 23505 and whose message has neither "duplicate" nor "unique" at any position is not a duplicate and is tallied as ignored, so it is only logged |
| Ingestion.Classify | src/pages/Admin.tsx:125-149 | the verdict of one reply; `InsertVerdictCases` states it for every answer of the store |
| Ingestion.InsertVerdictCases | src/pages/Admin.tsx:125-150 | with a normal answer, an insert adds iff the value is not yet stored and is a duplicate iff it is; a throw counts as a duplicate; an error answer never adds and is a duplicate iff its code is 23505 or its message contains "duplicate" or "unique" |
| Ingestion.Run | src/pages/Admin.tsx:119-123 | one reply per value; rows already stored keep their flags; every row after the run was stored before or is one of the values |
| Ingestion.RunReplyAt | src/pages/Admin.tsx:119-123 | the j-th reply is the store's answer given the table the first j inserts left |
| Ingestion.RunKeysNoFaults | src/pages/Admin.tsx:119-123 | without faults, the table ends up holding the old rows plus every value of the batch |
| Ingestion.RunVerdictsNoFaults | src/pages/Admin.tsx:121-134 | without faults, an insert adds iff its value is neither stored beforehand nor earlier in the batch, and is a duplicate otherwise |
| Ingestion.Count | src/pages/Admin.tsx:116-148 | the three tallies of the loop; `CountStep`, `CountsPartition`, `CountZero` and `CountAll` state how they grow and what they add up to |
| Ingestion.CountsPartition | src/pages/Admin.tsx:119-151 | every reply is tallied exactly once: added + duplicate + ignored = number of lines |
| Ingestion.CountZero | src/pages/Admin.tsx:119-151 | a tally is 0 exactly when no reply received that verdict |
| Ingestion.CountAll | src/pages/Admin.tsx:119-151 | a verdict every reply received is tallied once per line |
| Ingestion.AddedPlusDuplicates | src/pages/Admin.tsx:119-151 | `successCount + duplicateCount <= proxies.length`, with equality iff no insert came back with a non-uniqueness error |
| Ingestion.FreshBatch | src/pages/Admin.tsx:121-134 | N distinct values none of which is stored: N added, 0 duplicates |
| Ingestion.Reupload | src/pages/Admin.tsx:121-134 | uploading the same values again into the resulting table: 0 added, N duplicates |
| Ingestion.PaddedRepeatIsDuplicate | src/pages/Admin.tsx:104-123 | a later line that differs from an earlier one only by surrounding white space is tallied as a duplicate |
| Ingestion.RepeatedLineUpload | src/pages/Admin.tsx:104-158 | a file `a`, `b`, `a` into a table holding neither: 3 processed, 2 added, 1 duplicate |
| Ingestion.ExampleUpload | src/pages/Admin.tsx:104-158 | the same for the concrete file `1.1.1.1:8080`, `2.2.2.2:8080`, `1.1.1.1:8080` into an empty table |
| Ingestion.InsertProgress | src/pages/Admin.tsx:139 | `20 + processed/total*60` lies in [20, 80], is 80 iff every line was processed, and is 20 iff none was |
| Ingestion.InsertProgressMonotone | src/pages/Admin.tsx:139 | insert-phase progress grows with the processed count |
| Ingestion.InsertPhase | src/pages/Admin.tsx:136-150 | the progress values pushed while inserting, one per insert that did not throw; `InsertPhaseShape` and `InsertPhaseStep` state its contract |
| Ingestion.InsertPhaseShape | src/pages/Admin.tsx:136-150 | insert-phase values lie in (20, 80] and never decrease; the phase ends on the value for the last line when that insert did not throw; it has one value per line iff no insert threw |
| Ingestion.UploadTrace | src/pages/Admin.tsx:93-174 | every value the handler pushes to the progress bar, in order; `UploadTraceShape` states its contract |
| Ingestion.UploadTraceShape | src/pages/Admin.tsx:93-174 | the progress sequence 0, 10, 20, insert phase, 85, 95, 100 never decreases and stays within 0..100; its last value is 100 iff the history write did not throw; it contains 80 when the last insert did not throw |
| Ingestion.SummaryFor | src/pages/Admin.tsx:178-186 | mixed message iff duplicates > 0 and added > 0; all-duplicate message iff duplicates > 0 and nothing added; success message iff no duplicates, even with nothing added |
| Ingestion.StatsOf | src/pages/Admin.tsx:154-158 | the dialog's stats have `totalProcessed` = number of lines and success + duplicates <= that |
| Ingestion.ReuploadSummary | src/pages/Admin.tsx:178-183 | re-uploading a non-empty batch without faults shows the all-duplicate message with N duplicates |
| Ingestion.AllIgnoredReportsSuccess | src/pages/Admin.tsx:129-185 | when every insert fails with a non-uniqueness error, nothing is tallied and the success message ("0 uploaded") is shown |
| TableStore.UniqueInsertReply | src/pages/Admin.tsx:121-123 | normal answer: success iff the value is absent, otherwise the 23505 unique violation; a fault never succeeds |
| TableStore.PlainReply | src/pages/Admin.tsx:163-168 | a store call with no constraint to violate (the history insert here, and likewise the other handlers' calls) answers without an error exactly when no fault is given |
| TableStore.ProxiesAfterInsert | src/pages/Admin.tsx:121-123 | a successful insert adds one unused row for the value; nothing else changes |
| TableStore.WithoutRow | src/pages/Admin.tsx:210-213 | exactly the rows with other ids remain; with no such row the history is unchanged |
| TableStore.UsedCount | src/pages/Status.tsx:101-104 | the number of used proxies never exceeds the number of proxies |
| TableStore.Store.InsertProxy | src/pages/Admin.tsx:121-123 | the reply and new `proxies` table are those of a unique insert |
| TableStore.Store.InsertHistory | src/pages/Admin.tsx:163-168 | on success exactly one row with a fresh id is appended; otherwise the history is unchanged |
| TableStore.Store.DeleteHistory | src/pages/Admin.tsx:210-213 | on success the rows with that id are removed; otherwise nothing changes |
| TableStore.Store.InsertUser | src/pages/Admin.tsx:230-234 | on success one active user with a fresh id is added; otherwise nothing changes |
| TableStore.Store.SetUserActive | src/pages/Admin.tsx:253-256 | on success the user's active flag is set and nothing else changes |
| TableStore.Store.DeleteUser | src/pages/Admin.tsx:336-339 | on success exactly that user is removed |
| TableStore.Store.DeleteAllProxies | src/pages/Admin.tsx:360-363 | on success the proxies table is empty; otherwise unchanged |
| AdminPage.Admin.constructor | src/pages/Admin.tsx:13-35 | the page's initial state: no file, append selected, not loading, blank form, dialog closed at 0, zero stats |
| AdminPage.Admin.SelectFile | src/pages/Admin.tsx:423 | the file input sets the selected file |
| AdminPage.Admin.DialogProps | src/pages/Admin.tsx:712-720 | the dialog's props are the page's upload fields, with the selected file's name; `DialogAfterUpload` states them after a completed upload |
| AdminPage.Admin.HandleFileUpload | src/pages/Admin.tsx:87-206 | without a file or a signed-in user nothing changes. Otherwise: an unreadable file or a file with no non-blank line writes nothing to the store and closes the dialog, and leaves the last upload count and the limit warning as they were. Else the proxies table is the insert run's result, the stats are that run's, one history row (proxy count = added, position append) is written unless that write fails, the whole progress trace is the schedule, and the completion message matches the counts; the last upload count becomes the added count and the limit warning is raised only when the upload completes, and both are kept when the history write throws. Users, selected position and form are untouched, and loading ends false on every path |
| AdminPage.Admin.UploadSelected | src/pages/Admin.tsx:92-205 | the handler past its guard, with the three outcomes described for `HandleFileUpload`; on the unreadable-file and no-line paths the last upload count and the limit warning are unchanged |
| AdminPage.Admin.SetProgress | src/pages/Admin.tsx:140 | each `setUploadProgress` sets the progress value and appends exactly that value to the recorded progress trace |
| AdminPage.Admin.BeginUpload | src/pages/Admin.tsx:92-100 | the dialog opens, the stats reset, loading starts, and progress goes 0 then 10 |
| AdminPage.Admin.UploadBatch | src/pages/Admin.tsx:114-205 | after parsing a non-empty batch: the `UploadOutcome` described for `HandleFileUpload`, whose last upload count and limit warning are unchanged when the history write throws |
| AdminPage.Admin.FinishUpload | src/pages/Admin.tsx:153-205 | stats recorded, progress 85, one history row with the added count and position append if the write succeeds; a throw lands in the catch block with the progress left at 85 and the last upload count and limit warning unchanged; otherwise they become the added count and true |
| AdminPage.Admin.CatchUploadError | src/pages/Admin.tsx:200-205 | error message, dialog closed, loading cleared |
| AdminPage.Admin.CompleteUpload | src/pages/Admin.tsx:170-205 | progress 95 then 100, upload complete, summary message for the counts, file input cleared, limit warning shown with the added count |
| AdminPage.Admin.InsertOne | src/pages/Admin.tsx:120-150 | one loop body: the unique insert of the trimmed line, processed + 1 on both paths, success + 1 iff added, duplicates + 1 iff duplicate, and a progress push unless the insert threw |
| AdminPage.Admin.InsertProxies | src/pages/Admin.tsx:114-151 | the loop leaves the table and replies of `Run` over the trimmed lines, counters equal to the `Count` tallies of those replies, and the insert-phase progress trace |
| AdminPage.Admin.DeleteUploadHistory | src/pages/Admin.tsx:208-223 | on success only the rows with that id are gone; the proxies are untouched; on failure nothing changes |
| AdminPage.Admin.EditNewUser | src/pages/Admin.tsx:478-492 | the form inputs replace the create-user form |
| AdminPage.Admin.CreateUser | src/pages/Admin.tsx:225-249 | an empty username or access key changes nothing; otherwise on success one active user with the form's fields is added at a fresh id and the form is reset; on failure nothing changes |
| AdminPage.Admin.ToggleUserStatus | src/pages/Admin.tsx:251-266 | on success the user's `is_active` becomes the negation of the passed status, and no other row changes |
| AdminPage.Admin.DeleteUser | src/pages/Admin.tsx:324-347 | the signed-in user's own id, a declined confirmation or a failed call changes nothing; otherwise exactly that user is removed |
| AdminPage.Admin.DeleteAllProxies | src/pages/Admin.tsx:351-373 | two confirmations and a successful call empty the proxies table; otherwise it is unchanged |
| AdminPage.ToastMatchesPanels | src/pages/Admin.tsx:178-186 | for every pair of counts the message and the dialog's panels agree: all-duplicate message iff all-duplicate panel, mixed message iff duplicate report alone, success message with additions iff clean-success panel alone, and "0 uploaded" iff no panel |
| AdminPage.DialogAfterUpload | src/pages/Admin.tsx:712-720 | after a completed upload the dialog is open on the finished view at 100, shows no file name, reports the run's line count, and shows the duplicate report iff there were duplicates |
| UploadProgressDialog.Render | src/components/UploadProgressModal.tsx:14-197 | nothing while closed. Check icon and complete title iff complete; "N added" message iff complete with successCount > 0; all-duplicate text iff complete otherwise; wait text iff running. File name iff non-empty. Duplicate report iff complete and duplicates > 0; clean-success panel iff complete, no duplicates and additions; all-duplicate panel iff complete, no additions and duplicates > 0. Shimmer and loading animation iff running, completion banner iff complete |
| UploadProgressDialog.AllDuplicateImpliesDuplicateReport | src/components/UploadProgressModal.tsx:63-108 | the all-duplicate panel never shows alone: the duplicate report is above it, and these two are all the panels |
| UploadProgressDialog.CleanSuccessAlone | src/components/UploadProgressModal.tsx:95 | the clean-success panel never shows with a duplicate panel |
| UploadProgressDialog.CompletedPanels | src/components/UploadProgressModal.tsx:63-108 | the complete panel list for every pair of counts; at most two panels; none when both counts are 0 |
| UploadProgressDialog.RunningShowsNoReport | src/components/UploadProgressModal.tsx:45-108 | while running no panel shows and the wait text is shown, whatever the counts |
| UploadProgressDialog.EmptyRunSaysAllDuplicate | src/components/UploadProgressModal.tsx:45-108 | complete with 0 added and 0 duplicates: the all-duplicate text shows but no duplicate panel |
| UsageLogs.LogsOf | src/pages/Status.tsx:58 | a user's logs are exactly the logs with that user id |
| UsageLogs.LogsOfMultiset | src/pages/Status.tsx:58 | the filter keeps each of the user's logs with its multiplicity and no other log |
| UsageLogs.LogsOfNewestFirst | src/pages/Status.tsx:46-58 | filtering a newest-first list leaves it newest-first |
| UsageLogs.Since | src/pages/Status.tsx:61-62 | the week's logs are exactly those created at or after the cutoff |
| UsageLogs.SinceSubMultiset | src/pages/Status.tsx:60-63 | the week's logs are a sub-multiset of the ones summed for the total |
| UsageLogs.SumAmount | src/pages/Status.tsx:60 | the `reduce` sum of the amounts; `SumAmountAppend`, `SumSplitsAtCutoff` and `SumNonNegative` state its properties |
| UsageLogs.SumAmountAppend | src/pages/Status.tsx:60 | the amount sum is additive over concatenation |
| UsageLogs.SumSplitsAtCutoff | src/pages/Status.tsx:60-63 | the total is the week's sum plus the sum of the older logs |
| UsageLogs.WeekWithinTotal | src/pages/Status.tsx:60-63 | with non-negative amounts, 0 <= week's usage <= total usage |
| UsageLogs.SinceAll | src/pages/Status.tsx:61-63 | when every log is within the week, the week's usage is the total |
| UsageLogs.LastUsed | src/pages/Status.tsx:65 | `userLogs[0]?.created_at` is undefined iff there are no logs |
| UsageLogs.LastUsedIsLatest | src/pages/Status.tsx:49-65 | on a newest-first list the first timestamp is the latest, and a log has it |
| UsageLogs.WeekCutoffIn | src/pages/Status.tsx:54-55 | the cutoff is a week before the named variable, and evaluating an undeclared name throws a reference error |
| UsageLogs.CutoffAsWrittenAlwaysThrows | src/pages/Status.tsx:54-55 | the cutoff as written throws for every clock value, and the intended one is `now` minus 604800000 ms |
| StatusPage.StatsFor | src/pages/Status.tsx:58-72 | a user's entry: the count, total and week sum of exactly that user's logs. lastUsed is undefined iff the user has no log, and a user without logs shows zero usage. A null log list counts as no logs |
| StatusPage.ComputeStats | src/pages/Status.tsx:57-74 | one entry per fetched user, in the users list's order; none when the users list is null |
| StatusPage.LastUsedIsNewest | src/pages/Status.tsx:49-65 | on the newest-first log list, lastUsed is the time of the user's most recent log |
| StatusPage.WeekIsPartOfTotal | src/pages/Status.tsx:60-63 | with non-negative amounts the week's usage lies between 0 and the total, and the difference is the sum of the user's older logs |
| StatusPage.OrZero | src/pages/Status.tsx:107-110 | `count \|\| 0`: a null count is 0, any other count is itself |
| StatusPage.SystemStatsOf | src/pages/Status.tsx:106-111 | each system counter is its count with null as 0 |
| StatusPage.CountsOf | src/pages/Status.tsx:87-104 | the four counts the store answers: all users, active users, all proxies, used proxies; `AvailableIsUnused` states what they give |
| StatusPage.AvailableProxies | src/pages/Status.tsx:168 | the "available" figure; `AvailableIsUnused` and `AvailableGoesNegative` state what it shows |
| StatusPage.AvailableIsUnused | src/pages/Status.tsx:97-168 | when every count is answered, available proxies = the number of unused proxy rows, which is never negative |
| StatusPage.AvailableGoesNegative | src/pages/Status.tsx:107-168 | a null total beside a positive used count makes the available figure negative |
| StatusPage.FetchUserStatsWith | src/pages/Status.tsx:33-82 | loading ends false. The stats are replaced by the computed entries only when both queries answered and the cutoff evaluated; otherwise they are kept |
| StatusPage.FetchUserStatsAsWritten | src/pages/Status.tsx:33-82 | as written, every call only clears loading: the stats never change |
| StatusPage.FetchUserStats | src/pages/Status.tsx:33-82 | with the intended cutoff: answered queries give one computed entry per user; a query error leaves the stats; loading ends false |
| StatusPage.FetchSystemStats | src/pages/Status.tsx:84-115 | answered counts become the system stats with nulls as 0; a throw leaves them; user stats untouched |
| StatusPage.AsWrittenNeverShowsStats | src/pages/Status.tsx:55-76 | starting from the empty table, the written handler leaves it empty whatever the store answers |
| StatusPage.FetchShowsEveryUser | src/pages/Status.tsx:57-76 | with the intended cutoff a successful fetch shows an entry for every user, in order, even if the log list is null |
| ProfilePage.ProfileStatsOf | src/pages/Profile.tsx:43-47 | total = sum of amounts, week = sum over logs at or after the cutoff, count = number of logs; all 0 when the list is null |
| ProfilePage.FetchUsageDataWith | src/pages/Profile.tsx:22-59 | no user: nothing changes. Query error: only loading cleared. Otherwise the logs are shown (`logs \|\| []`), the figures become those of the returned logs when the cutoff evaluates and stay as they were when it throws, and loading is cleared |
| ProfilePage.FetchUsageDataAsWritten | src/pages/Profile.tsx:22-59 | as written the figures never change. An answered query still shows the logs and clears loading, because `setUsageLogs` runs before the failing cutoff |
| ProfilePage.FetchUsageData | src/pages/Profile.tsx:22-59 | with the intended cutoff an answered query shows the logs and their figures. A query error only clears loading; no user changes nothing |
| ProfilePage.NoUserKeepsLoading | src/pages/Profile.tsx:14-23 | without a signed-in user the initial spinner stays |
| ProfilePage.OwnLogs | src/pages/Profile.tsx:29-33 | the profile's query answers exactly the signed-in user's logs; `AsWrittenShowsZero` and `ProfileMatchesStatus` use it |
| ProfilePage.AsWrittenShowsZero | src/pages/Profile.tsx:9-58 | as written a user with any number of logs sees them listed but zero figures |
| ProfilePage.ProfileMatchesStatus | src/pages/Profile.tsx:29-47 | the profile's three figures equal the user's total, week and count on the status page over the same log table |
| ProfilePage.ProfileFiguresBounded | src/pages/Profile.tsx:43-47 | with non-negative amounts 0 <= week <= total, and the count is at most the size of the log table |

## Left out

- Toasts, `console.error`, the 50 ms and 500 ms pauses, and the 2-second timer that closes the dialog after an upload. They are presentation and timing. The model records which message would be shown (`notice`) and leaves the dialog state as it is right before the timer fires.
- Reading the file (`file.text()`) is a parameter. `UploadFaults.readFails` says whether it rejects.
- Awaiting and interleaving are left out. Each handler runs to completion before anything else happens.
- The re-fetches after each action (`fetchUploadHistory`, `fetchProxyCount`, `fetchUsers`) are left out. They only copy the store into the page.
- Browser `confirm()` prompts are left out. Their answers are the boolean parameters of `DeleteUser` and `DeleteAllProxies`.
- `generateNewAccessKey` depends on `Math.random`.
- `startEditUser`, `cancelEdit` and `saveUserEdit` are outside the modelled core.
- `ConfirmModal` and `LimitWarningModal` are presentation-only.
- Role-gated rendering is left out ("only admins and managers can view this page").
- Date formatting and `Math.round` and width of the progress bar are left out.
- Progress is modelled with exact `real` arithmetic, not floating point.
- Strings are sequences of Unicode scalar values. JavaScript strings are UTF-16, and `trim` removes the same set of white-space characters in both.
- Usage amounts are unbounded integers, not JavaScript numbers.
- The store's server-side ordering (`order('created_at', descending)`) is a precondition (`NewestFirst`) of the lemmas about `lastUsed`, not something the model computes.
- The store's `is_active` default for new users (`true`) and the nil-UUID filter of the delete-all call are taken as the store's behaviour.
- A call that throws (a transport failure) is taken to have changed nothing on the server. A real insert can commit even though the client sees a throw; the lemmas about whole uploads assume no faults, so none depends on this.
- AdminPage.Admin.InsertProxies: does not state `uploadProgress` after the loop. The loop's pushes are all stated through `progressTrace`, and `uploadProgress` after the whole upload is stated by `HandleFileUpload`.

## Findings

| source | as written | input that shows it | evidently intended | confidence | as-written member | corrected member |
|---|---|---|---|---|---|---|
| src/pages/Status.tsx:54-55 | the week cutoff is computed from `today`, which is not declared (only `now` is). Every call throws into the catch block after both queries answered, so `setUserStats` is never reached | any call, e.g. one user and no logs: the table stays empty and loading ends false | the cutoff is `now` minus one week, and the computed entries are shown | high (not executed) | StatusPage.FetchUserStatsAsWritten | StatusPage.FetchUserStats |
| src/pages/Profile.tsx:40-41 | `today` is undeclared here too, so `setStats` is never reached. The log list is shown but every figure stays 0 | any signed-in user with logs, e.g. one log of amount 5: total shown 0 | the figures are computed with the cutoff `now` minus one week | high (not executed) | ProfilePage.FetchUsageDataAsWritten | ProfilePage.FetchUsageData |
