# beesync-rs in Dafny

beesync-rs copies records from other services into Beeminder goals. It runs one
sync job per service:

- **category_sync** creates one datapoint per Amazing Marvin task completed in a category. It is keyed by the task's `_id`.
- **github_sync** creates one per commit, keyed by the sha.
- **fatebook_sync** creates one per Fatebook question, keyed by the question id.
- **focusmate_sync** creates one per completed Focusmate session. It is keyed by the exact start instant, and the datapoint is copied into every goal the comment tags.
- **clean_tube_sync** creates one per YouTube video watched long enough. It is keyed by the comment text.
- **clean_view_sync** judges each of the last days' browser window titles with a language model. It makes the goal hold one agreeing verdict per day: datapoints that disagree are deleted, and a new one is created when none agrees.

This project models each job's reads, decisions and writes, plus the pure
response handling of the three small client crates: `github-light`,
`amazing-marvin-light` and `aw-client-light`. It then proves what the jobs
promise.

## Shape of the model

- **Services are parameters.** Every service a job talks to is a function-typed parameter:
  - the Beeminder datapoint listing;
  - the Amazing Marvin `_find` endpoint;
  - the GitHub repository and commit listings;
  - the ActivityWatch event source;
  - the language model;
  - the Focusmate session listing and partner lookup.

  A failing call is a `Failure` value of such a parameter.
- **Plan functions.** Each job is a function `XxxPlan` from those parameters to a `Plan`. A plan holds the create and delete calls the job makes, in order, and the error the job ends with if every call is accepted. A failed read gives `Abort(e)`: no writes, error `e`. A plan function's own contract fixes only the order of its reads and its abort cases; what each job writes, and in which order, is stated by the lemmas in its rows of the table below.
- **Sync.** `Beeminder.Sync` performs a plan against a `Store`, a map from goal names to datapoint sequences. The server may reject any write, given as a map from write positions to errors. The first rejection ends the job, as every `?` on a write call does.
- **Dedup.** The three jobs keyed by `requestid` share one plan shape, `Dedup.CreatePlan` over `Dedup.Fresh`. That shape is: filter the fetched records whose key is unknown, reverse the list, then map and create them one at a time until the first mapping error.
- **Properties.** For each job the model proves four things:
  - what it creates, and that it creates nothing already known;
  - how it stops;
  - where the datapoints end up once the writes are accepted;
  - that a second run against the goal the first one left creates nothing, provided the second run's datapoint window shows the keys of the fetched records the goal then holds. The window is capped at the number of fetched records (at `maxDatapoints` for clean_tube_sync), so the goal's older datapoints need not be in it.

  For clean_view_sync, the model proves that every judged day ends with at least one datapoint, and that all of that day's datapoints agree with the verdict. Datapoints of other days and of other goals are untouched.
- **Calendar.** Dates use a proleptic Gregorian calendar over day numbers (`Calendar`). It is proved to round-trip, which makes the `YYYYMMDD` daystamps injective from year 0 on.

Where the code and the design notes of the repository differ, the model follows the code:

- **Errors abort.** A mapping, classifier or write error ends the job. It does not skip one record or one day.
- **Second line.** A rejecting reply's comment is its second line.
- **Creation order depends on the job:**
  - category, github and fatebook create in the reverse of the fetched order;
  - focusmate creates in fetched order;
  - clean_tube creates alphabetically.

  No job creates by timestamp.
- **Mismatches are always deleted.** A day that already has an agreeing datapoint still has its disagreeing datapoints deleted.

The bucket ending at today's local midnight covers yesterday but is labelled with today's date (src/clean_view_sync.rs:39-53). The model keeps this, since each bucket's label is the date of its end.

## Model

| member | source | states |
|---|---|---|
| Collections.Filter | src/github_sync.rs:66-68 | filtering keeps exactly the elements that pass, and only ones from the input |
| Collections.FilterAppend | src/category_sync.rs:89-96 | filtering distributes over concatenation, so it keeps the relative order of the records |
| Collections.FilterCount | src/focusmate_sync.rs:8-13 | filtering keeps every copy of a passing element and no copy of a failing one |
| Collections.Reverse | src/github_sync.rs:69 | the i-th element of the reversal is the i-th from the end |
| Collections.ReverseInvolution | src/fatebook_sync.rs:52 | reversing twice gives the list back, and reversal keeps every element |
| Collections.MapUntilFailure | src/category_sync.rs:98-100 | the loop with `?` keeps the results before the first error and stops with that error; without an error it maps every element |
| Collections.StopsAtFirstFailure | src/category_sync.rs:98-100 | when step k is the first to fail, the loop's result is exactly the first k results and step k's error |
| Collections.Traverse | github-light/src/lib.rs:159-175 | collecting into a `Result` succeeds iff every element maps, with all results in order; otherwise it fails with the first failing element's error |
| Collections.FlattenMembers | github-light/src/lib.rs:113-118 | an element of the concatenation belongs to one of the parts, and every part's elements are in it |
| Collections.FlattenSnoc | github-light/src/lib.rs:117 | extending by one more part appends exactly that part |
| Text.IndexOf | src/clean_tube_sync.rs:26 | the search finds the leftmost occurrence of the pattern, and finds one iff the text contains it |
| Text.SplitOnce | src/clean_tube_sync.rs:26 | `split_once` gives text before and after the leftmost occurrence that concatenate back to the input, and nothing iff the pattern is absent |
| Text.ReplaceAtLeftmost | src/clean_view_sync.rs:25 | `replace` keeps the text before the leftmost occurrence, substitutes it, and treats the rest the same way |
| Text.ReplaceWithoutMatch | src/clean_view_sync.rs:25 | text without the pattern comes out of `replace` unchanged |
| Text.JoinContainsParts | src/clean_view_sync.rs:24 | every joined title occurs in the joined text |
| Text.Trim | src/github_sync.rs:24 | the trimmed text is a slice of the input with only whitespace cut from each end, and neither starts nor ends with whitespace |
| Text.TrimIdempotent | src/clean_view_sync.rs:69 | trimming twice is trimming once |
| Text.Lines | src/clean_view_sync.rs:72 | `lines` gives no line iff the text is empty, no line holds a line break, and a text without a line break is its only line |
| Text.LinesOfLine | src/clean_view_sync.rs:72 | a text that starts with a line ended by `\n` splits into that line, minus a closing `\r`, followed by the lines of the rest |
| Text.FirstLine | src/github_sync.rs:24 | the first line is the text before the first `\n`, minus a closing `\r`, and the whole text when it has no `\n` |
| Text.FirstLineOfLine | src/github_sync.rs:24 | the first line of a line ended by `\n` followed by anything is that line, minus a closing `\r` |
| Text.FirstLineIsHead | src/github_sync.rs:24 | `lines().next().unwrap_or("")` is the head of the lines, or empty when there are none |
| Text.SecondLineAfterNewline | src/clean_view_sync.rs:72 | the second line is the first line of whatever follows the first line break |
| Text.NoSecondLine | src/clean_view_sync.rs:72 | a reply without a line break has an empty second line |
| Text.FormatPaddedRoundTrip | src/focusmate_sync.rs:39-44 | `{:02}` of a non-negative number is at least two digits that read back as the number |
| Text.FormatPaddedWidth | src/category_sync.rs:42-47 | a non-negative number below 10^w formats as exactly w digits |
| Calendar.CivilFromDays | src/category_sync.rs:44-46 | every day number has a date with a month from 1 to 12 and a day from 1 to 31 |
| Calendar.CivilFromDaysValid | src/category_sync.rs:44-46 | every day number has a date that exists: the day is within its month's length, with 29 February only in leap years |
| Calendar.CivilRoundTrip | src/category_sync.rs:44-46 | converting a day number to year, month and day and back gives the day number again |
| Calendar.CivilFromDaysInjective | src/clean_view_sync.rs:53 | distinct day numbers have distinct dates |
| Calendar.Midnight | src/clean_view_sync.rs:36 | `replace_time(MIDNIGHT)` keeps the offset and the local day and lands on a local midnight |
| Calendar.AddDaysLocalDay | src/clean_view_sync.rs:39-40 | subtracting k whole days moves the local day by exactly k |
| Calendar.AddDaysKeepsMidnight | src/clean_view_sync.rs:39-40 | whole days from a local midnight land on a local midnight |
| Calendar.FromUnixTimestamp | src/category_sync.rs:38-39 | `from_unix_timestamp` succeeds iff the seconds are in the representable range, in UTC |
| Daystamps.DaystampRoundTrip | src/category_sync.rs:42-47 | the `{:04}{:02}{:02}` daystamp of a date from year 0 on parses back to that date |
| Daystamps.DaystampInjective | src/github_sync.rs:17-22 | distinct dates from year 0 on have distinct daystamps |
| Daystamps.DaystampShape | src/fatebook_sync.rs:14-19 | for years 0 to 9999 a daystamp is exactly eight digits |
| Daystamps.DistinctDaysDistinctDaystamps | src/clean_view_sync.rs:53 | instants on different local days carry different daystamps |
| Json.Get | amazing-marvin-light/src/lib.rs:71 | `get` gives a field of an object and nothing for any other value |
| Json.Field | amazing-marvin-light/src/lib.rs:207 | a document's field is present iff its key is |
| Json.AsStr | src/category_sync.rs:23 | `as_str` succeeds exactly on strings |
| Json.AsU64 | src/category_sync.rs:33 | `as_u64` succeeds exactly on integers from 0 below 2^64 |
| Json.AsF64 | amazing-marvin-light/src/lib.rs:222 | `as_f64` succeeds exactly on numbers |
| Json.AsArray | amazing-marvin-light/src/lib.rs:72 | `as_array` succeeds exactly on arrays |
| Json.AsObject | amazing-marvin-light/src/lib.rs:75 | `as_object` succeeds exactly on objects |
| Json.StrField | src/category_sync.rs:21-24 | `get(key).and_then(as_str)` is the field iff it is present and a string |
| Http.Checked | github-light/src/lib.rs:85-94 | a non-success status becomes `Api` with the status and the body text or the fallback; a success is the decoded body or its error |
| AwClient.GetEvents | aw-client-light/src/lib.rs:58-82 | both bounds must format as RFC 3339 before the request; then the answer is the service's |
| AwClient.SumDurationByTitle | aw-client-light/src/lib.rs:112-119 | the keys are exactly the titles that occur in the events |
| AwClient.SumDurationIsTotal | aw-client-light/src/lib.rs:116 | each entry is the sum of the durations of the events with that title, an independent recursive total |
| AwClient.SumDurationEmpty | aw-client-light/src/lib.rs:115 | no events give an empty map |
| AwClient.SumDurationAddEvent | aw-client-light/src/lib.rs:115-117 | one more event adds its title as a key and its duration to that entry, and changes no other entry |
| Totals.SumBy | src/clean_tube_sync.rs:23-30 | the fold's keys are exactly the keys some element carries; unkeyed elements are skipped |
| Totals.KeysInOrderMembers | src/clean_tube_sync.rs:32-35 | the listed keys are exactly the keys of the elements |
| Totals.SumByIsTotal | src/clean_tube_sync.rs:28 | each entry of the fold equals the independent reference total of its key |
| Totals.SumBySnoc | src/clean_tube_sync.rs:24-29 | folding one more element changes only its key's entry, by exactly its weight |
| Sorting.BelowIrreflexive | src/clean_tube_sync.rs:37 | no string sorts below itself |
| Sorting.BelowTransitive | src/clean_tube_sync.rs:37 | the byte-wise string order is transitive |
| Sorting.BelowTotal | src/clean_tube_sync.rs:37 | any two distinct strings are ordered one way or the other |
| Sorting.SortedBelow | src/clean_tube_sync.rs:37 | in a strictly sorted list every earlier element is below every later one |
| Sorting.Insert | src/clean_tube_sync.rs:37 | inserting a new string into a strictly sorted list keeps it strictly sorted and adds exactly that string |
| Sorting.SortDistinct | src/clean_tube_sync.rs:32-37 | sorting the distinct keys gives a strictly sorted list of exactly those keys |
| Sorting.SortedUnique | src/clean_tube_sync.rs:37 | two strictly sorted lists of the same strings are equal |
| Beeminder.Stored | src/clean_view_sync.rs:96-104 | the server records the create's value, comment and `requestid`, and fills a missing timestamp with the call time and a missing daystamp with the goal's day of the timestamp |
| Beeminder.Without | src/clean_view_sync.rs:81-83 | a delete leaves exactly the datapoints with another id |
| Beeminder.Step | src/clean_view_sync.rs:81-104 | a create appends the recorded datapoint under a fresh id, a delete removes exactly that id, and no other goal changes |
| Beeminder.StepWellFormed | src/clean_view_sync.rs:81-104 | an accepted write keeps ids distinct within a goal and below the next fresh id |
| Beeminder.ApplyAppend | src/focusmate_sync.rs:99-112 | performing two batches of writes is performing their concatenation |
| Beeminder.ApplyOtherGoals | src/focusmate_sync.rs:106-110 | writes to other goals leave a goal alone |
| Beeminder.ApplyWellFormed | src/clean_view_sync.rs:61-108 | accepted writes keep the store well formed and never reuse an id |
| Beeminder.ApplyCreates | src/fatebook_sync.rs:52-54 | creates into one goal append exactly the recorded datapoints, in order, under consecutive fresh ids |
| Beeminder.CreatesKeep | src/focusmate_sync.rs:99-110 | creates never remove a datapoint |
| Beeminder.CreatesRecorded | src/fatebook_sync.rs:52-54 | after a run of creates, each one's datapoint is in its goal |
| Beeminder.FirstRejected | src/category_sync.rs:98-100 | the first rejected write position: every earlier write is accepted |
| Beeminder.Sync | src/category_sync.rs:98-104 | the writes are performed in order up to the first rejection; the job fails with that rejection, or else ends as planned, and succeeds iff nothing is rejected and the plan has no error |
| Beeminder.SyncAllAccepted | src/category_sync.rs:98-104 | with every write accepted, the store holds the whole plan's effect and the job ends as planned |
| Beeminder.RequestIds | src/category_sync.rs:84-87 | the key set is exactly the `requestid`s present; datapoints without one add nothing |
| Beeminder.RequestIdsAppend | src/github_sync.rs:61-64 | the keys of two runs of datapoints are the union of their keys |
| Beeminder.WindowRequestIds | src/github_sync.rs:57-64 | the keys seen through a listing window are keys of the goal |
| Beeminder.Instants | src/focusmate_sync.rs:91 | the timestamp key set is exactly the instants of the datapoints |
| Beeminder.Watermark | src/github_sync.rs:50-53 | the newest datapoint's timestamp when it has a non-zero value, else the epoch |
| Dedup.Fresh | src/category_sync.rs:89-98 | the pending records are exactly the fetched ones whose key is present and unknown |
| Dedup.CreatePlan | src/category_sync.rs:98-100 | the i-th write creates the i-th pending record's datapoint; the plan stops at the first record that fails to map, with its error |
| Dedup.CreatesOnlyUnknown | src/category_sync.rs:89-100 | every create goes to the goal, carries a `requestid` not among the known ones, and that `requestid` is a fetched record's key |
| Dedup.AllKnownCreatesNothing | src/github_sync.rs:61-70 | when every key is known, nothing is pending and the plan is empty and error-free |
| Dedup.CreatePlanRecordsAll | src/category_sync.rs:84-100 | once the whole plan is accepted, every keyed record's key is a `requestid` of the goal |
| Dedup.TotalCreatePlan | src/github_sync.rs:66-74 | with a total mapping, the plan creates every unseen record, newest in fetched order first, and ends without error |
| Dedup.UnknownIsPending | src/fatebook_sync.rs:47-50 | a record with an unknown key is among the unseen ones |
| CategorySync.DoneAtMillis | src/category_sync.rs:31-34 | `doneAt` is read iff it is an integer from 0 below 2^64 |
| CategorySync.DoneAt | src/category_sync.rs:31-40 | a missing `doneAt` fails; otherwise the time is the whole seconds of the milliseconds, and it fails with the invalid-timestamp error iff they are out of range, so the too-large error never occurs |
| CategorySync.TaskToDatapoint | src/category_sync.rs:20-56 | a missing `_id` or bad `doneAt` fails; otherwise value 1, the completion time and its daystamp, the title or "Untitled task", and `requestid` = `_id` |
| CategorySync.TaskDaystampReadsBack | src/category_sync.rs:42-47 | the daystamp of a mapped task parses back to the date of its timestamp |
| CategorySync.KeyedTaskNeverMissesId | src/category_sync.rs:21-24 | a task with a string `_id` never fails with the missing-`_id` error |
| CategorySync.CategoryCreatesOnlyNew | src/category_sync.rs:84-100 | every create goes to the goal with the `_id` of a fetched task that no existing datapoint carries, in reverse fetched order |
| CategorySync.CategoryNeverStopsOnMissingId | src/category_sync.rs:89-99 | once the reads succeed, the missing-`_id` error cannot end the job |
| CategorySync.CategoryRerunCreatesNothing | src/category_sync.rs:80-100 | a rerun against the goal the first fully accepted run left creates nothing and ends without error |
| GithubSync.CommitCommentParts | src/github_sync.rs:24-25 | the comment is "repository: " then one trimmed line: the trimmed text before the message's first `\n` (minus a closing `\r`), the whole trimmed message when it is one line, empty when it is empty |
| GithubSync.CommitToDatapoint | src/github_sync.rs:16-34 | value 1, the commit time and its daystamp, the comment, and `requestid` = sha |
| GithubSync.GithubCreatesUnseenCommits | src/github_sync.rs:66-74 | once the reads succeed, exactly the unseen commits are created, reversed, and the job ends without error |
| GithubSync.GithubSkipsOnlyKnown | src/github_sync.rs:61-68 | no create repeats a fetched sha, and every commit with an unknown sha is created |
| GithubSync.GithubRerunCreatesNothing | src/github_sync.rs:57-70 | after a wholly accepted run, a rerun over the same commits creates nothing when its window, of at most as many datapoints as commits, shows the sha of each fetched commit the goal records |
| FatebookSync.QuestionToDatapoint | src/fatebook_sync.rs:13-28 | value 1, the creation time and its daystamp, the title, and `requestid` = question id |
| FatebookSync.FatebookCreatesUnseenQuestions | src/fatebook_sync.rs:47-54 | once the read succeeds, exactly the unseen questions are created, reversed, and the job ends without error |
| FatebookSync.FatebookSkipsOnlyKnown | src/fatebook_sync.rs:42-50 | no create repeats a fetched id, and every question with an unknown id is created |
| FatebookSync.FatebookRerunCreatesNothing | src/fatebook_sync.rs:38-54 | after a wholly accepted run, a rerun over the same questions creates nothing when its window, of at most as many datapoints as questions, shows the id of each fetched question the goal records |
| FocusmateSync.FindMatchingTags | src/focusmate_sync.rs:8-13 | the result holds exactly the configured tags the comment carries as "#tag" |
| FocusmateSync.MatchingTagsKeepRepeats | src/focusmate_sync.rs:8-13 | a carried tag is kept as often as it is configured, any other tag not at all |
| FocusmateSync.SessionTitle | src/focusmate_sync.rs:15-26 | no participants is the profile error; otherwise the first participant's title, or empty |
| FocusmateSync.StartLabelReadsBack | src/focusmate_sync.rs:39-44 | the label is "Weekday, HH:MM (UTC)" whose two-digit fields read back as the hour and minute |
| FocusmateSync.PartnerName | src/focusmate_sync.rs:47-50 | the partner's name, or "unknown partner" when the profile cannot be read |
| FocusmateSync.SessionToDatapoint | src/focusmate_sync.rs:28-67 | fails iff there are no participants; otherwise value 1, the start time and its daystamp, the comment, no `requestid` |
| FocusmateSync.TagCreates | src/focusmate_sync.rs:106-110 | one create per matching tag, in tag order, of the same datapoint |
| FocusmateSync.CopyOps | src/focusmate_sync.rs:100-110 | the datapoint goes first into the goal, then once into each tagged goal |
| FocusmateSync.SessionOps | src/focusmate_sync.rs:99-110 | a session's writes are the goal create then the tag copies, or the profile error |
| FocusmateSync.NewSessions | src/focusmate_sync.rs:93-97 | the pending sessions are exactly the completed ones whose start instant no fetched datapoint has |
| FocusmateSync.FocusmateWritesNewSessions | src/focusmate_sync.rs:93-112 | once the reads succeed, the job only creates, each pending session's group in order, and stops early iff a pending session has no participants |
| FocusmateSync.WrittenSessionRecorded | src/focusmate_sync.rs:99-101 | after an accepted run every pending session's start is an instant of the goal |
| FocusmateSync.NoNewSessions | src/focusmate_sync.rs:91-97 | when every completed session starts at a known instant nothing is pending |
| FocusmateSync.CompletedSessionsRecorded | src/focusmate_sync.rs:91-101 | after an accepted run every completed fetched session starts at an instant of the goal |
| FocusmateSync.FocusmateRerunCreatesNothing | src/focusmate_sync.rs:87-101 | after a wholly accepted run, a rerun over the same sessions writes nothing when its window, of at most as many datapoints as sessions, shows the instant of each fetched session the goal records |
| CleanTubeSync.VideoKey | src/clean_tube_sync.rs:26-27 | an event names a video iff its title contains " - YouTube —" |
| CleanTubeSync.VideoKeyReadsTitle | src/clean_tube_sync.rs:26-27 | the video is the trimmed text before the first marker |
| CleanTubeSync.VideoTotals | src/clean_tube_sync.rs:23-30 | the totals' keys are exactly the videos some event names |
| CleanTubeSync.LongVideos | src/clean_tube_sync.rs:32-35 | a video passes the threshold iff its total is strictly over it |
| CleanTubeSync.SeenTitles | src/clean_tube_sync.rs:18-39 | the seen titles are strictly sorted and are exactly the videos whose total is over the minimum |
| CleanTubeSync.SeenTitlesAreLongVideos | src/clean_tube_sync.rs:23-36 | a title is seen iff some event names it and its events' durations add up to more than the minimum |
| CleanTubeSync.SeenTitlesDetermined | src/clean_tube_sync.rs:32-37 | any sorted list of those videos is the same list, so map iteration order does not matter |
| CleanTubeSync.LoggedTitles | src/clean_tube_sync.rs:49-52 | the logged set is exactly the comments, a missing one counting as "" |
| CleanTubeSync.Watched | src/clean_tube_sync.rs:66-72 | value 1, the title as comment, the current time, no daystamp and no `requestid` |
| CleanTubeSync.CleanTubePlan | src/clean_tube_sync.rs:55-77 | the logged titles are read first, then the events; either failure aborts; otherwise the job never stops on its own |
| CleanTubeSync.FilterKeepsSorted | src/clean_tube_sync.rs:61-62 | skipping logged titles keeps the list strictly sorted |
| CleanTubeSync.CleanTubeLogsOnlyUnlogged | src/clean_tube_sync.rs:58-75 | every create logs a seen, unlogged title with value 1, alphabetically and without repeats |
| CleanTubeSync.CleanTubeLogsEveryUnlogged | src/clean_tube_sync.rs:61-73 | every seen, unlogged title gets a create |
| CleanTubeSync.SeenTitlesLogged | src/clean_tube_sync.rs:61-73 | after an accepted run every seen title is a comment of the goal |
| CleanTubeSync.CleanTubeRerunCreatesNothing | src/clean_tube_sync.rs:58-75 | after a wholly accepted run, a rerun over the same events creates nothing when its window, of at most `maxDatapoints` datapoints, shows a comment for each seen title the goal logs |
| CleanView.PromptReplacesPlaceholders | src/clean_view_sync.rs:23-26 | a template without `{{titles}}` is the prompt; otherwise every occurrence, left to right, becomes the titles joined by line breaks |
| CleanView.Buckets | src/clean_view_sync.rs:38-40 | exactly `lookback_days` buckets, none when it is not positive |
| CleanView.BucketsShape | src/clean_view_sync.rs:34-40 | the buckets are consecutive whole days, oldest first, the last ending at the most recent local midnight |
| CleanView.BucketLabelsDistinct | src/clean_view_sync.rs:53 | buckets from year 0 on carry distinct daystamps |
| CleanView.DayTitles | src/clean_view_sync.rs:43-51 | the day's titles are exactly the titles of events longer than the minimum whose lowercased title names a browser |
| CleanView.FetchDay | src/clean_view_sync.rs:41-51 | an event read error fails the day; otherwise the day's titles |
| CleanView.Judge | src/clean_view_sync.rs:62-75 | no titles is clean without asking; a reply trimming to "no" is clean; any other reply is dirty with its second line; a failed call fails |
| CleanView.JudgeDirtyReason | src/clean_view_sync.rs:69-73 | a dirty reply's comment is exactly the reason on its second line, minus a closing `\r` |
| CleanView.Deletions | src/clean_view_sync.rs:78-83 | every fetched datapoint of the day whose value is more than 0.01 from the verdict is deleted, and only deletions on the job's goal are issued |
| CleanView.DeletionsProvenance | src/clean_view_sync.rs:78-83 | nothing else is deleted: each deletion names a fetched datapoint of that day whose value is more than 0.01 from the verdict |
| CleanView.DayCreatesOnlyWhenUnmatched | src/clean_view_sync.rs:77-104 | a day's deletions come first; a create follows iff no fetched datapoint of the day agrees, and it holds the verdict |
| CleanView.JudgmentFailureStops | src/clean_view_sync.rs:61-67 | a failed judgment ends the job after the writes of the earlier days only |
| CleanViewReconcile.DeletedIdsMembers | src/clean_view_sync.rs:78-83 | an id is deleted iff a fetched datapoint of the day carries it and disagrees |
| CleanViewReconcile.DeletionsEffect | src/clean_view_sync.rs:78-83 | the deletions remove from the goal exactly the datapoints with a deleted id |
| CleanViewReconcile.DeletionsAgree | src/clean_view_sync.rs:78-87 | after the deletions, the day's datapoints all agree, the agreeing fetched ones stay, and other days are untouched |
| CleanViewReconcile.DayFrame | src/clean_view_sync.rs:77-104 | a day's writes keep the store well formed and leave other goals alone |
| CleanViewReconcile.DayEffect | src/clean_view_sync.rs:77-107 | after one day, its datapoints all agree with the verdict, at least one exists, and other days and goals are untouched |
| CleanViewReconcile.DaysEffect | src/clean_view_sync.rs:61-108 | after a run of days, each day agrees with its verdict and has a datapoint, and days outside the run are untouched |
| CleanViewReconcile.LabelsDistinct | src/clean_view_sync.rs:53 | the buckets' daystamps are distinct from year 0 on |
| CleanViewReconcile.DaysOpsGoal | src/clean_view_sync.rs:81-104 | every write of the job targets the configured goal |
| CleanViewReconcile.RunEffect | src/clean_view_sync.rs:61-108 | a run stopped early reconciles the judged days and touches no other day or goal |
| CleanViewReconcile.CleanViewConverges | src/clean_view_sync.rs:57-108 | once every write is accepted, each judged day has a datapoint and all its datapoints agree with its verdict; nothing else changes; the job ends with the failed judgment, if any |
| GithubLight.UserRepositories | github-light/src/lib.rs:85-98 | a non-success status is `Api` with the body; otherwise the full names in response order |
| GithubLight.ToCommit | github-light/src/lib.rs:161-173 | a listed commit maps iff its date parses, with sha and message copied and the repository it came from |
| GithubLight.RepositoryCommits | github-light/src/lib.rs:130-177 | `since` must format; a non-success status is `Api`; the result is all commits mapped in order, or a failure |
| GithubLight.UnparseableDateFailsRepository | github-light/src/lib.rs:161-175 | one unparseable date fails the whole repository with the date error |
| GithubLight.GetCommits | github-light/src/lib.rs:112-120 | the repositories' commits concatenated in listing order, or the first failing repository's error |
| GithubLight.GetCommitsProvenance | github-light/src/lib.rs:112-120 | every collected commit names a listed repository and is as that repository's listing gave it |
| Marvin.Objects | amazing-marvin-light/src/lib.rs:74-81 | exactly the object entries are kept |
| Marvin.ObjectsAppend | amazing-marvin-light/src/lib.rs:74-81 | dropping non-objects keeps the objects' relative order |
| Marvin.ObjectsAllObjects | amazing-marvin-light/src/lib.rs:74-81 | an array of objects only is kept whole and in order |
| Marvin.DocsOf | amazing-marvin-light/src/lib.rs:70-83 | the objects of `docs`, none if it is missing or not an array |
| Marvin.FindDocs | amazing-marvin-light/src/lib.rs:63-85 | a non-success status is `Api` with the body, empty if unreadable; otherwise the documents |
| Marvin.CategoryIdFromDocs | amazing-marvin-light/src/lib.rs:104-126 | 0 matches is 404; one match with a string `_id` gives it; one without is 400; more is 409 |
| Marvin.GetCategoryIdByTitle | amazing-marvin-light/src/lib.rs:95-127 | a failed lookup fails; otherwise the count decision on the matches |
| Marvin.TwoWeeksAgo | amazing-marvin-light/src/lib.rs:165-169 | the cutoff is 1,209,600,000 ms before now, wrapping around below 2^64 |
| Marvin.FindRecentlyCompletedTasks | amazing-marvin-light/src/lib.rs:157-180 | the category lookup, then its tasks done at or after the cutoff |
| Marvin.FindTasksInCategory | amazing-marvin-light/src/lib.rs:133-148 | the category lookup, then its tasks not done |
| Marvin.HabitTitled | amazing-marvin-light/src/lib.rs:205-207 | the first habit whose title is the name, or none |
| Marvin.HistoryPairs | amazing-marvin-light/src/lib.rs:219-227 | at most half as many pairs as history entries |
| Marvin.HistoryPairsFromChunks | amazing-marvin-light/src/lib.rs:219-227 | every pair decodes one chunk of two entries |
| Marvin.HistoryPairsAllValid | amazing-marvin-light/src/lib.rs:219-227 | when every chunk decodes, the result is the chunks in order |
| Marvin.HistoryPairsAppend | amazing-marvin-light/src/lib.rs:219-227 | a history split at an even position gives the pairs of the first part followed by those of the second, so chunks are kept in order wherever the undecodable ones sit |
| Marvin.HistoryPairsChunk | amazing-marvin-light/src/lib.rs:219-227 | one chunk of two entries gives its pair when the timestamp is a `u64` and the value a number, and nothing otherwise |
| Marvin.HistoryOddEntryIgnored | amazing-marvin-light/src/lib.rs:220 | a trailing odd entry makes no difference |
| Marvin.GetHabitDatapoints | amazing-marvin-light/src/lib.rs:202-230 | fails with 404 iff no habit has the title; otherwise gives the pairs of the `history` of the first habit with that title |
| Marvin.HabitWithoutHistory | amazing-marvin-light/src/lib.rs:213-217 | a found habit without a `history` array has no datapoints |

## Left out

- **Transport.** HTTP requests and JSON (de)serialisation are left out. A response is a status, an optional body text and a decoded value, or a failure. This covers reqwest and serde in every client.
- **Clients modelled as oracles.** The OpenAI client (gpt/src/lib.rs) is the `classify` parameter. The Fatebook client (fatebook-rs/src/lib.rs) is the `questions` parameter.
- **Unseen crates.** The `beeminder` and `focusmate` crates are not part of this model. Their reads are function parameters, with a listing window (`IsWindow`) as a stated assumption. Their writes are the `Store` steps; how the server files a timestamp-only create under a day (`Store.dayOf`) is an assumption.
- **Wiring.** src/key.rs (environment and subprocess reads), src/config.rs (file and TOML) and src/main.rs (job sequencing and printing) are pure I/O or wiring. src/main.rs also registers neither category_sync nor github_sync.
- **Calendar.** The `time` crate's RFC 3339 parsing and local-offset lookup are left out:
  - parsing is the `parse` parameter of the GitHub service;
  - the local offset is part of the `now` input.

  The civil calendar is written out as a proleptic Gregorian day-number conversion. Instants are whole seconds; sub-second parts are dropped.
- **Floats.** f64 arithmetic is modelled as `real`: durations, values and the 0.01 tolerance. Rounding is not modelled.
- **Lowercasing and title order.** Unicode `to_lowercase` is the `lower` parameter. The order a `HashSet` hands titles to the prompt is the `order` parameter, and nothing about it is asserted.
- **Printing.** Console output is left out.
- **Focusmate durations.** Session durations are natural milliseconds.
- **Tagged goals.** The tag goals focusmate_sync copies into are written without any dedup, exactly as in the source. FocusmateSync.FocusmateRerunCreatesNothing therefore rests on the main goal alone.
- **Unused clients.** `heartbeat` in aw-client-light is left out; no job sends events. `get_active_habits` is not a member of its own: its query is `Marvin.HabitsSelector`, read inside `Marvin.GetHabitDatapoints`.
- CleanTubeSync.Watched: every create of one run uses the same `now`. The source reads the clock again for each create, so it can stamp consecutive creates with later instants.
- Json.AsF64: large integers are read exactly, where `as_f64` rounds them to the nearest double.
- Marvin.TwoWeeksAgo: models the release build's wrap-around. A debug build panics on the underflow instead, which only happens with a clock within two weeks of the epoch.
- Marvin.HistoryPairs: its own contract only bounds the length. The pairing itself is stated by Marvin.HistoryPairsAppend with Marvin.HistoryPairsChunk (which together fix the result for every history of even length), Marvin.HistoryOddEntryIgnored, Marvin.HistoryPairsFromChunks and Marvin.HistoryPairsAllValid.
- Daystamps.DaystampRoundTrip: proved for years from 0 on only. For negative years `{:04}` puts the sign inside the width, which is modelled but not proved to read back.
- Calendar.CivilFromDays: the `time` crate only represents years -9999 to 9999. The model's calendar is unbounded, and only `Calendar.FromUnixTimestamp` and RFC 3339 formatting check a range.
- CleanViewReconcile.CleanViewConverges: it requires the bucket labels to be distinct (true from year 0 on, by CleanViewReconcile.LabelsDistinct). It also requires the 50 fetched datapoints to include every datapoint of the lookback days. When the goal holds more, the source can leave disagreeing datapoints behind, and the lemma says nothing about that case.
