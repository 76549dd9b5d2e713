# Task tracker: a verified model of the task lifecycle

This project models the task-lifecycle core of the `task-tracker` skill in Dafny and proves properties of that model. The core has two parts.

* `TaskTracker` keeps three maps keyed by job id:
  * `pending`: tasks waiting for the user to confirm them;
  * `completed`: confirmed tasks, with when and how each was confirmed;
  * `overdue`: a legacy map that is only ever cleared.

  It tracks and completes tasks, recognises completion phrases in user messages, selects overdue tasks, writes escalating follow-up reminders and builds the daily summary.
* `AutoDetector` remembers which scheduled jobs ran recently, as a map from job id to epoch seconds pruned to 24 hours. When a user message reads as a completion, it closes one of two things:
  * every job that ran in the last two hours and is still pending;
  * if no job ran in the last two hours, the most recently created pending task. This case is marked as a fallback.

Modules, following the two source files:

* `Strings`: Python's ordering on `str` and `sep.join`.
* `CompletionMatcher`: the four bilingual `COMPLETION_PATTERNS`, modelled character by character, and the search loop over them.
  * `\b` and `\s+` follow Python `re`.
  * `str.lower()` is modelled for ASCII and Latin-1 capitals, and `\w` up to U+024F.
* `TaskRecords`: the records (`Task`, `CompletedTask`, `Store`) and the pure meaning of each operation:
  * `Complete` and `CompleteEach` for `mark_completed`;
  * `Overdue`;
  * `FollowUpMessage`, `FollowedUp` and `FollowUpSeries`;
  * `SummaryLines` and `WithFollowUps` for the daily summary.
* `Tracker`: class `TaskTracker`. Its fields are the three maps, and every method is proved against the functions above.
* `AutoDetect`: class `AutoDetector`. Its field `recentJobs` holds the recent-jobs map, and it owns a `TaskTracker`.
  * `RecentWindow` and `Recorded` state what the window filters and the pruned insertion do.
  * `ChosenClosing`, `AutoClosed` and `Checked` state what `check_for_completions` decides and does.
* `Scenarios`: client code that drives the two classes through typical usage scenarios.

Time is a parameter: an operation that reads the clock is given one reading. An `Instant` holds epoch seconds and an ISO-8601 text, not tied to each other. An operation that stores an ISO timestamp (`created_at` or `completed_at`) receives an `Instant` and stores its ISO text. It uses the epoch seconds only where it also compares times or records a job, as `CheckForCompletions` and `ProcessMessage` do. An operation that only compares times or stores epoch seconds receives just the epoch seconds: `GetOverdueTasks`, `GenerateDailySummary`, `GetRecentJobIds` and `AddRecentJob`. `scheduled_time` is held as epoch seconds, and `created_at` as its ISO string, compared in string order. Python dict iteration order is not modelled:

* a loop over a map picks its next key with `:|`;
* a method whose output order depends on iteration order also returns the id order it used;
* its contract covers every order.

### Behaviour of the code to be aware of

* **`pending` and `completed` can overlap.** `mark_pending` (track_completions.py:54-63) can store again an id that is already in `completed`. `mark_completed`, one completion or a run of them, keeps the two maps disjoint when they were, and the model proves that.
* **`check_for_completions` returns `None` when it closes nothing** (auto_detect.py:136-140). Only `detect_completion` returns the "no recent tasks" message (track_completions.py:97).
* **`process_message` joins with two characters.** The separator is `"\\n"` (auto_detect.py:152): a backslash and an `n`, not a newline. The model keeps it as `REPLY_SEPARATOR`.
* **An empty job id counts as no job id.** `process_message` tests `if job_id:`, so a call with `Some("")` behaves as if no job id were given.

## Model

| member | source | states |
|---|---|---|
| Strings.LexLe | skills/task-tracker/auto_detect.py:131-132 | Python's `a <= b` on `str`: the first differing code point decides, and a proper prefix comes first |
| Strings.LexLt | skills/task-tracker/auto_detect.py:131-132 | Python's `a < b` on `str`: `b <= a` does not hold |
| Strings.LexLeReflexive | skills/task-tracker/auto_detect.py:131-132 | every `created_at` key is `<=` itself, so the fallback's maximum is well defined |
| Strings.LexLeTotal | skills/task-tracker/auto_detect.py:131-132 | any two `created_at` keys are comparable under Python's string order |
| Strings.LexLeTransitive | skills/task-tracker/auto_detect.py:131-132 | the string order is transitive, so a running maximum bounds every key seen so far |
| Strings.LexLeAntisymmetric | skills/task-tracker/auto_detect.py:131-132 | two keys each `<=` the other are equal |
| Strings.LexLtIsStrict | skills/task-tracker/auto_detect.py:131-132 | `a < b` holds exactly when `a <= b` and `a != b` |
| Strings.Join | skills/task-tracker/track_completions.py:163 | joining no parts gives `""`; otherwise the length is the sum of the part lengths plus one separator between each two parts |
| Strings.JoinFirst | skills/task-tracker/track_completions.py:163 | a join of two or more parts is the first part, the separator, then the join of the rest |
| CompletionMatcher.IsWordChar | skills/task-tracker/track_completions.py:18 | `\w` on a `str`: `_`, the ASCII letters and digits, and the alphanumeric characters of U+00AA..U+024F |
| CompletionMatcher.IsSpace | skills/task-tracker/track_completions.py:19-21 | `\s` on a `str`: exactly the characters for which `str.isspace()` holds |
| CompletionMatcher.LowerChar | skills/task-tracker/track_completions.py:85 | each ASCII and Latin-1 capital becomes its small letter (32 code points on), every other character stays, and `\w` membership is unchanged |
| CompletionMatcher.Lower | skills/task-tracker/track_completions.py:85 | `message_text.lower()`: each character lower-cased by `LowerChar`, the length kept |
| CompletionMatcher.LowerIdempotent | skills/task-tracker/track_completions.py:85-89 | lower-casing an already lower-cased message changes nothing |
| CompletionMatcher.Boundary | skills/task-tracker/track_completions.py:18 | `\b` at a position: a word character on exactly one side of it (the text ends count as non-word) |
| CompletionMatcher.AllSpaces | skills/task-tracker/track_completions.py:19-21 | a stretch of text is all whitespace; `GroupsMatch` asks for a non-empty one where the pattern has `\s+` |
| CompletionMatcher.GroupsMatch | skills/task-tracker/track_completions.py:17-22 | a pattern's groups match exactly a stretch of text: each non-optional group one of its words, groups separated by at least one whitespace character, an optional group's words followed by its own `\s+` or left out, as `(lo\s+)?` is |
| CompletionMatcher.Search | skills/task-tracker/track_completions.py:89 | `re.search(pattern, text)` finds a match: some stretch of the text matches the pattern's groups with `\b` at both of its ends |
| CompletionMatcher.IsCompletionMessage | skills/task-tracker/track_completions.py:85-89 | one of the four `COMPLETION_PATTERNS` (lines 17-22, written out as word groups with `completed?` as `complete`/`completed`) is found in the lower-cased message |
| CompletionMatcher.DetectCompletionPhrase | skills/task-tracker/track_completions.py:88-89 | the loop over the four patterns, stopping at the first hit, is true exactly when some pattern is found in the lower-cased message |
| CompletionMatcher.CaseInsensitive | skills/task-tracker/track_completions.py:85-89 | two messages that lower-case alike are both completion messages or neither is |
| CompletionMatcher.WholeWordIsCompletion | skills/task-tracker/track_completions.py:18 | any message holding one of the seven completion words, delimited by non-word characters or the message ends, is a completion message |
| CompletionMatcher.WholeWordFound | skills/task-tracker/track_completions.py:18 | the first pattern is found at every delimited occurrence of one of its words |
| CompletionMatcher.CompletionWordDelimited | skills/task-tracker/track_completions.py:18 | each of the seven words starts and ends with a word character, so `\b` holds at both of its ends |
| CompletionMatcher.FoundAt | skills/task-tracker/track_completions.py:89 | a match of a pattern that starts and ends with word characters and is delimited by non-word characters is found by `re.search` |
| CompletionMatcher.PhraseMatches | skills/task-tracker/track_completions.py:20-21 | two groups separated by one whitespace character match as `A\s+B` |
| CompletionMatcher.CompletionNeedsLeadWord | skills/task-tracker/track_completions.py:17-22 | every completion message, lower-cased, contains one of the words that begin the patterns; a message containing none of them is not a completion message |
| CompletionMatcher.LeadWordsCover | skills/task-tracker/track_completions.py:17-22 | every pattern begins with a group that is not optional, and all its words are lead words |
| CompletionMatcher.SearchFindsLeadWord | skills/task-tracker/track_completions.py:89 | a found pattern whose first group is not optional has one of that group's words in the text |
| CompletionMatcher.LeadGroupMatched | skills/task-tracker/track_completions.py:17-22 | a match of a pattern whose first group is not optional begins with one of that group's words |
| CompletionMatcher.EmptyIsNotCompletion | skills/task-tracker/track_completions.py:17-22 | the empty message matches no pattern |
| CompletionMatcher.SampleUpperCase | skills/task-tracker/track_completions.py:85-89 | "LISTO" is a completion message (case is ignored) |
| CompletionMatcher.SamplePunctuation | skills/task-tracker/track_completions.py:18 | "hecho!" is a completion message (punctuation is a word boundary) |
| CompletionMatcher.SampleWordAtEnd | skills/task-tracker/track_completions.py:18 | "ya está hecho" is a completion message |
| CompletionMatcher.SampleCompletado | skills/task-tracker/track_completions.py:18 | "completado" alone is a completion message |
| CompletionMatcher.SampleAccentedWord | skills/task-tracker/track_completions.py:18 | "terminé la tarea" is a completion message (the accented word is whole) |
| CompletionMatcher.SampleEnglishWord | skills/task-tracker/track_completions.py:18 | "done with the task" is a completion message |
| CompletionMatcher.SampleTaskCompleted | skills/task-tracker/track_completions.py:20 | "task completed" matches the noun-and-verb pattern |
| CompletionMatcher.SampleReminderDone | skills/task-tracker/track_completions.py:21 | "reminder done" matches the reminder pattern |
| CompletionMatcher.SampleYaLoHice | skills/task-tracker/track_completions.py:19 | "Ya lo hice" matches the pattern with the optional `lo` |
| CompletionMatcher.NegationIsNotParsed | skills/task-tracker/track_completions.py:18 | "no está listo" is a completion message: the patterns do not see negation |
| TaskRecords.CreatedKey | skills/task-tracker/auto_detect.py:132 | `task_info.get('created_at', '1970-01-01')`: the stored creation text, or `1970-01-01` when there is none |
| TaskRecords.FollowUpCount | skills/task-tracker/track_completions.py:119 | `task_info.get("follow_up_count", 0)`: the stored count, or 0 when there is none |
| TaskRecords.NewTask | skills/task-tracker/track_completions.py:56-61 | the record `mark_pending` stores: the name, the schedule, the creation time now and a follow-up count of 0 |
| TaskRecords.TrackingMessage | skills/task-tracker/track_completions.py:63 | the message `mark_pending` returns, naming the task |
| TaskRecords.CompletedMessage | skills/task-tracker/track_completions.py:79 | the message a successful `mark_completed` returns, naming the task |
| TaskRecords.CompletedMessageNamesTask | skills/task-tracker/track_completions.py:79-81 | the success message ends with the task name and differs from the not-found message |
| TaskRecords.Complete | skills/task-tracker/track_completions.py:65-81 | `mark_completed(id, m)` on the three maps: a pending id leaves `pending` and `overdue` and its record, with the completion time and method added, goes to `completed`, and the message names the task; any other id gives the not-found message and the store as it was |
| TaskRecords.CompleteMoves | skills/task-tracker/track_completions.py:67-79 | completing a pending id removes it from `pending` and `overdue` and stores its old record in `completed` with the time and method; no other key changes; disjointness of `pending` and `completed` is kept |
| TaskRecords.CompleteNotFound | skills/task-tracker/track_completions.py:80-81 | an id that is not pending gives the not-found message and leaves the store unchanged |
| TaskRecords.CompleteTwice | skills/task-tracker/track_completions.py:65-81 | a second completion of the same id fails and leaves the first completion's store as it was |
| TaskRecords.CompleteEach | skills/task-tracker/track_completions.py:91-96 | `mark_completed(id, "auto_detected")` for each id in list order, each on the store the previous one left, collecting one message per id |
| TaskRecords.EachMessage | skills/task-tracker/track_completions.py:93-95 | the message the `i`-th id of such a run gets: the success message when it is pending and not listed before, else not-found |
| TaskRecords.CompleteEachEffect | skills/task-tracker/track_completions.py:91-96 | completing a list of ids in order gives one message per id (not-found for ids not pending at their turn); `pending` loses exactly the listed ids, `completed` gains exactly the pending ones, `overdue` loses those |
| TaskRecords.CompleteEachPending | skills/task-tracker/track_completions.py:93-95 | after the run, `pending` is the old `pending` minus the listed ids |
| TaskRecords.CompleteEachMessages | skills/task-tracker/track_completions.py:93-95 | the `i`-th message names the `i`-th id's task when it is pending and not listed earlier, and is the not-found message otherwise |
| TaskRecords.CompleteEachCompleted | skills/task-tracker/track_completions.py:93-95 | after the run, `completed` gains the old records of exactly the listed pending ids |
| TaskRecords.CompleteEachOverdue | skills/task-tracker/track_completions.py:93-95 | after the run, `overdue` loses exactly the listed pending ids |
| TaskRecords.CompleteEachKeepsDisjoint | skills/task-tracker/track_completions.py:91-96 | a run of completions keeps `pending` and `completed` disjoint and only shrinks `pending` |
| TaskRecords.Overdue | skills/task-tracker/track_completions.py:105-115 | the pending entries, their records unchanged, whose schedule lies strictly more than `hours_threshold * 3600` seconds before now |
| TaskRecords.OverdueIsSubmap | skills/task-tracker/track_completions.py:105-115 | overdue entries are unchanged pending entries, and a larger threshold selects no more tasks |
| TaskRecords.OverdueScenario | skills/task-tracker/track_completions.py:112 | a task scheduled 30 hours ago is overdue at 24 hours and not at 48 (the comparison is strict) |
| TaskRecords.FollowUpTier | skills/task-tracker/track_completions.py:122-129 | a count selects one of the four tiers |
| TaskRecords.FollowUpPrefix | skills/task-tracker/track_completions.py:122-129 | the prefix of a count: Recordatorio at 0, Pendiente at 1, Aún pendiente at 2, PENDIENTE otherwise, negative counts included |
| TaskRecords.FollowUpMessage | skills/task-tracker/track_completions.py:119-135 | a follow-up text: the prefix of the task's stored count, `: `, then the task name |
| TaskRecords.FollowedUp | skills/task-tracker/track_completions.py:132 | a follow-up stores the count it read plus one, keeping the name, schedule and creation time |
| TaskRecords.FollowUpEscalates | skills/task-tracker/track_completions.py:122-132 | from a non-negative count (every count the code writes), each follow-up moves one tier up until the last, which repeats; tiers never go down |
| TaskRecords.FollowUpSeries | skills/task-tracker/track_completions.py:117-135 | the messages of `n` successive follow-ups of a task, each from the record the previous one left |
| TaskRecords.FollowUpSeriesCounts | skills/task-tracker/track_completions.py:117-135 | the `i`-th of successive follow-ups of a task uses its starting count plus `i` |
| TaskRecords.FreshTaskEscalation | skills/task-tracker/track_completions.py:122-135 | five follow-ups of a fresh task read Recordatorio, Pendiente, Aún pendiente, PENDIENTE, PENDIENTE; so the operation is not idempotent |
| TaskRecords.Bullet | skills/task-tracker/track_completions.py:151 | one summary line: `  • ` followed by the item |
| TaskRecords.Bullets | skills/task-tracker/track_completions.py:151 | one bullet line per item, in order |
| TaskRecords.Section | skills/task-tracker/track_completions.py:147-159 | a section of the summary: its header and one bullet per item, or no lines at all when there is no item |
| TaskRecords.SummaryLines | skills/task-tracker/track_completions.py:145-161 | the summary's lines: the overdue section, the pending section, then the footer |
| TaskRecords.FollowUpMessages | skills/task-tracker/track_completions.py:149-151 | one follow-up message per listed id, each for that id's record |
| TaskRecords.TaskNames | skills/task-tracker/track_completions.py:157-159 | one name per listed id, each that id's task name |
| TaskRecords.FollowUpBullets | skills/task-tracker/track_completions.py:149-151 | lines built one follow-up bullet per id are the bullets of the follow-up messages |
| TaskRecords.NameBullets | skills/task-tracker/track_completions.py:157-159 | lines built one name bullet per id are the bullets of the task names |
| TaskRecords.TaskNamesAgree | skills/task-tracker/track_completions.py:154-159 | the names listed depend only on the names stored, so the follow-up counts just written do not change them |
| TaskRecords.WithFollowUps | skills/task-tracker/track_completions.py:147-151 | the pending map after one follow-up of each listed task: each listed count becomes the count read plus one, and every other record stays |
| TaskRecords.WithFollowUpsCounts | skills/task-tracker/track_completions.py:147-159 | the summary raises the count of each overdue task by exactly one, keeps its name and schedule, and leaves every other pending record unchanged |
| TaskRecords.Enumerates | skills/task-tracker/track_completions.py:149-159 | a list of ids names every element of a set, and nothing else, exactly once, as iterating a dict's keys does |
| TaskRecords.SummarySections | skills/task-tracker/track_completions.py:147-159 | every pending task appears in exactly one of the two sections, and the sections list exactly the pending tasks |
| TaskRecords.EnumeratesSize | skills/task-tracker/track_completions.py:149-159 | a list naming each element of a set once is as long as the set |
| Tracker.TaskTracker.constructor | skills/task-tracker/track_completions.py:30-44 | the tracker starts with the three loaded maps |
| Tracker.TaskTracker.MarkPending | skills/task-tracker/track_completions.py:54-63 | `pending[id]` becomes a fresh record (name, schedule, creation time now, count 0), replacing any earlier one; every other key of every map is unchanged; returns the tracking message |
| Tracker.TaskTracker.MarkCompleted | skills/task-tracker/track_completions.py:65-81 | the new state and message are those of `Complete`: a pending id moves to `completed` with time and method and leaves `overdue`; otherwise not-found and nothing changes; disjointness is kept |
| Tracker.TaskTracker.DetectCompletion | skills/task-tracker/track_completions.py:83-99 | no match: `None` and nothing changes; match with no ids: the single sentinel and nothing changes; otherwise exactly the state and messages of completing each id in order with `auto_detected` |
| Tracker.TaskTracker.GetPendingTasks | skills/task-tracker/track_completions.py:101-103 | returns the pending map and changes nothing |
| Tracker.TaskTracker.GetOverdueTasks | skills/task-tracker/track_completions.py:105-115 | returns exactly the pending entries with `now - scheduled > hours*3600`, unchanged, and changes nothing |
| Tracker.TaskTracker.CreateFollowUpMessage | skills/task-tracker/track_completions.py:117-135 | the message has the tier prefix of the count read from `task_info`; that task's stored count becomes that count plus one; nothing else changes |
| Tracker.TaskTracker.GenerateDailySummary | skills/task-tracker/track_completions.py:137-163 | nothing pending: only the no-tasks message; otherwise every overdue task is followed up once and every other pending task listed by name, each exactly once, and the text is the joined sections and footer |
| Tracker.TaskTracker.OverdueSection | skills/task-tracker/track_completions.py:147-151 | the header and one follow-up bullet per overdue task, each overdue count advanced by one |
| Tracker.TaskTracker.PendingSection | skills/task-tracker/track_completions.py:153-159 | the header and one name bullet per non-overdue task, or nothing when there is none |
| Tracker.TaskTracker.FollowUpEach | skills/task-tracker/track_completions.py:149-151 | one follow-up bullet per overdue task, each from its record before the call, each count advanced once |
| Tracker.TaskTracker.ListNames | skills/task-tracker/track_completions.py:157-159 | one name bullet per listed task |
| AutoDetect.Cutoff | skills/task-tracker/auto_detect.py:56-57 | the time `hours` hours before now, as epoch seconds (`hours * 3600` seconds earlier); also the 24-hour pruning cutoff of line 80 |
| AutoDetect.RecentWindow | skills/task-tracker/auto_detect.py:56-62 | a job is reported exactly when its timestamp is strictly after `now - hours*3600` |
| AutoDetect.Recorded | skills/task-tracker/auto_detect.py:77-81 | the new map holds the job at `now`; it keeps exactly the prior entries newer than 24 hours, with their timestamps; every entry is newer than 24 hours |
| AutoDetect.RecordedIsRecent | skills/task-tracker/auto_detect.py:77-81 | a job just recorded is in every window of positive length read at the same time |
| AutoDetect.WindowMonotone | skills/task-tracker/auto_detect.py:56-62 | a wider window reports every job a narrower one does |
| AutoDetect.PruningHidesNothing | skills/task-tracker/auto_detect.py:79-81 | for any later read through a window of at most 24 hours, pruning on insertion hides no job |
| AutoDetect.IsLatest | skills/task-tracker/auto_detect.py:131-132 | an id is a pending task whose `created_at` (default `1970-01-01`) is `>=` that of every pending task |
| AutoDetect.MostRecentJob | skills/task-tracker/auto_detect.py:131-132 | returns a pending task whose `created_at` (default `1970-01-01`) is maximal under string order |
| AutoDetect.ChosenClosing | skills/task-tracker/auto_detect.py:121-134 | the ids an auto-detection closes: with a non-empty window, each pending job of the window once; with an empty window and something pending, one latest-created pending task; otherwise none |
| AutoDetect.AutoMethod | skills/task-tracker/auto_detect.py:125-133 | the completion method: `auto_detected` when jobs ran recently, `auto_detected_fallback` otherwise |
| AutoDetect.ClosedStore | skills/task-tracker/auto_detect.py:123-133 | the store after the chosen pending tasks are completed: they leave `pending` and `overdue`, and their records with the time and method go to `completed` |
| AutoDetect.Elements | skills/task-tracker/auto_detect.py:123-126 | the set of ids a list names |
| AutoDetect.PendingAmong | skills/task-tracker/auto_detect.py:123-124 | the ids of a list that are pending, kept in the list's order |
| AutoDetect.PendingAmongMembers | skills/task-tracker/auto_detect.py:123-124 | `PendingAmong` keeps exactly the listed ids that are pending, repeats none when the list has none, and is no longer than the list |
| AutoDetect.ClosedMessages | skills/task-tracker/auto_detect.py:123-126 | one completion message per closed id, naming its pending task |
| AutoDetect.AutoClosed | skills/task-tracker/auto_detect.py:121-134 | an auto-detection over a window: the ids closed are those `ChosenClosing` allows, all pending, and the new store is `ClosedStore` of them with the window's method |
| AutoDetect.Checked | skills/task-tracker/auto_detect.py:102-134 | `check_for_completions` on the store: nothing closed and nothing changed unless a pattern is found; otherwise `AutoClosed` over the jobs of the last `max_age_hours` hours |
| AutoDetect.CheckReply | skills/task-tracker/auto_detect.py:136-140 | the reply: `None` when nothing was closed, otherwise the completion messages of the closed tasks, in closing order |
| AutoDetect.AutoClosedEffect | skills/task-tracker/auto_detect.py:121-134 | the resolver closes only pending tasks, each once, each with its record, the time and an automatic method; no other key changes; disjointness is kept |
| AutoDetect.ClosedStoreEffect | skills/task-tracker/auto_detect.py:123-125 | closing a set of pending ids moves exactly those records to `completed` and out of `overdue` |
| AutoDetect.NonCompletionChangesNothing | skills/task-tracker/auto_detect.py:105-111 | a message that matches no pattern changes nothing and gives `None` |
| AutoDetect.NoFallbackWhenRecentJobsDone | skills/task-tracker/auto_detect.py:121-128 | with recent jobs but none pending, nothing is closed: the `elif` keeps the fallback from running |
| AutoDetect.FallbackClosesLatest | skills/task-tracker/auto_detect.py:128-134 | with no recent job and something pending, exactly one task is closed, a latest-created one, with the fallback method |
| AutoDetect.NothingPendingNothingClosed | skills/task-tracker/auto_detect.py:121-140 | with nothing pending, nothing is closed and nothing changes, whatever the window |
| AutoDetect.SecondCheckClosesNothing | skills/task-tracker/auto_detect.py:121-126 | checking twice over the same non-empty window closes nothing the second time |
| AutoDetect.AutoDetector.constructor | skills/task-tracker/auto_detect.py:22-26 | a detector with a fresh tracker over the loaded maps and the recorded jobs |
| AutoDetect.AutoDetector.GetRecentJobIds | skills/task-tracker/auto_detect.py:48-67 | lists each job of the window exactly once and changes nothing |
| AutoDetect.AutoDetector.AddRecentJob | skills/task-tracker/auto_detect.py:69-88 | the recent-jobs map becomes `Recorded`: the job at `now`, pruned to 24 hours |
| AutoDetect.AutoDetector.CheckForCompletions | skills/task-tracker/auto_detect.py:90-140 | no match: nothing changes and `None`; recent jobs: exactly the recent pending ones closed `auto_detected`; none recent: one latest pending task closed `auto_detected_fallback`; the reply is `None` when nothing closed, else one message per closed task |
| AutoDetect.AutoDetector.CloseFallback | skills/task-tracker/auto_detect.py:128-134 | closes a latest-created pending task when there is one, and nothing otherwise |
| AutoDetect.AutoDetector.CloseMostRecentJob | skills/task-tracker/auto_detect.py:131-133 | picks a latest-created pending task and completes it with the fallback method |
| AutoDetect.AutoDetector.CloseRecentJobs | skills/task-tracker/auto_detect.py:121-126 | closes the recent ids that are pending, in the order of the list (`PendingAmong`), once each, with `auto_detected`, one message each in that order |
| AutoDetect.AddedJobMessage | skills/task-tracker/auto_detect.py:147 | the reply `process_message` gives when it records a job, naming the job |
| AutoDetect.AutoDetector.ProcessMessage | skills/task-tracker/auto_detect.py:142-154 | with a job id: only records it and replies "Added job", tasks untouched; otherwise the completion check over two hours, replying with the joined messages or `None` |
| AutoDetect.ClosedStoreStep | skills/task-tracker/auto_detect.py:123-125 | closing one more pending id is one more `mark_completed` |
| AutoDetect.ClosedStoreNone | skills/task-tracker/auto_detect.py:136-140 | closing nothing leaves the store unchanged |
| AutoDetect.RecentJobsClosed | skills/task-tracker/auto_detect.py:121-126 | closing the pending ones among a non-empty listing of the window is the auto-detection over that window |
| AutoDetect.RecentJobStep | skills/task-tracker/auto_detect.py:123-126 | at each turn of the loop the id is not yet closed, and it is appended to the closed ids exactly when it was pending |
| Scenarios.TrackThenList | skills/task-tracker/track_completions.py:54-63 | a tracked task is listed among the pending tasks with a fresh record, and the others are as before |
| Scenarios.CompleteThenRetry | skills/task-tracker/track_completions.py:65-81 | completing twice: the first names the task, the second is not found, the first completion stays |
| Scenarios.FollowUpFiveTimes | skills/task-tracker/track_completions.py:117-135 | five follow-ups of a fresh task give the five escalating messages and leave the count at five |
| Scenarios.ListoWithRecentJob | skills/task-tracker/auto_detect.py:121-126 | "listo" with `job-5` pending and run just now completes `job-5` as `auto_detected` and replies with its message |
| Scenarios.RecentJobClosed | skills/task-tracker/auto_detect.py:121-126 | over the window {job-5}, with job-5 the only pending task, exactly job-5 is closed |
| Scenarios.FallbackPicksLatest | skills/task-tracker/auto_detect.py:128-134 | "done" with no recent job and two pending tasks completes the later-created one with the fallback method |
| Scenarios.LatestOfTwoClosed | skills/task-tracker/auto_detect.py:128-134 | the fallback over two pending tasks closes the one created later and keeps the other |

## Left out

- Reading and writing the JSON files is not modelled: the completions file, the recent-jobs file and the state file. The same goes for `mkdir`, the fixed home-directory paths and the exceptions the code swallows. The files are the in-memory maps; a missing file is the empty map.
- `AutoDetector.state` and `last_check` are left out: they are loaded and saved but never used in a decision.
- `main`, the command-line dispatch and `print` output (including the print in `check_for_completions`) are process plumbing and are left out.
- The clock is a parameter.
  * `datetime.now()` becomes one reading per operation, an `Instant` or its epoch seconds; the source reads the clock anew at each `mark_completed` and twice in `add_recent_job`.
  * Timestamps are integer seconds, not floats.
  * Nothing ties an `Instant`'s epoch value to its ISO text.
- `fromisoformat` is left out: `scheduled_time` is held already parsed. So its `ValueError` on malformed text is not modelled. Nor is the `TypeError` raised at track_completions.py:112 when a `scheduled_time` carries a UTC offset: it parses to an aware datetime, `now - scheduled_time` then subtracts it from a naive one, and the error aborts `get_overdue_tasks` and `generate_daily_summary`.
- Lower-casing beyond U+00FF and `\w` beyond U+024F are left out: `str.lower()` is modelled for ASCII and Latin-1 capitals only, and `\w` up to U+024F. So a capital such as U+0130 `İ` stays a word character in the model, while Python lowers it to `i` plus a combining dot, which is not a word character.
- The extra case matches of `re.IGNORECASE` are left out. Python also matches `ſ` with `s` and `ı` with `i`, so "taſk completed" matches in the source but not in the model.
- Local-time arithmetic is left out. The source subtracts `timedelta`s from naive local datetimes (auto_detect.py:56-57 and 80, track_completions.py:108-112). `Cutoff` and `Overdue` subtract exactly `hours * 3600` epoch seconds instead, so across a daylight-saving change the source's 2-hour and 24-hour windows and its overdue ages are off by an hour from the model's. For example, at 03:30 just after a 02:00 to 03:00 jump, `get_recent_job_ids(2)` cuts off at 01:30 local time, one real hour back.
- Concrete messages that do not match are not proved one by one; `CompletionMatcher.CompletionNeedsLeadWord` and `EmptyIsNotCompletion` cover them in general.
- The `completion_method` strings are the enumeration `CompletionMethod`.
- An absent `recent_job_ids` argument of `detect_completion` is the empty sequence, which the source treats the same way.
- `AutoDetect.MostRecentJob`: states "some maximal `created_at`", weaker than `max`'s first maximal key in dict order, because dict iteration order is not modelled.
- `Tracker.TaskTracker.GenerateDailySummary`, `AutoDetect.AutoDetector.GetRecentJobIds`, `AutoDetect.AutoDetector.CheckForCompletions`: the id order of their output is left open (returned alongside and constrained only to list each id once), because dict iteration order is not modelled.
- `Tracker.TaskTracker.CreateFollowUpMessage`: requires the job id to be pending. The source raises `KeyError` otherwise, and its only caller passes a pending id.
