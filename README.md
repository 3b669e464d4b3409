# Voice task manager: a Dafny model of its command interpreter and task list

The page `app/page.js` is a React component that keeps a list of tasks and lets
the user manage it by voice or by clicking. Each task record is
`{id, text, completed, createdAt, dueDate}`. This project models the logic
inside that component:

- **The voice-command interpreter** `processVoiceCommand`. It is a literal
  prefix dispatcher over the transcript, which arrives trimmed and lower-cased.
  It tries `add task`, then `delete task`, then `complete task`. It drops the
  first occurrence of the trigger with `replace`, trims the rest, and then:
  - adds an open task with no due date, if the remainder is non-empty;
  - deletes every task whose lower-cased text equals the remainder;
  - completes every task whose lower-cased text equals the remainder;
  - otherwise answers "Sorry, I didn't understand."
- **The transcript assembly** of the recognizer's result handler: concatenate,
  trim, and lower-case only when the last result is final.
- **The click handlers**: manual add, toggle by id, delete by id, clear all.
- **The derived values** the page shows: the completed and pending counts, the
  progress percentage, the incomplete-first ordering, the reminder test ("due
  within a minute") and the overdue test.

Files:

- `optional.dfy`: the `Option` type.
- `js_string.dfy`: the JavaScript string operations used:
  - `toLowerCase` and `trim`, on ASCII;
  - `startsWith` and `indexOf`;
  - `replace` with a string pattern.
- `seq_filter.dfy`: `filter` on sequences and its laws.
- `task_list.dfy`: the `Task` record and the list transformations that the
  handlers pass to `setTasks`, as pure functions, plus the counts, the
  progress, the ordering and the reminder and overdue predicates.
- `voice_commands.dfy`: the dispatch (`ParseCommand`), its effect on the list,
  the feedback and the spoken reply (`ApplyCommand`, `FeedbackAfter`,
  `SpokenReply`), and the transcript assembly loop.
- `task_manager.dfy`: class `VoiceTaskManager`. Its fields `tasks`, `feedback`
  and `transcript` are the component's state, and its methods are the
  handlers. Each method is proved against the functions above.

Two things from the page are specified by functions without their own contract:
`SortIncompleteFirst`, the sort of a copy, and `ApplyCommand`, the effect of
a command. The lemmas listed below state their properties. These definitions
are used in the contracts and lemmas below and are not listed on their own,
because their bodies are the definition:

- `StartsWith` (`startsWith`) and `Replace` (first-occurrence `replace`);
- `Remainder` (drop the first occurrence of the trigger, then trim);
- `FeedbackAfter` and `SpokenReply` (the feedback line and the spoken reply of
  a voice command);
- `Unread` and `Joined` (the results from `resultIndex` on, and their
  concatenation, each transcript followed by a space);
- `DueSoon` (the reminder test) and `Overdue` (the overdue highlight);
- `DueFromInput` (the due date of a manual add: the typed text unless the
  prompt was cancelled or left empty);
- `ReminderSpeech` (the spoken reminder line of a task).

## Model

| member | source | states |
|---|---|---|
| JsString.LowerChar | app/page.js:45 | lower-casing maps upper-case ASCII letters to lower case and leaves every other character alone |
| JsString.ToLower | app/page.js:45 | `toLowerCase` keeps the length, lower-cases each character in place, and leaves no upper-case letter |
| JsString.ToLowerIdempotent | app/page.js:83 | lower-casing twice is lower-casing once, so the already lower-cased command compares against `t.text.toLowerCase()` consistently |
| JsString.LeadingSpaces | app/page.js:74 | the count of leading characters that `trim` drops: all of them are whitespace and the next one, if any, is not |
| JsString.TrailingSpaces | app/page.js:74 | the count of trailing characters that `trim` drops: all of them are whitespace and the one before them, if any, is not |
| JsString.Trim | app/page.js:74 | `trim` returns an infix of the input that neither starts nor ends with whitespace, and only whitespace lies outside it |
| JsString.TrimEmptyIffBlank | app/page.js:75 | the trimmed remainder is empty (falsy) exactly when the input is all whitespace |
| JsString.TrimIdempotent | app/page.js:40 | trimming a trimmed string changes nothing |
| JsString.IndexOfFrom | app/page.js:74 | the search returns the first position at or after the start where the pattern occurs, or none when it occurs nowhere from there |
| JsString.IndexOf | app/page.js:74 | `indexOf` finds the first occurrence, and finds one exactly when the pattern occurs somewhere |
| JsString.ReplaceLeadingOccurrence | app/page.js:73-74 | when the command starts with the trigger, replacing the first occurrence replaces exactly the prefix |
| SeqFilter.Filter | app/page.js:83 | `filter` keeps exactly the elements that satisfy the predicate and never grows the list |
| SeqFilter.FilterConcat | app/page.js:83 | filtering distributes over concatenation, so the kept elements stay in their original order |
| SeqFilter.FilterPrefixStep | app/page.js:126-137 | walking the list one element further extends the filtered result by that element exactly when it passes |
| SeqFilter.FilterKeepsAll | app/page.js:83 | when every element passes, `filter` returns the list unchanged |
| SeqFilter.FilterDropsAll | app/page.js:143 | when no element passes, `filter` returns the empty list |
| TaskList.DeleteByText | app/page.js:83 | the voice delete keeps exactly the tasks whose lower-cased text differs from the spoken text |
| TaskList.DeleteByTextConcat | app/page.js:83 | the voice delete keeps the survivors in their original order |
| TaskList.DeleteByTextNoMatch | app/page.js:81-84 | when no task matches, the voice delete leaves the list unchanged |
| TaskList.CompleteByText | app/page.js:88 | the voice complete keeps length and order, sets `completed` on exactly the matching tasks, and changes no other field |
| TaskList.CompleteByTextIdempotent | app/page.js:86-88 | completing the same text twice equals completing it once |
| TaskList.ToggleById | app/page.js:303 | the toggle flips `completed` exactly on the tasks with that id and changes nothing else |
| TaskList.ToggleByIdTwice | app/page.js:303 | toggling the same id twice restores the original list |
| TaskList.DeleteById | app/page.js:331 | the delete button removes exactly the tasks with that id |
| TaskList.DeleteByIdConcat | app/page.js:331 | the delete button keeps the other tasks in their original order |
| TaskList.DeleteByIdAbsent | app/page.js:331 | deleting an id no task carries changes nothing |
| TaskList.CompletedCount | app/page.js:143 | the completed count is at most the number of tasks |
| TaskList.PendingCount | app/page.js:283 | the pending count is at most the number of tasks |
| TaskList.PendingCompletedPartition | app/page.js:143 | pending and completed tasks together are the whole list, as a multiset, so the two counts sum to `tasks.length` |
| TaskList.Progress | app/page.js:144 | the progress is the integer nearest to 100·completed/total, halves rounded up, lies in 0..100, and is 0 for an empty list |
| TaskList.SortIsPendingThenCompleted | app/page.js:145 | the sorted copy is the incomplete tasks in list order followed by the completed tasks in list order |
| TaskList.SortedIsPermutation | app/page.js:145 | the sorted copy is a permutation of the list |
| TaskList.SortedPutsPendingFirst | app/page.js:145 | in the sorted copy no completed task precedes an incomplete one |
| TaskList.SortedIsStable | app/page.js:145 | the sort is stable within the incomplete group and within the completed group |
| TaskList.DueSoonThenOverdue | app/page.js:128-132 | a task that raises a reminder is not yet overdue, and is overdue once the minute has passed |
| TaskList.Reminders | app/page.js:127-136 | the reminders of a walk over the first n tasks, in list order, at most n |
| TaskList.RemindersMembers | app/page.js:127-136 | a walk reminds of a task exactly when that task is open, has a non-empty due date, and its due instant lies strictly between the clock reading taken for it and 60000 ms later |
| TaskList.RemindersAtOneInstant | app/page.js:127-136 | when every clock reading of the walk is the same instant, the reminders are the list filtered by the due-soon test at that instant, in list order |
| TaskList.LateDismissalSkipsReminder | app/page.js:129-133 | because the clock is read again after each reminder is dismissed, two tasks due soon when the walk starts can yield only one reminder |
| VoiceCommands.RemainderAfterTrigger | app/page.js:73-74 | `replace(trigger, "").trim()` on a command that starts with the trigger is the trimmed text after the prefix |
| VoiceCommands.ParseCommand | app/page.js:72-95 | triggers are tried in the order add, delete, complete; each is chosen exactly when it is the first that prefixes the command; its text is the trimmed rest after the prefix |
| VoiceCommands.VoiceAdd | app/page.js:73-80 | "add task X" with non-empty X appends exactly one open task with text X and no due date and keeps the earlier tasks; with empty X neither the list nor the feedback changes |
| VoiceCommands.VoiceDelete | app/page.js:81-85 | "delete task X" keeps exactly the tasks whose lower-cased text differs from X; when nothing matches the list is unchanged; the feedback is "Deleted: X" either way |
| VoiceCommands.VoiceComplete | app/page.js:86-90 | "complete task X" keeps length and order, completes exactly the matching tasks, changes no other field, and is idempotent |
| VoiceCommands.VoiceUnrecognised | app/page.js:91-94 | any other command leaves the list unchanged, sets the feedback to "Sorry, I didn't understand." and speaks it |
| VoiceCommands.AddTaskWithoutSpace | app/page.js:73-74 | "add taskfoo" is an add of "foo" |
| VoiceCommands.AssembleTranscript | app/page.js:36-40 | the loop's result is the trimmed concatenation of the transcripts from `resultIndex` on, each followed by a space |
| TaskManager.VoiceTaskManager.constructor | app/page.js:7-12 | the page starts with no tasks, empty feedback and an empty transcript |
| TaskManager.VoiceTaskManager.ProcessVoiceCommand | app/page.js:72-95 | the handler leaves the list, the feedback and the spoken reply as the dispatch and its effect functions prescribe, and leaves the transcript alone |
| TaskManager.VoiceTaskManager.OnResult | app/page.js:35-47 | the transcript becomes the assembled text; when the last result is final the lower-cased text is run as a command, otherwise the list and the feedback stay |
| TaskManager.VoiceTaskManager.AddManualTask | app/page.js:113-122 | a non-blank answer appends one open task with the trimmed text and the typed due date; the feedback quotes the answer untrimmed; a cancelled or blank answer changes nothing |
| TaskManager.VoiceTaskManager.ToggleTask | app/page.js:303 | the list becomes the toggle-by-id of the old list; feedback and transcript stay |
| TaskManager.VoiceTaskManager.DeleteTask | app/page.js:331 | the list becomes the delete-by-id of the old list; feedback and transcript stay |
| TaskManager.VoiceTaskManager.ClearAll | app/page.js:350 | a confirmed clear empties the list and announces it; a declined one changes nothing |
| TaskManager.VoiceTaskManager.CheckReminders | app/page.js:126-137 | one timer tick walks the list in order, reads the clock again for each open task with a due date, returns in list order exactly the tasks due strictly within 60000 ms of their own reading, and one spoken reminder line for each of them, in the same order |

## Left out

- Speech recognition setup, `onend`, `onerror`, `startListening` and `stopListening` (app/page.js:26-59, 98-110) are browser event plumbing. The `isListening` flag, the "Listening..." feedback and the error feedback are not modelled. `OnResult` takes the result list as a parameter.
- `speak` (app/page.js:62-69) is a platform call. Each handler returns, as `spoken`, the text it would hand to speech synthesis; `CheckReminders` returns one spoken line per reminded task. Cancelling the synthesis and the speaking rate are not modelled.
- `localStorage` load and save (app/page.js:17-24) is persistence I/O.
- The answers to `prompt` and `confirm` (app/page.js:114, 116, 350) are parameters. The `alert` of a reminder is represented by the task being returned from `CheckReminders`.
- `setInterval` and `clearInterval` (app/page.js:125-140) are timers. `CheckReminders` models one tick. The clock reading taken for each task is passed in `nows`, one entry per task; how long each reminder stays on screen is not modelled.
- `Date.now()`, `new Date()` and date-string parsing are clock reads and a foreign library. The add handlers use one `now` parameter both as the new task's id and as its `createdAt`. A due date is stored as the typed text together with the instant it parses to, supplied by the caller; an unparseable text has no instant.
- The JSX rendering and styling (app/page.js:147-370) is UI. The overdue highlight (app/page.js:291) is kept only as the predicate `Overdue`.
- JsString.ToLower: lower-cases ASCII letters only. JavaScript's `toLowerCase` also maps non-ASCII letters, and for some of them changes the length (U+0130 becomes two code units), so the length-preserving contract holds only for this ASCII model.
- JsString.Trim: removes ASCII whitespace only (tab, line feed, vertical tab, form feed, carriage return, space). JavaScript's `trim` also removes the Unicode space separators, line and paragraph separators, and the byte-order mark.
- TaskList.Progress: uses exact rational arithmetic for `Math.round((completed / total) * 100)`. The floating-point quotient can land on the other side of a .5 boundary.
- TaskList.SortIncompleteFirst: modelled as a stable insertion sort. The language requires `Array.prototype.sort` to be stable but does not fix its algorithm. The lemmas prove that the result is the pending tasks followed by the completed tasks, in list order.
