# Team meeting workspace: verified model of the server and the meeting panels

This project models the core of a team-meeting web application in Dafny and proves properties of that model. The application has two halves. The first is a small HTTP backend over a key-value store. It keeps polls, votes, tasks, meetings and chat messages under keys such as `poll:{id}` and `vote:{pollId}:{userId}`. The second is a set of client panels:
- live polling;
- a task list;
- a meeting timer with an agenda;
- file sharing;
- a shared notes editor;
- a transcript search;
- the meeting lobby, where meetings are created and joined.

The modules follow the program's structure:

- `Kv` models the store as an association list with distinct keys. It covers `get`, an upserting `set` and a prefix scan.
- `Records` holds the typed records the server stores and the key each one goes under. It proves that the key prefix determines the record kind, and that vote keys identify the (poll, user) pair.
- `Server` holds the route handlers. The list routes are functions. `GET /polls` counts votes with a loop, as the handler's `forEach` does. The writing routes are methods of a `Backend` class whose `kv` field is the store.
- `Tally` models the per-option vote-count maps. It proves that every option's count is the number of votes choosing it, and that the counts sum to the total in any key order.
- `Lists` and `Text` give the meaning of the JavaScript built-ins the code relies on: `filter`, the numeric `sort`, element replacement by `map`, the `[x, ...prev]` state update, `trim`, `toLowerCase`, `includes`, `split`, `toString` and `padStart`.
- `Session` is the client-side test that decides whether a change is sent to the server: a user, a non-empty token, and not a `guest` token.
- Each panel has its own module: `PollingVoting`, `TaskManager`, `TimerAgenda`, `FileSharing`, `DocumentEditor`, `TranscriptView` and `MeetingLobby`. Panels with React state are classes whose fields are that state. Their methods are the event handlers. What a handler computes is specified by pure functions, and the lemmas are about those functions.

Several things outside the program's control are parameters:
- the clock;
- fresh ids;
- the authenticated caller, where `None` stands for a missing or rejected token;
- the server's answers to client requests.

## Model

| member | source | states |
|---|---|---|
| Kv.Get | src/supabase/functions/server/index.tsx:143-146 | `kv.get`: nothing is found exactly when no entry has the key; a value found is stored under that key |
| Kv.GetUnique | src/supabase/functions/server/index.tsx:390-393 | with distinct keys, the value found is the one of the only entry carrying the key |
| Kv.Set | src/supabase/functions/server/index.tsx:129 | `kv.set` is an upsert: reading the key back gives the new value and every other key reads as before |
| Kv.SetEntries | src/supabase/functions/server/index.tsx:151 | after an upsert each entry is the new one or an untouched entry under another key |
| Kv.SetKeepsDistinct | src/supabase/functions/server/index.tsx:246 | an upsert never creates a second entry for a key |
| Kv.SetTwice | src/supabase/functions/server/index.tsx:246 | writing a key twice leaves the store as writing it once with the second value |
| Kv.Scan | src/supabase/functions/server/index.tsx:163-164 | a prefix scan returns exactly the stored entries whose key starts with the prefix |
| Kv.GetByPrefix | src/supabase/functions/server/index.tsx:163-164 | `getByPrefix` returns a value if and only if it is stored under a key with the prefix, and returns no more values than there are entries |
| Kv.StoredIsScanned | src/supabase/functions/server/index.tsx:333 | a record stored under a prefixed key is among the scan's results |
| Records.PrefixDeterminesKind | src/supabase/functions/server/index.tsx:163-164 | a record's key starts with the prefix of its own kind and with no other kind's prefix |
| Records.ScanIsOfKind | src/supabase/functions/server/index.tsx:93 | in a store where every record sits under its own key, a `task:` (or `poll:`, `vote:`, `meeting:`, `message:`) scan yields only records of that kind |
| Records.SetKeepsWellKeyed | src/supabase/functions/server/index.tsx:216 | writing a record under its own key keeps every record under its own key |
| Records.TaskFound | src/supabase/functions/server/index.tsx:143-148 | what is found under `task:{id}` is the task with that id |
| Records.MeetingFound | src/supabase/functions/server/index.tsx:390-395 | what is found under `meeting:{id}` is the meeting with that id |
| Records.TaskAt | src/supabase/functions/server/index.tsx:143-148 | the stored task read by the PUT route: none exactly when the key is absent, else the task `id` |
| Records.MeetingAt | src/supabase/functions/server/index.tsx:390-395 | the stored meeting read by the join route: none exactly when the key is absent, else the meeting `id` |
| Records.VoteKeyInjective | src/supabase/functions/server/index.tsx:245-246 | vote keys of user ids without a colon determine both the poll and the user |
| Records.VoteKeyCollision | src/supabase/functions/server/index.tsx:246 | without that condition two different (poll, user) pairs share a key: `a`/`b:c` and `a:b`/`c` |
| Records.AtMostOneVote | src/supabase/functions/server/index.tsx:245-246 | in a well-keyed store there is at most one vote per poll and user |
| Server.DisplayName | src/supabase/functions/server/index.tsx:211 | `user_metadata.name` when present and non-empty, otherwise exactly `Unknown User`; never empty |
| Server.StoredPassword | src/supabase/functions/server/index.tsx:361 | `password \|\| null`: only a non-empty password is stored, unchanged |
| Server.PasswordRejects | src/supabase/functions/server/index.tsx:398-400 | a meeting without a password rejects no join, the meeting's own password is never rejected, and any other password on a protected meeting is |
| Server.JoinAdmits | src/supabase/functions/server/index.tsx:398-400 | a meeting created with password `p` admits a join with `q` exactly when `p` was empty or missing, or `q` equals `p` |
| Server.PollViewOf | src/supabase/functions/server/index.tsx:167-185 | the view of one poll is the poll itself, each option counted as the number of the poll's votes choosing it, and a total equal to the number of the poll's votes |
| Server.VotesFor | src/supabase/functions/server/index.tsx:169-171 | the votes kept for a poll are exactly the stored votes with that `poll_id` |
| Server.PollViewTotals | src/supabase/functions/server/index.tsx:173-184 | a listed poll's `totalVotes` is the number of votes in that poll and the sum of its per-option counts in any order of options |
| Server.VotesForConcat | src/supabase/functions/server/index.tsx:169-171 | selecting a poll's votes distributes over concatenation of the vote list |
| Server.OtherPollVoteIgnored | src/supabase/functions/server/index.tsx:171 | inserting another poll's vote anywhere leaves a poll's counts and total unchanged |
| Server.Views | src/supabase/functions/server/index.tsx:167-185 | one view per stored poll, each the poll with its own counted votes |
| Server.CountVotes | src/supabase/functions/server/index.tsx:173-179 | the `forEach` loop ends with each option's count equal to the number of votes choosing it and the total equal to the number of votes |
| Server.CountVotesStep | src/supabase/functions/server/index.tsx:177 | handling one more vote bumps exactly its option's count (missing counts as 0) |
| Server.AggregatePoll | src/supabase/functions/server/index.tsx:167-185 | the mapped poll is the poll with the counts of its own votes |
| Server.ViewAll | src/supabase/functions/server/index.tsx:167-185 | the `polls.map` builds the view of every poll, in store order |
| Server.ListPolls | src/supabase/functions/server/index.tsx:161-188 | `GET /polls` is newest first, is a permutation of the stored polls' views, and every entry is a stored poll with its own vote counts |
| Server.ListMessages | src/supabase/functions/server/index.tsx:46-55 | `GET /messages` returns every stored message, each once, oldest first |
| Server.ListTasks | src/supabase/functions/server/index.tsx:91-99 | `GET /tasks` returns every stored task, each once, newest first |
| Server.ListMeetings | src/supabase/functions/server/index.tsx:331-340 | `GET /meetings` returns every stored active meeting, each once (equal as a multiset to the active stored meetings) and no other, newest first |
| Server.JoinReply | src/supabase/functions/server/index.tsx:380-406 | the join outcome is 401 without a user, 404 without the meeting, 401 for a wrong password on a protected meeting, otherwise the meeting with one more participant, and nothing else changed |
| Server.JoinTwice | src/supabase/functions/server/index.tsx:402-404 | a join keeps the meeting's id and password, and two accepted joins add exactly two participants |
| Server.Backend.constructor | src/supabase/functions/server/index.tsx:5 | the backend starts with an empty store, which is keyed by distinct keys with every record under its own key |
| Server.Backend.Put | src/supabase/functions/server/index.tsx:369 | writing a record under its key keeps the store keyed by distinct keys with each record under its own key |
| Server.Backend.CreateMessage | src/supabase/functions/server/index.tsx:62-83 | 401 and no write without a user; otherwise the message with the given name, else the user's name, else `Unknown User`, stored under `message:{id}` |
| Server.Backend.CreateTask | src/supabase/functions/server/index.tsx:106-131 | 401 and no write without a user; otherwise an open task with priority `medium` and source `manual` by default, stored under `task:{id}` |
| Server.Backend.UpdateTask | src/supabase/functions/server/index.tsx:138-153 | needs no user; 404 and no write for a missing task; otherwise the stored task with only `completed` changed, written back |
| Server.Backend.CreatePoll | src/supabase/functions/server/index.tsx:195-218 | 401 and no write without a user; otherwise an active poll stored under `poll:{id}` and returned with no votes and a total of 0 |
| Server.Backend.CastVote | src/supabase/functions/server/index.tsx:225-248 | 401 and no write without a user; otherwise the vote is stored under `vote:{pollId}:{userId}` without checking the poll or the option index |
| Server.Backend.CreateMeeting | src/supabase/functions/server/index.tsx:347-371 | 401 and no write without a user; otherwise an active meeting with one participant and its non-empty password, stored under `meeting:{id}` |
| Server.Backend.JoinMeeting | src/supabase/functions/server/index.tsx:378-406 | the reply is the join outcome on the stored meeting; a refused join writes nothing, an accepted one rewrites that meeting under its own key |
| Server.VoteOverwritesOnlyOwnKey | src/supabase/functions/server/index.tsx:245-246 | after a vote the voter's key holds it and every other (poll, user) pair's vote is untouched |
| Server.LastVoteWins | src/supabase/functions/server/index.tsx:245-246 | a repeated vote by one user in one poll leaves the store as if only the last vote had been cast |
| Tally.CountsAt | src/supabase/functions/server/index.tsx:176-179 | the count map gives each option the number of times it was chosen |
| Tally.Counts | src/supabase/functions/server/index.tsx:176-179 | the count map built vote by vote has no more options than there are votes |
| Tally.CountsPositive | src/supabase/functions/server/index.tsx:176-179 | every option in the count map has a count of at least one |
| Tally.CountsAll | src/supabase/functions/server/index.tsx:176-179 | the same for all options at once |
| Tally.CountsKeys | src/supabase/functions/server/index.tsx:176-179 | the count map has an entry exactly for the options that were chosen |
| Tally.CountsSnoc | src/supabase/functions/server/index.tsx:177 | counting one more choice bumps that option's count |
| Tally.SumOfCounts | src/supabase/functions/server/index.tsx:176-179 | summed over the chosen options, the counts add up to the number of votes |
| Tally.SumOfCountsAnyOrder | src/supabase/functions/server/index.tsx:176-179 | the same sum over any enumeration of the count map's keys |
| Tally.SumAtPermutation | src/supabase/functions/server/index.tsx:176-179 | the sum of the counts does not depend on the order the options are listed in |
| Tally.IndicesEnumerate | src/supabase/functions/server/index.tsx:176-179 | the distinct chosen options list every key of the count map once |
| Lists.Filter | src/components/task-manager.tsx:197-198 | `filter` keeps exactly the elements satisfying the predicate |
| Lists.FilterIsSubsequence | src/components/transcript-view.tsx:50-54 | `filter` keeps the original order of what it keeps |
| Lists.FilterPartition | src/components/task-manager.tsx:197-198 | filtering by a predicate and by its negation splits a list into two parts that hold each element once |
| Lists.FilterAgree | src/components/transcript-view.tsx:50-54 | filters by predicates that agree on every element give the same result |
| Lists.FilterFullLength | src/components/timer-agenda.tsx:101-102 | a filter that keeps the whole length kept every element |
| Lists.InsertBySorted | src/supabase/functions/server/index.tsx:53 | inserting into a list sorted by key keeps it sorted |
| Lists.SortBy | src/supabase/functions/server/index.tsx:51-53 | sorting by a numeric key yields a list ordered by that key holding exactly the original elements |
| Lists.Replace | src/components/polling-voting.tsx:170-172 | `map(e => p(e) ? x : e)` replaces the matching elements by `x` and keeps the rest |
| Lists.ReplaceFresh | src/components/task-manager.tsx:185-187 | when only the first element matches, it alone is replaced |
| Lists.ShowThenReplace | src/components/task-manager.tsx:168-187 | the optimistic element is shown first and, once the server's element arrives, takes the place of the temporary one only; without an answer the optimistic element stays |
| Lists.PrependEach | src/components/file-sharing.tsx:127 | `setFiles(prev => [newFile, ...prev])` for each new element in turn keeps the old list unchanged behind the new elements |
| Lists.PrependEachAt | src/components/file-sharing.tsx:127 | the new elements end up in reverse order: the last added is first |
| Lists.PrependEachSnoc | src/components/file-sharing.tsx:127 | one more new element puts just that element in front |
| Text.Trim | src/components/task-manager.tsx:151 | `trim()` is empty exactly for blank text; it occurs in the text with only white space before and after it, and when non-empty begins and ends with a non-space |
| Text.TrimUnique | src/components/task-manager.tsx:151 | any infix with only white space around it and non-space ends is the trimmed text, so the clauses of `Trim` fix its result |
| Text.ToLower | src/components/transcript-view.tsx:52-53 | `toLowerCase` maps each character and keeps the length |
| Text.ToLowerIdempotent | src/components/transcript-view.tsx:52-53 | lower-casing twice is lower-casing once |
| Text.ContainsLower | src/components/transcript-view.tsx:52-53 | what occurs in a text also occurs, lower-cased, in the lower-cased text |
| Text.NatToString | src/components/timer-agenda.tsx:81 | `toString` of a non-negative integer is decimal digits with no leading zero, one digit exactly below 10 |
| Text.NatToStringValue | src/components/timer-agenda.tsx:81 | reading the decimal rendering back gives the number |
| Text.NatToStringInjective | src/components/Code-component-4-111.tsx:105 | different numbers render differently |
| Text.PadStart2 | src/components/timer-agenda.tsx:81 | `padStart(2, '0')` left-pads with zeros to length two and keeps the text as its suffix |
| Text.TwoDigitsValue | src/components/timer-agenda.tsx:81 | a number below 100, rendered and padded, is two digits that read back as the number |
| Text.Split | src/components/document-editor.tsx:236 | `split` on one character gives at least one piece |
| Text.SplitSepFree | src/components/document-editor.tsx:236 | no piece of a split contains the separator |
| Text.SplitLength | src/components/document-editor.tsx:236 | `split` gives one more piece than there are separators |
| Text.SplitJoin | src/components/document-editor.tsx:236 | joining the pieces with the separator gives back the text |
| Text.SplitLastAfter | src/components/file-sharing.tsx:119 | the last piece of a split is what follows the last separator |
| Text.SplitLastSuffix | src/components/file-sharing.tsx:119 | the last piece of a split is a suffix of the text, preceded by the separator unless it is the whole text |
| Text.SplitNoSep | src/components/file-sharing.tsx:119 | text without the separator splits into itself |
| Session.NameOr | src/components/task-manager.tsx:159 | `user?.user_metadata?.name \|\| fallback`: the non-empty name when there is one, otherwise the fallback |
| Session.CanSync | src/components/polling-voting.tsx:111 | syncing needs a user and a non-empty token, never happens with a `guest` token, and happens for any other user and token |
| Session.GuestNeverSyncs | src/components/polling-voting.tsx:111 | a `guest` token is never sent to the server, whoever the user is |
| PollingVoting.AddVote | src/components/polling-voting.tsx:100-104 | one more vote raises the chosen option's count (missing counts as 0) and the total by one, and changes nothing else |
| PollingVoting.RecordVote | src/components/polling-voting.tsx:98-107 | only the polls with the given id get the vote; all others are unchanged |
| PollingVoting.AddVoteKeepsTallied | src/components/polling-voting.tsx:102-103 | a vote keeps the total equal to the sum of the per-option counts |
| PollingVoting.RecordVoteKeepsTallied | src/components/polling-voting.tsx:98-107 | the optimistic vote keeps every poll's total equal to the sum of its counts |
| PollingVoting.NewPoll | src/components/polling-voting.tsx:143-152 | the optimistic poll has the temporary id, the question, only non-blank options, no votes, a total of 0 and is active |
| PollingVoting.NewPollKeepsOptions | src/components/polling-voting.tsx:138-152 | past the guard, filtering the options keeps all of them, and the new poll is tallied |
| PollingVoting.AfterCreateTallied | src/components/polling-voting.tsx:155-172 | showing the new poll and then replacing it with a tallied server poll keeps every poll tallied |
| PollingVoting.NonBlank | src/components/polling-voting.tsx:146 | `opt.trim()` is truthy exactly for an option that is not blank |
| PollingVoting.CanCreate | src/components/polling-voting.tsx:138 | the create guard passes exactly for a non-empty question whose options are all non-blank |
| PollingVoting.Percentage | src/components/polling-voting.tsx:182-184 | 0 for a zero total; otherwise `votes / total * 100` rounded to the nearest integer, halves up |
| PollingVoting.PercentageBounds | src/components/polling-voting.tsx:182-184 | a share of the total is between 0 and 100, and all of it is exactly 100 |
| PollingVoting.DemoPollsTallied | src/components/polling-voting.tsx:28-49 | each demo poll's total is the sum of its counts in any order of options (5 + 3 + 7 + 2 = 17 and 2 + 8 + 4 = 14) |
| PollingVoting.PollBoard.constructor | src/components/polling-voting.tsx:52-55 | the panel starts with the given polls and votes, an empty question with two empty options, and the form closed; tallied polls make the panel start consistent |
| PollingVoting.PollBoard.Vote | src/components/polling-voting.tsx:94-122 | no change when this user already voted in the poll; otherwise the local tally gets the vote, the choice is remembered, other entries stay, and the vote is sent only for a non-guest session; the tallies stay consistent |
| PollingVoting.PollBoard.AddOption | src/components/polling-voting.tsx:124-129 | exactly one empty option is appended; nothing else changes |
| PollingVoting.PollBoard.UpdateOption | src/components/polling-voting.tsx:131-135 | only the option at the index changes |
| PollingVoting.PollBoard.CreatePoll | src/components/polling-voting.tsx:137-180 | no change unless the question is non-empty and no option is blank; otherwise the new poll is prepended, the form reset and closed, the form sent for a non-guest session, and the server's poll replaces only the temporary one |
| TaskManager.FindById | src/components/task-manager.tsx:124 | `find` returns the first task with the id, and none exactly when no task has it |
| TaskManager.SetCompleted | src/components/task-manager.tsx:130-132 | the tasks with the id get the flag; all other tasks are unchanged |
| TaskManager.RevertRestores | src/components/task-manager.tsx:143-145 | setting tasks to the flag they already had changes nothing |
| TaskManager.ToggleThenRevert | src/components/task-manager.tsx:127-145 | a toggle followed by the revert gives back the list exactly as before |
| TaskManager.UniqueFlag | src/components/task-manager.tsx:124-145 | with unique ids, the task found is the only one with the id, so the revert condition holds |
| TaskManager.RevertNeedsOneFlag | src/components/task-manager.tsx:143-145 | two tasks sharing an id but not the flag are not restored by the revert |
| TaskManager.ActiveCompletedPartition | src/components/task-manager.tsx:197-198 | the open and completed lists hold every task exactly once, open ones on one side, completed on the other |
| TaskManager.NewTask | src/components/task-manager.tsx:156-165 | the optimistic task has the temporary id, the title, and is open with priority `medium` and source `manual` |
| TaskManager.TaskBoard.constructor | src/components/task-manager.tsx:82-83 | the panel starts with the given tasks and an empty title field |
| TaskManager.TaskBoard.ToggleTask | src/components/task-manager.tsx:123-148 | no change for an unknown id; otherwise the tasks with the id get the opposite of the first one's flag; the new flag is sent for a non-guest session, and a failed request sets the old flag back |
| TaskManager.TaskBoard.AddTask | src/components/task-manager.tsx:150-195 | no change for a blank title; otherwise the task is prepended and the input cleared; for a non-guest session the request is sent and the server's task replaces only the temporary one |
| TimerAgenda.TimeParts | src/components/timer-agenda.tsx:76-78 | hours, minutes and seconds recombine into the seconds, with minutes and seconds below 60 |
| TimerAgenda.FormatTime | src/components/timer-agenda.tsx:75-84 | the display ends in a colon and two padded digits of seconds; before them stand the unpadded minutes below an hour, else the unpadded hours, a colon and two padded digits of minutes |
| TimerAgenda.FormatColons | src/components/timer-agenda.tsx:80-83 | the display has two colons with at least one hour and one below, and always ends in two digits |
| TimerAgenda.FormatParse | src/components/timer-agenda.tsx:75-84 | the display reads back as the number of seconds it shows |
| TimerAgenda.FormatTimeInjective | src/components/timer-agenda.tsx:75-84 | different times show differently |
| TimerAgenda.ToggleItem | src/components/timer-agenda.tsx:95-99 | only the items with the id flip their flag |
| TimerAgenda.ToggleTwice | src/components/timer-agenda.tsx:95-99 | toggling the same item twice gives back the agenda |
| TimerAgenda.CompletedItems | src/components/timer-agenda.tsx:101 | the completed count never exceeds the item count, and is 0 exactly when no item is completed |
| TimerAgenda.CompletedPlusRemaining | src/components/timer-agenda.tsx:101-102 | the completed items and the remaining ones add up to all items |
| TimerAgenda.CurrentItem | src/components/timer-agenda.tsx:105 | the first item not completed, and none exactly when every item is completed |
| TimerAgenda.NoCurrentIffAllDone | src/components/timer-agenda.tsx:219 | there is no current item exactly when the completed count equals the item count |
| TimerAgenda.PlannedMinutes | src/components/timer-agenda.tsx:106 | the `reduce` starts from 0 and adds each duration to the sum of those before it; with no negative duration the plan is not negative |
| TimerAgenda.RemainingMinutes | src/components/timer-agenda.tsx:224 | the minutes left are 0 once every item is completed and the whole plan while none is |
| TimerAgenda.PlannedSplits | src/components/timer-agenda.tsx:224 | planned minutes are the minutes left plus the minutes of completed items |
| TimerAgenda.RemainingAtMostPlanned | src/components/timer-agenda.tsx:224 | with no negative durations, the minutes left never exceed the planned minutes |
| TimerAgenda.IsOver | src/components/timer-agenda.tsx:138-139 | a timer at zero is never "Over" unless a duration is negative |
| TimerAgenda.CurrentMinutes | src/components/timer-agenda.tsx:137 | the "Current" minutes are the whole minutes elapsed, rounded down |
| TimerAgenda.OverMatchesCurrent | src/components/timer-agenda.tsx:136-139 | more current than planned minutes means "Over", and "Over" means at least the planned minutes are shown |
| TimerAgenda.MeetingTimer.constructor | src/components/timer-agenda.tsx:61-63 | the timer opens at 32 minutes 45 seconds, running, with the given agenda |
| TimerAgenda.MeetingTimer.Tick | src/components/timer-agenda.tsx:65-73 | one second is added only while running; nothing else changes, and an "Over" badge stays |
| TimerAgenda.MeetingTimer.ToggleTimer | src/components/timer-agenda.tsx:86-88 | pause or resume, nothing else |
| TimerAgenda.MeetingTimer.ResetTimer | src/components/timer-agenda.tsx:90-93 | the time goes to 0 and the timer stops; the agenda stays |
| TimerAgenda.MeetingTimer.ToggleAgendaItem | src/components/timer-agenda.tsx:95-99 | the agenda becomes the toggled agenda; the timer is untouched |
| FileSharing.FileType | src/components/file-sharing.tsx:119 | `image` when the MIME type mentions images, else the text after the last dot, else `file` when that is empty |
| FileSharing.FileTypeOfName | src/components/file-sharing.tsx:119 | a name with a dot gets the text after its last dot, a name without one gets itself |
| FileSharing.ExtensionAfterLastDot | src/components/file-sharing.tsx:119 | `split('.').pop()` is the dot-free suffix of the name after its last dot, or the whole name when it has no dot |
| FileSharing.FileIcon | src/components/file-sharing.tsx:68-85 | the image icon exactly for `image`, `jpg`, `png` and `gif`, the PDF icon exactly for `pdf`, the sheet icon exactly for `excel` and `xlsx`, the Figma icon exactly for `figma`, and the plain icon for every other type |
| FileSharing.NewEntry | src/components/file-sharing.tsx:116-125 | a dropped file enters as uploading from 0 by "You", with its name, size and derived type |
| FileSharing.DropAll | src/components/file-sharing.tsx:115-127 | a drop adds one entry per dropped file in front, and the old files follow unchanged |
| FileSharing.DropAllEntry | src/components/file-sharing.tsx:115-127 | the entry of each dropped file is at its place from the front in reverse drop order, so the last dropped comes first |
| FileSharing.EntriesSnoc | src/components/file-sharing.tsx:115-126 | one more dropped file adds its entry after the entries of the others |
| FileSharing.PrependSizes | src/components/file-sharing.tsx:127 | putting entries in front adds their sizes to the total |
| FileSharing.DropAddsSizes | src/components/file-sharing.tsx:127 | a drop raises the total size by the dropped files' sizes |
| FileSharing.TickFile | src/components/file-sharing.tsx:131-139 | a tick changes only the file with the id |
| FileSharing.TickAll | src/components/file-sharing.tsx:131-139 | a tick is applied to each file, which leaves the other files unchanged |
| FileSharing.UploadRuns | src/components/file-sharing.tsx:132-136 | iterating the callback from 0 gives ten per call up to exactly 100; an eleventh call would end the upload, and later calls change nothing (the program never makes the eleventh call, see Findings) |
| FileSharing.UploadNeverEnds | src/components/file-sharing.tsx:129-141 | within the at most ten callbacks the 200 ms interval gets before its 2000 ms clear, a dropped file is still uploading at ten per cent per callback |
| FileSharing.UploadEnds | src/components/file-sharing.tsx:132-136 | with eleven or more callbacks an upload from 0 ends, with no progress left |
| FileSharing.StartBudgets | src/components/file-sharing.tsx:129-141 | every dropped file's interval starts with ten callbacks, other uploads keep theirs, and no other upload gains an interval |
| FileSharing.TickKeepsProgressOk | src/components/file-sharing.tsx:132-133 | progress stays a multiple of ten within 0 and 100 |
| FileSharing.DeleteRemovesExactly | src/components/file-sharing.tsx:160-162 | deleting removes exactly the files with the id, keeps the order of the rest, and takes their sizes off the total |
| FileSharing.DeleteSizes | src/components/file-sharing.tsx:169 | the total is the size kept plus the size deleted |
| FileSharing.TotalSize | src/components/file-sharing.tsx:169 | the `reduce` starts from 0 and adds each size to the total of those before it, and non-negative sizes give a non-negative total |
| FileSharing.FileList.constructor | src/components/file-sharing.tsx:96 | the panel starts with the given files and no running upload interval |
| FileSharing.FileList.HandleDrop | src/components/file-sharing.tsx:110-144 | the loop prepends every dropped file in turn and starts its interval with ten callbacks |
| FileSharing.FileList.UploadTick | src/components/file-sharing.tsx:129-141 | while the upload's interval has callbacks left, the list becomes the ticked list and one callback is spent; once they are spent nothing changes |
| FileSharing.FileList.DeleteFile | src/components/file-sharing.tsx:160-162 | the list keeps exactly the files with another id; running upload intervals keep their remaining callbacks |
| DocumentEditor.LoadedContent | src/components/document-editor.tsx:30-38 | an OK load shows `content`, or empty text when it is missing; a non-OK or failed load shows the fixed template |
| DocumentEditor.HasText | src/components/document-editor.tsx:50 | text with content after trimming is exactly text that is not blank |
| DocumentEditor.LineCount | src/components/document-editor.tsx:236 | there is one line more than there are line breaks |
| DocumentEditor.CharCount | src/components/document-editor.tsx:235 | there are at most one more lines than characters |
| DocumentEditor.NoBreakOneLine | src/components/document-editor.tsx:236 | text without a break is one line |
| DocumentEditor.SaveDisabled | src/components/document-editor.tsx:166 | Save is off exactly while typing is pending or the text is blank |
| DocumentEditor.ExportDisabled | src/components/document-editor.tsx:175 | Export is off exactly when the text is blank |
| DocumentEditor.ButtonsAndAutosave | src/components/document-editor.tsx:166-175 | Export is available whenever Save is, and autosave fires exactly when Save is off but Export is on |
| DocumentEditor.Editor.constructor | src/components/document-editor.tsx:16-20 | the editor starts empty, loading, with nothing pending |
| DocumentEditor.Editor.Load | src/components/document-editor.tsx:24-45 | the loaded content is shown and loading ends |
| DocumentEditor.Editor.ContentChange | src/components/document-editor.tsx:74-79 | the content is always replaced; typing becomes pending only for non-blank text and a blank value leaves it as it was |
| DocumentEditor.Editor.Save | src/components/document-editor.tsx:81-99 | the content is posted; an accepted save moves the save time and clears pending typing, a refused one changes neither |
| DocumentEditor.Editor.AutoSave | src/components/document-editor.tsx:48-72 | it posts only while typing is pending and the text is not blank, and then acts as a save |
| TranscriptView.Search | src/components/transcript-view.tsx:50-54 | an entry is shown exactly when the term is empty or occurs, lower-cased, in its lower-cased text or speaker |
| TranscriptView.Shown | src/components/transcript-view.tsx:50-54 | the empty term shows an entry, and so does a term occurring as written in its text or speaker |
| TranscriptView.SearchIsSubsequence | src/components/transcript-view.tsx:50 | the result keeps transcript order and is no longer than the transcript |
| TranscriptView.EmptySearchShowsAll | src/components/transcript-view.tsx:51 | an empty term shows the whole transcript |
| TranscriptView.SpeakerNameFindsSpeaker | src/components/transcript-view.tsx:53 | searching for a speaker's name, in any case, finds that speaker's entries |
| TranscriptView.SearchIgnoresCase | src/components/transcript-view.tsx:52-53 | terms that differ only in letter case give the same result |
| TranscriptView.SearchLowered | src/components/transcript-view.tsx:52-53 | searching for the lower-cased term is the same search |
| MeetingLobby.SessionWiderThanSync | src/components/Code-component-4-111.tsx:91 | the lobby posts for every session the other panels sync with, and also for a guest token, which they hold back |
| MeetingLobby.HasSession | src/components/Code-component-4-111.tsx:91 | `user && accessToken` holds exactly for a user with a non-empty token, guest tokens included |
| MeetingLobby.TrimmedOrNone | src/components/Code-component-4-111.tsx:96 | `trim() \|\| undefined`: none exactly for blank text, else the non-empty trimmed text |
| MeetingLobby.DemoMeetings | src/components/Code-component-4-111.tsx:65-82 | two demo meetings started 30 and 15 minutes before now |
| MeetingLobby.ListedMeetings | src/components/Code-component-4-111.tsx:58-84 | the server's list, an empty list when it has none, or the demo meetings when the call fails |
| MeetingLobby.MinutesBetween | src/components/Code-component-4-111.tsx:149 | the whole minutes elapsed, rounded down |
| MeetingLobby.RelativeTime | src/components/Code-component-4-111.tsx:146-155 | "Just now" under a minute (future start times included), a label ending in "m ago" under an hour, in "h ago" under a day, and the date from a day on |
| MeetingLobby.MinutesLabel | src/components/Code-component-4-111.tsx:152 | from 1 to 59 minutes the label is the minute count, which reads back as the minutes, then "m ago" |
| MeetingLobby.HoursLabel | src/components/Code-component-4-111.tsx:153 | from one hour to under a day the label is the completed hours, 1 to 23, then "h ago" |
| MeetingLobby.DemoMeetingLabel | src/components/Code-component-4-111.tsx:70 | the first demo meeting reads "30m ago" when drawn at once |
| MeetingLobby.CreateFlow | src/components/Code-component-4-111.tsx:86-116 | nothing for a blank name; otherwise the trimmed name and password are posted when there is a session; the server's meeting is entered on an answer, and a demo meeting under the trimmed name without a session or on failure |
| MeetingLobby.CreateEnters | src/components/Code-component-4-111.tsx:100-112 | a non-blank name enters a meeting unless the server answered without one, and a meeting entered locally has a non-empty name |
| MeetingLobby.CreateIdleIffBlank | src/components/Code-component-4-111.tsx:87 | Create does nothing at all exactly when the name is blank |
| MeetingLobby.DemoIdsDiffer | src/components/Code-component-4-111.tsx:105 | demo meetings created at different times get different ids |
| MeetingLobby.JoinFlow | src/components/Code-component-4-111.tsx:118-144 | the given name or else the trimmed form name, the given id or else `join-{now}`; nothing when the name is empty; the request is posted only with a session and a given id, and the meeting is entered whatever the server answers |
| MeetingLobby.NameButtonDisabled | src/components/Code-component-4-111.tsx:220 | the button is off while loading, and otherwise exactly when the trimmed name is empty |
| MeetingLobby.EnabledJoinEnters | src/components/Code-component-4-111.tsx:220 | pressing an enabled Join button enters a meeting with the trimmed form name and posts nothing |
| MeetingLobby.Lobby.constructor | src/components/Code-component-4-111.tsx:38-47 | the lobby starts with no meetings, not loading, and empty forms |
| MeetingLobby.Lobby.LoadMeetings | src/components/Code-component-4-111.tsx:58-84 | the list becomes the listed meetings |
| MeetingLobby.Lobby.CreateMeeting | src/components/Code-component-4-111.tsx:86-116 | the create outcome for the form and session; loading is over afterwards unless the name was blank |
| MeetingLobby.Lobby.JoinMeeting | src/components/Code-component-4-111.tsx:118-144 | the join outcome for the form and session; loading is over afterwards unless no meeting was entered |

## Findings

| source | as written | input that shows it | evidently intended | confidence | as-written member | corrected member |
|---|---|---|---|---|---|---|
| src/components/file-sharing.tsx:129-141 | the interval fires every 200 ms and is cleared at 2000 ms, so an upload gets at most ten callbacks, and only an eleventh one takes the branch that clears `isUploading` | any dropped file: its progress reaches 90 or 100 and it stays `isUploading`, so its actions (file-sharing.tsx:242) never appear | the upload ends once progress has reached 100, which needs at least eleven callbacks | medium, not executed | FileSharing.UploadNeverEnds | FileSharing.UploadEnds |

The panel class `FileList` keeps the ten callbacks of the code as written. `UploadEnds` states what the intended eleventh callback does.

## Left out

- Networking, authentication and the key-value service are not modelled, because they happen outside this code:
  - the signup and health routes;
  - access-token parsing and `supabase.auth.getUser`, replaced by an optional user;
  - the `apiCall` helpers and `fetch`, replaced by the server's answer passed as a parameter;
  - the `kv_store.tsx` storage module, which is not part of this model.
- JSON is not modelled; stored values are typed records. The 500 replies of the `catch` blocks are left out with it, since they come only from failures of storage, parsing or the network.
- The order in which the real store returns a prefix scan is unknown. The model returns entries in list order. The list routes sort anyway, and only ties between equal timestamps depend on that order.
- Timestamps are integers; ISO strings, `new Date` and `toLocale*String` are not modelled. Clock readings, ids from `crypto.randomUUID`, `Date.now` and `Math.random`, and the locale date label are parameters.
- Realtime subscriptions, the lobby's five-second reload and its `if (user)` guard are not modelled, because they are concurrency. Timers are not modelled either: an upload interval callback is a call of `UploadTick`. The 2000 ms `clearInterval` is modelled as a budget of at most ten such calls per upload. That is an upper bound, because the clear may win over the tenth callback.
- Floating point is not modelled. `formatFileSize` and the agenda's progress percentage are left out.
- PollingVoting.Percentage: computes `Math.round` on exact rationals and not on IEEE doubles, because floating point is out of scope.
- The action-item routes and the chat, whiteboard, video, question-answering and summary panels are left out, because they are outside the core. So are view routing, all JSX and the keyword highlighting in the transcript.
- Several UI-only flags and mock data are not modelled:
  - the editor's mock collaborator cursors;
  - the panels' `isLoading` spinners, except the lobby's;
  - the file panel's `dragOver` and selected-file preview;
  - the task panel's `showCompleted`.
- The demo data that seeds each panel is a constructor parameter.
- `isUploading` on mock files is optional; a missing flag is modelled as `false`.
- DocumentEditor.CharCount: counts code points; JavaScript's `length` counts UTF-16 units. `toLowerCase` is modelled on Basic Latin and Latin-1 letters only, and `trim` on the ECMAScript white-space set.
- Records.VoteKeyInjective: holds only for user ids without a colon. Auth user ids are UUIDs, and `VoteKeyCollision` shows the failure without that assumption.
- TaskManager.RevertRestores: restores the list exactly only when all tasks with the id share one flag. `UniqueFlag` shows this holds for unique ids, and `RevertNeedsOneFlag` shows the revert fails otherwise.
- PollingVoting.PollBoard.UpdateOption: requires an index inside the option list. The form only edits existing options, and JavaScript would extend the array for an index past its end.
