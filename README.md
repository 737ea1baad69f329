# ADBCopy core, modelled in Dafny

ADBCopy is a two-pane file explorer that copies files between a PC and an
Android device through `adb`. This project models the parts of it that
compute rather than draw:

- the `ls -la` listing parser;
- the transfer worker's job queue and the signals it emits;
- the device watcher's debounced change detection;
- the `adb devices -l` parser and the shell command lines;
- the main window's task bookkeeping: ids, destinations, retries, the overwrite memo, the unique-name probe and the active device;
- the transfer status table;
- the remote panel's path text;
- the translation manager.

Module layout:

- `Text` holds Python string semantics: strip, split, join, `split()` into words, digits and ASCII lower-casing.
- `Paths` holds the path text that several files share: `base.rstrip('/') + "/" + name`, the parent expression, and the `pathlib` name, stem and suffix.
- Every other module follows one source file.

Where the source changes state in place, the model is a class:

- the worker's `task_queue`;
- the watcher's snapshot;
- the table's rows;
- the window's counter and memo;
- the translator's language.

Each class's methods are specified against functions of the old state. Signals are a ghost event trace. Anything the program learns from outside is a parameter:

- the bridge's copy outcome, including an adb executable that cannot be started;
- a shell command's output or failure;
- the dialogs' answers;
- the clock;
- the local size and the local path join.

## Model

| member | source | states |
|---|---|---|
| Text.Split | adb_copy/workers/file_list_worker.py:105 | `str.split(c)` yields at least one piece, and no piece contains the separator |
| Text.JoinSplit | adb_copy/ui/file_detail_widget.py:307 | joining the pieces of a split with the same separator gives the string back |
| Text.Words | adb_copy/core/adb_manager.py:85 | `str.split()` yields non-empty words free of whitespace |
| Text.WordsCons | adb_copy/core/adb_manager.py:85 | a leading whitespace-free run that ends at whitespace or at the end is the first word, and the words of the rest follow; with WordsOfBlank and WordsLeadingSpace this makes the words the maximal non-space runs, in order |
| Text.WordsOfStrip | adb_copy/core/adb_manager.py:80-85 | stripping a line first does not change its words |
| Text.WordsOfRStrip | adb_copy/core/adb_manager.py:80-85 | trailing whitespace removed by stripping does not change the words |
| Text.WordsOfLStrip | adb_copy/core/adb_manager.py:80-85 | leading whitespace removed by stripping does not change the words |
| Text.StripEmpty | adb_copy/workers/file_list_worker.py:102 | `s.strip()` is empty exactly when `s` is all whitespace |
| Text.StripIsPadded | adb_copy/core/adb_manager.py:323-325 | for a word with no whitespace at either end, `s.strip()` equals it exactly when `s` is that word with whitespace (possibly none) on each side |
| Text.RStripChar | adb_copy/workers/file_list_worker.py:139 | `rstrip('/')` is a prefix, ends in a non-slash (or is empty), and only slashes were removed |
| Text.NatToString | adb_copy/main_window.py:919 | the decimal text of a counter is digits that read back as that number, with no leading zero |
| Paths.ChildPath | adb_copy/workers/file_list_worker.py:139 | the joined path starts with the slash-stripped base and a `/`, and ends with the name |
| Paths.ChildParts | adb_copy/main_window.py:633 | a child path's parent part is the stripped base and its last component is the name |
| Paths.DirectoryAndBase | adb_copy/ui/file_detail_widget.py:671-672 | parent part, `/` and last component put the slash-stripped path back together |
| Paths.StemSuffix | adb_copy/main_window.py:914-915 | stem plus suffix is the name; a suffix is a dot plus at least one dot-free character; hidden files and trailing dots have none |
| FileList.MatchLine | adb_copy/workers/file_list_worker.py:119-125 | a match has a 10-character permission field from `[drwx-]`, taken from the line's head, and a non-empty name that is a tail of the line |
| FileList.LayoutMatches | adb_copy/workers/file_list_worker.py:119-132 | every line made of the ten permission characters and then, each after its own run of whitespace, link count, owner, group, size, an ISO or `Mon DD` date, a time or year and a name, matches; the size is the value of the size digits and the name is the whole rest after the whitespace following the time, inner spaces kept |
| FileList.LayoutOf | adb_copy/workers/file_list_worker.py:119-132 | conversely, every line the pattern accepts is such a layout, and its match captures that layout's permission field, size value and name |
| FileList.SpecialBitsRejected | adb_copy/workers/file_list_worker.py:120 | a permission field holding `s`, `S`, `t` or `T` never matches |
| FileList.SetGidLineSkipped | adb_copy/workers/file_list_worker.py:119-128 | the set-gid line `drwxrws--- ... Alarms` yields no entry |
| FileList.SkippedLines | adb_copy/workers/file_list_worker.py:101-114 | blank output has no lines; blank and `total` lines yield no entry |
| FileList.LineEntry | adb_copy/workers/file_list_worker.py:111-147 | a blank line, a `total` line or a line the pattern rejects gives no entry; an entry is the pattern's match of the stripped line, never named `.` or `..`, with path base, `/`, name, and a directory iff its permissions start with `d` |
| FileList.CollectedEntries | adb_copy/workers/file_list_worker.py:130-147 | every entry is named neither `.` nor `..`; its path is base, `/`, name; it is a directory iff the permissions start with `d`; entries never outnumber lines |
| FileList.OriginLine | adb_copy/workers/file_list_worker.py:111-147 | names, for the k-th collected entry, an input line whose entry it is |
| FileList.CollectedOrigin | adb_copy/workers/file_list_worker.py:111-147 | every entry is the entry of some input line |
| FileList.CollectedInLineOrder | adb_copy/workers/file_list_worker.py:111-147 | a later entry comes from a later line: the parser keeps the line order |
| FileList.SortEntries | adb_copy/workers/file_list_worker.py:150 | the sort rearranges the entries: same multiset |
| FileList.SortEntriesCorrect | adb_copy/workers/file_list_worker.py:150 | the sort is sorted by (not dir, lower name), a permutation, and stable: entries of equal key keep their order |
| FileList.ParseLsOutput | adb_copy/workers/file_list_worker.py:85-152 | the loop computes the sorted entries of the accepted lines; blank output gives an empty list |
| FileList.ParsedListingProperties | adb_copy/workers/file_list_worker.py:99-152 | the parsed list has directories first, names non-decreasing ignoring case per group, is a stable permutation of the accepted entries, and is no longer than the line list |
| Adb.FindModel | adb_copy/core/adb_manager.py:91-95 | the search loop with its break returns the model of the first `model:` token |
| Adb.FirstModelSpec | adb_copy/core/adb_manager.py:90-95 | no model iff no token from the third on starts with `model:`; else the text after the first colon of the earliest such token |
| Adb.ModelAfterColon | adb_copy/core/adb_manager.py:94 | the text after the first `:` of a `model:` token is everything from index 6 |
| Adb.ParseDevices | adb_copy/core/adb_manager.py:77-99 | the loop returns the devices of the lines after the header |
| Adb.DeviceLineFields | adb_copy/core/adb_manager.py:80-97 | a line yields a device iff it has at least two words; serial and state are the first two words |
| Adb.HeaderSkipped | adb_copy/core/adb_manager.py:79 | the first line of the stripped output is never read as a device |
| Adb.HeaderOnly | adb_copy/core/adb_manager.py:79 | output of one line lists no device |
| Adb.DevicesInLineOrder | adb_copy/core/adb_manager.py:79-97 | the devices of two runs of lines are those of the first followed by those of the second: one device per accepted line, in line order |
| Adb.DevicesOfOne | adb_copy/core/adb_manager.py:80-97 | a single line gives its own device if it is accepted, and nothing otherwise |
| Adb.DevicesOrigin | adb_copy/core/adb_manager.py:79-97 | every device is some accepted line's device; no accepted line means no device; never more devices than lines |
| Adb.DeleteCommandDecodes | adb_copy/core/adb_manager.py:258 | the delete command is `rm -rf '<p>'` for a directory and `rm '<p>'` for a file; path and kind read back from it |
| Adb.DeleteCommandInjective | adb_copy/core/adb_manager.py:258 | different deletions give different command lines |
| Adb.MkdirCommandDecodes | adb_copy/core/adb_manager.py:278 | the create command is `mkdir -p '<p>'` and the path reads back |
| Adb.RenameCommandDecodes | adb_copy/core/adb_manager.py:300 | for an old path without a quote, `mv '<old>' '<new>'` reads back both paths |
| Adb.RenameCommandInjective | adb_copy/core/adb_manager.py:300 | for quote-free old paths, different renames give different command lines |
| Adb.RenameCommandAmbiguous | adb_copy/core/adb_manager.py:300 | unescaped quotes let two different renames produce the same command line |
| Adb.FileExists | adb_copy/core/adb_manager.py:305-330 | a check whose command fails counts as absent (`Some(false)`); the answer is `None` (the exception escapes) exactly when the adb executable is missing |
| Adb.FileExistsDecision | adb_copy/core/adb_manager.py:319-330 | when the command runs, the file is present exactly when its output is `YES` with whitespace on either side, and absent exactly when the stripped output is anything else |
| Adb.FileExistsAnswers | adb_copy/core/adb_manager.py:319-325 | the outputs `YES\n` and `YES\r\n` mean present; `NO\n` and any output without a `Y` mean absent |
| Adb.RunReporting | adb_copy/core/adb_manager.py:257-261 | a helper succeeds iff its command runs; a subprocess failure reads as the prefix followed by its message, a missing executable as its bare message |
| Adb.DeleteFile | adb_copy/core/adb_manager.py:241-261 | the deletion succeeds iff its `rm` command runs; a subprocess failure reads "Deletion failed: " plus its message, a missing executable its bare message |
| Adb.CreateDirectory | adb_copy/core/adb_manager.py:263-281 | the creation succeeds iff its `mkdir -p` command runs; a subprocess failure reads "Directory creation failed: " plus its message, a missing executable its bare message |
| Adb.RenameFile | adb_copy/core/adb_manager.py:283-303 | the rename succeeds iff its `mv` command runs; a subprocess failure reads "Rename failed: " plus its message, a missing executable its bare message |
| Adb.FailuresArePrefixed | adb_copy/core/adb_manager.py:257-303 | delete, create and rename fail iff their command does not run; subprocess failures carry "Deletion failed: ", "Directory creation failed: " and "Rename failed: ", a missing executable, which `shell_command` does not catch (adb_manager.py:164-169), passes through unprefixed |
| Transfers.TaskEventsShape | adb_copy/workers/transfer_worker.py:93-108 | a dequeued task emits started first and ends with exactly one completed or failed, all with its id; completed iff there is no error |
| Transfers.UnknownDirectionFails | adb_copy/workers/transfer_worker.py:141-146 | an unknown direction emits started, then failed with "Unknown transfer direction: ", and no progress |
| Transfers.CopyReporting | adb_copy/workers/transfer_worker.py:161-227 | a push or pull emits 0% first, emits 100% iff the bridge succeeds; a subprocess failure fails it with "Push failed: " or "Pull failed: " plus the bridge message, a missing executable with the bare message (caught only by the loop at :106-108) |
| Transfers.TaskIds | adb_copy/workers/transfer_worker.py:96-108 | one task contributes exactly one started id and one terminal id, both its own |
| Transfers.RunOrder | adb_copy/workers/transfer_worker.py:84-108 | over a run, started ids and terminal ids both list the dequeued tasks' ids in queue order; all-completed never appears mid-run |
| Transfers.TransferWorker.constructor | adb_copy/workers/transfer_worker.py:62-66 | empty queue, not running, not paused, no events |
| Transfers.TransferWorker.AddTask | adb_copy/workers/transfer_worker.py:68-74 | appends at the tail, nothing else changes |
| Transfers.TransferWorker.Pause | adb_copy/workers/transfer_worker.py:119-121 | sets paused only |
| Transfers.TransferWorker.Resume | adb_copy/workers/transfer_worker.py:123-125 | clears paused only |
| Transfers.TransferWorker.Stop | adb_copy/workers/transfer_worker.py:127-130 | clears running and paused, queue and events untouched |
| Transfers.TransferWorker.CopyFile | adb_copy/workers/transfer_worker.py:148-227 | emits 0%, then 100% only after a successful bridge call; a subprocess error is the prefix plus the bridge message, a missing executable the bare message |
| Transfers.TransferWorker.ProcessTask | adb_copy/workers/transfer_worker.py:132-146 | dispatches push and pull; the error is the task's specified error |
| Transfers.TransferWorker.ProcessNext | adb_copy/workers/transfer_worker.py:92-108 | pops the head and appends that task's events; a failure does not stop anything |
| Transfers.TransferWorker.StartTransfer | adb_copy/workers/transfer_worker.py:76-117 | from a worker that is not paused, it removes the first n queued tasks (n is the smaller of the stop point and the queue length), appends their events in queue order followed by all-completed exactly when the queue is left empty, and leaves the worker neither running nor paused |
| Devices.DevicesChanged | adb_copy/workers/device_watcher.py:68-84 | a change iff the lengths differ or some device of either list has a (serial, state) pair that no device of the other list has |
| Devices.OrderIrrelevant | adb_copy/workers/device_watcher.py:77-84 | reordering the current list does not change the verdict |
| Devices.ModelIrrelevant | adb_copy/workers/device_watcher.py:80-84 | lists agreeing on serial and state compare alike, whatever the model field |
| Devices.SameListUnchanged | adb_copy/workers/device_watcher.py:80-84 | a list compared with itself is not a change |
| Devices.DuplicatesMasked | adb_copy/workers/device_watcher.py:77-84 | with equal lengths only the pair sets count: `[a,a,b]` after `[a,b,b]` is not reported |
| Devices.WatchInvariant | adb_copy/workers/device_watcher.py:49-59 | over any run of polls the snapshot is the last reported list, and each reported list differs from the one before it |
| Devices.DebouncedSnoc | adb_copy/workers/device_watcher.py:52-55 | reporting a list that differs from the last reported one keeps the run debounced and makes it the snapshot |
| Devices.FirstPoll | adb_copy/workers/device_watcher.py:39 | from the empty start, a first empty poll emits nothing and a first non-empty poll reports its list |
| Devices.RepeatedPollSilent | adb_copy/workers/device_watcher.py:54-56 | polling the list just reported again emits nothing |
| Devices.DeviceWatcher.constructor | adb_copy/workers/device_watcher.py:38-39 | not running, empty snapshot, no events |
| Devices.DeviceWatcher.PollOnce | adb_copy/workers/device_watcher.py:50-59 | on change, stores and reports the list; otherwise nothing; an error is reported and the snapshot kept |
| Devices.DeviceWatcher.StopWatching | adb_copy/workers/device_watcher.py:64-66 | clears running only |
| Devices.DeviceWatcher.StartWatching | adb_copy/workers/device_watcher.py:41-62 | the loop's snapshot and events are those of the run of polls; it ends not running |
| TransferQueue.FirstRow | adb_copy/ui/transfer_queue_widget.py:292-305 | -1 iff no row has the id; otherwise the first row that has it |
| TransferQueue.OtherThanSpec | adb_copy/ui/transfer_queue_widget.py:350-361 | the kept rows are exactly the rows of other statuses, and they number the rows minus that status's count |
| TransferQueue.OtherThanMembers | adb_copy/ui/transfer_queue_widget.py:350-361 | a row is kept iff it is in the table with another status |
| TransferQueue.OtherThanCount | adb_copy/ui/transfer_queue_widget.py:350-361 | the kept rows number the rows minus that status's count; with none of that status, all rows are kept |
| TransferQueue.WithoutStatus | adb_copy/ui/transfer_queue_widget.py:354-361 | removing the positions of the rows with a status leaves the other rows in order |
| TransferQueue.RemoveBelow | adb_copy/ui/transfer_queue_widget.py:359-361 | removing a row below all already-removed positions equals removing it from the original as well |
| TransferQueue.CountsSum | adb_copy/ui/transfer_queue_widget.py:410-434 | the four status counts add up to the row count |
| TransferQueue.TransferQueueTable.constructor | adb_copy/ui/transfer_queue_widget.py:37-41 | no rows, no start times, not paused |
| TransferQueue.TransferQueueTable.AddTransfer | adb_copy/ui/transfer_queue_widget.py:174-213 | appends one waiting row with the id, size, name and paths, and returns the old row count |
| TransferQueue.TransferQueueTable.FindRowByTaskId | adb_copy/ui/transfer_queue_widget.py:301-305 | returns the first row with the id, or -1 |
| TransferQueue.TransferQueueTable.UpdateProgressByTaskId | adb_copy/ui/transfer_queue_widget.py:233-257 | unknown id: no change; 0: transferring plus start time; 100: completed from any status, elapsed time if a start was recorded, start dropped; else transferring |
| TransferQueue.TransferQueueTable.MarkFailedByTaskId | adb_copy/ui/transfer_queue_widget.py:273-287 | unknown id: no change; else status Failed, time cell "Failed", start dropped |
| TransferQueue.TransferQueueTable.RemoveRows | adb_copy/ui/transfer_queue_widget.py:359-361 | removing ascending positions last-first removes exactly those rows |
| TransferQueue.TransferQueueTable.ClearCompleted | adb_copy/ui/transfer_queue_widget.py:350-361 | removes exactly the completed rows, keeping the order of the rest |
| TransferQueue.TransferQueueTable.StatusStats | adb_copy/ui/transfer_queue_widget.py:397-514 | the counts are the per-status counts, they sum to the row count, and retry is enabled iff some row failed |
| TransferQueue.TransferQueueTable.OnPauseClicked | adb_copy/ui/transfer_queue_widget.py:366-368 | each click flips the pause state |
| Controller.SettledFrom | adb_copy/main_window.py:916-929 | the settled candidate number lies between the start and 100 |
| Controller.SettledSpec | adb_copy/main_window.py:918-929 | all candidates before the settled one exist; below 100 it is free; a free candidate in range exists iff the settled one is free |
| Controller.CandidatesDistinct | adb_copy/main_window.py:919-920 | different counters give different candidate paths |
| Controller.GetUniqueName | adb_copy/main_window.py:898-929 | returns candidate number SettledFrom(1) (the first candidate not answered present), of the form `<dest>/<stem>_<k><suffix>`, after exactly that many existence checks (at most 100); `None` when that candidate's check hit a missing adb executable |
| Controller.NewTask | adb_copy/main_window.py:626-657 | the task carries the given id, direction and device, the source path, and the source's last component as its name; a push's destination is `ChildPath(destPath, name)`, i.e. the remote directory with its trailing slashes stripped, then `/`, then the name (so its directory part and base name read back), a pull's is the local join; the size is the file's size, or 0 when unknown |
| Controller.NumberedSpec | adb_copy/main_window.py:625-627 | numbering a list in order gives its k-th element the id `firstId + k` |
| Controller.NewTasksSpec | adb_copy/main_window.py:625-656 | one task per file, the k-th built from the k-th file under the id `firstId + k` |
| Controller.RetryDirection | adb_copy/main_window.py:787-792 | pull iff the source starts with `/`, push otherwise |
| Controller.RetryTasksSpec | adb_copy/main_window.py:829-851 | one task per failed row, the k-th from the k-th row under the id `firstId + k` |
| Controller.QueueRowsSpec | adb_copy/main_window.py:638-645 | one waiting row per queued task, showing that task's id, name and paths |
| Controller.FailedRowsSpec | adb_copy/main_window.py:769-815 | the collected rows are exactly the failed rows, as many as the failed count |
| Controller.RetryRecoversTask | adb_copy/main_window.py:787-792 | a failed row is retried with its task's name and paths, and with its direction when remote sources are slash-rooted and local ones are not |
| Controller.LocalRootedPushRetriedAsPull | adb_copy/main_window.py:787-792 | a push whose local source starts with `/` is retried as a pull |
| Controller.FirstTicked | adb_copy/main_window.py:893-894 | the first answer with "apply to all" ticked, or the answer count |
| Controller.DecisionsSpec | adb_copy/main_window.py:884-896 | from a cleared memo, checks return the dialog's answer up to the first ticked one, and that answer afterwards; the memo then holds it |
| Controller.StoredActionSticks | adb_copy/main_window.py:885-886 | once an action is stored every check returns it and the memo keeps it |
| Controller.FirstActive | adb_copy/main_window.py:273 | None iff no device is in state `device`; otherwise the first such device |
| Controller.ActiveDeviceIsFirstActive | adb_copy/main_window.py:250-278 | the three branches of the handler pick the first device in state `device` (None for an empty list) |
| Controller.MainWindow.constructor | adb_copy/main_window.py:56-57 | the counter starts at 1, no memo, no device, empty table and queue |
| Controller.MainWindow.OnDevicesChanged | adb_copy/main_window.py:244-278 | the remote panel's device becomes the first active device |
| Controller.MainWindow.CheckOverwrite | adb_copy/main_window.py:884-896 | returns the stored action if any; else the dialog's answer, stored iff "apply to all" is ticked |
| Controller.MainWindow.Enqueue | adb_copy/main_window.py:626-657 | takes the counter as a never-issued id, increments it, appends the waiting row and the task |
| Controller.MainWindow.AddFile | adb_copy/main_window.py:625-657 | queues the task built for one file under the current counter |
| Controller.MainWindow.AddTransferTasks | adb_copy/main_window.py:591-657 | clears the memo; the worker queue and the table gain exactly `NewTasks` (one task per file, in order, consecutive fresh ids) and their rows after what they held |
| Controller.MainWindow.CollectFailed | adb_copy/main_window.py:769-815 | the failed rows' positions, ascending, and the failed rows in order |
| Controller.MainWindow.RetryFailed | adb_copy/main_window.py:756-853 | no device: nothing changes; else the table becomes the non-failed rows in order followed by the rows of `RetryTasks` of the failed rows, and the worker queue gains those tasks |
| Controller.MainWindow.Requeue | adb_copy/main_window.py:829-852 | the worker queue and the table gain exactly `RetryTasks` of the rows (consecutive fresh ids, direction and size read from the source) and their rows |
| Controller.MainWindow.OnPauseTransfer | adb_copy/main_window.py:747-754 | the worker's pause flag follows the table's |
| FileDetail.RemoteParent | adb_copy/ui/file_detail_widget.py:307 | the parent text is never empty |
| FileDetail.ParentOfChild | adb_copy/ui/file_detail_widget.py:294 | the parent of a child path is its directory, or `/` for a top-level entry; a trailing slash changes nothing |
| FileDetail.ParentChars | adb_copy/ui/file_detail_widget.py:307 | a character other than `/` missing from a path is missing from its parent |
| FileDetail.ListedPathOfListing | adb_copy/ui/file_detail_widget.py:293-294 | the path recovered from a listing's first entry is the listed directory without trailing slashes, or `/` |
| FileDetail.TypeText | adb_copy/ui/file_detail_widget.py:338-340 | "Folder" iff a directory; a file shows "-" or a dot-led suffix; no entry's type reads "Parent" |
| FileDetail.ParentRowDraggedAsWritten | adb_copy/ui/file_detail_widget.py:425-427 | with the filter as written, the parent row of a dot-free directory is not excluded and its path is dragged |
| FileDetail.DotDotNameSkippedAsWritten | adb_copy/ui/file_detail_widget.py:425-427 | with the filter as written, an ordinary entry whose path contains `..` is dropped from the drag |
| FileDetail.DragCarriesEntries | adb_copy/ui/file_detail_widget.py:415-427 | with the corrected filter, a drag of the whole table carries exactly the entries' paths, in order |
| FileDetail.RenameInPlace | adb_copy/ui/file_detail_widget.py:667-672 | renaming an entry to a new non-empty name keeps it in its directory under the new name; the same name does nothing |
| FileDetail.Rename | adb_copy/ui/file_detail_widget.py:666-679 | a rename runs `mv` iff the dialog gives a changed non-empty name, with the computed target |
| FileDetail.NewFolder | adb_copy/ui/file_detail_widget.py:685-707 | a folder is created iff there is a device, a current path, a confirmed dialog and a name |
| FileDetail.NewFolderInside | adb_copy/ui/file_detail_widget.py:701 | the new folder lies directly in the current directory under the given name |
| FileDetail.SizeFields | adb_copy/ui/file_detail_widget.py:479-485 | blank text gives no fields (size 0); any fields given are non-empty and whitespace-free |
| FileDetail.SizeFieldsSpec | adb_copy/ui/file_detail_widget.py:479-485 | a value and a unit with any whitespace around and between them give back exactly those two fields; a third field gives none |
| I18n.LanguageAfterSpec | adb_copy/i18n.py:204-219 | after any run of `set_language` calls the language is the last known code among them, or the start |
| I18n.Translation.constructor | adb_copy/i18n.py:15-21 | the language is "en" and the table has exactly "en" (empty) and "ko" |
| I18n.Translation.SetLanguage | adb_copy/i18n.py:204-211 | switches to a known code and ignores any other; the table is unchanged |
| I18n.Translation.GetLanguage | adb_copy/i18n.py:213-219 | the language reported is always a code of the table |
| I18n.Translation.Translate | adb_copy/i18n.py:221-234 | identity in English; otherwise the catalogue's entry if present, else the text |
| I18n.Translation.Call | adb_copy/i18n.py:236-245 | the same as translate |
| I18n.EnglishShortcutAgrees | adb_copy/i18n.py:230-234 | because English has an empty catalogue, the English shortcut equals the general lookup with fallback |
| I18n.Tr | adb_copy/i18n.py:252-261 | module-level `tr` is translate on the shared manager |
| I18n.SetGlobalLanguage | adb_copy/i18n.py:264-270 | module-level `set_language` acts on the shared manager |
| I18n.GetGlobalLanguage | adb_copy/i18n.py:273-279 | module-level `get_language` reads the shared manager |

## Findings

| source | as written | input that shows it | evidently intended | confidence | as-written member | corrected member |
|---|---|---|---|---|---|---|
| adb_copy/ui/file_detail_widget.py:425-427 | a drag skips a row when its stored path contains `..`, but the parent row stores the parent directory's path, not `..` | current path `/sdcard`: the parent row stores `/`, which is dragged along; a file `a..b` is silently left out | skip the parent row and only it (the row typed "Parent") | high; not executed | FileDetail.ParentRowDraggedAsWritten | FileDetail.DragCarriesEntries |

The as-written filter is `FileDetail.DragSkipsAsWritten`. The corrected filter is `FileDetail.DragSkips`.

## Code and tests disagree

The permission field of the listing pattern is `[drwx-]{10}` (adb_copy/workers/file_list_worker.py:120). The tests in run_tests.py:80-109 expect lines such as `drwxrws---` and `drwxrwxrwt` to be parsed. The model follows the code. `FileList.SpecialBitsRejected` and `FileList.SetGidLineSkipped` show that such lines are skipped.

## Left out

**Threads, the event loop and time**
- Qt threads, signals, `processEvents`, batching in groups of 50 and starting the transfer thread: these are concurrency and event-loop plumbing. Signals are a ghost trace. Starting the worker is `StartTransfer`, which is not called from the window model.
- Transfers.TransferWorker.StartTransfer: requires the worker not to be paused. The source busy-waits in 0.1 s sleeps while paused; a `Stop` from another thread is the `stopAfter` parameter.
- The device watcher's 2-second sleep between polls: time is not modelled. Each poll result is an input, and `StopWatching` lands once the given polls are used up.

**Arithmetic and text the model leaves out**
- Floating point: KB/s speeds, `_format_size`, the float part of `_parse_size`, and the ETA, MB/s and percentage of `_update_status_stats`.
- The elapsed time cell is `now - start` in integer ticks.
- Lower-casing and whitespace are ASCII only. Unicode-aware `\w`, `\d` and `str.lower()` are not modelled.
- The time-or-year and month tokens are checked as ASCII classes.

**The host side**
- The local file system: listings, `stat`, existence. The local path join for pull destinations is the `localJoin` parameter. The local size lookup on retry is `localSize`, and its exception handling is folded into that function.
- Windows paths. `BaseName` reads paths with `/` as the only separator, as `PurePosixPath` does. `.` path components are not normalised.

**Qt widgets and the table's text**
- Qt's table sorting: rows are a plain ordered list.
- The status text: the widget compares translated status text, and the model compares the status value.
- Rows whose cells are missing are not modelled.
- The dialogs: the rename and new-folder dialogs are the `ok` flag and the typed name; the overwrite dialog is a `DialogAnswer`.
- `_get_unique_name` and `_check_overwrite` have no caller in the main window. They are modelled as stand-alone operations.
- FileDetail.Rename: the current-device guard and the selection of the row to rename are left to the caller.
- The drag's MIME payload, its size and panel fields, and the rows the user selected: a drag is modelled over a sequence of rows, which may be any selection.

**The bridge and the rest of the program**
- Running `adb` (`subprocess.run`, timeouts, `check_adb_available`): replaced by an oracle from a command line to its output, a subprocess failure or a missing executable. Other exceptions of `subprocess.run` are not modelled.
- Shell quoting: paths are put between quotes unescaped. `Adb.RenameCommandAmbiguous` shows one consequence; injection safety is not claimed.
- The Korean catalogue's entries: the catalogue is the constructor's parameter.
- adb_copy/config.py, the folder tree, the console, the file panel, menus and layout are not part of this model.
- The retry direction reads a slash-rooted source as remote. On a host whose local paths also start with `/`, a failed push is retried as a pull (`Controller.LocalRootedPushRetriedAsPull`). This is kept as written.
