# The agent's records, and what they promise

The device agent keeps its own memory of what was done on a machine: a session
audit trail, an evidence feed, a run log, a run journal and a boot history. It
is killed by design (updates, watchdogs, power cuts), so each of these files is
written under rules that must hold wherever the process stops. This project
models those rules and three more algorithms of the same agent: the
reachability monitor, the one-time layout migration and the scanner that finds
code no Windows build compiles. The main results are about all inputs and all
runs; a rule that some run breaks is stated with the exact condition.

## How the model is built

* A file is a sequence of bytes split on 0x0A (`Jsonl`). JSON stays abstract: a
  `Codec` has an encoder and a parser, and `Sound` states the only facts used.
  An encoded object is one line, it parses back, and none of its proper prefixes
  parses (section 4 of RFC 8259: an object ends at its closing brace).
  `SplitLines` adds one: an object behind another on a line makes it unparseable
  (`Ends`), and `BootHistory` that blank lines are no records (`Proper`).
  `SoundCodecExists`, `EndingCodecExists` and `ProperCodecExists` show that the
  assumptions can be met, `Conservation.InitIsFresh` that a run has a start.
* A power cut keeps the files that were synced and one version of the directory,
  now or earlier; nothing else is assumed of it but, where that is said, that
  metadata comes back in order (`PowerCut`).
* Interleavings, crashes and failing calls are state machines with one byte or
  one call a step (`FeedLock`, `Atomic`, `SplitLines`), or one operation a step with the
  operating system's answer as a parameter (`Trail`, `RunState`, `BootHistory`).
* Code that loops over variables or updates fields is a method or a class here
  too, proved equal to the function or the step that specifies it
  (`SessionLogger.AuditProcess` against `Trail.Do`, `Trim.TrimTail` against its
  closed form, `Regions.CfgDeadRanges` against the walk, and so on). The main
  results are lemmas about those functions and steps.
* In `FileTree` and `Migration` a call that may fail chooses its answer with
  `if *`, so a method's contract covers every combination of answers.

## What turned out otherwise than one might read it

Each of these is a lemma with the exact condition, or a concrete input, or both.

* The journal's `reason` is trimmed but may hold newlines, and the lines it adds
  are read like any other. `RunState.RoundTrip` says when the file reads back as
  written, `RunState.MarkedReadable` when it can be read at all,
  `RunState.MarkVerdict` which verdict it gives, and
  `RunState.MarkFixesTheVerdict` when that is the one a stop asks for, each both
  ways; `RunState.NewlineInReason` is a deliberate stop reported as a crash.
* A beat after a deliberate stop takes the mark back (`RunState.BeatUndoesTheMark`).
* The replacement syncs the temp but not the directory, so a power cut may bring
  back any contents the name has read since the machine came up, not only the
  last old ones: `PowerCut.WhatACutBringsBack` says that it leaves nothing else
  exactly when nobody appended to the file since then. `PowerCut.OlderThanTheOld`
  is two replacements in which nothing failed and a cut that undoes both;
  `PowerCut.ReplacingWhatWasAppended` is an appended file, as the trims of
  `agent/src/evidence.rs:341`, `agent/src/runs.rs:399` and
  `agent/src/session_log.rs:173` replace it, under whose name a cut can leave
  bytes that it never held.
* The temp is hardened after the last sync. What comes back after a cut is
  restricted where the file system keeps metadata in order, and can be
  unrestricted where it does not: `PowerCut.ProtectedAfterACut`, both ways.
* A line too long for its writer's buffer goes out before its newline. When
  another instance's line lands in between, neither can be read again, though no
  buffer lost anything: `SplitLines.EveryLandedObjectReads` says when, both ways,
  and `SplitLines.LongLineTakesAnother` is an input.
* A logger whose writer was opened before another instance's close replaced the
  file, or a prune removed it, goes on without an error and every event it logs
  is lost: `Trail.LogReachesDisk`, both ways.
* `trim_file` reads lines strictly and takes the first one that is not UTF-8, a
  line cut inside a character, for the end of the file (`Trim.DamageEndsTheFile`).
  It also knows a command's start by a quoted word anywhere in the line, so the
  fragment of one, or any event with a text that is exactly that word, makes it
  forget the real one. `Trim.TrimmedOpens` says for every file when a command is
  unfinished after a trim, `Trim.TrimmedReads` the same for recovery, which reads
  by `seq`. On lines that are UTF-8, `Trim.TrimKeepsInterrupted` says when a trim
  hides an unfinished command and `Trim.TrimReopens` when it brings back a
  finished one. The inputs are `Trim.DamageHidesTheCommand`,
  `Trim.TornStartHidesTheRealOne`, `Trim.GoalHidesTheRealOne`,
  `Trim.OutOfOrderStartIsHidden` and `Trim.FinishedCanReopen`.
* The timeline, too, reads a session file strictly, and one that is not UTF-8
  shows nothing (`Timeline.DamageHidesTheSession`, both ways). Both strict readers
  differ from the rule stated at `agent/src/jsonl.rs:59-73`.
* Recovery reads events without a `seq` last, so one of them can keep a session
  unsettled for good: `Recovery.PassSettles` says exactly when.
* A run id that the 200-byte cap or the trimming changes is closed again at
  every boot (`Runs.SecondPassClosesNothing`, both ways); ids minted here are not
  such (`Runs.MintedIdsAreFixed`). An age trim can reopen a closed run:
  `Runs.TrimKeepsClosed` says when for any log, `Runs.TrimKeepsMinted` for runs
  begun here, both ways; an id begun twice with two stamps
  (`Runs.SecondBeginReopens`) is not one that `begin` writes.
* The comment on `prune_history` calls the untouched file the common case. A
  file with its header is never that case, because the header is no record, so
  every boot rewrites it; the meaning is the same. A header-less file may keep
  201 records (`BootHistory.PruneKeepsNewest`, both ways).
* The browser feed enters the sort newest first, so two actions in one
  millisecond come out reversed and the 500-line cap can show:
  `Timeline.CapShowsNothing` says when it does, both ways, and
  `Timeline.EqualStampsShowTheCap` is an input.
* A file copy that fails after it created the destination leaves part of the
  file there, and the pair no longer waits (`Migration.FailedCopyWaits`, both
  ways). Later boots take the part for the file and leave it for good
  (`Migration.HalfCopyIsTaken`, `Migration.HalfAConfig`), so that one with no
  failing call writes the marker (`Migration.MigrateLayout`). The whole file
  stays where the plan may find it.
* A directory that stands at both places does not wait, and its children move by
  rename alone, which two volumes refuse. With no call failing and no rename
  refused a boot leaves no child behind (`Migration.MigrateLayout`); after a
  refused one the marker is written all the same (`Migration.ChildLeftBehind`).
* The migration plan takes from where it puts for some pairs of roots, such as a
  data root inside `pwout` (`Layout.DataInsidePwout`); `Layout.PlanIsSane` says for
  which, both ways.

## Model

| member | source | states |
|---|---|---|
| Jsonl.Codec.PartialAppend | agent/src/jsonl.rs:85-99 | Over any file bytes, an append stopped after any byte leaves every earlier record readable and adds its own exactly when the last byte of the object landed. |
| Jsonl.Codec.RunReadsBack | agent/src/jsonl.rs:45-98 | Over any run of appends and mid-write crashes, from any bytes, a reader gets the earlier records and then each completed record once, in order, never fused. |
| Jsonl.LinesTerminated | agent/src/jsonl.rs:94-97 | Ending a torn last line changes no line of the file. |
| Jsonl.LogFile.HasTornTail | agent/src/jsonl.rs:45-54 | True exactly for a non-empty file whose last byte is not a newline. |
| Jsonl.LogFile.PrepareAppend | agent/src/jsonl.rs:85-99 | Header into an empty file, a newline after a torn tail, nothing else; the lines of a non-empty file are kept and the next byte starts a line. |
| Jsonl.LogFile.Append | agent/src/runs.rs:228-256 | The handle's bytes grow by preamble, object and newline; reading back gives the old records and then the new one. |
| Feed.Family.TrimReadsBack | agent/src/evidence.rs:313-345 | An age trim of any bytes drops exactly the parseable records the cutoff excludes, keeps the rest and every unparseable line in order, and counts what it dropped. |
| Feed.Family.TrimGoesByLine | agent/src/runs.rs:371-398 | Line by line: a line goes exactly when it parses to a record stamped before the cutoff; every other stays where it stands between the others. |
| Feed.LinesOfJoin | agent/src/evidence.rs:318-336 | Kept lines written back one per line read back as the same lines. |
| Feed.RecordFile.Trim | agent/src/runs.rs:371-405 | The loop computes that trim; with nothing old or a failed rewrite the file is untouched and the count is 0. |
| Feed.RecordFile.Append | agent/src/evidence.rs:105-141 | One append to a missing, clean or torn feed: the records before, then the new one, and no header record. |
| FeedLock.Protocol.StepKeepsInv | agent/src/evidence.rs:105-141 | Each system call or byte of any thread keeps the lock invariant: the handle written is the path's current inode, and its bytes are what was found plus what was written. |
| FeedLock.Protocol.EveryReaderSeesTheHistory | agent/src/runs.rs:219-264 | At every moment of every interleaving of appends, trims, failures and crashes, a lock-free reader sees the old records the windows kept, then each completed append no later window excludes, in lock order. |
| FeedLock.Protocol.AddedExactlyOnce | agent/src/evidence.rs:194-204 | Over any run the landed appends enter the history exactly once each, in the order they held the lock. |
| FeedLock.Protocol.NoKeptRecordIsLost | agent/src/evidence.rs:268-345 | When no window of the run excludes them, no added record is lost. |
| FeedLock.Protocol.OrphanedWriteIsLost | agent/src/jsonl.rs:106-117 | Without the lock's guarantee: a byte written to an inode the path no longer names reaches no reader. |
| FeedLock.Protocol.StepReads | agent/src/runs.rs:219-264 | What a reader gets changes in two ways only: the byte that completes an object adds its record, and the rename of a trim drops exactly what its window excludes. |
| FeedLock.Protocol.AgedExactlyOnce | agent/src/evidence.rs:268-345 | Over any run the ages of the history are the windows of the trims that completed, once each, in lock order: at the rename, or at a read that found no record past the window acquired. |
| FeedLock.Protocol.HolderAcquiredLast | agent/src/evidence.rs:194-204 | Whoever holds the lock took it last, for the record or the window it is now working on. |
| FeedLock.Protocol.OneHolder | agent/src/evidence.rs:194-204 | The lock is taken only when free, and while it is held only its holder's calls and a crash are possible. |
| FeedLock.Protocol.OneTrim | agent/src/runs.rs:371-405 | A trim that nothing stops can run, leaves readers what its window keeps, and frees the lock. |
| FeedLock.Protocol.OneAppend | agent/src/runs.rs:219-257 | An append that nothing stops can run byte by byte, leaves readers its record last, and frees the lock. |
| Atomic.NeverInBetween | agent/src/atomic.rs:106-122 | Stopped anywhere with any calls failed, the target reads as the whole old contents, or the whole new ones once landed; landed contents are synced and, fail-closed, hardened; no temp is left once landed, nor after a clean-up that succeeded. |
| Atomic.LandsExactly | agent/src/atomic.rs:154-205 | The new contents land exactly when every answer they wait for was a success; the file is then restricted exactly when there is a posture and the hardening succeeded, or when the temp it truncated was restricted already. |
| Atomic.RefusedChangesNothing | agent/src/atomic.rs:154-205 | A call that the system refuses changes nothing on disk. |
| PowerCut.EveryRun | agent/src/atomic.rs:106-175 | Over any run of replacements stopped anywhere, appends and power cuts: what the name reads, what its older directory versions read, and when all of them name synced files, or files restricted in time, each both ways. |
| PowerCut.WhatACutBringsBack | agent/src/atomic.rs:137-152 | After any run, every power cut leaves whole contents the name has read since the machine came up exactly when nothing was appended since; and each of those contents can come back, however old. |
| PowerCut.ProtectedAfterACut | agent/src/atomic.rs:143-148 | Every power cut leaves the file restricted, where metadata comes back in order, exactly when each replacement whose answers let it land had one for its hardening or a restricted temp, each append found the file and the last cut kept its permissions; where it does not, exactly when no version has the name. |
| PowerCut.FailClosedIsProtected | agent/src/atomic.rs:182-205 | A restricted or missing file that is only ever replaced fail-closed stays restricted over any run, stops and in-order power cuts included. |
| PowerCut.OlderThanTheOld | agent/src/atomic.rs:173-175 | Two replacements in which nothing failed, and a power cut that brings back the contents from before both. |
| PowerCut.ReplacingWhatWasAppended | agent/src/runs.rs:371-405 | Any append and then a replacement in which nothing failed: a power cut can leave bytes the name never held. |
| Atomic.NextKeepsInv | agent/src/atomic.rs:154-205 | Every call of the sequence, whether it succeeds or fails, keeps the target's old file whole, the temp's bytes a prefix of the body, and the target's entry in every directory left behind. |
| Atomic.NothingFails | agent/src/atomic.rs:154-175 | When every call succeeds the sequence ends with the new contents in place. |
| Atomic.TempIsSibling | agent/src/atomic.rs:235-239 | The temp's name is never the target's own. |
| Atomic.Disk.HardenTemp | agent/src/atomic.rs:182-205 | No work without a posture, a failure swallowed on best effort, reported fail-closed; the temp is restricted afterwards exactly when it was, or there is a posture and the hardening succeeded. |
| Atomic.Disk.PrepareTemp | agent/src/atomic.rs:163-172 | Create, write byte by byte, flush, sync and harden are a run of the sequence, stopping at the first failure that counts. |
| Atomic.Disk.WriteTempAndRename | agent/src/atomic.rs:154-175 | The same with the rename: a run that lands exactly when every call the new contents wait for succeeds. |
| Atomic.Disk.Replace | agent/src/atomic.rs:106-122 | The whole method is a run of the sequence; an error leaves the target as it was, and no temp when removing it succeeds; on success the file is restricted exactly when its temp was, or there is a posture and the hardening succeeded. |
| Retention.WindowIsExact | agent/src/retention.rs:118-143 | For all 64-bit arguments a stamp is excluded exactly when it is more than the clamped number of days old; nothing wraps. |
| Retention.LastDayIsKept | agent/src/retention.rs:78-125 | No argument reaches a record of the last day. |
| Retention.SecondsKeepMore | agent/src/retention.rs:147-163 | The seconds rule excludes a second exactly when the milliseconds rule excludes all of it. |
| Retention.FreshFileSurvives | agent/src/session_log.rs:1309-1358 | An audit file at most a day old survives every pruning argument, to the nanosecond. |
| Pruning.StaleExactly | agent/src/session_log.rs:1309-1332 | For all arguments a file is stale exactly when it is older than the clamped window, or than the epoch where that is shorter. |
| Pruning.AuditNames | agent/src/session_log.rs:1338-1346 | An audit file is one whose name ends in `.jsonl` or, left by a crashed trim, `.jsonl.tmp`. |
| Pruning.AuditDir.PruneStale | agent/src/session_log.rs:1309-1358 | Exactly the audit files and their temps that are stale by the header's clock, or the file's without one, and can be deleted are; the rest is untouched and the count is exact. |
| Text.ClipIsLongest | agent/src/text.rs:49-66 | On every valid UTF-8 text and budget, the clip is the longest whole-character prefix within it, at most 3 bytes short of it, and clipping again changes nothing. |
| Text.TailIsLongest | agent/src/text.rs:74-86 | The tail is the longest whole-character suffix within the budget, at most 3 bytes short of it. |
| Utf8.CharMeans | agent/src/text.rs:49-86 | The byte test for one character accepts exactly the encodings of the scalar values (section 3 of RFC 3629), one for each. |
| Utf8.SpaceMeans | agent/src/runs.rs:164-166 | The byte test for white space accepts exactly the encodings of the white-space code points. |
| Utf8.TrimMeans | agent/src/runs.rs:164-166 | Of any text a trim takes the white-space characters at both ends and nothing else. |
| SessionEvents.ReadIncreasing | agent/src/session_log.rs:1002-1056 | When no `seq` is used twice, the reader returns a strictly increasing permutation of the file, whatever order the flushes landed in. |
| SessionEvents.ReadPermutes | agent/src/session_log.rs:1036-1056 | For any events at all, the reader loses and doubles none. |
| SessionEvents.IncreasingUnique | agent/src/session_log.rs:1036-1056 | Two increasing lists with the same events are the same list: what a reader gets depends on the events alone. |
| Trail.EveryRun | agent/src/session_log.rs:565-689 | Over any run of any number of logger instances and overlapping calls, with flushes, evictions, trims, prunes, crashes and restarts, no two readable events of a session share a `seq`, one process numbers without a gap, and no instance holds over 64 writers. |
| Trail.StepKeepsInv | agent/src/session_log.rs:694-858 | Every single step keeps that, together with buffers disjoint from the disk and from each other and a counter behind none of them. |
| Trail.StepKeepsCalls | agent/src/session_log.rs:675-712 | Whatever comes between, a number taken and not yet written is on no event and in no other call, and not ahead of the counter. |
| Trail.LogReachesDisk | agent/src/session_log.rs:694-821 | An event is on disk as its `log` returns exactly when it is not output and the logger has no writer open or one on the path's inode; then the file grows by what was buffered and the event, else by nothing. |
| Trail.EnteredDisk | agent/src/session_log.rs:718-821 | The same for the second half of a call, whatever came between. |
| Trail.EnteredLines | agent/src/session_log.rs:735-823 | An attached session's lines grow by the whole buffer and the event at a boundary, by nothing at output; a missing file begins with its header. |
| Trail.AnyTime | agent/src/session_log.rs:694-832 | Flushes, evictions, seeds, prunes and crashes are possible at any moment, and with a new inode so are a close and a call of `log` by any instance. |
| Trail.CloseLeaves | agent/src/session_log.rs:839-861 | What any close leaves: the session's lines and an attached logger's buffer in order, trimmed if it trims; a logger that is not attached adds nothing; the writer is gone and all else as it was. |
| Trail.CloseKeepsEvents | agent/src/session_log.rs:839-843 | Without a trim the events on disk grow by exactly what an attached logger held. |
| Trail.MakingRoom | agent/src/session_log.rs:726-734 | Nothing is evicted below 64 writers of the instance; at 64 one writer of another session is, and what it held goes to its file. |
| Trail.CrashLeaves | agent/src/session_log.rs:1364-1385 | A crash loses the memory and no line on disk, and adds at most a fragment that no reader takes for an event. |
| Trail.SeedLeaves | agent/src/session_log.rs:1369-1385 | A seed puts the counter at or past every number on disk, never back, and a later prune of the file does not take it back. |
| Trail.PruneLeaves | agent/src/session_log.rs:1309-1358 | A pruned file is gone for readers and for every writer open on it; all else is as it was. |
| Conservation.StepConserves | agent/src/session_log.rs:694-832 | With no crash, trim or deletion, each step keeps disk, buffers and calls under way together equal to what was there and everything numbered since. |
| Conservation.FlushedDiskHoldsAll | agent/src/session_log.rs:694-832 | After any run without a trim, crash or deletion, closes included, whose calls have returned and whose loggers are flushed, a reader gets what was on disk and then every event logged, in order. |
| SplitLines.ReadsAlone | agent/src/jsonl.rs:19-29 | Of any bytes that writers put down, objects and newlines in any order, a reader gets exactly the objects that stand alone on their line. |
| SplitLines.EveryLandedObjectReads | agent/src/session_log.rs:814-822 | Over any run of any number of writers, every event that landed reads back, in order, exactly when no event went out while the file ended mid-line; else fewer do. |
| SplitLines.OpenEndsTheLine | agent/src/jsonl.rs:85-99 | A writer that opens ends the line it finds unfinished, gives an empty file its header, changes no event, and follows none with its first. |
| SplitLines.EachIsSomewhere | agent/src/session_log.rs:814-822 | What each instance logged is on disk or in its buffer, once and in order, less what a crash took. |
| SplitLines.LongLineTakesAnother | agent/src/session_log.rs:814-822 | Two open writers, one long line split before its newline: neither event reads back. |
| SessionLogger.AuditProcess.MaxSeqOnDisk | agent/src/session_log.rs:687-689 | One scan gives the greatest `seq` on disk, or 0. |
| SessionLogger.AuditProcess.NextSeq | agent/src/session_log.rs:675-682 | Seeds the counter from the file on first use and issues one more than it. |
| SessionLogger.AuditProcess.MakeRoom | agent/src/session_log.rs:718-734 | At 64 open writers, and only for a session without one, flushes and drops a writer of this instance. |
| SessionLogger.AuditProcess.TakeNumber | agent/src/session_log.rs:694-712 | The first half of a call numbers its event and leaves every file and writer alone. |
| SessionLogger.AuditProcess.Enter | agent/src/session_log.rs:718-821 | The second half is exactly the trail's: room, a writer with its header, the buffer, and a flush unless it is output. |
| SessionLogger.AuditProcess.Log | agent/src/session_log.rs:694-821 | The method is exactly the trail's `Log` step, including numbering, eviction, opening, buffering and the flush at a boundary. |
| SessionLogger.AuditProcess.CloseSession | agent/src/session_log.rs:839-861 | Afterwards the session's file is the trim of its lines and what an attached logger still held; without a writer nothing changes; other sessions and writers never do. |
| SessionLogger.AuditProcess.RecoverSession | agent/src/session_log.rs:1364-1505 | Recovery reports a session exactly when it was not settled; an attached logger then adds what it had buffered and exactly the markers, and leaves it settled; one that is not attached adds nothing. |
| Trim.TrimTail | agent/src/session_log.rs:117-158 | The streaming loop, which stops at the first line that is not UTF-8, returns the closed form `Kept` of the lines before it and never holds over 2002 lines. |
| Trim.TrimFile | agent/src/session_log.rs:109-181 | The whole trim: header, then those lines; no rewrite when no line is kept. |
| Trim.KeptOfSnoc | agent/src/session_log.rs:121-158 | One iteration on the closed form of a prefix gives the closed form of one line more. |
| Trim.NewestAreKept | agent/src/session_log.rs:109-181 | No line of the newest 2000 is ever dropped, but for those before a second or later start. |
| Trim.LoggedMeans | agent/src/session_log.rs:109-181 | The line of a logged event reads back as the event, and the trim takes it for a start when it is one or one of its texts is the very word. |
| Trim.TrimTwice | agent/src/session_log.rs:109-181 | A second trim of any file changes nothing, even where the first lost the header. |
| Trim.TrimmedOpens | agent/src/session_log.rs:109-181 | For every file, damaged or not: after a trim a command is unfinished in file order exactly when the last mention before any damage is a real start with no end in the newest 2000 lines after it, or is not one and the file's own first line is, with no end kept. |
| Trim.TrimmedReads | agent/src/session_log.rs:1387-1427 | For every file, in any order of `seq`: recovery finds a command unfinished after a trim exactly when that start, or that first line, outranks by number every end kept beside it. |
| Trim.TrimKeepsInterrupted | agent/src/session_log.rs:109-181 | On UTF-8 lines a trim keeps an unfinished command unfinished exactly when at most one line mentions a start, the last that does is one, or the file's first line is. |
| Trim.TrimReopens | agent/src/session_log.rs:109-181 | On UTF-8 lines a trim makes a finished command unfinished exactly when its end was dropped between a real last start and the newest 2000 lines, or before the kept lines of a file that opens with the start. |
| Trim.FileTrimAndRecovery | agent/src/session_log.rs:1387-1427 | The keeping half for recovery, on a file of UTF-8 lines whose starts and ends lie in file order as they were numbered. |
| Trim.DamageEndsTheFile | agent/src/session_log.rs:121-161 | A line that is not UTF-8 makes the trim drop it and all that follows, or do nothing when no line comes before it. |
| Trim.DamageHidesTheCommand | agent/src/session_log.rs:121-161 | Four lines on which that drops an unfinished command. |
| Trim.ReadKeepsSteers | agent/src/session_log.rs:1387-1427 | Then reading by `seq` opens and closes commands as the file order does. |
| Trim.TornStartHidesTheRealOne | agent/src/session_log.rs:126-134 | A start and the fragment of another: the trim drops the real one. |
| Trim.GoalHidesTheRealOne | agent/src/session_log.rs:126-134 | A start and an event with a text that is the quoted word: the trim drops the real one. |
| Trim.OutOfOrderStartIsHidden | agent/src/session_log.rs:126-134 | The order condition is needed: three lines on which recovery and the trim disagree. |
| Trim.FinishedCanReopen | agent/src/session_log.rs:109-181 | A finished command whose end has 2000 lines after it reads as unfinished once trimmed. |
| TailFold.TailReadIsLastOrNothing | agent/src/session_log.rs:1169-1199 | The 64 KiB tail read returns the file's last record exactly when the file fits or the record's line begins strictly inside the window, and nothing otherwise. |
| TailFold.LastRecordMeans | agent/src/session_log.rs:1169-1199 | The fold's answer is the last of the records a reader of them all gets. |
| TailFold.FromBoundary | agent/src/session_log.rs:1169-1199 | Reading on from any line boundary finds the file's last record exactly when its line begins there or later. |
| Recovery.OpenCommandMeans | agent/src/session_log.rs:1387-1427 | A command is unfinished exactly when some start has no later end and no later status `backgrounded`, `closed` or `exited:`. |
| Recovery.OpenQuestionMeans | agent/src/session_log.rs:1449-1474 | A question is open with a subject exactly when some `asked` with it has no later approval event that asks, approves, refuses, expires or abandons. |
| Recovery.MarkersAre | agent/src/session_log.rs:1425-1481 | One marker per open item, an end for the command and an `abandoned` with its subject for the question, numbered on from the counter. |
| Recovery.ReadOpens | agent/src/session_log.rs:1387-1427 | Over a file in any order: recovery finds a command unfinished exactly when some start outranks every end by number, the later in the file among equals. |
| Recovery.ScanCommand | agent/src/session_log.rs:1387-1427 | The loop over last start and last end decides it. |
| Recovery.ScanQuestion | agent/src/session_log.rs:1446-1480 | The loop finds the last question, if nothing after it answers one. |
| Recovery.PassSettles | agent/src/session_log.rs:1364-1505 | A pass at a counter not behind the disk leaves no unfinished last command and no unanswered last question, exactly when the unnumbered events do not leave one. |
| Recovery.CutLeavesTheRest | agent/src/session_log.rs:1364-1505 | A pass that died after some markers leaves exactly the others for the next. |
| Recovery.RecoveryConverges | agent/src/session_log.rs:1364-1505 | Any number of passes each cut at any byte, then one whole pass: the old bytes are a prefix, the session is settled, and exactly one terminal marker per open item was added. |
| Runs.ScanOpen | agent/src/runs.rs:339-361 | The loop returns exactly the ids with no end after their first begin, without repeats and in the order of their first begins. |
| Runs.PassClosesEveryRun | agent/src/runs.rs:323-369 | For minted ids the pass only appends, leaves no run open, keeps a closed run's end records, and adds one with the given outcome to each open run. |
| Runs.SecondPassClosesNothing | agent/src/runs.rs:323-369 | A second pass finds nothing open exactly when every id closed survives the cap its end records go through. |
| Runs.EndCloses | agent/src/runs.rs:325-338 | An end that lands after the pass read the log closes the run whatever others append around it: the pass needs no lock of its own. |
| Runs.ClosedForGood | agent/src/runs.rs:339-361 | A closed run stays closed whatever is appended. |
| Runs.MintedIdsAreFixed | agent/src/runs.rs:101-104 | On any 64-bit clock a minted id passes the cap unchanged. |
| Runs.ClipOnlyShortens | agent/src/runs.rs:163-166 | The cap shortens an id or leaves it as it is. |
| Runs.RunLog.Begin | agent/src/runs.rs:101-119 | Returns the minted id and appends one begin record with it. |
| Runs.RunLog.End | agent/src/runs.rs:124-138 | Appends one end record with the capped id. |
| Runs.EndRecordMeans | agent/src/runs.rs:122-138 | The end record carries the clock's stamp, the trimmed id and the trimmed outcome, none when blank, each in full up to 200 bytes and else a prefix of it. |
| Runs.RunLog.Known | agent/src/runs.rs:150-161 | True exactly when some readable record begins the id. |
| Runs.RunLog.AbandonOpenRuns | agent/src/runs.rs:323-369 | The method appends one end per open id in order, nothing when none is open or the log is missing, and returns how many. |
| Runs.TrimKeepsClosed | agent/src/runs.rs:371-405 | For any log, no cutoff leaves the run open exactly when, for each of its begins, a later end or an earlier begin carries no stamp or one at least as new. |
| Runs.MintTellsStamp | agent/src/runs.rs:101-104 | Two equal minted ids have the same stamp. |
| Runs.MintText | agent/src/runs.rs:101-105 | A minted id, character by character. |
| Runs.TrimKeepsMinted | agent/src/runs.rs:371-405 | For a run begun here, however often, no cutoff leaves it open exactly when some end after its first begin carries no stamp or one at least as new. |
| Runs.SteadyClockTrimsSafely | agent/src/runs.rs:371-405 | With nondecreasing stamps no trim turns a closed run into an open one, for runs begun here or begun once. |
| Runs.SecondBeginReopens | agent/src/runs.rs:371-405 | An id begun twice with two stamps, as `begin` never writes, can be reopened by a steady clock. |
| RunState.RoundTrip | agent/src/runstate.rs:84-121 | Rendering then parsing gives the state back exactly when its reason is absent, or non-empty, trimmed and free of newlines. |
| RunState.ParseJournal | agent/src/runstate.rs:84-106 | The line loop computes the parser's specification, giving up at the first line without `=`. |
| RunState.ParsedIsTidy | agent/src/runstate.rs:84-106 | Whatever text is parsed, its reason is one a single line carries. |
| RunState.NeverAFirstRunAgain | agent/src/runstate.rs:291-329 | After one successful save, over any run of begins, beats, marks with any reason, failed saves and crashes, no start reports a first run; and the journal cannot be read exactly when a mark spoiled it and no plain save came after. |
| RunState.StepReadable | agent/src/runstate.rs:674-690 | On any file, a plain save makes the journal readable, a mark that spoils it unreadable, and no other step changes which it is. |
| RunState.MarkedReadable | agent/src/runstate.rs:84-121 | A marked journal is readable exactly when each later line of its reason is a pair and the last that gives a start gives a number. |
| RunState.ReadIsLast | agent/src/runstate.rs:84-106 | The line loop gives each field the value of its last line, or nothing when some line is no pair. |
| RunState.MarkVerdict | agent/src/runstate.rs:197-225 | A mark with any reason on a live run: a crash when it spoils the journal, else the verdict of the state as the reason's later lines override it. |
| RunState.MarkFixesTheVerdict | agent/src/runstate.rs:197-225 | A mark gives `Replaced` for an update and `CleanExit` otherwise, at any clock, delay and boot time and until something other than a mark saves, exactly when the later lines of its reason, if any, leave it readable, ended and not another's update. |
| RunState.VerdictMeans | agent/src/runstate.rs:197-225 | A first run exactly without a journal, a crash for an unreadable one; of a run marked ended, replaced exactly for the word `update`, else a clean exit; of any other, a restart exactly when the boot is later than its last beat, else replaced exactly within 60 seconds, else a crash. |
| RunState.SavedReads | agent/src/runstate.rs:623-662 | A saved beginning, beat or end reads back as the whole state it was called with. |
| RunState.MarkReads | agent/src/runstate.rs:674-692 | A saved mark of a live run, for a reason of one line or none, reads back as that run, begun when it was and ended now for that reason. |
| RunState.VerdictAfterSave | agent/src/runstate.rs:623-662 | So the next start reports what the clock says of a saved beginning or beat, and a clean exit of a saved end. |
| RunState.JournalText | agent/src/runstate.rs:108-121 | The journal's text, character by character. |
| RunState.BeatUndoesTheMark | agent/src/runstate.rs:639-647 | After a deliberate stop and a beat, the next start reports what the clock says of the beat. |
| RunState.NewlineInReason | agent/src/runstate.rs:674-690 | A reason with a newline in it turns a deliberate stop into a reported crash. |
| RunState.RunJournal.BeginRun | agent/src/runstate.rs:590-636 | Reports the verdict on the file it found, an unreadable one being a crash, before claiming the journal. |
| RunState.RunJournal.MarkDeliberateStop | agent/src/runstate.rs:674-690 | Marks a readable live run and reports it; otherwise changes nothing. |
| RunState.RunJournal.BeatOnce | agent/src/runstate.rs:639-649 | A beat replaces the whole journal, mark included. |
| BootHistory.PruneKeepsNewest | agent/src/runstate.rs:515-543 | A prune leaves the newest 200 records, exactly unless the file is 201 records and nothing else but blank lines. |
| BootHistory.PruneMeans | agent/src/runstate.rs:515-539 | Left alone is exactly a file of at most 201 records whose lines are all records or blank; any other becomes the header and the newest 200 of its own lines that read as records. |
| BootHistory.CutBootOnlyAppends | agent/src/runstate.rs:444-487 | A boot that died in its append, or whose rewrite failed, has only added what landed of its record. |
| BootHistory.HistoryIsNewestBoots | agent/src/runstate.rs:444-487 | Over any run of boots, with crashes at any byte and failed rewrites, a reader asking for at most 200 gets the newest completely written boots, newest first. |
| BootHistory.CompletedBootLeavesNewest | agent/src/runstate.rs:444-543 | In a history empty or headed at first, a boot that completes leaves exactly the newest 200 records. |
| BootHistory.WriteMarks | agent/src/runstate.rs:463-482 | No write, whole or cut anywhere, leaves a non-empty history without its header or what a crash left of it. |
| BootHistory.RecentIsNewest | agent/src/runstate.rs:575-583 | Reversing and truncating gives the newest entries, newest first. |
| BootHistory.History.PruneHistory | agent/src/runstate.rs:515-543 | The method writes the specified file, or leaves the old one when nothing is to do or the rewrite fails. |
| BootHistory.History.RecordBoot | agent/src/runstate.rs:444-487 | Append and prune, as one boot of that run. |
| Timeline.SortMeaning | agent/src/operation.rs:70-73 | The sort is the stable one: in order, and at each stamp the same rows in the order given. |
| Timeline.SessionRowsAre | agent/src/operation.rs:145-163 | The terminal rows of a file are exactly its records of the six kinds of operation, stamped, that the window admits. |
| Timeline.ReadSessionRowsAre | agent/src/operation.rs:111-144 | The rows read are exactly those of the files that are UTF-8 and were touched at most a second before the window, or whenever when that is unknown. |
| Timeline.SessionRowsConcat | agent/src/operation.rs:145-163 | In the order of the file's lines. |
| Timeline.ReadSessionRowsConcat | agent/src/operation.rs:111-144 | And of the files. |
| Timeline.BrowserRowsAre | agent/src/operation.rs:194-210 | The browser's rows are exactly its stamped records that the window admits. |
| Timeline.CapShowsNothing | agent/src/operation.rs:195-210 | For rows that can be told apart, junk and unsteady clocks allowed, a capped read gives the uncapped timeline for every terminal feed exactly when each unread row has `limit` strictly later ones among those read. |
| Timeline.EveryWindowOutranked | agent/src/operation.rs:195-210 | That condition for every window is the one for the whole feed. |
| Timeline.CapDoesNotShow | agent/src/operation.rs:195-210 | It holds when at least `limit` lines are read of a feed of stamped, strictly later records. |
| Timeline.EqualStampsShowTheCap | agent/src/evidence.rs:146-159 | Two actions in one millisecond are enough for a cap to change the result. |
| Timeline.SkipDoesNotShow | agent/src/operation.rs:111-141 | Skipping files by time stamp changes no window's result exactly when no file that is read has a stamp over a second behind one of its events. |
| Timeline.OutrankedNeverShow | agent/src/operation.rs:60-77 | Rows that `limit` others are strictly later than never appear. |
| Timeline.TerminalEvents | agent/src/operation.rs:111-166 | The loops collect exactly the stamped events of an operation kind in the window, file by file, of the files it can read. |
| Timeline.MergedOperation | agent/src/operation.rs:60-77 | The request returns the newest `limit` rows of the capped, skipped read, and of everything eligible whenever every unread row is outranked and no file is skipped in error. |
| Monitor.ComputeTransitions | agent/src/monitor.rs:793-815 | The loop gives the newest `limit` state changes of the series, each with how long the state it ended had lasted. |
| Monitor.CountDrops | agent/src/monitor.rs:763-771 | Counting neighbours gives the number of down transitions. |
| Monitor.SinceMs | agent/src/monitor.rs:857-915 | The walk back finds where the current run of equal states began. |
| Monitor.Alternate | agent/src/monitor.rs:793-815 | Transitions alternate, begin against the first state and end at the last. |
| Monitor.DropsAndRecoveries | agent/src/monitor.rs:763-771 | Drops less recoveries is what the first and last states say, so they differ by at most one. |
| Monitor.SinceIsLastTransition | agent/src/monitor.rs:857-915 | The current state began at the last transition, or with the series. |
| Monitor.DurationsAddUp | agent/src/monitor.rs:793-815 | For nondecreasing stamps the first stamp and all durations add up to it. |
| Monitor.Watch.Record | agent/src/monitor.rs:553-605 | The ring becomes its newest 240 probes, and the announcement is the flip of the ring before eviction. |
| Monitor.TransitionsMeaning | agent/src/monitor.rs:793-815 | The batch function lists every probe whose state differs from the one before, once and in order, each with its stamp, state and the time since the ended run's first probe. |
| Monitor.RingOfLife | agent/src/monitor.rs:553-605 | After any number of calls of `record` the ring is the newest 240 probes of the whole history. |
| Monitor.Live | agent/src/monitor.rs:553-605 | Calls of the method, one for each probe, announce what the fold of its contract says. |
| Monitor.EveryFlipIsAnnounced | agent/src/monitor.rs:553-605 | Over such a life the announced stamps and states are exactly the state changes of the unbounded history, once and in order. |
| Monitor.AnnouncementIsLastEntry | agent/src/monitor.rs:793-815 | Each announcement is the change of the ring with the new probe, timed by the probes the ring still has, and the last entry the batch function gives for them. |
| Monitor.AnnouncedDuration | agent/src/monitor.rs:553-605 | The announced duration is exact while the ended run lies whole in the ring, and never too long. |
| FileTree.Disk.CopyTree | agent/src/paths.rs:381-393 | Whatever fails, nothing outside the destination changes and nothing stands in it but images of the source; on success every entry has its copy. |
| FileTree.Disk.RemoveTree | agent/src/paths.rs:426-430 | A removal, whole or stopped half-way, only takes entries of the tree it was given. |
| FileTree.MovedIsRenamed | agent/src/paths.rs:413-416 | A rename takes the whole subtree to its image and touches nothing else. |
| Migration.MovePath | agent/src/paths.rs:413-441 | Rename, or copy then remove: reported done, every entry is at its image, and the source is gone unless a call failed; not reported, all that was there is unchanged. |
| Migration.MoveOne | agent/src/paths.rs:443-491 | Whatever fails, each file of the source is at its place or its image and nothing else changes; a present file is never overwritten; with no failing call the destination exists afterwards. |
| Migration.MergeChildren | agent/src/paths.rs:464-488 | One level of children is renamed where the place is free: with no call failing every child's name is at the destination; with none moved nothing changed. |
| Migration.MigrateLayout | agent/src/paths.rs:504-566 | One boot: no file lost, nothing outside the plan's sources changed, a present marker stops it, a new marker means nothing is pending, and it does appear when no call fails and no file blocks a directory; with no rename refused either, no directory of the plan leaves a child behind. |
| Migration.PlanKeepsTrans | agent/src/paths.rs:504-566 | Passes compose: a file that reached its image is at a place no pair takes from. |
| Migration.DestinationsStand | agent/src/paths.rs:443-491 | No file already present at a destination changes. |
| Migration.BootsLoseNothing | agent/src/paths.rs:504-575 | Over any number of boots no file is lost, and from the boot that wrote the marker on nothing is pending and nothing changes. |
| Layout.PlanIsSane | agent/src/paths.rs:316-375 | The real plan, overlapping pairs and all, never takes from where it puts exactly when the data root is not at or below a place the plan uses under the install root, nor the install root at or below one it uses under the data root. |
| Layout.PlanPlaces | agent/src/paths.rs:316-375 | The plan, pair by pair in its order: which old place each path moves from and to. |
| Layout.DataUnderInstall | agent/src/paths.rs:316-375 | It holds for a data directory of its own under any install root. |
| Layout.DataInsidePwout | agent/src/paths.rs:316-375 | It fails for any data root inside a directory that moves. |
| Lexer.NonCodeEnd | agent/src/spawn.rs:1550-1592 | Every comment or literal ends strictly after it starts and within the text, so the lexer always advances. |
| Lexer.NonCodeMeans | agent/src/spawn.rs:1550-1592 | A place is code exactly when no comment, string, raw string or character literal begins there as text; where one does, the scan goes on past its end. |
| Lexer.RawStringMeans | agent/src/spawn.rs:1598-1611 | A raw string ends where the text from its prefix, hashes and quote reaches the first quote with as many hashes, both ways. |
| Lexer.CharLiteralMeans | agent/src/spawn.rs:1614-1632 | A character literal is a quoted character, escape, or `\u` escape with its braces, both ways; a lifetime is none. |
| Lexer.StringEndMeans | agent/src/spawn.rs:1579-1589 | A plain string ends past the one quote that its body of characters and escape pairs runs up to, or with the text. |
| Lexer.BlockEndMeaning | agent/src/spawn.rs:1555-1575 | Comments nest: one ends past the first closing delimiter that brings the count of delimiters to zero, or with the text when none does. |
| Lexer.BlockCommentEnd | agent/src/spawn.rs:1555-1575 | The depth-counting loop ends a nested comment where its specification does, or at the end of the text. |
| Lexer.PlainStringEnd | agent/src/spawn.rs:1579-1589 | The string loop, escapes skipped, agrees with its specification. |
| Lexer.CodesAreReached | agent/src/spawn.rs:1536-1592 | The places of code are exactly those where the walk stops on code. |
| Lexer.OneWalk | agent/src/spawn.rs:1536-1592 | Of two places a walk stops at, the later lies on the walk from the earlier. |
| Regions.BalancedBraceEnd | agent/src/spawn.rs:1511-1535 | The depth loop computes its recursive specification. |
| Regions.BodyEnds | agent/src/spawn.rs:1511-1535 | From an opening brace it returns the place after the first code brace that brings the count of braces back to zero, and nothing exactly when none does. |
| Regions.GatedItemEnd | agent/src/spawn.rs:1486-1508 | The nesting loop computes its recursive specification. |
| Regions.ItemEndMeaning | agent/src/spawn.rs:1472-1508 | An item ends at the first code `;` or `,` outside parentheses, or where the body opened by a first `{` there closes; nothing exactly when there is neither. |
| Regions.NestingMeans | agent/src/spawn.rs:1486-1498 | The loop's count is zero exactly outside every parenthesis and bracket: none opened on the way is still open, whatever was closed before it. |
| Regions.RegionEndMeans | agent/src/spawn.rs:1416-1450 | A region is one of the three attributes, as written, and the item it gates. |
| Regions.LineStartMeans | agent/src/spawn.rs:1456-1462 | A line starts where only white space stands since a newline or the beginning of the text. |
| Regions.CfgDeadRanges | agent/src/spawn.rs:1428-1465 | The scanner with its line-start flag finds exactly the ranges specified by looking back over each line. |
| Regions.RangesInOrder | agent/src/spawn.rs:1428-1465 | Ranges are in bounds, non-empty, sorted and disjoint. |
| Regions.RangesAreItems | agent/src/spawn.rs:1428-1465 | Each range is a gating attribute at a line start with its item, and neither end lies inside a comment or a literal. |
| Regions.EveryItemIsCovered | agent/src/spawn.rs:1428-1465 | Every such attribute that the walk meets lies in some range. |
| Regions.LiveGapAsks | agent/src/spawn.rs:1258-1278 | True exactly when some ask stands whole in the gap with every character of it outside the dead ranges. |
| Regions.SiteAsks | agent/src/spawn.rs:1243-1278 | The same from the text alone, with the spellings that count for the site. |

## Left out

- JSON itself: parsing and rendering are the abstract codec above; fields the code only carries along are a number or a byte string.
- Lossy decoding: a reader that decodes lossily gets from a damaged line what the model says it parses to; a carriage return before a newline is not stripped (in the journal it is, being white space).
- A file that exists and cannot be read: modelled as missing, as the readers treat it. In the journal that includes text that is not UTF-8, which this code never writes.
- The buffered writer's fallback when a file cannot be opened. When its buffer spills is a step's choice, and one call to the system writes what it is given.
- Conservation.FlushedDiskHoldsAll: a flush moves whole lines there, with a torn one only at a crash; the library's split of a long line between its object and its newline is `SplitLines`, for one file without trims, evictions or numbers.
- Creating an audit file and writing its header is one step of `Trail`.
- Recovery and closing in `SessionLogger` run alone; in `Trail` anything may come between any two steps, and between a call's taking its number and its writing.
- Session identity, approval wording, intents, plans and goals in the audit trail: payload.
- The directory listing, pruning of screenshots and scripts, and the change notification of the evidence feed.
- Loss of power in `RunState`, `BootHistory` and `Trail`: a crash there is the process's, and what was written before it stays. After a cut the directory may come back without the journal just saved, or with an older one; `PowerCut` says what one file can come back as.
- `PowerCut` follows one file: the replacement of another file of the directory is not a step.
- `describe_previous`, `render_verdict` and `parse_verdict`: prose around the verdict proved here. `summary` counts it.
- The monitor's probes, target list, validators and percentages: a probe is the value handed to `record`.
- Symbolic links, permission bits other than the hardened flag, and the registry gate in front of the migration.
- A migration between roots that `Layout.Avoids` shuts out: a destination can then lie inside its own source, where a copy would read what it writes.
- Offsets in the scanner count characters, not bytes, so that slices fall on character boundaries is not a theorem here; the loop over spawn sites around the gap test is not modelled.
- Migration.MoveOne: does not say which children a merge moved when some renames fail, because every answer is allowed; it says where each file can be afterwards, and that all are there when none fails.
- Timeline.CapShowsNothing: compares rows by what they carry, so a read row that is the same as an unread one is shut out.
- FeedLock.Protocol.EveryReaderSeesTheHistory: a failed write ends the append. The code goes on after a tail repair that failed, and the record fuses with the fragment; that one case is not a step.
- FeedLock.Protocol.NoKeptRecordIsLost: is about the records appended during the run; older ones are in `EveryReaderSeesTheHistory`.
