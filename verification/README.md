# A verified model of the endpoint agent

The agent collects telemetry on a machine and sends it to a server. This project models the parts
of it that keep state, and proves what they keep over whole runs: the store-and-forward sender and
its buffer directory, the directory-tree builder, the rotating logger, the binary updater, start-up
and identity, the collector scheduler, and the retry loops.

Most parts come in three files: a `...Spec` module says what each operation does, as functions; a
module of classes runs the same operations with fields, arrays and loops, and every method ends in
exactly the state its function gives; a `...Laws` module proves what follows over runs.

| files | source |
|---|---|
| `Wrappers.dfy`, `FileNames.dfy` | shared types; names of snapshots and backups, directory listing order |
| `BufferSpec.dfy`, `BufferLaws.dfy`, `Buffer.dfy` | `internal/buffer/buffer.go` |
| `SenderSpec.dfy`, `SenderLaws.dfy`, `Sender.dfy`, `StoreAndForward.dfy`, `LossLaws.dfy`, `LostItems.dfy`, `Backlog.dfy`, `ReplayOrder.dfy` | `internal/sender/sender.go` |
| `Paths.dfy`, `PathLaws.dfy`, `FsTree.dfy`, `FsTreeBuilder.dfy` | `internal/collectors/fs/list.go` and the path functions it uses |
| `LogSpec.dfy`, `LogLaws.dfy`, `LogLevels.dfy`, `LogRenames.dfy`, `LogHistory.dfy`, `Logger.dfy` | `internal/logging/logger.go` |
| `UpdaterSpec.dfy`, `UpdaterLaws.dfy`, `Updater.dfy` | `internal/updater/updater.go` |
| `StartupSpec.dfy`, `StartupLaws.dfy`, `StartupResults.dfy`, `Startup.dfy` | `cmd/agent/main.go`, `internal/identity/bootstrap.go`, `internal/config/config.go` |
| `Scheduler.dfy` | `internal/scheduler/scheduler.go` |
| `Retry.dfy` | `internal/identity/retry.go` |

`dafny verify dfyconfig.toml` checks everything.

## How outside effects are modelled

Whatever the operating system, the network or the clock may answer is a parameter: the set of names
whose read, rename or removal fails, the reply to each request, the clock reading, the jitter drawn.
A theorem over all parameters is a theorem over all patterns of failure.

Crashes are modelled in two ways. The sender is also given as a machine with one step per outside
effect (`StoreAndForward`), where a crash may come between any two steps and starts a new process on
the old directory; `FlushIsRun` and `SendIsRun` show that each call of the sender is a run of that
machine. The updater and start-up are described by the list of disk states a call passes through
(the classes record them in a ghost trace), and a crash leaves any of those states.

## What was found

* A stored item that no one acknowledged is lost by a call in exactly two ways: a snapshot takes the
  name of the only file that holds it, or `flushBuffer` gets as far as `Clear` while every file that
  holds it was skipped by `ReadAll` and can be removed; in both cases the item must not be in the
  queue. Over any sequence of sends, timer flushes and restarts it ends up lost if and only if one
  call is of this kind (`LossLaws.LostExactlyByFatalCalls`). With crashes inside calls, one file of
  an earlier process that is never skipped and never overwritten is enough to keep it. Both ways
  happen in short runs from an empty machine (`LostItems`). Snapshots of the running process are
  never at risk: a direct send has acknowledged them by then. (`Prune` would be a third way; only
  `internal/buffer/buffer_test.go` calls it.)
* An item that cannot be encoded blocks the queue of its process for ever; it is never stored either.
* While the server is away, each send writes a snapshot of the whole queue, and the first flush that
  works delivers all of these once more: after n sends with batch size b, the n items, then the first
  b, the first b+1, and so on up to all n again.
* Buffer names keep the write order exactly while no clock reading is above the leading digits of a
  later one. That always holds at constant print length; 90 sorts after 9, but 10 sorts before it.
* The buffer's limit bounds the directory exactly as long as no file with bytes in it is left over
  from a failed removal or an unscanned start. From an empty directory it can be exceeded unless it
  is zero. A negative limit lets the account go below zero.
  `Prune` does nothing in a process that started within the limit.
* `BuildFSTree` returns the bare root for every root path that is not clean (`"dir/"` and `"./dir"`
  are not), and panics when an entry vanishes between listing and `Info`.
* At INFO and DEBUG, which unknown level names also mean, the logger locks itself up at its first
  rotation whose new file opens; until then each rotation that could not reopen shifts the backups
  again. docs/LOGGING.md describes rotation without this, and says that logs beyond the limit are
  deleted; files numbered above the limit are in fact never touched.
* Above INFO the rotated files and the current one are always a suffix of all lines, for any
  directory to start from and any processes killed anywhere, on a disk that works. When renames or
  reopens fail, at any level, they stay a suffix of what was written as long as no rename drops
  lines from a slot below other lines; one failing rename below a full backup is enough for a
  gap.
* While a log file is closed after a failed reopen, passing lines are counted but written nowhere.
* A failed swap in `InstallUpdate` that is undone uses up the backup that was there before.
* A failed restore in `InstallUpdate`, or a crash between its renames, leaves the executable missing
  for ever: `Rollback` refuses to run without it. The previous binary is always at one of the two
  paths.
* `NeedsRebootstrap` is always true, because it pairs the certificate with an empty key. A first run
  therefore always ends in an error, and every later start needs the install token again. A reply
  without an agent id makes the saved configuration unusable for good.
* After Start, Stop, Start, the next Stop panics. Until then Stop can always finish. Collectors added later outlive cancellation.
* The comment on the sender's retry loop lists a wait of 16 s; five attempts wait 1, 2, 4 and 8 s.

Assumption: a TLS key pair with an empty private key never parses (`RejectsEmptyKey`).

## Model

| member | source | states |
|---|---|---|
| FileNames.ListingIsSorted | internal/buffer/buffer.go:77-83 | a directory listing holds exactly the names of the directory, in increasing byte order |
| FileNames.BatchNameOrder | internal/buffer/buffer.go:59-60 | for all two clock readings, the snapshot names sort in clock order if and only if the earlier one is not above the leading digits of the later one (numeric order at equal length) |
| FileNames.BatchNameInjective | internal/buffer/buffer.go:59-60 | different clock readings give different snapshot names |
| FileNames.PrintedNames | internal/buffer/buffer.go:59-60 | three names as they are printed |
| FileNames.ListingIsWriteOrder | internal/buffer/buffer.go:77-96 | for an increasing clock, the names are listed in the order they were written if and only if no reading is above the leading digits of a later one |
| FileNames.EqualLengthsAgree | internal/buffer/buffer.go:59-60 | which is always so at constant print length |
| FileNames.TenSortsBeforeNine | internal/buffer/buffer.go:59-60 | across a change of length, readings 9 and 10 are listed the wrong way round and 9 and 90 the right way |
| BufferSpec.ReadableFilesAre | internal/buffer/buffer.go:82-96 | ReadAll returns the content of a file if and only if that file can be read |
| BufferSpec.UnreadableIsAbsent | internal/buffer/buffer.go:88-93 | a file that cannot be read is to ReadAll as if it were not there; the others keep their order |
| BufferSpec.ClearsListing | internal/buffer/buffer.go:111-120 | the removal loop leaves exactly the files whose removal fails |
| BufferSpec.InfosCatalogue | internal/buffer/buffer.go:181-197 | the collecting loop of Prune describes each file with information exactly once |
| BufferLaws.EvictIsPrefix | internal/buffer/buffer.go:209-221 | the removal loop of Prune works on the shortest prefix of the sorted list that meets the limit |
| BufferLaws.PruneIsOldestFirst | internal/buffer/buffer.go:158-224 | from an exact account Prune keeps it exact, meets the limit unless only unremovable files remain, removes nothing newer than a kept removable file, and needed its newest removal |
| BufferLaws.AccountIsExact | internal/buffer/buffer.go:42-148 | for a limit of at least zero, in every run whose writes use unused names, currentSize is the exact total of the files that are not leftovers of a failed removal, never negative, never above the true total nor above the larger of limit and starting total |
| BufferLaws.PruneNeedsOversizedStart | internal/buffer/buffer.go:162-164 | for a limit of at least zero, in every run whose writes use unused names, Prune changes something only in a process that started above the limit and before its first Clear |
| BufferLaws.LimitHoldsWithoutLeftovers | internal/buffer/buffer.go:54-56 | in such a run from a directory within the limit, the files on disk stay within it while there are no leftovers |
| BufferLaws.LimitBoundsDiskExactly | internal/buffer/buffer.go:54-122 | for a limit of at least zero, after any run whose writes use unused names, every such continuation whose removals succeed keeps the directory within the limit if and only if the account is within it and the leftover files hold no bytes |
| BufferLaws.LimitExceededAfterFailedRemoval | internal/buffer/buffer.go:111-122 | for every limit of at least one, some run with one failed removal puts exactly one byte more than the limit on disk |
| BufferLaws.LimitCanBeExceededExactly | internal/buffer/buffer.go:54-122 | some run from an empty directory goes over the limit if and only if the limit is not zero |
| BufferLaws.NameReuseOvercounts | internal/buffer/buffer.go:59-66 | a second write at the same clock reading overcounts by exactly the replaced file's size |
| BufferLaws.NegativeLimitUnderflows | internal/buffer/buffer.go:158-221 | for every negative limit, a run whose account ends below zero |
| BufferLaws.NonNegativeExactlyWhenLimitIs | internal/buffer/buffer.go:42-224 | the account stays non-negative in all runs if and only if the limit is not negative |
| Buffer.ReadDir | internal/buffer/buffer.go:77-77 | directory entries come in name order, each once |
| Buffer.ExchangeSort | internal/buffer/buffer.go:199-206 | the nested exchange loop yields a permutation sorted by modification time |
| Buffer.Catalogue | internal/buffer/buffer.go:181-197 | collects every file whose Info succeeds, once, with its time and size |
| Buffer.Buffer.constructor | internal/buffer/buffer.go:23-40 | the account starts at the scanned total, or at zero when the scan fails |
| Buffer.Buffer.CalculateSize | internal/buffer/buffer.go:129-148 | the walk computes the total size of the files |
| Buffer.Buffer.Write | internal/buffer/buffer.go:43-70 | stores one snapshot and adds its size, or returns the first failing check and changes nothing |
| Buffer.Buffer.ReadAll | internal/buffer/buffer.go:73-99 | returns the contents of the readable files in name order |
| Buffer.Buffer.Clear | internal/buffer/buffer.go:102-126 | leaves exactly the files whose removal fails and zeroes the account |
| Buffer.Buffer.Prune | internal/buffer/buffer.go:158-224 | evicts along a sorted catalogue of the directory, or does nothing within the limit |
| SenderSpec.RetryBudget | internal/sender/sender.go:125-153 | n rounds make at most n requests and wait at most 2^(n-1)-1 seconds; delivery if and only if the batch encodes and some round is acknowledged before a cancelled wait |
| SenderSpec.SenderWaitsAtMost15 | internal/sender/sender.go:126-134 | the sender's five rounds wait at most 15 seconds |
| SenderLaws.RetryExactly | internal/sender/sender.go:125-153 | for every n, reply and cancellation: requests go on exactly until one succeeds, a wait is cancelled or n are made, the result says which, and c requests go with exactly 2^(c-1)-1 seconds of waiting |
| SenderLaws.SenderWaitsExactly | internal/sender/sender.go:126-140 | the sender makes 1 to 5 requests with waits of 1, 2, 4 and 8 seconds in between |
| SenderLaws.ReplayInOrder | internal/sender/sender.go:198-210 | for every list of snapshots and replies, the data sent are those of a prefix of the list, in order and skipping what does not decode; all of it if the replay finishes, otherwise up to the first refusal |
| SenderLaws.ReplaysUpToOnce | internal/sender/sender.go:198-210 | only one prefix fits the replies |
| SenderLaws.FlushBufferExactly | internal/sender/sender.go:185-218 | flushBuffer sends a prefix of the readable files in listing order, and empties the directory as far as removals succeed, and the account, exactly when the prefix is all of a non-empty list and Clear can list |
| SenderLaws.WriteExactly | internal/buffer/buffer.go:43-70 | Write stores a batch if and only if it encodes, fits and the disk takes it: one file with these data, the account grown by its bytes; otherwise nothing changes and the first failing check is the error |
| SenderLaws.FlushExactly | internal/sender/sender.go:84-122 | for every queue, buffer and answers: when flush returns nothing to do, sent, kept with a snapshot or kept without one, in terms of encodability, replies, limit and disk, and the state it leaves each time |
| SenderLaws.FlushErrorsExactly | internal/sender/sender.go:102-112 | which error flush returns: cancelled if a wait was, else exhausted; without a snapshot the first failing check of Write |
| SenderLaws.RejectedIsNeverStored | internal/buffer/buffer.go:48-51 | a queue with an item that cannot be encoded is neither sent nor stored, and nothing changes |
| Sender.Sender.Combine | internal/sender/sender.go:98-100 | the combined batch is the queue's data in order |
| Sender.Sender.SendWithRetry | internal/sender/sender.go:125-153 | result, requests and waiting of the retry loop |
| Sender.Sender.FlushBuffer | internal/sender/sender.go:185-218 | replays in order until a refusal, skips what does not decode, clears only after a complete replay |
| Sender.Sender.Flush | internal/sender/sender.go:84-122 | on success the queue is emptied and the buffer replayed; on failure the queue is kept and a snapshot attempted |
| Sender.Sender.Send | internal/sender/sender.go:62-81 | queues the datum and flushes at the batch size; it stays queued when its own flush fails |
| StoreAndForward.StepKeepsInv | internal/sender/sender.go:62-218 | every outside effect keeps conservation and the settled state of own snapshots |
| StoreAndForward.Conservation | internal/sender/sender.go:62-122 | in every state of every run the accepted items are the directly delivered ones followed by the queue; nothing lost, repeated or reordered |
| StoreAndForward.OwnSnapshotsAreDelivered | internal/sender/sender.go:115-213 | whenever flushBuffer reads, replays or clears, every own snapshot, skipped or not, holds only items a direct send delivered |
| StoreAndForward.OwnSnapshotsEncode | internal/buffer/buffer.go:48-51 | in every state of every run no snapshot of the process, and nothing it delivered directly, holds an item that cannot be encoded |
| StoreAndForward.SendKeepsOrDelivers | internal/sender/sender.go:62-116 | for every outcome of a Send, what it delivers followed by the new queue is the old queue and the item; the item stays queued whenever Send did not deliver |
| StoreAndForward.RejectedItemBlocks | internal/sender/sender.go:103-112 | an item that cannot be encoded keeps itself and everything after it in the queue |
| StoreAndForward.StepKeepsSafe | internal/sender/sender.go:102-218 | every outside effect keeps each durable item acknowledged or on disk |
| StoreAndForward.AtLeastOnce | internal/sender/sender.go:102-218 | over any number of processes and crashes, every item of a snapshot whose Write returned nil is acknowledged or in a file, if no file of an earlier process is skipped or overwritten; the exact conditions are the LossLaws rows |
| StoreAndForward.FlushBufferLoss | internal/sender/sender.go:185-218 | flushBuffer drops a stored item unsent if and only if it reaches Clear and every file with the item was skipped and is removable |
| LossLaws.FlushLosesExactly | internal/sender/sender.go:84-122 | a flush leaves a stored item neither delivered nor on disk if and only if the item is not queued and either the send works, the replay reaches Clear and every file with the item is skipped and removable, or the send fails and the snapshot takes the name of the only file with the item |
| LossLaws.CallLosesExactly | internal/sender/sender.go:62-81 | the same for any Send, timer flush or restart: a stored, unacknowledged item is gone afterwards if and only if the call flushes and that flush is fatal to it |
| LossLaws.LostExactlyByFatalCalls | internal/sender/sender.go:62-218 | over any sequence of Sends, timer flushes and restarts in which a stored, unacknowledged item is not accepted again, it ends up unacknowledged and off disk if and only if some call was fatal to it |
| LossLaws.CallsAreRuns | internal/sender/sender.go:62-218 | each of these sequences is a run of the crash machine with the same queue, buffer and deliveries |
| LossLaws.OneFileKeepsItem | internal/sender/sender.go:185-218 | with crashes between any two effects, an item of an earlier process's file is acknowledged or still in that file as long as that one file is never skipped and its name never taken |
| LostItems.SkippedFilesAreLost | internal/sender/sender.go:185-218 | whenever that happens to an undelivered durable item there is a run that loses it |
| LostItems.TakenNamesAreLost | internal/buffer/buffer.go:59-64 | a stored snapshot under the name of the only file with an undelivered durable item, which it does not hold itself, loses that item in the crash machine; that such names and skipped files are the only ways is stated in LossLaws |
| LostItems.LostToAnUnreadableFile | internal/sender/sender.go:185-218 | a complete run from an empty machine, with one crash and one unreadable file, that loses an item |
| LostItems.LostToATakenName | internal/buffer/buffer.go:59-64 | a complete run from an empty machine, with one crash and one repeated clock reading, that loses an item |
| StoreAndForward.FlushBufferSteps | internal/sender/sender.go:185-218 | flushBuffer is a run of the crash machine with the same effect |
| StoreAndForward.FlushIsRun | internal/sender/sender.go:84-122 | flush is a run of the crash machine with the same effect on queue, buffer, deliveries and what is durable |
| StoreAndForward.SendIsRun | internal/sender/sender.go:62-81 | Send is a run of the crash machine with the same effect on queue, buffer, deliveries and what is durable |
| Backlog.SnapshotGrowth | internal/sender/sender.go:73-112 | n offline sends leave all n items queued and max(0,n-B+1) snapshots with B + ... + n data points |
| Backlog.PointsClosedForm | internal/sender/sender.go:98-112 | that sum in closed form, quadratic in the length of the outage |
| Backlog.FirstFlushRepeats | internal/sender/sender.go:98-119 | after n offline sends the first flush that works delivers the n items and all B + ... + n stored data points, and leaves queue and directory empty |
| Backlog.DeliveriesPerItem | internal/sender/sender.go:98-119 | in it the i-th of n different items is delivered once and once more for each of the max(0, n - max(B,i+1) + 1) snapshots that hold it |
| Backlog.ReplayOldestFirst | internal/buffer/buffer.go:77-96 | snapshots whose names agree with an increasing clock are read in the order they were written |
| Backlog.ReplayOldestFirstExactly | internal/buffer/buffer.go:77-96 | and only those, when no two snapshots are alike |
| ReplayOrder.FlushBufferOldestFirst | internal/sender/sender.go:186-210 | and when every request is accepted, flushBuffer sends their data one snapshot after the other in that order |
| ReplayOrder.OutageEndsInOrder | internal/sender/sender.go:73-119 | over a whole outage of n sends under such names, the first flush that works sends exactly the n items and then the first b, the first b+1, ..., the first n of them, in this order |
| Paths.CleanIsIdempotent | internal/collectors/fs/list.go:19-28 | cleaning a cleaned path changes nothing and keeps its elements |
| PathLaws.CleanLeadsThere | internal/collectors/fs/list.go:28-29 | a cleaned path leads to the same directory as the path from every working directory, stays absolute or relative, and is never empty |
| PathLaws.CleanDecidesMeaning | internal/collectors/fs/list.go:28-29 | two paths have the same cleaned form if and only if both are absolute or both relative and they lead to the same directory from every working directory |
| PathLaws.JoinLeads | internal/collectors/fs/list.go:19-28 | for all paths, joining follows the first and then the parts of the second, and the result is clean unless both are empty |
| PathLaws.DirExactly | internal/collectors/fs/list.go:28-28 | the parent of any path: "." without a slash, else the cleaned part up to the last slash |
| Paths.JoinAppends | internal/collectors/fs/list.go:19-28 | joining an entry name appends exactly one element |
| Paths.DirOfJoin | internal/collectors/fs/list.go:28-29 | Dir(Join(p,n)) is Clean(p) for every path p and entry name n |
| Paths.BaseOfJoin | internal/collectors/fs/list.go:10-10 | Base(Join(p,n)) is n |
| PathLaws.BaseIsRootName | internal/collectors/fs/list.go:10-10 | the base of any path is its last part that is not empty; "/" if there is none, "." for the empty path |
| PathLaws.SlashesAreNamedSlash | internal/collectors/fs/list.go:10-10 | the base is "/" if and only if the path is not empty and consists of slashes |
| PathLaws.CleanRootName | internal/collectors/fs/list.go:9-13 | for a clean root path it is the last element, "/" for the root directory and "." for the current one |
| Paths.TrailingSlashIsNotClean | internal/collectors/fs/list.go:15-19 | an entry name with a slash after it, as "dir/", is not clean: its cleaned form is the name alone |
| Paths.LeadingDotIsNotClean | internal/collectors/fs/list.go:15-19 | an entry name with "./" before it, as "./dir", is not clean: its cleaned form is the name alone |
| FsTree.RebuildInvertsWalk | internal/collectors/fs/list.go:8-55 | from the walk of any tree below a clean root, the builder rebuilds that tree: same entries, attributes and child order, one node per entry, the root named after its last element ("/" or "." without one), nodeMap holding exactly the folders, each leading to its own node |
| FsTree.UncleanRootSeesNothing | internal/collectors/fs/list.go:15-32 | below a root path that is not clean, any visits give the bare root, named after the last part of its path |
| FsTree.RebuildExactlyWhenClean | internal/collectors/fs/list.go:8-55 | the rebuild succeeds if and only if the root path is clean or nothing is below it |
| FsTree.PanicsExactlyWithoutInfo | internal/collectors/fs/list.go:34-42 | the callback panics if and only if Info fails on some entry below the root |
| FsTree.WalkBuilds | internal/collectors/fs/list.go:19-52 | the visits of one entry add its subtree as consecutive nodes, append one child to its parent and change nothing else |
| FsTreeBuilder.AppendChild | internal/collectors/fs/list.go:45-45 | appending to the parent's Children keeps all other nodes as they are |
| FsTreeBuilder.Callback | internal/collectors/fs/list.go:19-52 | one visit on heap nodes and nodeMap does what the arena step does, or panics exactly when Info is missing |
| FsTreeBuilder.BuildFSTree | internal/collectors/fs/list.go:8-55 | the heap nodes made are, record for record and child for child, those of the model builder, the returned root first, and the panic is the same |
| LogLaws.RotatedSlot | internal/logging/logger.go:149-157 | what every backup slot holds after a rotation, for any directory and any limit |
| LogLaws.RotationShift | internal/logging/logger.go:149-157 | a contiguous chain becomes the first max(1,N) elements of [current] and the old chain, again contiguous; no other path is touched |
| LogLaws.CallKeeps | internal/logging/logger.go:118-172 | one call above INFO whose renames and reopen all work keeps the history chunk by chunk, returns, and leaves the counter exact and below the limit or zero |
| LogLaws.RunKeeps | internal/logging/logger.go:118-208 | so does every run of calls and SetLevels that stays above INFO on a working disk; the lines added are those that pass the level of the moment |
| LogHistory.LogHistory | internal/logging/logger.go:53-208 | for every starting directory and any number of processes above INFO on a working disk, with SetLevel, each killed anywhere, also between two renames: backups oldest to newest and the current file are a suffix of what was there and every line that passed the filter; the lock is free, the counter exact, and below the limit or zero once a line has passed |
| LogHistory.ChainHistory | internal/logging/logger.go:53-208 | when no process is killed inside a call and the first finds a contiguous chain of backups, the chain stays contiguous and each backup is one chunk of the lines, newest first |
| LogHistory.HarmlessHistory | internal/logging/logger.go:118-208 | for every starting directory, any levels, any failing renames and reopens, and any processes killed anywhere: the retained lines are a suffix of what was there and what was written, as long as no rename drops lines from a slot while an older slot holds lines |
| LogRenames.RenamesKeepExactly | internal/logging/logger.go:149-157 | for one rotation, complete or cut off, of a history without repeated lines, whatever renames fail: the history stays a suffix of what it was if and only if no rename drops lines from a slot while an older slot holds lines |
| LogRenames.StuckTogetherIsHarmless | internal/logging/logger.go:149-157 | which holds whenever, in the directory before the rotation, no occupied backup below the last is stuck directly above a file that can move; so always when no rename fails |
| LogHistory.StuckBackupLeavesGap | internal/logging/logger.go:149-157 | with two full backups and .1 stuck, one rotation loses the middle of the history |
| LogLaws.BlocksExactlyWhen | internal/logging/logger.go:118-171 | a call locks itself up if and only if it passes the filter, reaches the size, reopens the file, and the level is at or below INFO |
| LogLaws.LockingLevelNames | internal/logging/logger.go:186-201 | every level name but warning, warn, error and fatal leads to such a level |
| LogLevels.FilteredByName | internal/logging/logger.go:118-121 | on a new logger or after SetLevel a call is filtered if and only if its level comes before the one the name stands for, in the order debug, info, warning or warn, error, fatal, any other name meaning info |
| LogLevels.WritesByName | internal/logging/logger.go:118-141 | a call that is let through and stays below the limit appends its line, counts it and changes nothing else; a filtered one changes nothing |
| LogLevels.PassingByName | internal/logging/logger.go:118-208 | over any run with SetLevel the lines that pass are a function of the level names alone |
| LogLevels.LockedCallsWait | internal/logging/logger.go:119-124 | on a locked-up logger a call that is let through never returns, a filtered one does, and SetLevel changes nothing |
| LogLevels.OpenExactlyAfterReopen | internal/logging/logger.go:144-169 | after a rotation the file is open, with the counter at zero, if and only if the reopen worked |
| LogLevels.ClosedWritesNothing | internal/logging/logger.go:159-164 | after a failed reopen no line reaches any file until one succeeds, whatever is logged and renamed; the counter goes on |
| LogLaws.LockedForEver | internal/logging/logger.go:123-124 | a locked-up logger never changes again, whatever is called |
| LogLaws.NeverLocksAboveInfo | internal/logging/logger.go:118-208 | a logger kept above INFO never locks up, whatever the disk does |
| LogLaws.FreeUntilReopen | internal/logging/logger.go:118-172 | at or below INFO, before any rotation reopens its file the lock is free and the counter holds all bytes that passed, whatever the disk refuses |
| LogLaws.FirstReopenLocks | internal/logging/logger.go:144-171 | at or below INFO the first rotation whose reopen succeeds makes its shift and blocks for ever; the rest of the run changes nothing |
| LogLaws.LocksExactlyAtFirstReopen | internal/logging/logger.go:118-171 | for every run at or below INFO, disk answers and starting size: locked up if and only if some call passed the filter with the size reached and got its new file open |
| LogLaws.LocksExactlyAtLimit | internal/logging/logger.go:137-171 | at or below INFO, starting below the limit on a disk where every rename and open works, the logger locks up exactly when the accepted bytes reach the limit, after one shift; until then no backup changes |
| Logger.Logger.constructor | internal/logging/logger.go:53-89 | starts on the existing file with its size and the level of the configured name |
| Logger.Logger.Log | internal/logging/logger.go:118-141 | filter, lock, append, count, rotate; Blocked when the call never returns |
| Logger.Logger.Rotate | internal/logging/logger.go:144-172 | the descending rename loop, the reopen, and the call back into log under the held mutex |
| Logger.Logger.SetLevel | internal/logging/logger.go:204-208 | changes the level to that of the name, or waits for ever on a locked-up logger |
| UpdaterLaws.InstallIsCrashSafe | internal/updater/updater.go:200-231 | at every intermediate state the previous binary is in place or at .old; exactly when the executable ends up missing |
| UpdaterLaws.InstallExactly | internal/updater/updater.go:200-231 | success if and only if the executable is known, there and can be backed up, and the new binary is there and can be moved, with or without an older backup; and what is left in every case |
| UpdaterLaws.PerformExactly | internal/updater/updater.go:262-293 | success if and only if there is no update, or one arrives whole, opens, has the announced checksum and a good signature, and can be swapped in; and what is left in every case, with the download gone exactly when it was swapped in or its removal worked |
| UpdaterLaws.UpdatesFollowEachOther | internal/updater/updater.go:200-293 | any number of such updates in a row are all installed, and the backup is always the version before |
| UpdaterLaws.RollbackIsCrashSafe | internal/updater/updater.go:234-259 | the backup survives every intermediate state; success if and only if both paths are occupied and both steps work |
| UpdaterLaws.RollbackExactly | internal/updater/updater.go:234-259 | what Rollback leaves in every case: nothing changes unless both paths are occupied and the removal works |
| UpdaterLaws.RollbackUndoesInstall | internal/updater/updater.go:200-259 | a rollback after a successful install restores the machine, once |
| UpdaterLaws.OnlyVerifiedBinaries | internal/updater/updater.go:142-293 | over any updates, rollbacks and crashes there is always a binary at one path, and each was there at the start or has an announced checksum |
| UpdaterLaws.MissingExeIsForEver | internal/updater/updater.go:209-250 | once the executable is missing, no update or rollback ever changes executable or backup |
| Updater.Updater.InstallUpdate | internal/updater/updater.go:200-231 | passes through exactly the modelled disk states |
| Updater.Updater.Rollback | internal/updater/updater.go:234-259 | passes through exactly the modelled disk states |
| Updater.Updater.VerifyUpdate | internal/updater/updater.go:142-171 | accepts if and only if the file opens, its hash is the announced checksum, and the signature step passes |
| Updater.Updater.PerformUpdate | internal/updater/updater.go:262-293 | check, download, verify, install and deferred removal pass through exactly the modelled disk states |
| StartupLaws.AlwaysRebootstraps | internal/identity/bootstrap.go:84-119 | NeedsRebootstrap is true on every disk |
| StartupResults.NeedsRebootstrapExactly | internal/identity/bootstrap.go:84-119 | for any key-pair function, false if and only if all three files are there, the identity verifies, and the certificate with an empty key parses and does not expire within a day |
| StartupResults.IdentityExactly | internal/identity/bootstrap.go:289-319 | the identity is a name if and only if both files can be read and form a pair whose certificate parses with that common name |
| StartupLaws.OverrideFillsGaps | internal/config/config.go:66-76 | environment variables fill empty fields, never replace others, and applying them twice is applying them once |
| StartupLaws.BootstrapOutcome | internal/identity/bootstrap.go:123-164 | RunBootstrap succeeds if and only if org, token, server and all three writes do; then the settings are marked and the files complete |
| StartupLaws.AnswerIsFirstReply | internal/identity/bootstrap.go:135-152 | the bootstrap uses the first reply among ten attempts, with the default base URL filled in |
| StartupResults.AnswerExactly | internal/identity/bootstrap.go:135-152 | a bootstrap gets a response if and only if some attempt among the first ten is answered and no wait before it is cancelled; it is the first such reply, with the default base URL if it names none |
| StartupResults.SaveCertificatesExactly | internal/identity/bootstrap.go:268-286 | each PEM file is written, with its own part of the reply, if and only if its write and those before it work |
| StartupLaws.EntersLoopExactly | cmd/agent/main.go:66-168 | run enters its loop if and only if an existing config loads, validates, holds a token, and a re-bootstrap completes and verifies |
| StartupResults.FirstRunExactly | cmd/agent/main.go:70-94 | what a first run leaves, field by field: nothing unless ORG_ID and INSTALL_TOKEN are set and a reply comes; then its files, and if all writes work a configuration for ORG_ID with 60 s and batch size 100 |
| StartupResults.LaterRunExactly | cmd/agent/main.go:66-168 | what a run on a saved configuration leaves and returns, in terms of the file, the environment, the replies and the writes alone, with every check of ValidateRuntime spelled out |
| StartupResults.KeptIdentityEnters | cmd/agent/main.go:112-165 | were no re-bootstrap needed, the disk would stay as it is and the loop be entered with the loaded settings, if valid and the rest starts |
| StartupResults.RunsFileByFile | cmd/agent/main.go:86-129 | any two consecutive disk states of a run differ in one file |
| StartupLaws.FirstRunNeverEnters | cmd/agent/main.go:70-124 | a run without a configuration file always ends in an error |
| StartupLaws.LoopSettings | cmd/agent/main.go:102-143 | in the loop org and base URL are set, the interval is at least 10 s, the batch size in 1..1000, the token gone; the agent id is the server's |
| StartupLaws.SavedConfigsAreOwn | cmd/agent/main.go:86-129 | after any processes and crashes the config on disk is the original or one saved after all three PEM files, without a token and valid but for the agent id |
| StartupLaws.ConfigMatchesReply | cmd/agent/main.go:86-129 | at the step that writes a new config, certificate, key and CA on disk are those of the very reply whose agent id and base URL it carries |
| StartupLaws.EveryStartNeedsTheToken | internal/config/config.go:136-141 | on a machine set up without a config file, every process in the loop had the token in its environment |
| StartupLaws.EmptyAgentIdIsFinal | internal/config/config.go:113-122 | a saved config without agent id stops every later process and is never changed |
| StartupLaws.EmptyAgentIdIsReachable | internal/identity/bootstrap.go:254-264 | one reply without agent id to a first run leads there |
| Startup.Config.Override | internal/config/config.go:66-76 | the override part of Load, in place |
| Startup.Config.MarkBootstrapped | internal/config/config.go:136-141 | sets the runtime fields and clears the token, in place |
| Startup.Manager.VerifyIdentity | internal/identity/bootstrap.go:289-319 | succeeds if and only if both files are read and the pair parses; then it remembers the agent id |
| Startup.Manager.NeedsRebootstrap | internal/identity/bootstrap.go:84-119 | the chain of checks; it remembers the agent id exactly when the stored identity verifies |
| Startup.Manager.SaveCertificates | internal/identity/bootstrap.go:268-286 | writes the three files in order, stopping at the first failure |
| Startup.RunBootstrap | internal/identity/bootstrap.go:123-164 | validation, retries, three writes, then marking the configuration in place |
| Startup.Run | cmd/agent/main.go:66-168 | start-up up to the loop passes through exactly the modelled disk states |
| Scheduler.StepKeepsInv | internal/scheduler/scheduler.go:51-184 | every step of every goroutine keeps the lifecycle invariant |
| Scheduler.WaitGroupCountsJobs | internal/scheduler/scheduler.go:81-83 | in every interleaving the wait group counts exactly the live jobs |
| Scheduler.QuietAfterStop | internal/scheduler/scheduler.go:142-156 | after Stop returns by its done branch no job is live until another Start takes effect |
| Scheduler.ClosesAtMostOncePerStart | internal/scheduler/scheduler.go:135-140 | close(stopCh) runs at most once per effective Start and panics exactly the second time |
| Scheduler.SecondStopPanics | internal/scheduler/scheduler.go:139-140 | in every interleaving the close of a Stop panics if and only if an earlier Stop that took effect has returned |
| Scheduler.StopAfterRestartPanics | internal/scheduler/scheduler.go:131-140 | a Stop called on a running scheduler goes on to close, and panics there if and only if an earlier Stop that took effect has returned |
| Scheduler.RestartIsReachable | internal/scheduler/scheduler.go:51-160 | Start, Stop, Start reaches such a running scheduler |
| Scheduler.StopCanFinish | internal/scheduler/scheduler.go:142-184 | whenever Stop waits, jobs finishing their work and seeing stopCh, and nothing else, lead to a zero wait group and the done branch |
| Scheduler.JobCanEnd | internal/scheduler/scheduler.go:93-101 | a job can end by itself once stopCh is closed, or once its own context is cancelled, without touching any other |
| Scheduler.JobMayRunAgain | internal/scheduler/scheduler.go:91-93 | a job in select may run its collector again, whatever was stopped or cancelled |
| Scheduler.StartLaunchesAll | internal/scheduler/scheduler.go:51-68 | in every interleaving a Start that takes effect launches exactly the scheduler's collectors, each once, in order and under the caller's context; all are live unless something was stopped or cancelled |
| Scheduler.AddLaunchesWhenRunning | internal/scheduler/scheduler.go:160-170 | AddCollector appends, and launches one job outside the caller's context exactly on a running scheduler; Start on a running and Stop on a stopped one change nothing |
| Scheduler.RemoveTakesFirst | internal/scheduler/scheduler.go:172-184 | RemoveCollector takes out the first collector of that name only and stops no job |
| Scheduler.OnlyCallersLock | internal/scheduler/scheduler.go:51-184 | callers wait for the mutex only, a waiting Stop may give up at any time, and jobs never need the mutex |
| Scheduler.AddedJobsOutliveCancel | internal/scheduler/scheduler.go:98-168 | a job started by AddCollector lives until stopCh is closed, whatever is cancelled |
| Retry.CappedGrows | internal/identity/retry.go:67-72 | delays before jitter are positive, never decrease and never exceed the maximum |
| Retry.CappedRecurrence | internal/identity/retry.go:67-72 | the first delay is the initial one, each later one the one before times the multiplier, all cut at the maximum |
| Retry.JitterExactly | internal/identity/retry.go:75-78 | the values jitter can reach are exactly those from a quarter below the delay up to, but not including, a quarter above |
| Retry.DelayExactly | internal/identity/retry.go:75-81 | a larger draw never shortens the delay, which is cut to whole nanoseconds; without jitter the draw makes no difference |
| Retry.DelayNearCapped | internal/identity/retry.go:65-81 | jitter and truncation keep a delay within a quarter below and strictly within a quarter above |
| Retry.RetryBound | internal/identity/retry.go:32-62 | n attempts make 1 to n calls, wait once less, and wait less than 5/4 of the sum of n-1 delays |
| Retry.RetryExactly | internal/identity/retry.go:32-62 | for every configuration and environment: calls go on exactly until one succeeds, the wait after a failure is cancelled or n are made, the result says which, and the waits are exactly the delays in between |
| Retry.EndsOnce | internal/identity/retry.go:32-62 | only one result fits |
| Retry.CallsExactly | internal/identity/retry.go:35-61 | without cancellation the function is called exactly min(first success, n) times |
| Retry.SucceedsWithLastCall | internal/identity/retry.go:37-40 | success if and only if the last call made succeeded |
| Retry.DefaultWaitsUnder1519Seconds | internal/identity/retry.go:21-29 | the default delays sum to exactly 1215 s |
| Retry.RetryWithBackoff | internal/identity/retry.go:32-62 | result, calls and waiting of the loop |

## Left out

- HTTP, TLS, X.509 and JSON: replies, parsed certificates and encoded batches are abstract; decoding an encoded batch gives the batch back, and a snapshot's size is any number.
- Torn writes: a file write happens whole or not at all; only a download is seen partly written.
- Subdirectories of the buffer directory, permissions, and programs other than the agent changing its files.
- Agent id and time stamp of telemetry batches; flush drops the time stamps of the queued batches when it combines them.
- Machine integers: sizes and counters are unbounded.
- Retry.DelayNearCapped: exact reals, so the rounding of 64-bit floating point is not modelled.
- Retry.DelayExactly: rests on the same exact reals, as do Retry.JitterExactly and Retry.CappedRecurrence.
- Scheduler: modelled on values as interleaved steps rather than as a class, because other goroutines run between the statements of its methods; the effect of RemoveCollector on a shared backing array is not captured.
- Sender.Sender.Flush: the class states the result of a whole call; the states in between are those of the machine in StoreAndForward.
- The buffer's own mutex: the sender's mutex already makes its calls one step each.
- How soon a ready select branch is taken, and all wall-clock time.
- UpdaterLaws.RollbackUndoesInstall: assumes that os.Executable reports the same path before and after a swap; where it follows the renamed file, a rollback in the process that installed would take ".old" for the executable.
- UpdaterLaws.MissingExeIsForEver: rests on the same assumption.
- `Prune` in the runs of the sender: no production code calls it, so the crash machine has no step for it; what it removes is stated for the buffer alone.
- StartupLaws.ConfigMatchesReply: speaks of one process; a crash between the PEM files and the config of a re-bootstrap leaves the old config with newer files.
- Paths on Windows, symbolic links, and updates whose download path is the executable or its backup.
- A failing NewLogger, Close, and the copy of each line on standard output.
- The deprecated Manager.Bootstrap, the policy engine and health monitor, the audit logger, the other collectors, service installers, the tray icon and the mock server.
- The signature step of VerifyUpdate, which accepts everything on the supported systems, is an arbitrary answer.
