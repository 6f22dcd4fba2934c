# Prometheus: models and proofs of the protocols behind the panel

Dafny models of the parts of the Prometheus server panel in which state, order or text matters, and proofs of
what they keep. `dafny verify dfyconfig.toml` checks everything.

| file | component |
|---|---|
| `ShellText.dfy` | single-quoting, against the token recognition and quote removal of the Shell Command Language of IEEE Std 1003.1 (sections 2.2.1 to 2.2.3 and 2.3) |
| `CopyTo.dfy` | publishing a file over SSH by upload, chmod and rename, with any number of uploads at once |
| `Base64.dfy`, `LxcWriter.dfy` | writing files into containers by echoed base64 (section 4 of RFC 4648), in one shot or in chunks |
| `Listing.dfy` | the parser of `ls -la` output, against a printer |
| `Pool.dfy` | the SSH connection pool, against a recency list |
| `MetricsCache.dfy` | counters to rates, and the totals computed from them |
| `Migrator.dfy` | schema migrations by several replicas |
| `Cron.dfy`, `Schedules.dfy`, `Backups.dfy` | next ticks, scheduled backups and actions, versions and retention |
| `Reflex.dfy` | the cooldown claim |
| `TokenRefresh.dfy` | the API client's shared token refresh |
| `NetworkStore.dfy` | dropping stale responses, and the scan flag |
| `Timestamps.dfy`, `NodeMetrics.dfy` | overlapping metric polls, and the order of timestamps as texts |
| `Prelude.dfy` | definitions they share |

An object that the source updates in place is a class whose methods follow the source's branches; each is tied
to a function, usually one step of a state machine, about which the run-time properties are proved. Concurrency
is interleaving: one event is one stretch of code that nothing interrupts (a transaction, a remote command, the
code between two awaits), and a theorem about a run holds for every sequence of events. Clocks, dial and
keepalive results, database and exec failures, the civil calendar and the order in which answers arrive are
parameters.

Times are integers (nanoseconds where the unit matters), counters are bytes, and IDs, suffixes and tokens are
numbers or texts.

Where the code does less than its comments or its purpose say, the model follows the code, and a lemma says
exactly when the two agree:

- `isDue` and the backup job look only 366 days ahead, so a task whose next tick is further off is not due when
  it comes, and a backup schedule whose tick nothing follows within 366 days does not even fire for that tick
  (`IsDueAsDocumented`, `ExecutedExactly`, `DueFiresExactly`). `0 0 29 2 *` is such an expression
  (`LeapDayIsMissed`, `LeapDayActionsStop`, `LeapDayBackupsNeverFire`).
- `Return` replaces the pool's entry without closing the client it replaces (`ReturnMayDropOpenClient`,
  `ReturnLosesExactly`, `ReturnLosesConnection`).
- A link whose name contains an arrow, and every device file, is misread (`RowRoundTrip`, `DeviceMisread`).
- The network total counts a row for a full minute, however short its interval was (`RowOvercounts`).
- `cat` cannot tell the end of the data from the end of its input, so an upload whose input ends early without
  failing is published as it is (`WholeExactly`).
- A refresh that is still unanswered undoes a logout, and the tokens of a login (`LogoutIsFinal`, `LoginIsFinal`).
- The text order of timestamps is not always their order (`TextOrder`, `MisorderedTimes`), so a poll can pass over
  a newer record (`LaterRecordIsSeen`); and a record that was pushed can be appended again by a poll
  (`NothingAppendedTwice`, `PushedThenPolled`).
- The scan flag can go down before the scan is over (`ScanningMeansTriggered`, `EarlierFetchEndsScan`,
  `ScanFlagLastsExactly`), a tool check can be lost to one of another node (`ToolAnswerIsKeptExactly`), and an
  acknowledgement or activation can disappear again (`MarkLastsExactly`, `EarlierListUndoesMark`).
- Retention counts failed backups, so they can push out the last good one (`GoodSurvivesExactly`).
- A backup schedule whose advance could not be written, and an action whose run could not be recorded, is served
  again (`EachTickOnce`, `TicksServedTwice`).

## Model

| member | source | states |
|---|---|---|
| `ShellText.QuoteRoundTrip` | backend/internal/ssh/client.go:20-22 | A string and its quoting read by the shell are the same word exactly when the string has no NUL; with one, the quote stays open and the command is refused. |
| `ShellText.QuotedWordInContext` | backend/internal/ssh/client.go:20-22 | Wherever a word may start and end, the quoted string is one word equal to the string, and what stands before and after it is read as it would be alone. |
| `ShellText.FeedQuoted` | backend/internal/proxmox/files.go:50-52 | Inside a word being read, a quoted string adds exactly itself to that word: no quote, backslash, blank, operator or expansion in it takes effect. |
| `ShellText.RenderLexes` | backend/internal/ssh/client.go:254-256 | Every command line put together from bare words, operators and quoted strings is read as exactly those words and operators, in order. |
| `CopyTo.CommandLexes` | backend/internal/ssh/client.go:228-256 | A path is rejected exactly when it has a NUL; for every other path the remote shell reads the whole command as the intended three commands joined by `&&`. |
| `CopyTo.StepIsLocal` | backend/internal/ssh/client.go:228-279 | No step of one upload - write, chmod, rename, failure, cancellation or cleanup - touches the temporary file or the progress of another. |
| `CopyTo.StepOwn` | backend/internal/ssh/client.go:254-256 | What a step may do to its own upload: the temporary file stays a prefix of the data, and only the rename changes the target, to what of the data had arrived when the input ended, with mode 600. |
| `CopyTo.StepKeepsInv` | backend/internal/ssh/client.go:228-279 | Every step of every upload keeps the invariant that ties each temporary file to how far its upload has come and the target to the last rename. |
| `CopyTo.EveryRunPublishes` | backend/internal/ssh/client.go:219-279 | For any number of uploads to one path and every interleaving, the target holds at each reachable state its initial content or what had arrived of the upload renamed last, mode 600; a call that returned nil was renamed and left no temporary file; no other file changed. |
| `CopyTo.WholeExactly` | backend/internal/ssh/client.go:228-279 | That is the complete data if and only if the input of the upload renamed last did not end early. |
| `CopyTo.EveryRunPublishesWholeFiles` | backend/internal/ssh/client.go:219-279 | So if the connection of an interrupted upload does not look to `cat` like the end of the data, the target is in every interleaving what it was or one whole upload. |
| `CopyTo.ChainPublishes` | backend/internal/ssh/client.go:228-279 | In every interleaving, and from every initial state: an upload whose chain is not stopped and whose file is not removed succeeds. Right after its rename the target is what arrived of its data, all of it if all arrived, with mode 600, its temporary file is gone, and the call can return nil. |
| `CopyTo.StoppedLeavesNothing` | backend/internal/ssh/client.go:260-279 | Once a chain that has begun is stopped, its caller gives up and its `rm -f` runs, at whatever distance from one another, the upload has left nothing, now or later, and is never renamed. |
| `Base64.DecodeGroupsEncode` | backend/internal/proxmox/files.go:150 | Decoding undoes encoding for every byte string (sections 3.2 and 4 of RFC 4648). |
| `Base64.EncodeSymbols` | backend/internal/proxmox/files.go:181 | Every character of an encoding is from the base64 alphabet or padding, so none means anything to the shell. |
| `Base64.SymbolsAreAlphabet` | backend/internal/proxmox/files.go:181 | The symbols are capitals, small letters, digits, plus and slash, in this order (table 1 of RFC 4648). |
| `Base64.GroupIsNumber` | backend/internal/proxmox/files.go:181 | Each group of four symbols is, to the base 64, the number that its three bytes are to the base 256. |
| `Base64.EncodeLength` | backend/internal/proxmox/files.go:181 | An encoding has four characters per started group of three bytes. |
| `Base64.EchoDecodes` | backend/internal/proxmox/files.go:150-152 | What `base64 -d` makes of an echoed encoding, trailing newline included, is the original content. |
| `LxcWriter.ScriptMeaning` | backend/internal/proxmox/files.go:188 | The shell reads the script of every chunk - also an empty one - and every path without NUL as the encoding piped into `base64 -d` and redirected as intended to the path. |
| `LxcWriter.ShotMeaning` | backend/internal/proxmox/files.go:150-152 | It reads the single-shot script as `mkdir -p` of a substitution whose command is `dirname` of exactly that path, and, after `&&`, the intended script: whatever quotes or parentheses the path has, the substitution ends where it should. |
| `LxcWriter.WriteStep` | backend/internal/proxmox/files.go:175-188 | One writing script, run on what its predecessors left, leaves the content up to the end of its chunk, or, when it fails, a definite prefix. |
| `LxcWriter.EncodingFits` | backend/internal/proxmox/files.go:138-173 | The encoding of a chunk has at most 65536 characters, that of a full chunk exactly 65536, and a single shot at most 87384. |
| `LxcWriter.PiecesCover` | backend/internal/proxmox/files.go:138-173 | A content of up to 65536 bytes is written in one shot, a longer one in as few chunks of 49152 bytes as hold it. |
| `LxcWriter.RemoteFile.WritePiece` | backend/internal/proxmox/files.go:180-195 | A piece of content, encoded and put into a script, arrives in the file byte for byte; the exit status is the exec's. |
| `LxcWriter.RemoteFile.WriteShot` | backend/internal/proxmox/files.go:146-160 | The single shot replaces the file by the content, or fails without having opened it, or with a prefix of it. |
| `LxcWriter.RemoteFile.WriteFileLXC` | backend/internal/proxmox/files.go:137-161 | For every content and whatever the file held: success leaves the file equal to the content; failure leaves exactly the chunks written before the first failure and what that exec itself wrote. |
| `LxcWriter.RemoteFile.WriteFileLXCChunked` | backend/internal/proxmox/files.go:164-198 | The same for the chunk loop: truncate first, append after, stop at the first failure. Only an exec of mkdir that returns no status stops it before; its exit status is not looked at. |
| `Listing.NameStart` | backend/internal/proxmox/files.go:309-322 | The position where the seventh blank-separated field has just ended, or 0 when seven never end. |
| `Listing.NameStartUnique` | backend/internal/proxmox/files.go:312-322 | There is only one such position, so a scan that stops at the first one found is right. |
| `Listing.ParseLsLine` | backend/internal/proxmox/files.go:294-359 | The index scan with its two counters returns the entry that the declarative reading of the line gives, or none. |
| `Listing.ParseDirectoryListing` | backend/internal/proxmox/files.go:273-290 | The loop over the lines returns the entries of all lines in order, without blank lines, totals and the two dot entries. |
| `Listing.FieldsOfColumns` | backend/internal/proxmox/files.go:295 | Columns separated by arbitrary runs of blanks split into exactly those columns, followed by the fields of what comes after. |
| `Listing.FieldEndsOfColumns` | backend/internal/proxmox/files.go:309-322 | The index scan agrees with that split: it counts one field end per column. |
| `Listing.LineOfColumns` | backend/internal/proxmox/files.go:295-328 | So on every line of seven columns and a name, the name found by position is the name after the seventh field. |
| `Listing.FirstArrow` | backend/internal/proxmox/files.go:338-342 | The first arrow of a printed link is its separator exactly when the name, with the blank after it, contains none. |
| `Listing.RowRoundTrip` | backend/internal/proxmox/files.go:294-359 | Parsing a printed line gives its entry back if and only if it is not a link with an arrow in its name (or a name that ends in " ->"). |
| `Listing.ListingRoundTrip` | backend/internal/proxmox/files.go:273-359 | Parsing a printed `ls -la` gives back the entries, in order, for every list of rows with such names and any runs of blanks between the columns. |
| `Listing.DeviceMisread` | backend/internal/proxmox/files.go:294-359 | Every line of a block or character device is misread: the time becomes part of the name, the major number the size and the minor number part of the date. |
| `Listing.ScannedNumber` | backend/internal/proxmox/files.go:303-305 | A size is read as the signed decimal number at the start of its column, or as 0 if an int64 cannot hold it. |
| `Listing.NoNumber` | backend/internal/proxmox/files.go:303-305 | A size column that does not begin with a number is read as 0. |
| `Pool.EvictionKeepsPrefix` | backend/internal/ssh/pool.go:117-134 | Whatever entries are left after eviction, they are exactly the most recently used ones: a prefix of the recency list. |
| `Pool.GetRefinesList` | backend/internal/ssh/pool.go:38-73 | Get is the move-to-front-and-cut (or removal) of a plain recency list, and never evicts the entry it returns. |
| `Pool.ReturnRefinesList` | backend/internal/ssh/pool.go:78-106 | So is Return, for nil, dead and live clients. |
| `Pool.GetIsSound` | backend/internal/ssh/pool.go:38-73 | Get keeps the pool within its limit and every pooled client open and filed under the one node it was created for; the client it returns is open and that node's own. |
| `Pool.StoredIsSound` | backend/internal/ssh/pool.go:100-105 | Storing an entry keeps all that, and the entry itself is not evicted. |
| `Pool.DroppedIsSound` | backend/internal/ssh/pool.go:94-98 | So does discarding a dead client together with whatever its node has cached. |
| `Pool.GetClosesWhatLeaves` | backend/internal/ssh/pool.go:38-73 | A client that leaves the pool in a Get has been closed. |
| `Pool.ReturnMayDropOpenClient` | backend/internal/ssh/pool.go:78-106 | In a Return that is not always so: a pooled client leaves it unclosed if and only if it is the one cached for the node and a different client of that node is returned. |
| `Pool.ReturnLosesExactly` | backend/internal/ssh/pool.go:78-106 | A Return loses an open connection if and only if that one is cached for the node, another client is returned, and nobody holds it. |
| `Pool.GetLosesNone` | backend/internal/ssh/pool.go:38-73 | A Get loses none: what leaves the pool is closed and what it returns is held. |
| `Pool.ReturnLosesConnection` | backend/internal/ssh/pool.go:38-106 | A run from a new pool, three Gets and two Returns, after which an open connection is neither in the pool nor held by anyone. |
| `Pool.RunRefinesList` | backend/internal/ssh/pool.go:38-145 | In every run of Get, Return and CloseAll the pool is a plain recency list cut to size: it holds exactly the list's nodes in its order of use, and no pooled client is closed or filed under a second node. |
| `Pool.GetReusesExactly` | backend/internal/ssh/pool.go:38-106 | In every run a Get returns a cached client without dialing if and only if its node is still on the recency list, that client was last returned by a Get or handed to a Return of the node at most the idle timeout before, and it answers; a cached client that is not returned is closed. |
| `Pool.Pool.constructor` | backend/internal/ssh/pool.go:23-34 | Zero limits are replaced by 10 connections and five minutes; the pool starts empty. |
| `Pool.Pool.Get` | backend/internal/ssh/pool.go:38-73 | The cached client is returned, without a dial, exactly when it was used within the idle timeout and answers the keepalive; otherwise it is closed and a new one is dialed, stored under the node and returned, or none. Does what the relation above says; keeps the limit, and the filing of clients if it held. |
| `Pool.Pool.Return` | backend/internal/ssh/pool.go:78-106 | The same for Return, for any client under any node; every pooled client stays open and under its own node if the one returned is the node's own. |
| `Pool.Pool.EvictLRU` | backend/internal/ssh/pool.go:117-134 | Removes one entry per round until the pool fits, each the least recently used, and closes exactly the clients removed. |
| `Pool.Pool.FindOldest` | backend/internal/ssh/pool.go:119-128 | The scan, in any order of the map, finds an entry no other is older than. |
| `Pool.Pool.CloseAll` | backend/internal/ssh/pool.go:137-145 | Empties the pool and closes every client that was in it. |
| `MetricsCache.Rate` | backend/internal/scheduler/metrics_job.go:67-75 | The truncated rate times the interval is at most the increase, which is less than the next higher rate times the interval; a reset gives 0. |
| `MetricsCache.Cache.CalculateDelta` | backend/internal/scheduler/metrics_job.go:42-83 | Stores the reading under its key and returns the rates since the key's previous one, or none. |
| `MetricsCache.Cache.Cleanup` | backend/internal/scheduler/metrics_job.go:87-96 | Drops exactly the keys that are neither active nor read within the past hour. |
| `MetricsCache.VMKeyInjective` | backend/internal/scheduler/metrics_job.go:299 | Different VMs never share a cache key, on any node IDs without a colon. |
| `MetricsCache.CollectVMMetrics` | backend/internal/scheduler/metrics_job.go:283-352 | The loop over a node's VMs yields, in order, one row per running VM with the rates since the reading the cache held before the collection, and their keys; the cache then holds their new readings. |
| `MetricsCache.KeysAreIndependent` | backend/internal/scheduler/metrics_job.go:42-96 | In every interleaving of readings of any keys and cleanups, what the cache holds for a key depends on the calls about that key alone. |
| `MetricsCache.ResultOfOwnReadings` | backend/internal/scheduler/metrics_job.go:42-96 | So the rates of a reading are a function of the key's own last two readings, and zero without a surviving one. |
| `MetricsCache.ReadWithinHourSurvives` | backend/internal/scheduler/metrics_job.go:87-96 | No cleanup drops a reading that is at most an hour old. |
| `MetricsCache.ReadingHeldExactly` | backend/internal/scheduler/metrics_job.go:87-96 | The last reading of a key is held exactly until a cleanup finds the key inactive and the reading more than an hour old, whatever happens to other keys; after that it is gone. |
| `MetricsCache.RatesConserve` | backend/internal/scheduler/metrics_job.go:61-75 | Over any run of readings with increasing times and arbitrary resets, the sum of rate times interval is at most the counter's growth, and the growth is less than the same sum with every rate one higher. |
| `MetricsCache.GrowthWithoutReset` | backend/internal/scheduler/metrics_job.go:67-72 | Without a reset that growth is the difference of the last and the first reading. |
| `MetricsCache.TotalIsGrowth` | backend/internal/repository/metrics_repository.go:177-191 | With readings a minute apart and no reset, `SUM(net_in * 60)` over any window is at most what the counter grew by and short of it by less than 60 bytes per row. |
| `MetricsCache.StoredAreRates` | backend/internal/scheduler/metrics_job.go:299-335 | In every run of readings and cleanups of all keys, the values stored for a key and any of its four counters are the rates between its successive readings, if each cleanup finds it active or read within the past hour. |
| `MetricsCache.CollectionStores` | backend/internal/scheduler/metrics_job.go:294-343 | In such a run a collection stores for each running VM one more value of each counter, the one its row carries. |
| `MetricsCache.TotalOfRun` | backend/internal/repository/metrics_repository.go:135-191 | So the total that the query computes for a counter over any window of the rows stored in such a run is the counter's growth, up to less than 60 bytes per row, for a key read every minute, whatever happened to other keys in between. |
| `MetricsCache.RowOvercounts` | backend/internal/repository/metrics_repository.go:180 | A row can never count for more than its interval brought in if and only if the interval lasted at least a minute. |
| `Migrator.Database.Run` | backend/internal/repository/migrator.go:24-94 | An undisturbed run commits the pending files in order up to the first that fails, records exactly those, and returns nil if and only if none failed. |
| `Migrator.FirstUnrecorded` | backend/internal/repository/migrator.go:53-57 | The first file that is not recorded is the next of those pending at the start, whoever recorded the others. |
| `Migrator.StepKeepsInv` | backend/internal/repository/migrator.go:24-94 | Every step of every replica - including a crash at any point and a commit whose answer is lost - keeps the order and the match of records and SQL. |
| `Migrator.EveryRunMigratesInOrder` | backend/internal/repository/migrator.go:24-105 | For any number of replicas, crashes and restarts, with or without the lock: each file's SQL commits at most once, the committed files are the recorded ones and a prefix of the pending ones in sorted order, and a run that returned nil leaves all of them applied. |
| `Migrator.FreshDatabase` | backend/internal/repository/migrator.go:24-94 | From an empty database the committed files are at every moment a prefix of the sorted list. |
| `Migrator.LockedRunsNeverCollide` | backend/internal/repository/migrator.go:25-37 | With the lock, no replica ever executes a file that is committed already or waits for another's insert. |
| `Migrator.ReplicaDoesRun` | backend/internal/repository/migrator.go:24-94 | With the lock, a replica that starts while nobody holds it commits exactly what the undisturbed run commits - the pending files in order up to the first that fails - and returns nil exactly when none fails, whatever the other replicas do in between. |
| `Migrator.CrashFreesLock` | backend/internal/repository/migrator.go:25-37 | A replica waits while another is active, and gets the lock when that one has crashed. |
| `Migrator.CommitOutcomes` | backend/internal/repository/migrator.go:86-88 | In every run a commit that fails leaves nothing and the file pending for the next run; one whose answer is lost leaves the file applied and recorded, and not pending; in both cases the replica stops. |
| `Migrator.UnlockedRunsCollide` | backend/internal/repository/migrator.go:78-84 | Without it two replicas can execute the same SQL at once; the unique file name then refuses the second, whose SQL is rolled back. |
| `Cron.NextRunIsNext` | backend/internal/service/backup/cron.go:50-116 | The result is the least matching whole minute strictly after the given time, if one comes within 366 days, and an error otherwise. |
| `Cron.ComputeNextRun` | backend/internal/service/backup/cron.go:70-116 | The minute-by-minute search with its early month skip computes that. |
| `Cron.DailyRuns` | backend/internal/service/backup/cron.go:70-116 | `m h * * *`: from any time on, the next run is the next time the UTC clock shows h:m, within a day. |
| `Cron.WeeklyRuns` | backend/internal/service/backup/cron.go:70-116 | `m h * * w`: it is the next such time on weekday w, within seven days. |
| `Cron.MonthlyRuns` | backend/internal/service/backup/cron.go:70-116 | `m h d * *`: it is the next such time on day d of a month, for every d from 1 to 31. |
| `Cron.DayOrWeekdayRuns` | backend/internal/service/backup/cron.go:89-106 | `m h d * w`: with both given it is the earlier of the two. |
| `Cron.IsDueExactly` | backend/internal/scheduler/due.go:13-23 | A task is due if and only if a tick lies after its last run (or creation), not after now, and within 366 days of it. |
| `Cron.IsDueAsDocumented` | backend/internal/scheduler/due.go:9-23 | That is what its documentation promises, at every time, if and only if the next tick comes within 366 days or none ever comes. |
| `Cron.UtcLeapDaysApart` | backend/internal/service/backup/cron.go:70-116 | In the UTC calendar of 1901 to 2099 the ticks of `0 0 29 2 *` are at least 1461 days apart. |
| `Cron.LeapDayIsMissed` | backend/internal/scheduler/due.go:13-23 | So a task for every 29 February that ran on one is due at no time any more, although the next one passes. |
| `Backups.FirstRows` | backend/internal/repository/backup_repository.go:303-304 | ORDER BY ... OFFSET k leaves exactly k rows out, or all when there are fewer. |
| `Backups.RetentionKeepsNewest` | backend/internal/repository/backup_repository.go:283-312 | Retention keeps exactly the newest backups up to the limit, by creation time and ID, among the node's scheduled ones, and all manual, pre-update and foreign ones. |
| `Backups.RetentionIsIdempotent` | backend/internal/repository/backup_repository.go:283-312 | Running it a second time deletes nothing. |
| `Backups.CountGuardIsRedundant` | backend/internal/scheduler/backup_job.go:124-134 | The count the job looks at first changes nothing about the result. |
| `Backups.Repository.GetNextVersion` | backend/internal/repository/backup_repository.go:243-270 | One more than the greatest version of the node, or 1 without backups. |
| `Backups.Repository.CreateBackup` | backend/internal/service/backup/backup_service.go:66-237 | A creation adds one row under the next version with its file rows, or, on a failing insert, what the failure leaves behind; the row is completed exactly when files were collected, their rows could be inserted and the final update works, and otherwise stays as a failed one; every file row keeps its backup. |
| `Backups.Repository.CountByNode` | backend/internal/repository/backup_repository.go:272-281 | The scan counts exactly the rows that retention is about. |
| `Backups.Repository.DeleteOldest` | backend/internal/repository/backup_repository.go:283-312 | Deletes exactly the expired backups and exactly their file rows, although the second statement selects anew; a negative limit changes nothing. |
| `Backups.Repository.EnforceRetention` | backend/internal/scheduler/backup_job.go:122-147 | Afterwards the node has at most the limit of scheduled backups; a limit of zero or less changes nothing. |
| `Backups.NewestSurvives` | backend/internal/repository/backup_repository.go:290-306 | Retention never deletes the newest backup of any node, whatever the limit. |
| `Backups.NewestIsRetained` | backend/internal/scheduler/backup_job.go:122-147 | A backup newer than all others of its node survives every limit. |
| `Backups.RunKeepsNewest` | backend/internal/repository/backup_repository.go:243-312 | Along every run of creations and retention the newest backup of a node is there and carries the version assigned last, the greatest. |
| `Backups.VersionsIncrease` | backend/internal/repository/backup_repository.go:243-270 | So the versions assigned to a node count up from 1 along every run and none is ever reused. |
| `Backups.GoodSurvivesExactly` | backend/internal/repository/backup_repository.go:283-312 | Retention counts failed backups too: along every run in which none completes after the newest good scheduled one, the node still has a good scheduled backup if and only if each enforcement of the limit k comes when fewer than k scheduled ones have been created since. |
| `Schedules.BackupJob.ListDue` | backend/internal/repository/schedule_repository.go:87-121 | The scan selects exactly the active schedules whose next run is not after the database's now, as they are. |
| `Schedules.BackupJob.ProcessSchedule` | backend/internal/scheduler/backup_job.go:75-148 | Advances from the scheduled time, fires once, stores the backup with its files under the node's next version if its row can be inserted, completed exactly when its files were collected and inserted and the final update works, and then enforces the limit on backups and files; a schedule without a next tick touches nothing. |
| `Schedules.BackupJob.Run` | backend/internal/scheduler/backup_job.go:54-71 | A poll does this to every due schedule and to no other: it advances and fires them, and backs up those it fired for, each once, one after the other. |
| `Schedules.PollTouchesOnlyDue` | backend/internal/scheduler/backup_job.go:54-148 | So what a poll adds are scheduled backups of the schedules it fired for, under the stored ID and time, and what it deletes are scheduled backups of nodes it fired for with a limit; a poll that fires for none leaves the tables as they are. |
| `Schedules.PollKeepsLimits` | backend/internal/scheduler/backup_job.go:122-147 | After every poll each node it fired for has at most as many scheduled backups as the limit of the last schedule it fired for there allows. |
| `Schedules.FilesAfterBackup` | backend/internal/service/backup/backup_service.go:183-201 | After a scheduled backup and its retention the file rows are those that were there, plus those of the new backup if they could be inserted, as far as their backups are still there. |
| `Schedules.PollLeavesWhole` | backend/internal/scheduler/backup_job.go:75-148 | A poll in which everything works leaves each node it fired for with a newest backup that is completed and has all its files. |
| `Schedules.FiringsFollowTicks` | backend/internal/scheduler/backup_job.go:81-105 | In every run the first firing serves the initial next_run_at, each further one the tick after the one before it (the same one again when its advance was not written), and none comes before its tick. |
| `Schedules.NotDueUntilNext` | backend/internal/repository/schedule_repository.go:137-147 | A schedule whose advance was written is due again if and only if the tick after the served one has come. |
| `Schedules.LastRunIsRecorded` | backend/internal/repository/schedule_repository.go:137-147 | In every run last_run_at is the time of the last firing whose advance was written. |
| `Schedules.NoDrift` | backend/internal/scheduler/backup_job.go:81-105 | With successful writes the k-th firing serves the k-th iterate of NextRun, whatever the poll times and the durations of backups. |
| `Schedules.EachTickOnce` | backend/internal/scheduler/backup_job.go:98-105 | No tick is served twice if and only if every advance but perhaps the last was written. |
| `Schedules.NoTickLost` | backend/internal/scheduler/backup_job.go:81-105 | With successful writes every tick from the initial one up to the stored one has been served. |
| `Schedules.CatchesUp` | backend/internal/scheduler/backup_job.go:54-71 | After a gap one missed tick is served per poll, until the job has caught up. |
| `Schedules.DueFiresExactly` | backend/internal/scheduler/backup_job.go:88-96 | An active schedule that some poll finds due fires, at that poll or before, if and only if another tick follows its own within 366 days. |
| `Schedules.InactiveNeverFires` | backend/internal/repository/schedule_repository.go:87-121 | A schedule that is switched off never fires, whenever its tick is. |
| `Schedules.LeapDayBackupsNeverFire` | backend/internal/scheduler/backup_job.go:88-96 | So a backup for every 29 February is never made. |
| `Schedules.ActionJob.RunAction` | backend/internal/scheduler/scheduled_action_job.go:41-62 | One action: executed when due, its run recorded only after success. |
| `Schedules.ActionJob.Run` | backend/internal/scheduler/scheduled_action_job.go:33-65 | A poll does this to every active action. |
| `Schedules.EachTickServedOnce` | backend/internal/scheduler/scheduled_action_job.go:40-62 | While records are written, every tick since the base is served by exactly one successful execution up to the last one, and by none after. |
| `Schedules.TicksServedTwice` | backend/internal/scheduler/scheduled_action_job.go:40-62 | No tick is served twice if and only if every execution but perhaps the last was recorded. |
| `Schedules.UnrecordedServesAgain` | backend/internal/scheduler/scheduled_action_job.go:57-62 | An execution whose record failed is followed by one from the same base, and the tick that made it due is served by both. |
| `Schedules.FailureIsRetried` | backend/internal/scheduler/scheduled_action_job.go:48-54 | After a failure the action is unchanged and due at every later poll until one succeeds. |
| `Schedules.ExecutedExactly` | backend/internal/scheduler/scheduled_action_job.go:40-62 | An active action is ever executed if and only if a tick follows its base within 366 days. |
| `Schedules.InactiveNeverExecuted` | backend/internal/scheduler/scheduled_action_job.go:33-65 | An action that is switched off is never executed, whenever it is due. |
| `Schedules.LeapDayActionsStop` | backend/internal/scheduler/scheduled_action_job.go:40-62 | So an action for every 29 February that ran on one is never executed again, and its base never moves. |
| `Reflex.Rule.TryMarkTriggered` | backend/internal/repository/reflex_repository.go:153-172 | The claim is won exactly when the rule is active and its last claim is older than the cooldown; the row changes only then. |
| `Reflex.WinsAreSpaced` | backend/internal/repository/reflex_repository.go:153-172 | Whatever evaluators with whatever clocks claim in whatever order, successful claims have times more than the cooldown apart, and trigger_count counts them. |
| `Reflex.ClaimWinsExactly` | backend/internal/repository/reflex_repository.go:153-172 | In every run a claim wins if and only if the rule is switched on and more than the cooldown has passed since the claim that won last. |
| `Reflex.WindowBound` | backend/internal/repository/reflex_repository.go:153-172 | Any window of length L holds at most L / (cooldown + 1) + 1 of them, which is never more than L / cooldown + 1. |
| `Reflex.BoundIsReached` | backend/internal/repository/reflex_repository.go:153-172 | That bound is reached: claims exactly cooldown + 1 apart are all won. |
| `TokenRefresh.Client.OnRequest` | frontend/src/lib/api.ts:27-33 | A request is sent with the access token stored at that moment. |
| `TokenRefresh.Client.OnUnauthorizedResponse` | frontend/src/lib/api.ts:46-76 | A 401 ends a retried request, logs out without a refresh token, and otherwise starts the one refresh or joins it. |
| `TokenRefresh.Client.OnRefreshAnswer` | frontend/src/lib/api.ts:64-72 | The answer stores the new tokens. |
| `TokenRefresh.Client.OnRefreshRefused` | frontend/src/lib/api.ts:62-75 | A refused refresh stores nothing. |
| `TokenRefresh.Client.OnRefreshSettled` | frontend/src/lib/api.ts:73-75 | Only then is the shared promise given up. |
| `TokenRefresh.Client.AfterAwait` | frontend/src/lib/api.ts:78-91 | The waiting request is sent again with the stored token or the awaited one, or, after a refusal, the session ends. |
| `TokenRefresh.Client.SetSession` | frontend/src/stores/auth-store.ts:31-45 | A login stores both tokens. |
| `TokenRefresh.Client.LogOut` | frontend/src/stores/auth-store.ts:59-72 | A logout clears both. |
| `TokenRefresh.StepKeepsInv` | frontend/src/lib/api.ts:27-96 | Every step - requests, 401s, answers, refusals, retries, logins, logouts - keeps the invariant over flights, requests and tokens. |
| `TokenRefresh.EveryRunRefreshesOnce` | frontend/src/lib/api.ts:35-96 | In every interleaving at most one refresh is in flight, each request is sent at most twice, and every retry carries the token of the refresh it waited for or one stored later. |
| `TokenRefresh.FirstSendCarries` | frontend/src/lib/api.ts:27-33 | In every run a request is first sent with the access token stored last, after a login or an answered refresh, as long as the session has not ended, and without a token from its end until the next login or answer. |
| `TokenRefresh.RetryCarries` | frontend/src/lib/api.ts:78-91 | After an answered refresh it is sent again with the token stored last, or, if the session has ended meanwhile, with the one the refresh brought. |
| `TokenRefresh.UnauthorizedRefreshes` | frontend/src/lib/api.ts:46-76 | In every run a 401 ends a request that was sent again, ends a session without a refresh token, and otherwise makes the request wait for the one refresh under way, or for a new one that posts the last refresh token of the session. |
| `TokenRefresh.WaitEnds` | frontend/src/lib/api.ts:61-92 | From every state a wait ends with the new tokens and a second response once the refresh is answered, and with the end of the session once it is refused. |
| `TokenRefresh.StepsOnlyForward` | frontend/src/lib/api.ts:46-96 | Every step leaves a request alone or moves it forward - sent, waiting, sent again, done - so there is no loop of retries. |
| `TokenRefresh.NoWaiterStuck` | frontend/src/lib/api.ts:61-92 | No request waits for nothing: its refresh is unanswered, or can be settled, or lets the request go on; after a refusal it ends with the session. |
| `TokenRefresh.NoTokenPostedTwice` | frontend/src/lib/api.ts:60-92 | With a server that never reissues a refresh token, one is posted a second time only if its first post was answered without a new one: never while refreshes succeed with rotated tokens, and never after a refusal, because the waiting requests log out before the next 401 is handled. |
| `TokenRefresh.LogoutIsFinal` | frontend/src/lib/api.ts:64-72 | A logout stays final until the next login if and only if no refresh is unanswered at that moment; the answer of one that is puts its tokens back. |
| `TokenRefresh.LoginIsFinal` | frontend/src/lib/api.ts:61-92 | In every run a login keeps its tokens, until the new session itself refreshes them, logs out or logs in, if and only if at that moment no refresh is unanswered and no request waits for a refused one: the answer of the former replaces the tokens, the latter logs the new session out. |
| `NetworkStore.FirstStart` | frontend/src/stores/network-store.ts:95-96 | The start of the first scan of a type in the list, or nothing when there is none. |
| `NetworkStore.Store.BeginFetch` | frontend/src/stores/network-store.ts:89-91 | A fetch takes the next number of its field. |
| `NetworkStore.Store.FinishScans` | frontend/src/stores/network-store.ts:92-122 | The scans' response is published if it is the newest, with the derived times and the scan flag, and dropped otherwise. |
| `NetworkStore.Store.FinishList` | frontend/src/stores/network-store.ts:125-192 | The same for devices, anomalies and baselines. |
| `NetworkStore.Store.FinishTools` | frontend/src/stores/network-store.ts:194-218 | The same for a node's tools; a failure keeps the old result. |
| `NetworkStore.Store.BeginTrigger` | frontend/src/stores/network-store.ts:220-224 | A trigger raises the flag for its node. |
| `NetworkStore.Store.FailTrigger` | frontend/src/stores/network-store.ts:227-238 | A failed trigger lowers it if it is still its node's. |
| `NetworkStore.Store.CompleteAcknowledge` | frontend/src/stores/network-store.ts:243-250 | Marks the anomaly in the list that is shown when the acknowledgement completes. |
| `NetworkStore.Store.FailAcknowledge` | frontend/src/stores/network-store.ts:251-263 | Files the error under the node of the anomaly, if it is shown. |
| `NetworkStore.Store.CompleteActivate` | frontend/src/stores/network-store.ts:274-281 | Makes the baseline the only active one of the list that is shown. |
| `NetworkStore.Store.FailActivate` | frontend/src/stores/network-store.ts:282-294 | Files the error under the node of the baseline, if it is shown. |
| `NetworkStore.OnlyNewestChanges` | frontend/src/stores/network-store.ts:89-295 | Only the response of the newest request of a field, or an acknowledgement or activation on it, changes the field, its errors or what is derived from it. |
| `NetworkStore.OlderNeverOverwrites` | frontend/src/stores/network-store.ts:71-218 | In every interleaving the requests that change a field do so in the order in which they were started. |
| `NetworkStore.StepKeepsInv` | frontend/src/stores/network-store.ts:89-295 | Every event keeps: numbers distinct and within the counter, each field showing its newest answered request with the actions since, and the flag up exactly while a node is named. |
| `NetworkStore.EveryRunShowsNewest` | frontend/src/stores/network-store.ts:71-295 | So in every run, whatever the order of responses, once the newest fetch of a field is answered the store shows its answer and no other, with the acknowledgements and activations completed since on top, and the error of that answer or of the last action refused since; isScanning holds exactly when scanningNodeId is set. |
| `NetworkStore.ReplayedAnomalies` | frontend/src/stores/network-store.ts:243-250 | On top of an answer the anomalies show, in its order, what it said, and as acknowledged also those acknowledged since. |
| `NetworkStore.ReplayedBaselines` | frontend/src/stores/network-store.ts:266-281 | The baselines show what it said, but only the one activated last since as active. |
| `NetworkStore.MarkLastsExactly` | frontend/src/stores/network-store.ts:148-281 | An acknowledgement or activation lasts as long as every list asked for later has it (and no other baseline is activated), if and only if at the moment it completes no newest list of its kind is still being asked for. |
| `NetworkStore.EarlierListUndoesMark` | frontend/src/stores/network-store.ts:148-281 | A list that was asked for before the action and arrives after it without the mark shows the anomaly unacknowledged, or the baseline inactive, again. |
| `NetworkStore.ScanningMeansTriggered` | frontend/src/stores/network-store.ts:89-241 | A node is shown as being scanned if and only if a scan of it was triggered and since then neither a failure to trigger one, nor a newest list of its scans, nor a trigger for another node came. |
| `NetworkStore.EarlierFetchEndsScan` | frontend/src/stores/network-store.ts:97-105 | A list of scans that was requested before the trigger lowers the flag when it arrives after it. |
| `NetworkStore.ScanFlagLastsExactly` | frontend/src/stores/network-store.ts:89-240 | The flag lasts until a list of the node's scans asked for after the trigger (a failed trigger or one for another node apart), if and only if at the trigger no newest list of that node's scans is still being asked for. |
| `NetworkStore.TriggerErrorExactly` | frontend/src/stores/network-store.ts:220-240 | In every run the error shown for triggering a scan of a node is that of the last trigger that failed while its scan was still shown, if none was triggered since. |
| `NetworkStore.RefusalIsFiled` | frontend/src/stores/network-store.ts:251-294 | A refused action on a row that is shown files its error under the node of the first row with the ID, and changes nothing else; without a node it changes nothing. |
| `NetworkStore.UnknownIsNotFiled` | frontend/src/stores/network-store.ts:251-294 | A refused action on a row that is not shown changes nothing. |
| `NetworkStore.PublishedExactly` | frontend/src/stores/network-store.ts:89-218 | In every run an answer is published if and only if no request of its field was started after its own. |
| `NetworkStore.FinishAnswers` | frontend/src/stores/network-store.ts:89-218 | A response answers its own request, once, whether it is published or not. |
| `NetworkStore.CountersCount` | frontend/src/stores/network-store.ts:71-91 | In every run the counter of a field is the number of its fetches. |
| `NetworkStore.ToolAnswerIsKeptExactly` | frontend/src/stores/network-store.ts:194-206 | The tool fetches of all nodes share one counter: a loaded answer for a node is stored if and only if no tools were asked for, of any node, after they were asked for this one, and else changes nothing. |
| `Timestamps.TextOrder` | frontend/src/hooks/use-node-metrics.ts:124-126 | Comparing the texts of two times agrees with their order if and only if they do not lie in one second with the earlier fraction starting the later one. |
| `Timestamps.MisorderedTimes` | frontend/src/hooks/use-node-metrics.ts:124-126 | The first and the middle nanosecond of any second are such times: the later one sorts first. |
| `NodeMetrics.Percent` | frontend/src/hooks/use-node-metrics.ts:37-44 | A share of a positive total is a percentage between 0 and 100, and 0 without a total. |
| `NodeMetrics.Processed` | frontend/src/hooks/use-node-metrics.ts:34-51 | A metric has the time and the numbers of its sample, shares of positive totals as exact percentages, and zero for what is absent. |
| `NodeMetrics.MessageIsShownExactly` | frontend/src/hooks/use-node-metrics.ts:58-101 | A message becomes the latest metric if and only if it is about metrics or has no type, about the node or none, and has a time and a CPU usage; any other changes nothing. |
| `NodeMetrics.Hook.HandleMessage` | frontend/src/hooks/use-node-metrics.ts:58-101 | A message of another type or node, without a time or without CPU usage, changes nothing; any other is appended. |
| `NodeMetrics.Hook.CompletePoll` | frontend/src/hooks/use-node-metrics.ts:110-142 | A poll appends the records after the last one polled, or on the first poll only the last, and remembers the last. |
| `NodeMetrics.Hook.AppendToWindow` | frontend/src/hooks/use-node-metrics.ts:92-98 | Appending keeps the newest 60. |
| `NodeMetrics.WindowIsLastOfAll` | frontend/src/hooks/use-node-metrics.ts:92-98 | In every run of messages and overlapping polls the window is the last 60 of everything appended, and the latest metric the last of it. |
| `NodeMetrics.PollsFollowLog` | frontend/src/hooks/use-node-metrics.ts:110-142 | Overlapping polls, completing in any order, append strictly newer records than any earlier poll did; and they skip nothing if and only if each poll that gets further reaches back to where the ones before it had got. |
| `NodeMetrics.NothingAppendedTwice` | frontend/src/hooks/use-node-metrics.ts:58-142 | Messages and polls of one log append no record twice, and so show none twice, if and only if no message pushes a record appended before and no poll gives, past those polled before, one that was pushed before. |
| `NodeMetrics.PushedThenPolled` | frontend/src/hooks/use-node-metrics.ts:92-142 | A record that is pushed and then polled is in the window twice. |
| `NodeMetrics.LogAscends` | frontend/src/hooks/use-node-metrics.ts:124-126 | The order this needs, that of the texts, is that of the times if and only if no two times of the log are misordered. |
| `NodeMetrics.LaterRecordIsSeen` | frontend/src/hooks/use-node-metrics.ts:124-128 | A later record is appended if and only if its text is not misordered with the last one polled. |

## Left out

- HTTP, SSH, WebSocket and Postgres themselves: a transaction is one atomic step (so a migration file is taken not to end its transaction itself), a liveness check and a dial are nondeterministic results.
- The space-joining of argv on the way to `sh -c` (backend/internal/proxmox/exec.go): the writer is modelled from the script on.
- What `mkdir -p $(dirname path)` does to the file system: the substitution is unquoted, so the shell splits its result at blanks. In the single shot its failure is one of the outcomes of the exec; before the chunks its exit status is ignored, as in the code.
- `cat`, `chmod`, `mv` and `rm` on a target that is a directory or begins with a hyphen, the sticky states of a full disk, and anyone else writing to the same paths.
- Random suffixes and row IDs are taken to be distinct where the code relies on it; row IDs are numbers, compared as the UUIDs would be.
- MetricsCache.Rate: the quotient is exact and then truncated; the code divides as floating point and then truncates, which can differ in the last byte.
- MetricsCache.CollectVMMetrics: the rows are stated for VM IDs that differ and node IDs without a colon (they are UUIDs); it returns the rows it gives to the insert, and a failing insert, which the code logs and skips, is not modelled.
- Pool.Pool.Get: a negative connection limit and an empty node ID are excluded by preconditions, because with either the eviction loop need not end; clock readings strictly increase.
- Pool.RunRefinesList: in these runs a client comes back under the node it was created for, and a closed one does not answer a keepalive; Pool.Pool.Return itself demands neither.
- The session-level advisory lock of the migrator lives on a pooled connection; it is modelled as mutual exclusion, and separately as absent.
- Reading and sorting the migrations directory: the files are a list of distinct names.
- Parsing cron expressions and the civil calendar (time zones, daylight saving): an expression is the value sets it parses to, and the calendar maps times to fields.
- Backups.VersionsIncrease: creations of one node come one after the other with increasing times, and no backup is deleted by hand; two processes between reading and inserting a version are not modelled.
- Backups.GoodSurvivesExactly: for one limit, with every creation later than the good backup; a manual backup is never counted as one that retention must keep.
- Backups.Repository.EnforceRetention: failures of the count and of the delete, which the job logs and survives, are not modelled.
- The averages and maxima of the network summary.
- Rounding of times to microseconds by Postgres, and updated_at.
- The other columns of backups, schedules, rules, metrics and responses.
- Listing.ParseLsLine: texts are sequences of characters; malformed UTF-8 is not modelled (all the bytes the scan looks for are ASCII).
- The writer and the reader for QEMU guests, path validation, and the other file operations.
- TokenRefresh.NoTokenPostedTwice: takes a 401 to be handled in a task of its own, after all continuations of a settled refresh have run, as promises do; the other results hold in every interleaving.
- TokenRefresh.Client.OnRequest: the request interceptor runs in the step that sends; an empty access token is not modelled, and the toast and the revoking post of a logout are left out.
- NetworkStore.Store.CompleteActivate: an activation is only started for a baseline that is shown and has a node; its completion is modelled at any time.
- NodeMetrics.Hook.CompletePoll: mounting, unmounting and the switch between socket and polling decide when a poll starts, not what it does, and are left out; a null field counts as absent.
- Timestamps.TextOrder: times are in UTC, with the same width of year.
- Other services, repositories, routers, the CLI and the React components: plumbing and field copying.
