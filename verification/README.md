# Rustory: history replication, proved

Rustory keeps a shell history in a SQLite database on every device and copies it between devices.
This project models that machinery in Dafny and proves what it is for: no entry is skipped, lost or
doubled on the way, whatever fails; and it shows exactly where that promise ends.

## What is modelled

* **The database** (`StoreModel`, `LocalStores`, `Prune`, `RecentList`). A table of entries under a
  strictly increasing `ingest_seq` with unique entry ids, one pull and one push cursor per peer.
  `LocalStore` is a class whose methods are proved against value functions (`Ingest`, `Serve`,
  `Pruned`, `ListRecent`); what those functions promise is proved beside them.
* **The pull and push loops** (`SyncPull`, `SyncPush`, `Serving`, `Retry`, `Driver`). Imperative loops over a
  `LocalStore` and a transport that is any function of the call: it may fail, answer "too large",
  lie, or deliver and lose the acknowledgement. `Retry` puts the request retries and their
  exponential timeouts under the pull loop; `Driver` runs both loops over a list of peers.
* **The protocol** (`Replication`, `ReplicationRuns`, `PushPath`, `StorePath`). A transition system over any
  number of stores and of pull, push and cursor-copying runs on them. Batches in flight, late and
  repeated deliveries, lost acknowledgements, crashes between the two commits, several runs
  overwriting one cursor, and pruning at either end are all steps. One inductive invariant; the safety theorems
  quantify over every run. The loops and the single operations
  of the class level are shown to be paths of this system.
* **Convergence** (`Convergence`, `Quiescence`). Stores that do not prune reach the union and then stay
  quiet; for any number of stores, pulls in any order reach it after a bounded number of changes.
* **History import** (`Text`, `HistoryFormat`, `HistoryImport`, `ImportStability`). The bash and zsh
  parsers, the ids made for imported commands, the batched import, and what importing again does.
* **The tracker** (`Tracker`). Its table of peers with eager expiry, against expiry on demand.

## Assumptions

* SQLite serialises writers, so each statement or transaction is one atomic step, and one that fails
  leaves the database as it was. `MigrateKey`, which runs several statements, is a path of steps
  (`MigrationIsPath`). In the protocol the delete of a prune comes at any time after its floors were
  read; the class method runs both without a break.
* AUTOINCREMENT numbers are never reused. Whether an ignored insert uses up a number is left open
  (`burns`); every result holds for both.
* An entry id fixes the entry's content (UUIDv4, section 5.4 of RFC 9562). Only `ListsConverge` needs it.
* A cursor key names one store, whose database is never reset, and the push device filter of a
  store is fixed (`Topology`).
* The hash behind imported ids (UUIDv5, section 5.5 of RFC 9562) has no collisions (`SoundIds`).
* `usize` has 64 bits. `usize as i64` and `u64 as i64` wrap, as the casts in the code do.

## Results worth knowing

* A peer that has no push cursor on record is not protected by prune: `UnlistedPeerLosesOut` is such
  a run, and `PrunePendingWithoutCursor` says exactly when a prune takes rows out of what would be
  pushed to such a peer (which may have pulled them already).
* The tracker's early expiry is invisible exactly for a ttl from 1 to `i64::MAX`
  (`EagerMeetsLazyIff`); a larger one wraps and hides every peer.
* A later request timeout can be shorter than an earlier one, though never below the base. It is so
  exactly when its multiplication overflows while the earlier one stands above the base
  (`TimeoutShrinksIff`, with a policy the command line accepts in `TimeoutCanShrink`), or when the
  cast to u32 makes its attempt number the smaller one, the earlier one does not overflow, and its
  scaled base is below the earlier timeout (`WrappedTimeoutShrinksIff`, `TimeoutWraps`).
* A history file that lost its first k commands imports the others again under new ids, except where
  a command repeats the one k places before it (`HeadCutChangesIds`).
* A user and device can be mistaken for others in an import name exactly when one of them holds a
  NUL (`NameClash`) or the command, at its start or behind a NUL, reads like a whole command record
  (`MaskedClash`); `SoleIff` is the theorem, `UnmistakableIff` its part for one fixed record.
* docs/p2p.md line 69 speaks of up to 3 retries; the code makes at most 3 attempts, that is 2
  retries. Line 23 gives the push acknowledgement as `{ ok }`; the code also returns counts. The model follows the code.

## Model

| member | source | states |
|---|---|---|
| StoreModel.RowCountBound | src/storage.rs:713-714 | there are never more rows than numbers handed out, so row counts fit an i64 |
| StoreModel.IngestExact | src/storage.rs:65-123 | INSERT OR IGNORE over a list: old rows keep their places and numbers, the new rows are exactly the fresh entries in list order under numbers above every earlier one, cursors are untouched, and afterwards every id of the list is present |
| StoreModel.IngestAppend | src/storage.rs:65-123 | inserting a list in consecutive transactions equals inserting it in one |
| StoreModel.IngestCounterGrows | src/storage.rs:713-714 | the AUTOINCREMENT counter never falls while a list is inserted |
| StoreModel.IngestKnown | src/storage.rs:82 | inserting only known ids adds no row |
| StoreModel.AfterExact | src/storage.rs:156-256 | the pull query selects exactly the rows past the cursor that pass the device filter, in number order |
| StoreModel.AfterForDevice | src/storage.rs:229 | the query for a device selects that device's rows past the cursor and no others |
| StoreModel.AfterForAll | src/storage.rs:156-202 | the query for all devices selects every row past the cursor and no others |
| StoreModel.AfterPage | src/storage.rs:190-201 | what follows the last row of a page is exactly the rest of the result |
| StoreModel.PageExact | src/storage.rs:156-256 | a page is the first min(limit, rest) rows, also for a limit that wraps negative in the cast |
| StoreModel.ServeGenuine | src/storage.rs:156-256 | a served batch holds nothing but selected rows |
| StoreModel.ServeNoGap | src/storage.rs:190-201 | between the request's cursor and the returned one no selected row is left out; the returned cursor advances and is a number handed out; empty means nothing is past the cursor |
| LocalStores.LocalStore.constructor | src/storage.rs:707-754 | a new database is empty and valid |
| LocalStores.LocalStore.InsertEntriesWithStats | src/storage.rs:65-123 | Ok: the database is the deduplicated insert, inserted counts the fresh entries and inserted + ignored the list; Err: nothing changed |
| LocalStores.LocalStore.CollectBatch | src/storage.rs:190-201 | the result loop returns the rows' entries and the last row's number, None for no row |
| LocalStores.LocalStore.PullSinceCursor | src/storage.rs:156-202 | the answer is the page of all devices past the cursor |
| LocalStores.LocalStore.PullSinceCursorForDevice | src/storage.rs:204-256 | the answer is the page of one device past the cursor, and every entry in it is that device's |
| LocalStores.LocalStore.ListRecent | src/storage.rs:125-154 | the answer is the first rows of the list order |
| LocalStores.LocalStore.GetLastCursor | src/storage.rs:258-272 | the stored pull cursor, 0 if there is none |
| LocalStores.LocalStore.SetLastCursor | src/storage.rs:274-286 | overwrites this key's pull cursor, even downwards, and nothing else |
| LocalStores.LocalStore.GetLastPushedSeq | src/storage.rs:288-302 | the stored push cursor, 0 if there is none |
| LocalStores.LocalStore.SetLastPushedSeq | src/storage.rs:304-316 | overwrites this key's push cursor and nothing else |
| LocalStores.LocalStore.CountPendingPushEntries | src/storage.rs:388-430 | the number of rows the next push to this key would send |
| Prune.PendingExact | src/storage.rs:388-430 | that number is the number of rows of the device, if one is given, whose number is above the push cursor, 0 if there is none |
| LocalStores.LocalStore.PrunePushedFloorSeq | src/storage.rs:579-587 | the least push cursor on record, None if there is none |
| LocalStores.LocalStore.PruneEntriesOlderThan | src/storage.rs:432-587 | applies the prune or, dry, changes nothing; matched is the number of rows the prune takes and deleted equals it unless dry |
| LocalStores.LocalStore.MigrateKey | src/p2p.rs:681-692 | in each table the old key's cursor is copied to the new key exactly if the old key has one and the new key has none; otherwise the table stays; on an error each table is either old or fully copied |
| Prune.PruneExact | src/storage.rs:432-587 | a row is deleted exactly when it is older than the cutoff, not among the newest keep_recent rows, and at or below every push cursor on record |
| Prune.PruneKeepsRecent | src/storage.rs:557-577 | the newest min(keep_recent, row count) rows survive, in place |
| Prune.PruneKeepsPending | src/storage.rs:503-549 | for every peer with a push cursor and every device filter, the rows still to be sent are the same rows |
| Prune.PrunePendingWithoutCursor | src/storage.rs:579-587 | a peer without a push cursor keeps its pending count exactly if no row meeting the three conditions is one a first push would send |
| Prune.PruneTwice | src/storage.rs:432-587 | a second prune with the same arguments deletes nothing |
| Prune.PruneKeepsValid | src/storage.rs:503-549 | a prune only removes rows: order, unique ids, the counter and both cursor tables stay |
| Prune.PushedFloorUnique | src/storage.rs:579-587 | the pushed floor is one number, whichever cursor it is read from |
| RecentList.BeforeIsStrictTotal | src/storage.rs:143 | the list order by ts, device, entry id is strict and total on entries with different ids |
| RecentList.TextLessExact | src/storage.rs:143 | text ascends by the first place where two texts differ, a proper prefix first |
| RecentList.InOrderExact | src/storage.rs:125-154 | ordering neither loses, adds nor repeats an entry |
| RecentList.ListRecentDependsOnSet | src/storage.rs:125-154 | two stores with the same entries list the same for every limit, whatever their ingest orders |
| RecentList.ListRecentIsTop | src/storage.rs:125-154 | the list is ordered, as long as the limit and the rows allow, and ahead of every entry left out |
| RecentList.ListRecentNewestFirst | src/storage.rs:143 | the list runs from the newest to the oldest; equal time stamps by device, equal devices by id, both ascending |
| RecentList.ListRecentLeavesOlder | src/storage.rs:143-144 | no entry left out is newer than one that is listed |
| SyncPull.CommitBatch | src/sync.rs:90-103 | insert and cursor write are two commits: Ok means both, and an error leaves nothing or just the insert, never just the cursor; no row is lost whatever the stored cursor is by then, and it is not lowered if it is at most the run's own |
| SyncPull.NextRow | src/sync.rs:72-103 | an answer of a real store carries the run to the next stretch of that store's tail, whatever the limit |
| SyncPull.SyncPullFromPeer | src/sync.rs:53-110 | against any transport the loop ends, no local row is lost, ids stay unique and the cursor does not drop; against a real store an Ok run equals one insert of the whole tail, the invalid-batch exits are unreachable, at most tail + 1 + floor(log2(limit)) calls are made, and every exit is a prefix of the tail with the cursor at or behind it |
| SyncPush.NextBatch | src/sync.rs:208-221 | the next push batch is the next stretch of the backlog |
| SyncPush.SyncPushToPeer | src/sync.rs:190-247 | every call carries the next stretch of the backlog and, with a device given, only that device's entries; the acknowledged calls are exactly its first rows, in order; the cursor is behind the first saved ones, at most one batch short; Ok means the backlog is empty and the result is its size; too large at limit 1 names exactly the next pending row; the invalid-batch exits are unreachable; a peer that takes every one-entry batch is always served |
| Replication.PullInv | src/sync.rs:72-103 | every step of a pull run keeps the protocol invariant, with the cursor possibly overwritten by other runs |
| Replication.PushInv | src/sync.rs:208-244 | every step of a push run keeps the invariant, with lost acknowledgements and resends |
| Replication.DeliverInv | src/p2p.rs:417-437 | serving a push, however late or often it arrives, keeps the invariant |
| Replication.CopyInv | src/p2p.rs:681-692 | reading a legacy cursor and writing it later keeps the invariant |
| Replication.PruneInv | src/storage.rs:503-549 | the delete of a prune, under floors read at any earlier time, keeps the invariant |
| Replication.StepInv | src/sync.rs:53-247 | every step of every process keeps the invariant, reuses no number and forgets nothing held |
| ReplicationRuns.RunInv | src/sync.rs:53-247 | the invariant holds in every state of every run |
| ReplicationRuns.HeldIsHistory | src/storage.rs:65-123 | an id counted as held was in the store's table in some state of the run |
| ReplicationRuns.PullCursorsSound | src/sync.rs:72-103 | in every reachable state each row a peer still has at or below a store's pull cursor for it is an entry that store has had, and the cursor is a number the peer has handed out |
| ReplicationRuns.PruneLosesNothing | src/storage.rs:432-587 | whenever a prune deletes a row of the device that the store pushes, or any row if it pushes all, every peer whose push cursor was on record when the prune read its floor had had it by then, whatever happened between that read and the delete |
| ReplicationRuns.DeletedWereCounted | src/storage.rs:432-555 | if any floor was there when the floors were read, the rows deleted later are among those counted at any time between, so no more are deleted than were matched |
| ReplicationRuns.UnlistedPeerLosesOut | src/storage.rs:579-587 | a run in which a peer without a push cursor never gets an entry pruned under fresh floors |
| ReplicationRuns.HeldIsPresent | src/storage.rs:65-123 | in a run without pruning a store has everything it ever had |
| ReplicationRuns.PullCursorsExact | src/sync.rs:72-103 | in a run without pruning everything a peer has at or below the cursor is in the store now |
| ReplicationRuns.BeginPullIsNext | src/sync.rs:66 | in any reachable state any store can begin a pull under any key, which then stands where the pull loop starts |
| ReplicationRuns.PullLoopIsPath | src/sync.rs:53-110 | what the pull loop logs against a real store, itself included, is, step for step, a path of the protocol ending with the loop's database |
| ReplicationRuns.StoreCommitIsNext | src/sync.rs:90 | storing a fetched batch is a step from any state, whatever other runs did to the cursor since |
| ReplicationRuns.SaveCommitIsNext | src/sync.rs:96-103 | saving the cursor is a later step from any state, and overwrites what other runs stored in between |
| PushPath.BeginPushIsNext | src/sync.rs:204 | in any reachable state any store can begin a push under any key, which then stands where the push loop starts |
| PushPath.PushLoopIsPath | src/sync.rs:190-247 | what the push loop sent, saved and got acknowledged is a path of the protocol ending with both databases, for every number of attempts of each call and whichever of them arrived, also when the last acknowledged batch could not be saved, and for a store that pushes to itself |
| PushPath.ReceivedIsArrivals | src/p2p.rs:1146-1180 | however often retries store a batch again, the receiver ends with the entries of one arrival each, and with the same database unless ignored inserts use up numbers |
| PushPath.ReceivedExact | src/sync.rs:190-247 | after a run the receiver has stored exactly the acknowledged rows of the backlog, plus the last batch if only its acknowledgement was lost, as one insert would have |
| Serving.AnswerPush | src/p2p.rs:417-437 | an acknowledgement means the whole batch is stored, and its counts account for it; any other reply means nothing changed |
| Serving.PostEntries | src/transport.rs:212-238 | the same over HTTP; exactly a body over the limit is answered too large, before it is parsed, and changes nothing |
| StorePath.MigrationIsPath | src/p2p.rs:681-692 | migrating one table is a path of a read and a later write exactly if the old key has a cursor and the new key has none, and no step otherwise |
| Convergence.PullUnites | src/sync.rs:53-110 | after a pull the store holds the union, its cursor is sound and nothing is left to pull |
| Convergence.EchoAddsNothing | src/storage.rs:65-123 | pulling only known entries adds no row |
| Convergence.TwoStoresConverge | src/sync.rs:53-110 | after each pulls the other both hold the union; one more pull inserts nothing and leaves nothing to pull either way |
| Convergence.Quiescent | src/sync.rs:53-110 | from then on any series of pulls, in any order, changes neither database |
| Convergence.QuietPairAgrees | src/sync.rs:53-110 | two sound stores with nothing left to pull from each other hold the same ids, whatever pulls led there |
| Convergence.QuietRoundAgrees | src/sync.rs:53-110 | in every reachable state without pruning, all stores on a closed round along which nothing is left to pull hold the same ids |
| Convergence.ListsConverge | src/storage.rs:125-154 | after the exchange both devices list the same history for every limit |
| Convergence.HubConverges | src/sync.rs:53-110 | a hub that pulls every store and is pulled by every store gives each the union of all |
| Convergence.ReachableSound | src/sync.rs:53-110 | the hypotheses of the convergence theorems hold in every state of a run without pruning |
| Quiescence.ChangesAtMost | src/sync.rs:53-110 | stores that neither record nor prune: of any series of pulls between any number of them, only a bounded number changes anything |
| Quiescence.RoundPays | src/sync.rs:53-110 | a round in which every store pulls every other pays off part of what is owed, unless nothing is left to pull; then it changes nothing |
| Quiescence.RoundsConverge | src/sync.rs:53-110 | after more full rounds than the stores owe, whatever the order of pulls in each, nothing is left to pull anywhere and every store holds the union of all |
| Quiescence.ReachableNet | src/sync.rs:53-110 | the hypotheses hold for any stores in every state of a run without pruning |
| Driver.PushTurn | src/p2p.rs:611-656 | the push half of a turn moves at most this peer's push cursor; a failed preflight skips it; one that goes through leaves no row pending, and it goes through whenever the peer takes every one-entry batch |
| Driver.SyncOnePeer | src/p2p.rs:572-657 | one peer's turn: a failed pull does not stop the push; a pull that goes through against a real store is the one-shot pull, and it goes through whenever that store answers and the rows fit |
| Driver.SyncPeers | src/p2p.rs:539-664 | the run is Ok exactly when some pull went through and push was off, or no preflight found pending rows, or some peer with pending rows was pushed to, whose pending count then was 0; no local row is lost |
| Retry.ExpDuration | src/p2p.rs:1323-1330 | a timeout never exceeds its cap |
| Retry.ExpCases | src/p2p.rs:1323-1330 | every case of a timeout: 2^a up to attempt 31 and 2^32 - 1 beyond, the base on overflow, and the cap last |
| Retry.ExpExact | src/p2p.rs:1323-1330 | without overflow, attempt a waits the base times 2^a, cut at the cap |
| Retry.TimeoutInRange | src/p2p.rs:1323-1330 | with the cap at least the base every timeout lies between them, past shift 32 and on overflow too |
| Retry.TimeoutsGrow | src/p2p.rs:1323-1330 | without overflow, for any two attempts below 2^32, a timeout is its factor times the base cut at the cap, and a later one is never shorter |
| Retry.TimeoutShrinksIff | src/p2p.rs:1323-1330 | exactly when a later timeout is shorter, the attempts compared after the cast to u32: its multiplication overflows while the earlier one does not and stands above the base |
| Retry.WrappedTimeoutShrinksIff | src/p2p.rs:1048 | exactly when an attempt that the cast to u32 made smaller has a shorter timeout, without any overflow |
| Retry.TimeoutCanShrink | src/p2p.rs:1323-1330 | a policy the command line can resolve whose third timeout is shorter than its second |
| Retry.SleptExactly | src/p2p.rs:1061-1064 | n pauses without overflow, n at most 32, last exactly 2^n - 1 times the base |
| Retry.ResolvePolicy | src/cli.rs:1931-2006 | zero attempts are refused and nothing else is; the cap is raised to at least the base |
| Retry.ResolvePolicyExact | src/cli.rs:1931-2006 | values given are used in seconds and milliseconds; the defaults are 3 attempts, 5 s, 30 s and 200 ms |
| Retry.LastAttemptExact | src/p2p.rs:1039-1070 | the deciding attempt is the first that succeeds or is not retryable, else the last |
| Retry.RequestWithRetries | src/p2p.rs:1039-1070 | the result is the deciding attempt's; attempt i runs under exactly the i-th timeout, with one pause between two attempts; without attempts it is an error |
| Retry.PullBatchWithRetries | src/p2p.rs:1039-1070 | the pull request with its retries, each attempt under its own timeout, gives the outcome and the number of requests that the pull loop and its work bound are proved with |
| Retry.RetriedExact | src/p2p.rs:1039-1070 | the answer of a pull call is that of its deciding attempt: a batch, too large, or failed; every attempt before it failed transiently |
| Retry.HttpRequestWithRetry | src/http_retry.rs:39-78 | the same for HTTP, with at least one attempt |
| Retry.HttpRetryableExact | src/http_retry.rs:80-88 | exactly transport errors and status 408, 429 and 500 to 599 are tried again |
| Retry.HttpReplyExact | src/http_retry.rs:46-60 | each attempt connects and reads under its own connect and read timeout |
| Retry.TotalRequestsBound | src/p2p.rs:1039-1070 | a run of pull calls sends at most attempts times as many requests |
| Retry.OversizeNotRetried | src/p2p.rs:1293-1297 | a too-large answer ends the retries of that call at once and reaches the batch-halving loop as such |
| Retry.SyncPullWithRetries | src/p2p.rs:1039-1070 | the pull loop over the retry loop still equals one insert of the tail, and sends at most attempts * (tail + 1 + floor(log2(limit))) requests |
| Text.ParsePrinted | src/history_import.rs:88-93 | parsing a printed i64 gives it back |
| Text.SpelledReads | src/history_import.rs:88-91 | an optional sign and digits, whatever zeros lead, read as the number they spell if it fits an i64 |
| Text.ReadIsSpelled | src/history_import.rs:88-91 | nothing else reads as a number |
| Text.TrimExact | src/history_import.rs:174 | trimming cuts white space only and leaves none at either end |
| Text.TrimEndSplit | src/history_import.rs:73 | trimming the end cuts exactly the white space there |
| Text.PrintIntInjective | src/core.rs:84-86 | two numbers print the same only if they are equal |
| Text.LinesAppend | src/history_import.rs:117 | text appended after a complete line adds lines and changes none |
| Text.LinesJoin | src/history_import.rs:72 | the lines joined with newlines are the text again, up to the newline that may be missing at its end |
| Text.LinesClosed | src/history_import.rs:116 | a last line without newline counts like one with it |
| HistoryFormat.ParseZshHistory | src/history_import.rs:66-105 | the parser loop computes the scan of the file's lines |
| HistoryFormat.ParseBashHistory | src/history_import.rs:107-139 | the parser loop, with its pending time stamp, computes the scan of the file's lines |
| HistoryFormat.ParseHistory | src/history_import.rs:59-64 | the shell selects the parser |
| HistoryFormat.IndicesCount | src/history_import.rs:96-102 | records are numbered 0, 1, 2, ... in file order, whatever was skipped |
| HistoryFormat.RecordsGrow | src/history_import.rs:66-139 | a file that grows by whole lines keeps every record it had, in place |
| HistoryFormat.UnterminatedLine | src/history_import.rs:66-139 | a file whose last line lacks its newline yields the same records as with it |
| HistoryFormat.ScanShifts | src/history_import.rs:66-139 | lines read after a head become the same records as alone, moved down by the head's count; only the first can take a pending time stamp, and only if it has none |
| HistoryFormat.BashExact | src/history_import.rs:107-139 | each command line becomes one record whose time stamp is the one directly before it, blank lines aside: the last of several wins and none reaches past the next command |
| HistoryFormat.StampExact | src/history_import.rs:122-127 | a line is a time stamp exactly if it is `#` and an integer; any other `#` line is a command |
| HistoryFormat.BashRoundTrip | src/history_import.rs:107-139 | writing records as `#ts` and command lines and parsing them gives the same records if and only if they are well formed |
| HistoryFormat.BashNormalises | src/history_import.rs:107-139 | parsing any content, writing it and parsing again loses nothing |
| HistoryFormat.WritableExact | src/history_import.rs:91-93 | the durations some number of seconds stands for are the whole seconds and the two ends of the range |
| HistoryFormat.ZshExact | src/history_import.rs:66-105 | each line that is not blank becomes the next record, with its own fields |
| HistoryFormat.ZshFieldsExact | src/history_import.rs:83-94 | in the extended format the command is what follows the first semicolon; a time stamp or duration that cannot be read counts as missing or 0, and a duration past the range saturates |
| HistoryFormat.ZshFieldsPlain | src/history_import.rs:78-80 | any other line is a command as a whole |
| HistoryFormat.ZshRoundTrip | src/history_import.rs:66-105 | writing records as `: ts:dur;command` or plain lines and parsing them gives the same records if and only if they are well formed, whatever colons and semicolons the command holds, saturated durations included |
| HistoryImport.NameInjective | src/core.rs:72-88 | the NUL-separated name determines all its parts when user and device hold no NUL; the command may hold anything |
| HistoryImport.UnmistakableIff | src/core.rs:72-88 | for one and the same command record, no other user and device make the same name if and only if neither the user nor the device holds a NUL |
| HistoryImport.SoleIff | src/core.rs:72-88 | among all names of all command records, a name belongs to one user and device only if and only if neither of them holds a NUL and the command does not, at its start or behind a NUL of its own, read like a whole command record |
| HistoryImport.MasksHoldNul | src/core.rs:80-83 | a command without NUL never reads like a record, so clean names of such commands are never mistaken |
| HistoryImport.NameClash | src/core.rs:84-86 | an instance: two users and devices that share a name for every command record |
| HistoryImport.ImportIntoStore | src/history_import.rs:152-233 | Ok: the database equals one insert of all accepted entries and received = skipped + inserted + ignored; on a bad time stamp or a database error exactly the full batches of 2000 before it are stored |
| HistoryImport.TakenEntry | src/history_import.rs:190-218 | field by field what an imported entry is: its id by name, its own time stamp or one second before now for each record after it, user, device, trimmed command, directory, exit code, duration, shell, host and version |
| HistoryImport.UndatedKeepOrder | src/history_import.rs:141-150 | commands without time stamps keep their file order, and the last record is stamped now |
| HistoryImport.SkippedExact | src/history_import.rs:174-188 | exactly blank commands, calls of rr and commands the pattern matches are skipped |
| HistoryImport.BadDateExact | src/history_import.rs:190-192 | the import stops exactly at a record that is not skipped and whose time stamp lies outside years -9999 to 9999 |
| HistoryImport.JudgedRecords | src/history_import.rs:155-160 | the records judged are the last of the file, as many as the limit allows |
| HistoryImport.TakenPlaces | src/history_import.rs:204-232 | the stored entries are the taken ones in file order |
| ImportStability.IdExact | src/core.rs:72-88 | two records of one request share an id exactly if index, time stamp (missing counts as 0) and trimmed command agree |
| ImportStability.JudgedDistinct | src/core.rs:80-83 | no two commands of one file ever get the same id |
| ImportStability.LimitIsSuffix | src/history_import.rs:155-160 | an import with a limit treats the last n records exactly as the full import does, ids and made-up time stamps included |
| ImportStability.GrownKeepsIds | src/history_import.rs:185-193 | importing a grown file at another time repeats the earlier ids in order: neither the clock nor missing time stamps change them |
| ImportStability.GrownFileReimports | src/history_import.rs:152-233 | importing a grown file again ignores every earlier entry and inserts exactly the new ones; importing the same file again adds no row |
| ImportStability.HeadCutChangesIds | src/history_import.rs:96-102 | after any number k of commands is cut off at the head, a command keeps an id already used exactly if it repeats text and stamp of the command k places before it; a cut between a bash stamp and its command is included, and only then does a command, the first one left, change its stamp |
| Tracker.TrackerState.PruneExpired | src/tracker.rs:191-202 | keeps exactly the records of age at most the ttl, none for ttl 0, with the ttl wrapping in the cast |
| Tracker.TrackerState.Register | src/tracker.rs:114-151 | a blank or unreadable peer id is refused and changes nothing; otherwise expired peers go and this one is recorded with cleaned addresses |
| Tracker.CleanAddrsMembers | src/tracker.rs:130-135 | the addresses stored are the trimmed ones that are not blank |
| Tracker.CleanAddrsExact | src/tracker.rs:130-135 | and they keep their order |
| Tracker.TrackerState.List | src/tracker.rs:153-173 | expired peers go and the answer is the rest, or with a user given exactly those of the rest registered for that user |
| Tracker.EagerExact | src/tracker.rs:123-201 | after any requests the table holds exactly the latest registrations not expired at the last request |
| Tracker.EagerRefinesLazy | src/tracker.rs:123-201 | with a clock that never runs backwards every list answer equals the one computed from the whole history |
| Tracker.UnusableTtl | src/tracker.rs:191-202 | with ttl 0, or one past i64::MAX, every list is empty |
| Tracker.EagerMeetsLazyIff | src/tracker.rs:191-202 | expiry is invisible for every history exactly if the ttl is between 1 and i64::MAX |

## Left out

- The async twins of the two sync loops (src/sync.rs:127-184 and 249-306): they are the same loops.
- Driver.SyncPeers: takes the resolved peer list, with the cursor migration of `LocalStores.LocalStore.MigrateKey` already done. It returns which error case occurred, not the text of the last error. The HTTP driver's fixed limit of 1000 and its order of the two argument checks are the case of a positive limit.
- LocalStores.LocalStore.MigrateKey: only the two cursor tables; the peer book entry written after it is not modelled.
- HistoryImport.ImportIntoStore: a made-up time stamp before year -9999, which panics in the code and needs more than 10^11 records, is reported as a bad time stamp.
- Retry.RequestWithRetries: the disconnect between two attempts and which errors are retryable are taken from the transport's answer.
- Retry.ResolvePolicy: takes each value as already picked from command line, environment or file; unreadable environment values are left out.
- ReplicationRuns.PullLoopIsPath: the loop as a whole runs without other processes in between; `StoreCommitIsNext` and `SaveCommitIsNext` give the single commits among other processes. `PushLoopIsPath` likewise takes one run by itself.
- Text: a line's trailing carriage return is not split off, since every reader trims it anyway.
- Time stamps are whole seconds, as the database stores them.
- LocalStores.LocalStore.PruneEntriesOlderThan: one call without another process in between; `PruneLosesNothing` and `DeletedWereCounted` cover the interleaved case. Without any floor (no push cursor, and keep_recent 0 or an empty table) old entries stored between count and delete are deleted uncounted.
- Encodings and sizes: JSON, zstd and size limits appear only as the too-large outcome (for HTTP status 413, section 15.5.14 of RFC 9110); reading error texts to classify them is left out.
- The network: libp2p, dialing, relays, pre-shared keys and HTTP servers are replaced by arbitrary answers.
- The peer book, status reports, hooks, search, configuration, upload and prune markers, URL normalising and tracker authorisation: short members beside the replication core.
- The order of peers in a tracker answer, which is a hash map's.
