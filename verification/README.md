# Verified models of the server space manager

A Dafny model of the stateful algorithms of the monitoring daemon: the directory
walk and its "largest files" heap, the sample store with its scan loop and trend
queries, the Telegram command bot's polling protocol, the notifier's dedupe map,
the dashboard's sessions, rate limiter and trigger guard, and the filter behind the
AI review. `dafny verify dfyconfig.toml` checks all of it.

## What is modelled

* **Heap** (`BigFiles`, `Ordering`): container/heap's `up`, `down`, `Push` and `Fix`
  in place on an array, and the collector on top. Two ghost fields record every file
  considered and those dropped; the class invariant says the heap order holds and
  that held and dropped files split the stream with nothing dropped larger than
  anything held. That determines the reported sizes: the `cap` largest.
* **Walk** (`Paths`, `FileTree`, `Attribution`, `HostWalk`): the real path strings,
  with `filepath.Clean`, `Dir` and `Join` written out, a directory tree with
  unreadable files and partial listings, ignore-pruning, the per-file ancestor loop
  and the `sizes` map. The map is proved equal to a recursive disk-usage report of
  the pruned tree, for any depth cap and any root for which the loop ends.
* **Dashboard lists** (`Samples`, `Summary`): `topN`, and scan-to-card composition.
* **Store and scan loop** (`Tables`, `Growth`, `Anomalies`, `Store`, `ScanLoop`,
  `OverlappingScans`):
  tables are sequences of rows in id order, times are whole seconds since Go's zero
  time, SQL ties are broken by row id and unspecified orders follow the table.
  Queries are loops over rows, proved against their declarative meaning. Retention is
  then proved invisible to the windowed queries over whole runs, with any mix of
  failing inserts and sweeps, and the exact retention that is needed is given. Scans
  take no common lock, so the restart is also proved over every interleaving of the
  insert, sweep, findings and publish steps of several scans.
* **Command bot** (`CommandBot`): the offset state machine against the server of the
  Telegram Bot API documentation, method `getUpdates` (a non-negative offset confirms
  lower ids, a negative one keeps only the tail), over every interleaving of
  arrivals, lost and successful polls, dispatches and restarts. The polling loop is
  proved to follow it.
* **Rate limiter** (`TokenBucket`), **swept maps** (`SweptMaps`, `Dedupe`, `Sessions`),
  **trigger guard** (`Triggers`): class methods proved against step functions, and
  theorems over all runs of those.
* **AI review** (`Review`): allowlist, in-place compaction, notifications.
* **Byte formatting** (`HumanBytes`): the unit loop on 64-bit integers.

Inputs that come from outside are parameters: the clock, the file tree, `statfs`
and Docker results, the model's parsed answer, random tokens, pattern matching and
every failure.

`sort.Slice` is modelled by the same insertion sort as the anomaly query's own loop;
the callers' contracts use only that it yields a descending permutation.

## Where the code and its comments or users disagree

Each is stated as the exact condition under which the code does what is promised.

* The anomaly query's comment says a spiking item cannot inflate its own baseline.
  It cannot if and only if its newest row is not also the row nearest to 24 hours ago,
  or that row is the baseline row too (`Anomalies.SpikeProofIff`; a table where it
  does is in `Anomalies.SpikeHidesItself`).
* The review's comment says any pair not shown to the model is dropped. That holds if
  and only if no shown key contains `|` (`Review.AllowlistExactIff`).
* The walk's ancestor loop ends if and only if the configured path is absolute, has at
  least two components, or is a cleanly written directory; `x/` never ends
  (`Attribution.AncestorLoopEndsIff`). The map gets an entry outside the root, for `/`,
  if and only if the root is absolute, has one component, is written like `/srv/` or
  is a file, and some file survives (`HostWalk.OutsideEntryIff`).
* The bot's comment says a startup backlog is skipped. All of it but the last update
  is, over every run (`CommandBot.OnlyTheLastOfTheBacklog`); the last one is fetched if
  and only if the server still queued the backlog at boot and nothing arrived before
  the first non-empty reply (`CommandBot.BacklogUpdateIff`). A process dispatches an
  update of an earlier one again if and only if that was the last one dispatched, is
  still queued and nothing arrived since (`CommandBot.RestartRepeatsIff`).
* Sweeping the dedupe map is meant to drop only what no longer matters. No verdict of
  any run depends on it if and only if clocks run at most one tick behind each other
  under the lock (`Dedupe.VerdictsAgreeIff`).
* `human` is wrong for the smallest int64, whose negation wraps (`HumanBytes.ShowSigned`).
* A snapshot is published even when its insert failed; a restart then shows an older
  scan (`ScanLoop.RestoreRoundTripIff`). The alerts are never restored
  (`ScanLoop.ScanAndRestart`). When scans overlap, a restart brings back what was shown
  if and only if that scan's insert succeeded, with samples, and no scan that started
  later stored any (`OverlappingScans.RestoredUnlessOvertaken`); a slow scan can be
  shown and then lost (`OverlappingScans.SlowScanIsOvertaken`).

## Model

| member | source | states |
|---|---|---|
| `BigFiles.Up` | internal/scanner/bigfiles.go:54 | sifting up repairs a heap whose one bad link is at the given index, as a permutation of the same prefix of the array |
| `BigFiles.Down` | internal/scanner/bigfiles.go:59 | sifting down repairs the links around an index or reports that nothing moved, leaving the array as it was |
| `BigFiles.Fix` | internal/scanner/bigfiles.go:57-60 | restores the heap order after any one element was overwritten |
| `BigFiles.RootIsSmallest` | internal/scanner/bigfiles.go:14-17 | the element at index 0 bounds every element of a heap from below |
| `BigFiles.BigFilesHeap.constructor` | internal/scanner/bigfiles.go:41-45 | a new collector is valid and has seen nothing |
| `BigFiles.BigFilesHeap.Push` | internal/scanner/bigfiles.go:24-25 | heap push keeps the order and adds exactly the element, growing the slice when full |
| `BigFiles.BigFilesHeap.ReplaceRoot` | internal/scanner/bigfiles.go:58-59 | overwriting the smallest file and fixing index 0 leaves a heap of the same files with that one exchanged |
| `BigFiles.BigFilesHeap.Consider` | internal/scanner/bigfiles.go:49-61 | keeps the invariant: heap order, length min(cap, n), held plus dropped equal the stream, nothing dropped larger than anything held; a file joins below the cap and otherwise takes the place of the smallest only if it is strictly larger |
| `BigFiles.BigFilesHeap.Sorted` | internal/scanner/bigfiles.go:65-70 | a descending permutation of the held files, whose sizes are exactly the cap largest of everything considered |
| `BigFiles.HeldAreLargest` | internal/scanner/bigfiles.go:33-35 | the invariant alone determines the reported sizes as the top cap of the stream |
| `Ordering.LargestIgnoresOrder` | internal/scanner/bigfiles.go:33-35 | the top n depends on the multiset of sizes, not on the order of the walk |
| `Ordering.KeptAreLargest` | internal/scanner/bigfiles.go:47-48 | a split of a multiset with nothing dropped above anything kept is its top n |
| `Ordering.TopOfTop` | internal/api/server.go:735-738 | the top k of the top m is the top k for k at most m |
| `Ordering.SinkLast` | internal/store/sqlite.go:329-331 | the inner loop inserts the next element behind all with no smaller key, moving nothing else |
| `Ordering.InsertionSortDesc` | internal/store/sqlite.go:327-332 | the in-place double loop computes the stable descending sort |
| `Ordering.SortDescCorrect` | internal/store/sqlite.go:327-332 | that sort is descending, a permutation, and keeps the order within equal keys |
| `Ordering.StableDescUnique` | internal/store/sqlite.go:327-332 | no other sequence is descending and keeps every group's order |
| `Paths.ParseRender` | internal/scanner/host.go:63 | reading a cleaned path string gives back its components |
| `Paths.CleanIdempotent` | internal/scanner/host.go:63 | a cleaned path string is already clean |
| `Paths.CleanRules` | internal/scanner/host.go:63 | what a further separator, ".", ".." or name at the end of any non-empty path string does to its components |
| `Paths.CleanStarts` | internal/scanner/host.go:63 | what the shortest path strings clean to |
| `Paths.RenderChild` | internal/scanner/host.go:97 | a cleaned path string is its parent's, one separator and the last component |
| `Paths.JoinAddsComponent` | internal/scanner/host.go:66 | the path string of a directory entry is its directory's, cleaned, plus one component |
| `Paths.DepthIsSepCount` | internal/scanner/host.go:63 | the number of separators in a cleaned path, which cannot tell "/" from "/a" |
| `Paths.DirIsParent` | internal/scanner/host.go:97 | the directory of a cleaned path is its parent, with "/" and "." their own |
| `FileTree.PruneWellFormed` | internal/scanner/host.go:70-75 | pruning keeps entry names proper and distinct |
| `FileTree.FilesInListingOrder` | internal/scanner/host.go:66 | the walk goes through the entries of a directory in listing order |
| `FileTree.TotalAbove` | internal/scanner/host.go:84-98 | a directory at or above a subtree collects exactly the subtree's recursive usage |
| `FileTree.TotalBelow` | internal/scanner/host.go:84-98 | a directory inside a subtree collects exactly the recursive usage of the node its name path leads to |
| `Attribution.AncestorLoopEndsIff` | internal/scanner/host.go:85-98 | the ancestor loop breaks after finitely many iterations if and only if the root is absolute, has two components or is a cleanly written directory |
| `Attribution.CapCountsLevels` | internal/scanner/host.go:91 | the depth cap limits how many levels a directory lies below the root, "/" counting as one level like its entries |
| `Attribution.IterationAt` | internal/scanner/host.go:87-97 | what each string comparison of one iteration decides, in terms of path levels |
| `Attribution.ChargeLevel` | internal/scanner/host.go:87-97 | one iteration charges its level if it lies within the cap, and breaks exactly when the lowest level is charged, else climbs one level |
| `Attribution.ChargeAncestors` | internal/scanner/host.go:84-98 | the loop over path strings ends having charged the levels from the file's own directory up to the lowest one, which is the root's except for the "/" case |
| `Attribution.ChargedIsAdded` | internal/scanner/host.go:87-97 | charging those levels adds the size once to every ancestor within the cap, under its clean path string, and to no other key |
| `Attribution.ChargedIsUnder` | internal/scanner/host.go:84-98 | per-file charging over a file list adds up to the bytes under each directory in the charged range |
| `HostWalk.Walk.VisitFile` | internal/scanner/host.go:79-98 | one file feeds the heap and brings the map's tallies up to date |
| `HostWalk.Walk.Visit` | internal/scanner/host.go:66-100 | the walk charges and considers exactly the readable files left by ignore-pruning, in walk order |
| `HostWalk.Walk.VisitKids` | internal/scanner/host.go:66-100 | the same for the entries of a directory, in listing order |
| `HostWalk.SurvivesIff` | internal/scanner/host.go:70-82 | a file is found at a path and with a size exactly when following the names leads to a readable file of that size and no name on the way is ignored |
| `HostWalk.FilesAreApart` | internal/scanner/host.go:66 | files found below a root directory carry their clean path strings, and no two are at the same place |
| `HostWalk.ChargedIsDu` | internal/scanner/host.go:62-113 | what is charged to a directory is its entry in the recursive disk-usage report of the pruned tree |
| `HostWalk.TalliesAreDu` | internal/scanner/host.go:62-113 | the final map is that report: same keys, same values |
| `HostWalk.RootEntryIsTotal` | internal/scanner/host.go:62-113 | the map's entry for a root directory is the sum of the sizes of all surviving files, and is missing if there are none |
| `HostWalk.OutsideEntryIff` | internal/scanner/host.go:87-96 | the map has an entry outside the root if and only if a file survives and the root is absolute with one component and not cleanly written or itself a file; it is then exactly "/" with the total |
| `HostWalk.TrailingSlashReportsParent` | internal/scanner/host.go:87-96 | both sides of that condition at "/srv/" and "/srv" |
| `HostWalk.RelativeTrailingSlashSticks` | internal/scanner/host.go:85-98 | for the root "x/" the loop never ends, for "x" it does |
| `HostWalk.ListSizes` | internal/scanner/host.go:102-111 | one sample per map entry, in some order, with the directory as key and label and the entry as bytes |
| `HostWalk.WalkPath` | internal/scanner/host.go:62-113 | its samples are the disk-usage report of the pruned tree: one for exactly the clean directory strings with a report entry, with those bytes; the shared heap has seen the surviving files |
| `HostWalk.ScanPaths` | internal/scanner/host.go:40-42 | the reports of all paths one after the other, each sample an entry of some report and each entry in a sample with its bytes, with one heap over all of them |
| `HostWalk.ListBigFiles` | internal/scanner/host.go:48-56 | samples that name files the heap has seen, as many as the cap allows, in descending order of bytes, with every file larger than a named one named |
| `HostWalk.Scan` | internal/scanner/host.go:36-58 | all samples carry the scan's time; the directory samples are every path's report entries with their bytes, mounts come through, and the big-file samples name surviving files with the 20 largest sizes of all paths together |
| `Summary.TopN` | internal/api/server.go:728-744 | the items' sizes are the n largest of the kind in descending order, and each item shows the key, label and bytes of a sample of the kind |
| `Summary.ScanToTopFiles` | internal/api/server.go:558 | the card of 15 shows exactly the 15 largest surviving files of all paths, although the scanner keeps 20 and other scanners' samples are mixed in |
| `CommandBot.RunKeepsInv` | internal/alert/telegram_bot.go:98-127 | over every run, dispatched and fetched updates are consecutive stretches of the arrivals, the offset is just past the last dispatched one, and everything later is still queued |
| `CommandBot.DispatchedOnceInOrder` | internal/alert/telegram_bot.go:121-126 | dispatched ids strictly increase, have no gaps from the first one on, and nothing that arrived later is lost |
| `CommandBot.OnlyTheLastOfTheBacklog` | internal/alert/telegram_bot.go:156-160 | over every run, restarts included, the only update of the startup backlog any process dispatches is its last one |
| `CommandBot.BacklogUpdateIff` | internal/alert/telegram_bot.go:156-160 | the first non-empty reply of any process, whatever came before it, carries an update of its backlog if and only if its boot queue was not empty and nothing arrived before that poll |
| `CommandBot.BacklogBoundary` | internal/alert/telegram_bot.go:156-160 | one boot with both outcomes: the backlog's last update is dispatched, or, after one arrival, none of it |
| `CommandBot.PollProgress` | internal/alert/telegram_bot.go:103-126 | one served poll and its dispatches handle exactly as many more updates as its limit and the outstanding ones allow |
| `CommandBot.PollsDrain` | internal/alert/telegram_bot.go:103-126 | after the first non-empty poll, with any arrivals and any mix of served, lost and failed polls, what is outstanding follows from arrivals and limits alone, and all that was outstanding at first is handled if and only if the polls had room for that many |
| `CommandBot.QuietPollsDrain` | internal/alert/telegram_bot.go:103-126 | when nothing more arrives, the polls leave outstanding exactly what their limits did not cover; with none left, all arrivals are handled |
| `CommandBot.ServedPollsDrain` | internal/alert/telegram_bot.go:103-126 | as many served polls as updates are outstanding handle all of those, with any positive limits and whatever arrives meanwhile |
| `CommandBot.RestartsDoNotGoBack` | internal/alert/telegram_bot.go:98-101 | no process dispatches an id below one dispatched by an earlier process |
| `CommandBot.RestartRepeatsIff` | internal/alert/telegram_bot.go:98-101 | after any run, the first non-empty reply of any process carries an update dispatched by an earlier one if and only if the queue still ends in the last one dispatched |
| `CommandBot.RestartRepeats` | internal/alert/telegram_bot.go:98-101 | the shortest run in which that happens |
| `CommandBot.Server.GetUpdates` | internal/alert/telegram_bot.go:131-132 | the documented server: of growing ids a non-negative offset keeps queued exactly those at or above it, -1 exactly the last, and the reply is the front of the rest up to the limit |
| `CommandBot.CommandBot.Poll` | internal/alert/telegram_bot.go:130-162 | leaves skip-backlog mode exactly on the first non-empty reply; an error changes no offset |
| `CommandBot.CommandBot.Dispatch` | internal/alert/telegram_bot.go:121-126 | every update of a reply is handled once, in order, with the offset moved past it |
| `CommandBot.CommandBot.Run` | internal/alert/telegram_bot.go:98-127 | over any schedule of turns the handled updates strictly increase and are the arrivals from the first one handled up to what is still queued |
| `Tables.DeleteBefore` | internal/store/sqlite.go:342 | deletes exactly the rows older than the cutoff, keeps the order and counts them |
| `Growth.EarliestSince` | internal/store/sqlite.go:209 | the correlated minimum: the earliest time of the item since the given one |
| `Growth.LatestOfItem` | internal/store/sqlite.go:215 | the correlated maximum: the latest time of the item |
| `Store.Store.Insert` | internal/store/sqlite.go:124-142 | all rows, in order behind the old ones and with consecutive ids, or none and no id used |
| `Store.Store.InsertFindings` | internal/store/sqlite.go:79-100 | the same for findings, row by row, an empty batch always succeeding |
| `Store.Store.Prune` | internal/store/sqlite.go:341-353 | prunes both tables and counts the rows removed; a failing second statement leaves the first one's effect |
| `Store.PrunedRows` | internal/store/sqlite.go:341-353 | exactly the rows older than the cutoff go, from the samples first; a failing statement leaves its table and the one after it alone |
| `Growth.QueryGrowth` | internal/store/sqlite.go:204-235 | the nested loops compute the join of the earliest row since a time with the latest row of each key, by delta, cut at the limit |
| `Growth.JoinedAreGrowths` | internal/store/sqlite.go:206-219 | what is sorted is exactly, for each item of the kind, its newest row's key, label and bytes and the growth since its oldest row from that time on |
| `Growth.ResultIsTopGrowth` | internal/store/sqlite.go:218-221 | the result is a descending arrangement, by delta, of exactly those growths, one for each item unless it was stored twice for one time; nothing cut off at the limit has a larger delta than anything kept |
| `Growth.StaleItemsDoNotJoin` | internal/store/sqlite.go:212-219 | an item with no row in the window contributes nothing although the "last" subquery has no time bound |
| `Growth.PruningKeepsGrowth` | internal/store/sqlite.go:204-221 | pruning up to the window's start does not change the query |
| `Growth.GrowthTransparentIff` | internal/store/sqlite.go:204-221 | for all tables that holds if and only if the cutoff is no later than the window's start |
| `Growth.LatestScan` | internal/store/sqlite.go:155-177 | all samples of the newest time, and that time |
| `Growth.ResultIsNewestFindings` | internal/store/sqlite.go:102-108 | exactly the findings since the time, newest first, cut only at the limit, where nothing cut off is newer than anything kept |
| `Growth.PruningKeepsFindings` | internal/store/sqlite.go:103-108 | pruning up to the window's start does not change the recent findings |
| `Anomalies.FindFirst` | internal/store/sqlite.go:280-282 | one pass finds the row with rank 1: smallest cost, ties to the lowest row |
| `Anomalies.FilterRows` | internal/store/sqlite.go:303-323 | the loop keeps, in order, exactly the rows that pass both filters |
| `Anomalies.WindowMeans` | internal/store/sqlite.go:283-286 | the rows ranked are exactly those of the kind since the start of the baseline days and the last 24 hours |
| `Anomalies.RankedRows` | internal/store/sqlite.go:280-282 | the three rows of a key are its newest, the one nearest to 24 hours ago and the one nearest to the window's start, ties to the first |
| `Anomalies.AnomalyMeans` | internal/store/sqlite.go:290-318 | key, label and bytes are the newest row's; delta is its growth since the day-ago row; baseline times days is the growth before that, or 0; ratio times baseline is delta, and 999 without a baseline |
| `Anomalies.FiguresPass` | internal/store/sqlite.go:309-322 | for positive days both filters pass if and only if delta reaches the minimum and delta times days reaches minRatio times the earlier growth, or there is none and minRatio is at most 999 |
| `Anomalies.BaselineAnomalies` | internal/store/sqlite.go:265-337 | the loops, filters, sort and cut compute the declarative result; zero days is an error once there is a row |
| `Anomalies.ReportedRow` | internal/store/sqlite.go:265-337 | every reported row shows the figures of one key of the window, and they pass |
| `Anomalies.PassingKeyIsReported` | internal/store/sqlite.go:265-337 | without a limit every key whose figures pass is reported |
| `Anomalies.ZeroDaysFail` | internal/store/sqlite.go:291-308 | a baseline of zero days fails the query if and only if there is a row to rank |
| `Anomalies.ResultIsTopByRatio` | internal/store/sqlite.go:302-336 | the result is a prefix of the stable descending arrangement of the result rows of exactly the keys that pass both filters, one row for each by first appearance, cut only by a positive limit |
| `Anomalies.DroppedAreSmaller` | internal/store/sqlite.go:327-335 | nothing cut off has a larger ratio than anything kept |
| `Anomalies.PruningKeepsAnomalies` | internal/store/sqlite.go:283-286 | pruning up to the baseline window's start does not change the result |
| `Anomalies.AnomaliesTransparentIff` | internal/store/sqlite.go:265-300 | with the filters in use, for all tables that holds if and only if the cutoff is no later than that start |
| `Anomalies.EarlyCutoffInventsASpike` | internal/store/sqlite.go:312-318 | a cutoff inside the baseline window reports a steadily growing item as new growth |
| `Anomalies.LateCutoffHidesASpike` | internal/store/sqlite.go:309-311 | a cutoff inside the last day hides a spike |
| `Anomalies.SpikeProofIff` | internal/store/sqlite.go:260-261 | the latest bytes do not influence an item's baseline if and only if the latest row is not the day-ago row, or that is the base row too |
| `Anomalies.SpikeHidesItself` | internal/store/sqlite.go:260-261 | a table where they do: one row at the start of the window and one a day ago |
| `Anomalies.LargerSpikeStaysFlagged` | internal/store/sqlite.go:309-322 | with a separate latest row, growing further never takes a flagged item off the list |
| `Anomalies.QuietItemIsNeverReported` | internal/store/sqlite.go:287-295 | an item whose latest row is its day-ago row, as with a single row or with none in the last day, has grown by nothing and is not reported for a positive minimum delta |
| `ScanLoop.Daemon.RunScan` | cmd/ssm/main.go:568-605 | insert, prune, record findings and publish, each failure as the code treats it |
| `ScanLoop.SamplesOfScan` | cmd/ssm/main.go:573-581 | after a scan the samples are those before and, unless the insert failed, the scan's own, less what a sweep that worked deletes |
| `ScanLoop.FindingsOfScan` | cmd/ssm/main.go:586-599 | the last findings are one for each fired message, in order, with kind and key "rule", severity "warn", source "rules" and the scan's time |
| `ScanLoop.Daemon.Restore` | cmd/ssm/main.go:194-207 | publishes the newest scan of the store, or nothing from an empty one or when the query fails |
| `ScanLoop.RunKeepsSame` | cmd/ssm/main.go:573-581 | over every run the pruned database has the full history's rows from any time no sweep passed |
| `ScanLoop.RetentionHidesNoAnomaly` | cmd/ssm/main.go:576-581 | keeping at least one day more than the baseline, the anomaly query after any run equals the one on the full history |
| `ScanLoop.SweptRunIsCutHistory` | cmd/ssm/main.go:576-581 | after a run whose last sweep did not fail, both tables are exactly the full history from that sweep's cutoff on, whatever failed before |
| `ScanLoop.RetentionDaysIff` | cmd/ssm/main.go:576-581 | with the filters in use, the anomaly query after every run of scans in step equals the one on the full history if and only if nothing is ever swept or one day more than the baseline is kept |
| `ScanLoop.RetentionHidesNoGrowth` | cmd/ssm/main.go:576-581 | growth and recent findings since any time no sweep passed are those of the full history |
| `ScanLoop.RetentionGrowthIff` | cmd/ssm/main.go:576-581 | growth after every run of scans in step equals the one on the full history if and only if nothing is asked for, nothing is swept, or the window lies within what is kept |
| `ScanLoop.RetentionFindingsIff` | cmd/ssm/main.go:576-581 | the same for the recent findings |
| `ScanLoop.RestoreRoundTripIff` | cmd/ssm/main.go:189-207 | after any timely run ending in a non-empty scan, a restart restores the published time and samples if and only if that scan's insert succeeded |
| `ScanLoop.ScanAndRestart` | cmd/ssm/main.go:194-207 | scan, then restart: the new process shows the published snapshot without its alerts, or nothing if the query fails |
| `OverlappingScans.TakenAtScan` | cmd/ssm/main.go:573-581 | after any interleaving of scans the table holds, of a scan's time, exactly its samples if they were stored and not swept since, else none |
| `OverlappingScans.OverlapRestoreIff` | cmd/ssm/main.go:194-207 | after any interleaving, a restart brings back the time and samples shown if and only if that scan's samples are kept and no scan that started later has any in the table |
| `OverlappingScans.RestoredUnlessOvertaken` | cmd/ssm/main.go:599-605 | when no scan starts a whole retention later: if and only if its insert succeeded, with samples, and no scan that started later stored any |
| `OverlappingScans.InTurnIsRun` | cmd/ssm/main.go:558-605 | whole scans one after the other are one such interleaving, with the same database and snapshot as the scan loop's run |
| `OverlappingScans.SlowScanIsOvertaken` | cmd/ssm/main.go:148 | a scan that starts first and finishes last is shown, and a restart does not bring it back |
| `TokenBucket.TokenBucket.Take` | internal/api/server.go:179-196 | refill, clamp, phase and grant as the step function says, and nothing else changes |
| `TokenBucket.NoRefillBefore` | internal/api/server.go:183-189 | a clock that went back, or has not reached the next refill, adds nothing |
| `TokenBucket.RunAligns` | internal/api/server.go:184-190 | over every run tokens stay between 0 and capacity and the reference tick is less than one refill behind the last call |
| `TokenBucket.TicksAreOneBatch` | internal/api/server.go:184-188 | clamped single ticks compose to one clamped batch |
| `TokenBucket.LazyAnswersLikeEager` | internal/api/server.go:163-166 | every call of every run gets the answer of a bucket that adds a token at each tick |
| `TokenBucket.Accounting` | internal/api/server.go:179-196 | grants plus tokens left never exceed the initial tokens plus the ticks passed |
| `TokenBucket.GrantsSinceStart` | internal/api/server.go:96-99 | grants since construction are at most capacity plus elapsed time over refill |
| `TokenBucket.GrantsInWindow` | internal/api/server.go:96-99 | grants in any window are at most capacity plus its length over refill plus one |
| `TokenBucket.WindowBoundIsReached` | internal/api/server.go:183-189 | that bound is reached |
| `TokenBucket.PatientCallerIsGranted` | internal/api/server.go:191-195 | with any capacity, a call a full refill after the previous one is granted |
| `SweptMaps.Sweep` | internal/alert/telegram.go:45-52 | the deleting loop leaves exactly the entries not before the cutoff |
| `Dedupe.Telegram.SweepLocked` | internal/alert/telegram.go:45-52 | drops exactly the entries older than the window |
| `Dedupe.Telegram.Send` | internal/alert/telegram.go:56-70 | the gate's verdict and the new map for every call, configured or not |
| `Dedupe.RunForgetsOnlyOld` | internal/alert/telegram.go:45-52 | over every run, in any clock order, the map lacks only sends older than the window at a clock value already seen |
| `Dedupe.AcceptedSendsAreSpaced` | internal/alert/telegram.go:60-69 | if no clock is more than a lag behind one seen under the lock, successive accepted sends of a key are at least the window minus that lag apart |
| `Dedupe.SuppressedIff` | internal/alert/telegram.go:60-69 | with no clock more than a tick behind another, a call is suppressed if and only if its key's last accepted send came less than a window before it |
| `Dedupe.EveryVerdictAgrees` | internal/alert/telegram.go:60-69 | with no clock more than a tick behind another in lock order, every verdict is that of a map that is never swept |
| `Dedupe.LateRunSlipsThrough` | internal/alert/telegram.go:60-69 | a run over the cap in which a late clock gets a send through that the unswept map would suppress |
| `Dedupe.VerdictsAgreeIff` | internal/alert/telegram.go:60-69 | sweeping changes no verdict of any run if and only if clocks lag by at most one tick, or, for a negative window, by no more than its size |
| `Dedupe.SizeAfterAccept` | internal/alert/telegram.go:14-18 | after an accepted send the map is no larger than the cap or the keys accepted within the window |
| `Sessions.SessionTable.NewSession` | internal/api/server.go:115-134 | a failing random source changes nothing; else the token is valid for 30 days, and at the cap of 1024 exactly the expired ones are gone |
| `Sessions.SessionTable.ValidSession` | internal/api/server.go:139-154 | true exactly for a stored token that has not expired; a refused token is forgotten and no other |
| `Sessions.SessionTable.RevokeSession` | internal/api/server.go:157-161 | removes the token and nothing else |
| `Sessions.AdmitsExactlyTheValid` | internal/api/server.go:136-161 | after any run a token is admitted exactly when it was issued, not revoked and has not outlived its TTL |
| `Sessions.SizeAfterLogin` | internal/api/server.go:107-114 | after a login the map is no larger than the cap or the valid sessions |
| `Triggers.TriggerGuard.Handle` | internal/api/server.go:351-381 | after any events, "POST only" for another method, "unavailable" for an unwired trigger, and otherwise busy exactly while a job of its kind is live, else it starts one; a refusal changes nothing |
| `Triggers.TriggerGuard.Cleanup` | internal/api/server.go:372-376 | after any events, a job's clean-up leaves no job of its kind live and the next wired POST starts one, while other kinds keep theirs |
| `Triggers.OneJobPerKind` | internal/api/server.go:345-381 | in every interleaving a kind's flag is up exactly while its last started job is live, and starts minus completions is then 1, else 0 |
| `Triggers.NeverTwo` | internal/api/server.go:362-369 | no two jobs of one kind are live together |
| `Triggers.BusyIff` | internal/api/server.go:363-367 | a wired POST is refused exactly while a job of its kind is live |
| `Triggers.KindsAreIndependent` | internal/api/server.go:345-350 | the reply to a request depends only on the events of its own kind |
| `Review.BuildAllow` | internal/aireview/aireview.go:88-115 | the loops allow exactly the strings of the pairs shown in the prompt |
| `Review.ShownIff` | internal/aireview/aireview.go:95-110 | a pair is shown exactly if its batch lists the key or it is an anomaly |
| `Review.AllowlistExactIff` | internal/aireview/aireview.go:87-88 | only shown pairs pass if and only if no shown key contains the separator |
| `Review.FilterInPlace` | internal/aireview/aireview.go:135-145 | the aliased compaction yields the allowed findings in order with severities clamped and never overwrites an unread one |
| `Review.KeptMember` | internal/aireview/aireview.go:137-144 | every survivor is an allowed finding of the answer, unchanged but that an unknown severity is "warn" |
| `Review.KeptPositions` | internal/aireview/aireview.go:137-144 | the survivors are exactly the allowed findings of the answer, in order, each with its kind, key and reason |
| `Review.NoticesSent` | internal/aireview/aireview.go:135-172 | one notice, in order, for exactly the allowed findings of the answer whose own severity is not "info", marked if it is "crit" |
| `Review.Notify` | internal/aireview/aireview.go:161-172 | notifications are exactly the non-info survivors, in order |
| `Review.Persist` | internal/aireview/aireview.go:147-159 | the survivors become the store's last findings with source "ai_review" and the time, or a failure leaves the store alone |
| `Review.RunReview` | internal/aireview/aireview.go:87-173 | all of that together, notices being sent even if persisting fails; with an exact allowlist every survivor was shown |
| `HumanBytes.UnitLoop` | internal/api/server.go:757-761 | div is the unit's power of 1024 with div <= b < 1024 div, the letter index is in range and nothing overflows |
| `HumanBytes.UnitsAreMonotone` | cmd/ssm/main.go:545-550 | a larger count never prints a smaller unit, nor a smaller whole part in the same unit |
| `HumanBytes.UnitTable` | internal/api/server.go:757-762 | the divisor and letter of each of the six ranges, from K to E |
| `HumanBytes.ShowBytes` | cmd/ssm/main.go:540-551 | a plain count below 1024, else the quotient by the divisor of its range with that letter |
| `HumanBytes.ShowSigned` | internal/aireview/aireview.go:350-369 | the same for both signs, except for the smallest int64 |

## Left out

- SQLite's text timestamps, sub-second times and time zones: times are whole seconds.
- The order SQL leaves open and sort.Slice's order of equal keys, beyond following the table.
- `Store.Latest`, `alert.Evaluate`, the digest, the report text and configuration defaults: they would only add easy members.
- HTTP, cookies, JSON, the LLM client, the Telegram transport, the Docker scanner and statfs: inputs or outputs here.
- The 24-hour expiry and the id reset after an idle week of the Telegram server.
- The chat check and command parsing of the bot's `handle`: a dispatched update is only recorded.
- int64 overflow of summed sizes in the walk, of bucket arithmetic and of clock differences: unbounded integers; the byte formatters do model int64.
- Float rounding: ratios and baselines are exact reals, and formatted quotients stay as a pair.
- Cron and Telegram commands, which start jobs without the trigger guard: exclusion covers HTTP-started jobs only.
- The Go memory model: each critical section is one step, in lock order.
- Overlapping scans that start at the same time, whose samples a restart would merge, and other steps between the two deletes of one sweep.
- A bucket with a negative capacity, and session tokens that repeat.
