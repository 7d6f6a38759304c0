# Antwatcher: what keeps deliveries, proved

Antwatcher takes GitHub webhooks, puts them on a bus and hands them to sinks. Its promise is
"nothing is dropped, redelivery is safe". This project models the code that carries the promise
and proves, for every run and every input, what that code keeps. Where the code falls short of a
promise, below, one lemma gives the failing case and another says exactly when the promise holds.

Run `dafny verify dfyconfig.toml` in this directory to check everything.

## How the parts are modelled

- **Archive store** (`ArchiveDisk`, `ArchiveFiles`, `ArchiveStore`, `ArchiveRuns`). The disk is an object with
  one method per system call. Each call may fail, and the disk records the tree after every call. The
  store is an object over it whose methods follow the code. `Life` runs stores, appends, closes and
  crashes in any order, a crash inside any call included, and follows every acknowledged line;
  `LifeOfFiles` does the same for the finished files, key by key.
  Disk assumption: create, rename and remove are atomic and survive a crash; a crash keeps the synced
  prefix of a file and may lose or garble the bytes behind it; an fsync that returned nil synced them.
  Compression is a copy that can be interrupted. A record is a line: one newline, at its end.
  Acknowledged lines need two hypotheses: an age limit (`RotateEvery > 0`) or a reliable Truncate after a
  failed append, and a stat that finds nothing being right.
- **Recovery loop** (`Deliveries`, `GroupOrder`, `Recovery`, `RecoveryBounds`,
  `RecoveryFairness`, `RecoveryRepeats`, `RecoveryLoop`, `RecoveryRuns`). GitHub's attempts are a set that only
  grows and becomes visible at most `late` after an attempt was made. A run is a sequence of completed
  listings, failed scans and restarts. `HookLoop` is the loop with its fields; `PagesAreListed` ties the
  pages GitHub serves and one scan of the loop to one step of a run, and `Drive` any sequence of scans and
  restarts of the object to a whole run.
- **Open once, close once** (`SingleFlight`, `OpenOnce`, `OpenOutcomes`). Each critical section, open, close and channel
  operation is one step, and the lemmas hold over every interleaving of any number of callers. The forward
  publisher and the BigQuery writer share the protocol.
- **Delivery to a sink** (`SinkHandler`, `NakBackoff`, `Consumer`). The handler and its stalled set are
  objects. The broker is a clock, a message that is ready, handed out or gone, and any number of hand-outs.
  `NakDelay` is computed in 64-bit words.
- **Codecs, identities, ordering, retry** (`Wrappers`, `Decimal`, `ByteSize`, `Envelope`, `Forward`, `Identity`,
  `CurrentView`, `Projection`, `OtlpRetry`). Decimal integers are modelled for real, RFC 3339 text (section 5.6
  of RFC 3339) is a pair of functions, and SHA-256 is any function from texts.

## Where the code and its promises differ

1. After a failed Truncate with `RotateEvery` 0, the next acknowledged record can be merged into the
   leftover of a failed one (`MergedLineExample`); exactly when is `LeftoverUnmergedIff`.
2. `exists` takes any stat error for "not there". A wrong answer for the plain name overwrites a finished file
   (`OverwriteLosesLine`); one for the compressed name makes the compression delete the file just renamed
   (`TwinLosesLine`), or, when the stat of the compression is wrong as well, overwrite the twin
   (`TwinOverwritten`). Finishing a file keeps every line exactly when the name is free (`FinishKeepsIffFree`).
   With compression off a twin does no harm until a later start with compression on (`LaterCompressionLosesLine`).
3. A rotation fsyncs only when it cuts, so a clean leftover that was never fsynced is finished as it is, and a
   later crash can tear it (`TornExample`); exactly when is `FinishedSurvivesIff`.
4. A GUID that failed again after a 2xx can enter ahead of one already due (`ComebackRun`) and push it past the
   bound on waiting (`StarvingRun`). Order and bound hold in every run exactly when the overlap is shorter than
   the grace period (`FairIffShortOverlap`, `NeverStarvesIff`); the defaults are on the other side
   (`DefaultsCanStarve`).
5. A listing that meets an empty page stops there, and misses what is behind it (`EmptyPageHidesAttempt`);
   exactly when is `ListingIsExactIff`.
6. A bus whose attempt panicked after opening it is never closed (`PanicLeaks`), and no other
   (`ClosedExactlyOnce`).
7. `NakDelay` can miss the capped doubling for bounds its validation accepts (`ValidBoundsCanMiss`); exactly
   when is `AlwaysIdealIff`.
8. A replay of an older event can overwrite a newer row of the current view when status rank and event time tie
   (`ReplayOverwritesExample`); exactly when is `ReplayKeepsWinnerIff`.
9. Two deliveries can share the text behind a forwarded copy's UUID when a delivery GUID holds a colon
   (`TextCanCollide`); exactly when is `TextSharedIff`.
10. The one-minute cap of the OTLP backoff does not hold for the first retry of a longer base, nor for a base of
   2^62 ns and more, whose doubling wraps (`BackoffIsCappedIff`); the delay in every case is `BackoffIsExactly`.
11. Grouping depends on the order of a listing when an attempt has no id (`OrderMattersForZeroID`); exactly when
   is `OrderIrrelevantIff`.

## Model

| member | source | states |
|---|---|---|
| ArchiveRuns.Life | internal/sink/archive/jsonl.go:118-432 | in every run, crashes inside any call included, after every single call each acknowledged line is durable, whole, unmerged and in a place of its own |
| ArchiveRuns.LifeOfFiles | internal/sink/archive/jsonl.go:118-432 | in every run, whatever each crash leaves: finished files keep ending in a newline and, with right stats, keys keep what they stored until a crash tears a file of that very key; a key with nothing unsynced keeps it through every crash; a compressed file has nothing unsynced; with one RotateSize the size bound holds while crashes only lose bytes |
| ArchiveRuns.CrashSomewhere | internal/sink/archive/jsonl.go:405-432 | a crash at any call, leaving anything a crash may leave, keeps every line acknowledged by then and leaves a record that counts as a run |
| ArchiveRuns.RunFromEmpty | internal/sink/archive/jsonl.go:118-432 | from an empty tree every key no crash tore is in shape, and once its compressed file stands alone what a key stores never changes |
| ArchiveDisk.SafeAfterAck | internal/sink/archive/jsonl.go:186-200 | a line written and fsynced at a line boundary gets a place no other acknowledged line uses, and moves none |
| ArchiveDisk.SafeIfMoved | internal/sink/archive/jsonl.go:311-346 | the rename into a free name carries every acknowledged line along |
| ArchiveDisk.SafeIfCarried | internal/sink/archive/jsonl.go:278-401 | a change that carries each place's lines keeps all acknowledged lines safe |
| ArchiveDisk.SafeIfPartChanged | internal/sink/archive/jsonl.go:160-275 | changing the open file alone is safe while it keeps its durable lines |
| ArchiveDisk.GrowKeepsLines | internal/sink/archive/jsonl.go:186-190 | bytes written after them leave durable lines alone |
| ArchiveDisk.FlushKeepsLines | internal/sink/archive/jsonl.go:191-194 | an fsync keeps every durable line |
| ArchiveDisk.ShortenKeepsLines | internal/sink/archive/jsonl.go:262-272 | a cut at the synced length or at the last newline loses no durable line |
| ArchiveDisk.CrashKeepsLine | internal/sink/archive/jsonl.go:405-432 | a durable line survives every crash where it is |
| ArchiveDisk.CrashKeepsSafe | internal/sink/archive/jsonl.go:405-432 | every acknowledged line survives every crash |
| ArchiveDisk.LinesDisjoint | internal/sink/archive/jsonl.go:186-200 | whole lines at different places of a file never share a byte |
| ArchiveDisk.AppendUnmergedIffClean | internal/sink/archive/jsonl.go:186-200 | an appended line stands by itself exactly when the file ended at a line boundary |
| ArchiveRuns.ShapeSurvivesCrashIffSettled | internal/sink/archive/jsonl.go:278-346 | a finished file keeps ending in a newline through every crash exactly when nothing in it is unsynced |
| ArchiveRuns.FinishedSurvivesIff | internal/sink/archive/jsonl.go:278-346 | a rotation leaves a file a crash can tear exactly when the open file was unsynced, needed no cut, and stays plain |
| ArchiveRuns.TornExample | internal/sink/archive/jsonl.go:405-432 | a line written but not fsynced, a process crash, a repair that finishes the file as it is, and a machine crash that tears it |
| ArchiveDisk.CutEnd | internal/sink/archive/jsonl.go:505-525 | the longest prefix that is empty or ends in a newline |
| ArchiveStore.LastNewline | internal/sink/archive/jsonl.go:528-547 | the backward scan finds the end of the last whole line, however the chunks fall |
| ArchiveStore.Store.CutPartialLine | internal/sink/archive/jsonl.go:505-525 | success leaves exactly the longest newline-terminated prefix, durable; failure leaves that or the file as it was |
| ArchiveStore.Store.NextKey | internal/sink/archive/jsonl.go:311-346 | the sequence search ends with a number neither a plain nor a compressed file has, skipping only taken ones |
| ArchiveStore.Store.Compress | internal/sink/archive/jsonl.go:352-374 | the plain file goes only once a complete compressed twin is in place, nothing else changes; when no call but its stat fails, the exact tree, for a stat that is right and one that is wrong |
| ArchiveStore.Store.PlaceTwin | internal/sink/archive/jsonl.go:352-374 | success leaves exactly the complete durable twin beside the plain file |
| ArchiveStore.Store.BuildGzip | internal/sink/archive/jsonl.go:352-374 | success puts a complete durable twin in place and no temporary file; failure leaves at most a temporary one |
| ArchiveStore.Store.WriteGzip | internal/sink/archive/jsonl.go:377-401 | success leaves a complete synced temporary copy; only the temporary file changes |
| ArchiveStore.Store.Finalize | internal/sink/archive/jsonl.go:311-346 | the open file moves whole to a fresh dated name, overwriting none when stats are right |
| ArchiveStore.Store.Move | internal/sink/archive/jsonl.go:330-346 | success renames the file whole, and leaves the exact tree after rename and compression when no call but the stat of the compression fails, whatever stood at the name |
| ArchiveStore.Store.Rotate | internal/sink/archive/jsonl.go:278-306 | success moves the repaired open file, bytes and sync state, under the first record's second; failure leaves it or its whole lines |
| ArchiveStore.Store.RotateOut | internal/sink/archive/jsonl.go:286-306 | the file is removed if it holds no whole line, else cut and fsynced only when it ends inside one, then renamed as it is |
| ArchiveStore.Store.Open | internal/sink/archive/jsonl.go:242-258 | opening changes no byte, and content of unknown age has no opening time, so an age limit rotates it next |
| ArchiveStore.Store.Abandon | internal/sink/archive/jsonl.go:262-272 | after a failed write the file is as before it, or, if Truncate failed, as the write left it |
| ArchiveStore.Store.Put | internal/sink/archive/jsonl.go:186-194 | success appends and syncs the line; failure appends a prefix of it |
| ArchiveStore.Store.PutOrAbandon | internal/sink/archive/jsonl.go:186-194 | a failed append leaves between nothing and the whole line behind, and nothing when Truncate is reliable |
| ArchiveStore.Store.WriteLine | internal/sink/archive/jsonl.go:186-200 | nil exactly for the acknowledged line, which is then durable; the first line dates the file |
| ArchiveStore.Store.Prepare | internal/sink/archive/jsonl.go:172-184 | what an append finds open, or the state a failed rotation or open leaves; a non-empty file is left for an empty one exactly when it would outgrow RotateSize, is RotateEvery old, or is of unknown age |
| ArchiveStore.Store.Append | internal/sink/archive/jsonl.go:160-204 | the whole new tree on success and on failure; the line starts a new file exactly when the old one would outgrow RotateSize, is RotateEvery old or of unknown age; with an age limit no line goes into an older file; and it fails only closed or through a fault |
| ArchiveStore.Store.Close | internal/sink/archive/jsonl.go:211-222 | the open file is finished once; a second Close repeats the result and touches nothing |
| ArchiveStore.Store.Sweep | internal/sink/archive/jsonl.go:447-484 | keeps what every finished name stores; without faults no temporary file stays, nor a plain one when compressing |
| ArchiveStore.Store.SweepPlain | internal/sink/archive/jsonl.go:466-484 | compresses every plain finished file, losing none whatever fails |
| ArchiveStore.Store.SweepTmp | internal/sink/archive/jsonl.go:447-465 | removes temporary files only, and all of them on success |
| ArchiveStore.Store.Recover | internal/sink/archive/jsonl.go:405-432 | a leftover open file is finished like a rotation and the tree is swept; a failure leaves the tree as it was, its open file cut, or the rotation done and part of the sweep |
| ArchiveStore.Store.OpenStore | internal/sink/archive/jsonl.go:118-148 | a store opens over any earlier run and its crash with every acknowledged line and finished file kept; it fails only through a fault, and leaves what Recover leaves |
| ArchiveFiles.AppendThrough | internal/sink/archive/jsonl.go:160-204 | preparing and writing together are one append |
| ArchiveFiles.RotatedStores | internal/sink/archive/jsonl.go:278-346 | with a right stat a rotation leaves exactly the whole lines under a key of their own, every other file alone |
| ArchiveFiles.RenameSafe | internal/sink/archive/jsonl.go:330-332 | the rename to a free name keeps every acknowledged line |
| ArchiveFiles.RenameTidy | internal/sink/archive/jsonl.go:330-332 | it finishes the file in shape and in size and changes no other finished content |
| ArchiveFiles.GrowHarmless | internal/sink/archive/jsonl.go:186-190 | a write of part of a line that fits keeps lines, shapes and sizes |
| ArchiveFiles.ShrinkHarmless | internal/sink/archive/jsonl.go:262-272 | a cut that keeps the durable lines keeps shapes and sizes |
| ArchiveFiles.PlainSuperseded | internal/sink/archive/jsonl.go:352-374 | a plain file may go once its twin stores the same |
| ArchiveFiles.TwinHarmless | internal/sink/archive/jsonl.go:352-374 | a complete twin beside its plain file endangers no line and no finished content |
| ArchiveFiles.LawfulUpholds | internal/sink/archive/jsonl.go:311-374 | between any two points of a run shape and content survive for keys no crash tore, and settled content survives every crash |
| ArchiveFiles.FittingStaysBounded | internal/sink/archive/jsonl.go:226-237 | while crashes only lose bytes every file stays within RotateSize or is a single line |
| ArchiveRuns.LeftoverUnmergedIff | internal/sink/archive/jsonl.go:226-275 | after a failed Truncate the next line is unmerged exactly when an age limit is set or the size limit rotates |
| ArchiveRuns.MergedLineExample | internal/sink/archive/jsonl.go:226-275 | with neither, an acknowledged line is merged into a leftover |
| ArchiveRuns.FinishKeepsIffFree | internal/sink/archive/jsonl.go:324-374 | finishing the open file under a name, with its compression and either answer of its stat, keeps every line no other file holds if and only if no plain file, nor with compression a compressed one, stands there |
| ArchiveRuns.SafeIsOnDisk | internal/sink/archive/jsonl.go:160-204 | an acknowledged line in place is on disk in a file that is not temporary |
| ArchiveRuns.OverwriteLosesLine | internal/sink/archive/jsonl.go:324-332 | a stat that wrongly finds no plain file lets a rename overwrite an acknowledged line |
| ArchiveRuns.TwinLosesLine | internal/sink/archive/jsonl.go:352-374 | one that wrongly finds no compressed file overwrites nothing, and the compression deletes the lines just renamed |
| ArchiveRuns.TwinOverwritten | internal/sink/archive/jsonl.go:352-374 | when the stat of the compression misses the twin too, the twin is overwritten and its lines are lost |
| ArchiveRuns.LaterCompressionLosesLine | internal/sink/archive/jsonl.go:466-484 | lines finished beside a twin without compression are on disk until a start with compression removes them |
| Deliveries.Group | internal/recovery/decide.go:19-34 | one entry per non-empty GUID: its latest attempt by time, then id, and whether any attempt got a 2xx |
| Deliveries.FoldIsSummary | internal/recovery/decide.go:19-34 | the fold is the summary of the set of attempts |
| Deliveries.GroupedByGuid | internal/recovery/decide.go:19-34 | in plain terms: one entry per non-empty GUID listed, with its latest attempt by time, then id, and whether any status was 200 to 299 |
| GroupOrder.OrderIrrelevantIff | internal/recovery/decide.go:19-34 | every order groups alike if and only if for each GUID the newest attempt has a non-zero id or all attempts share time and id |
| GroupOrder.DecidedIgnoresOrder | internal/recovery/decide.go:19-34 | then repetition does not matter either |
| GroupOrder.GroupIgnoresOrder | internal/recovery/decide.go:19-34 | with no zero id any order and repetition of the attempts groups alike, repeated ids or not |
| GroupOrder.UndecidedDependsOnOrder | internal/recovery/decide.go:19-34 | otherwise two orders of the same attempts group differently |
| GroupOrder.OrderMattersForZeroID | internal/recovery/decide.go:19-34 | for instance an attempt without an id, newer than another |
| Deliveries.ListDeliveries | internal/ghclient/client.go:139-163 | the paging loop returns what following the cursors yields, or fails |
| Deliveries.TakePage | internal/ghclient/client.go:148-157 | a page is taken up to its first attempt older than since |
| Deliveries.ListFromChain | internal/ghclient/client.go:139-163 | for any split into pages the listing is the recent prefix of the log before the first empty page |
| Deliveries.ListingIsExact | internal/ghclient/client.go:139-163 | over non-empty pages a listing that returns holds exactly the attempts at or after since; it fails only past the page cap |
| Deliveries.ListingIsExactIff | internal/ghclient/client.go:139-163 | with empty pages it is exact exactly when everything behind the first of them is older |
| Deliveries.FaultsOnlyFail | internal/ghclient/client.go:139-163 | faults of single calls make a listing fail or change nothing in it |
| Deliveries.EmptyPageHidesAttempt | internal/ghclient/client.go:139-163 | three pages, the second empty, whose listing misses the recent attempt on the third |
| Recovery.PendingIsExact | internal/recovery/recovery.go:261-309 | after every completed listing of every run a GUID without a 2xx is pending exactly when its newest visible attempt is within the lookback, and pending entries hold exactly that attempt |
| Recovery.RunKeepsCache | internal/recovery/recovery.go:245-309 | cache and log agree throughout every run |
| Recovery.StepKeepsCache | internal/recovery/recovery.go:245-309 | one scan, failure or restart keeps cache and log agreeing |
| Recovery.MergeKeepsCache | internal/recovery/recovery.go:290-309 | merging a window of the log keeps each entry true and each owed entry there |
| RecoveryBounds.ExactIffCovered | internal/recovery/recovery.go:261-309 | every run keeps the pending set exact if and only if attempts show up within the overlap or the overlap covers the lookback |
| RecoveryBounds.MissedWhenLate | internal/recovery/recovery.go:261-266 | otherwise there is a run in which an attempt shows up behind the window of the scan that could first list it |
| RecoveryBounds.LostForGood | internal/recovery/recovery.go:261-309 | however that run goes on without a restart the attempt is in no window, and its GUID is never pending while it has no other attempt |
| RecoveryBounds.WindowsAdvance | internal/recovery/recovery.go:261-266 | until a restart the windows of every run only move forward, however late attempts show up |
| RecoveryBounds.LateIsNeverPending | internal/recovery/recovery.go:261-309 | a GUID whose only attempt was made before a past window is never pending until a restart |
| Recovery.RequestsAreSpaced | internal/recovery/recovery.go:290-371 | two accepted requests for a GUID are at least grace minus visibility delay apart over any run of one process |
| Recovery.StepSpacing | internal/recovery/recovery.go:320-371 | a repeated request comes no sooner than that after the last accepted one |
| Recovery.RunKeepsRequests | internal/recovery/recovery.go:290-371 | requests are remembered, or outlived by newer attempts, throughout every run |
| Recovery.MergeKeepsRequests | internal/recovery/recovery.go:290-309 | a merge forgets a request only where an attempt made after it takes over |
| Recovery.NoStarvation | internal/recovery/recovery.go:315-371 | a due, never-requested GUID with k ahead of it is asked for within ceil((k + 1) / MaxPerScan) served scans |
| Recovery.PassedOver | internal/recovery/recovery.go:315-371 | each served scan that passes it over takes MaxPerScan off those ahead |
| RecoveryRepeats.AskedAgain | internal/recovery/recovery.go:315-371 | a GUID whose accepted request brought no attempt is asked for again: from the first scan past its grace period, within (k + m) / MaxPerScan further served scans, k in front of it then and m entering meanwhile |
| RecoveryRepeats.ServedAgain | internal/recovery/recovery.go:320-350 | a served scan asks for such a GUID or for MaxPerScan of those never requested, requested longer ago, or as long ago with an older attempt |
| RecoveryRepeats.OnlyEntrantsCutIn | internal/recovery/recovery.go:290-345 | a merge puts only newly pending GUIDs in front of a requested one |
| Recovery.ServedRivals | internal/recovery/recovery.go:334-350 | a served scan asks for the GUID or for MaxPerScan of those ahead of it |
| Recovery.NoNewRivals | internal/recovery/recovery.go:290-350 | nobody new sorts ahead of a GUID already due, given a short overlap or no comebacks |
| Recovery.EntrantIsYounger | internal/recovery/recovery.go:290-309 | whoever enters the pending set failed after any GUID already due |
| Recovery.StaysPending | internal/recovery/recovery.go:290-309 | a pending GUID without new attempts keeps its entry through a merge while within the lookback |
| RecoveryBounds.FairIffShortOverlap | internal/recovery/recovery.go:261-350 | in no run does anybody new sort ahead of a waiting GUID if and only if the overlap is shorter than the grace period |
| RecoveryBounds.ComebackRun | internal/recovery/recovery.go:261-350 | otherwise there is a run in which a GUID with a 2xx and a later failure enters ahead of a due one |
| RecoveryFairness.NeverStarvesIff | internal/recovery/recovery.go:261-371 | the bound on waiting holds in every run of served scans if and only if the overlap is shorter than the grace period |
| RecoveryFairness.StarvingRun | internal/recovery/recovery.go:261-371 | otherwise there is a run of two served scans that leaves a GUID due behind 2 * MaxPerScan - 1 others unasked |
| RecoveryFairness.PassedOverByMany | internal/recovery/recovery.go:334-350 | a served scan does not ask for a GUID with MaxPerScan others ahead |
| RecoveryFairness.DefaultsCanStarve | internal/config/config.go:186-195 | the default overlap and grace allow such a run for every MaxPerScan |
| RecoveryBounds.DefaultsCanBeJumped | internal/config/config.go:186-195 | the default lookback, overlap and grace allow such a run |
| RecoveryLoop.HookLoop.Merge | internal/recovery/recovery.go:290-309 | the loops over maps compute exactly the merged and unexpired entries |
| RecoveryLoop.HookLoop.Candidates | internal/recovery/recovery.go:321-345 | exactly the GUIDs past the grace period since their newest attempt and since their last accepted request, in request order |
| RecoveryLoop.HookLoop.Redeliver | internal/recovery/recovery.go:315-385 | exactly those are in line, never-requested first, then the least recently requested, then the oldest attempt; each accepted request is stamped and counted; the result is ok exactly when all were accepted, and rate limited exactly when a limit ended the loop |
| RecoveryLoop.HookLoop.Ask | internal/recovery/recovery.go:351-385 | a rate limit or interruption ends the loop, another refusal does not |
| RecoveryLoop.HookLoop.Scan | internal/recovery/recovery.go:245-284 | a failed listing changes nothing; a completed one merges, then redelivers |
| RecoveryLoop.HookLoop.Visit | internal/recovery/recovery.go:245-284 | a scan lists from the start of its window, then merges and redelivers, or changes nothing |
| RecoveryLoop.ScanIsListed | internal/recovery/recovery.go:245-284 | a scan given its window of the log is a step of the run model, and a served one when all requests are accepted |
| RecoveryLoop.PagesAreListed | internal/recovery/recovery.go:261-284 | pages that hold the visible attempts with nothing new behind an empty page, listed from the start of the window, merged and answered, are a step of the run model |
| RecoveryRuns.Drive | internal/recovery/recovery.go:213-284 | any sequence of scans and restarts of the object, listings failing anywhere, goes through the states of a run of the model, and after a completed listing the object holds exactly the GUIDs owed |
| RecoveryRuns.VisitIsEvent | internal/recovery/recovery.go:245-284 | one scan of the object is one event of the model, a failed scan exactly when the listing fails |
| RecoveryLoop.InsertedIsSorted | internal/recovery/recovery.go:334-345 | the request order stays sorted under the three-part comparison |
| RecoveryLoop.SortedIsOrder | internal/recovery/recovery.go:334-345 | a sorted list of the due GUIDs is the request order of the run model |
| RecoveryLoop.AllGranted | internal/recovery/recovery.go:351-385 | when every request is accepted every GUID left by the cap is granted |
| SingleFlight.Flight.DoEnter | internal/sink/singleflight.go:33-60 | the locked section of Do hits, waits or starts exactly as the slot says |
| SingleFlight.Flight.AttemptLeave | internal/sink/singleflight.go:70-88 | the cleanup clears the call and keeps the value only of an attempt that succeeded |
| SingleFlight.Flight.PeekLook | internal/sink/singleflight.go:107-130 | the locked section of Peek starts nothing |
| OpenOnce.OneOpenAtATime | internal/sink/singleflight.go:32-88 | in every interleaving at most one open runs, the call is set exactly while one does, and at most one ever succeeds |
| OpenOnce.KeptForGood | internal/sink/singleflight.go:32-130 | the kept value is that open's result, every caller gets it, and it never changes |
| OpenOnce.NoDeadlock | internal/sink/singleflight.go:32-130 | after any failures, panics and cancellations some unfinished call can always move on |
| OpenOnce.WaitersReleased | internal/sink/singleflight.go:70-88 | a waiter whose attempt has ended can always wake |
| OpenOnce.ClosedExactlyOnce | internal/sink/forward/drivers/bus/driver.go:350-401 | once Close began and all calls returned each opened bus was closed exactly once, save one whose attempt panicked after the open |
| OpenOnce.PanicLeaks | internal/sink/singleflight.go:70-88 | a run with a panic after the open, a Close and every call returned, whose bus was never closed |
| OpenOnce.NeverClosedEarlyOrTwice | internal/sink/analytics/drivers/bigquery/writer.go:177-245 | nothing is closed before Close starts, twice, or without having been opened |
| OpenOnce.LostIffPanicked | internal/sink/singleflight.go:70-88 | a bus is lost exactly when its attempt panicked after opening it |
| OpenOnce.EveryRunKeepsInv | internal/sink/forward/drivers/bus/driver.go:321-401 | the ownership invariant holds throughout every interleaving |
| OpenOnce.StepKeepsExclusive | internal/sink/singleflight.go:32-88 | every step keeps one attempt at most and one success at most |
| OpenOnce.StepStrandsNobody | internal/sink/singleflight.go:32-130 | no step leaves a waiter on a channel that will never close |
| OpenOnce.StepKeepsClosesInv | internal/sink/forward/drivers/bus/driver.go:350-401 | every step keeps each bus's close count what its owner owes it |
| OpenOnce.StepKeepsShutInv | internal/sink/forward/drivers/bus/driver.go:384-401 | once Close has looked and found nothing no attempt keeps a bus any more |
| OpenOutcomes.LatePublishIsRefused | internal/sink/forward/drivers/bus/driver.go:350-356 | a Publish that begins once Close has set the flag only looks at the flag: it never opens, uses or produces a bus |
| OpenOutcomes.ClosedForGood | internal/sink/forward/drivers/bus/driver.go:384-390 | a closed owner stays closed |
| OpenOutcomes.PublishReturnsFor | internal/sink/singleflight.go:32-88 | a Publish that returned used the bus, unless its caller gave up, its own attempt failed or panicked, or Close came before it reached the slot |
| OpenOutcomes.UsedIsKept | internal/sink/singleflight.go:32-60 | the bus a Publish uses is the one the slot keeps, opened and not lost |
| SinkHandler.Handler.Handle | internal/sink/router.go:247-293 | acks exactly nil and errors that wrap ErrSkipped; undecodable messages and permanent failures alone are stalled, with their reason and time; counts exactly one result; touches no other entry |
| SinkHandler.Handler.Succeeded | internal/sink/router.go:295-310 | a success clears its message and dates the sink |
| SinkHandler.Handler.Stall | internal/sink/router.go:312-322 | a permanent failure is recorded and counted |
| SinkHandler.StalledSet.Record | internal/sink/stalled.go:71-91 | the new set, with the cap, and when a failure is logged; both gauges agree with it |
| SinkHandler.StalledSet.Clear | internal/sink/stalled.go:93-104 | removes exactly that message; both gauges agree |
| SinkHandler.StalledSet.PublishLocked | internal/sink/stalled.go:136-147 | the gauges show the set's size and whether it is empty |
| SinkHandler.NeverOverCap | internal/sink/stalled.go:71-104 | after any sequence of messages at most 1000 entries |
| SinkHandler.EntriesAreTracked | internal/sink/stalled.go:71-104 | a tracked message's attempts are its permanent failures since it was tracked, with no success since |
| SinkHandler.EntriesShowLastFailure | internal/sink/stalled.go:71-104 | a tracked message shows the reason and time of its last permanent failure, with only transient failures since |
| SinkHandler.TrackedIffFailing | internal/sink/router.go:295-322 | only messages with a permanent failure and no later success are tracked, and exactly those while the cap was never met |
| Consumer.LeavesOnlyAccepted | internal/bus/natsjs/subscriber.go:117-162 | in every run a message that is gone had a Process call return nil or an error that wraps ErrSkipped |
| Consumer.AckedIffProcessed | internal/bus/natsjs/subscriber.go:117-162 | an answered hand-out is acked exactly for nil and ErrSkipped, and nacked otherwise |
| Consumer.AckedIsGone | internal/bus/natsjs/subscriber.go:117-162 | once an ack arrived the message is never handed out again |
| Consumer.NakDelays | internal/bus/natsjs/subscriber.go:117-162 | a nacked message comes back exactly after its delay, one nacked at shutdown at once |
| Consumer.StaysUntilAccepted | internal/bus/natsjs/subscriber.go:117-162 | until then it is handed out again after some wait |
| Consumer.NoOverlap | internal/bus/natsjs/subscriber.go:117-162 | while the ack wait leaves room for the process timeout and the margin, at most one hand-out of a message is in hand in a timely run, so no two Process calls overlap |
| Consumer.NeverOverlapsIff | internal/bus/natsjs/config.go:146-153 | that room is exactly what it takes, and every validated ack wait has it |
| Consumer.OverlapWithoutRoom | internal/bus/natsjs/config.go:146-153 | without it there is a timely run with two Process calls at once |
| NakBackoff.NakDelay | internal/bus/natsjs/config.go:158-167 | the delay stays within the two bounds for every delivery count, wrap-around included |
| NakBackoff.NakDelayIsIdealIff | internal/bus/natsjs/config.go:158-167 | for one delivery count, exactly when it is the capped doubling |
| NakBackoff.AlwaysIdealIff | internal/bus/natsjs/config.go:158-167 | for two bounds it is at every count exactly when max <= min * 2^62 and no shift from 1 to 61 overflows to a number that differs by a multiple of 2^64 from one between the bounds |
| NakBackoff.NakDelayIsIdeal | internal/bus/natsjs/config.go:158-167 | it is for every count when 2^k divides the minimum, min * max < 2^(63 + k) and max <= min * 2^62 |
| NakBackoff.NeverAliased | internal/bus/natsjs/config.go:158-167 | under the first two no wrapped shift falls between the bounds |
| NakBackoff.DefaultDelays | internal/bus/natsjs/config.go:78-89 | the 5s and 5m defaults qualify with k = 9 |
| NakBackoff.DefaultDelaySteps | internal/bus/natsjs/config.go:78-89 | 5s, 10s, 20s, 40s, 80s, 160s, then 5m |
| NakBackoff.ValidBoundsCanMiss | internal/bus/natsjs/config.go:105-167 | validated bounds for which the delay is not the capped doubling |
| Decimal.ParseFormat | internal/event/message.go:35-61 | parsing what was formatted gives the number back for every int64 |
| Decimal.FormatInjective | internal/model/ids.go:88-94 | two numbers never share their text |
| Identity.Join | internal/model/ids.go:88-94 | the formatted ids with colons between them |
| Identity.JoinedInjective | internal/model/ids.go:88-94 | the joined string determines the list of ids |
| Identity.TextInjective | internal/model/ids.go:26-94 | distinct entities hash distinct strings, within and across namespaces and record kinds |
| Identity.SameIDSameEntity | internal/model/ids.go:26-86 | under a collision-free hash equal ids mean the same entity |
| Identity.RecordTextsIdentify | internal/model/ids.go:96-127 | run, job and step record strings never meet and each determines its keys |
| Envelope.ToMessage | internal/event/message.go:35-61 | payload, UUID and exactly the entries of the envelope |
| Envelope.EntriesOf | internal/event/message.go:35-61 | the four required entries always, each optional one exactly when its field is not empty, and no other |
| Envelope.RefusedFor | internal/event/message.go:63-143 | a refused message lacks the entry it is refused for, or has one that does not read as it should |
| Envelope.RoundTrip | internal/event/message.go:35-143 | decoding undoes encoding exactly for the well-formed envelopes with a readable time, under any transport UUID |
| Envelope.DecodedIsWellFormed | internal/event/message.go:63-143 | whatever decodes is well-formed and keeps the payload; the UUID matters only without a GUID entry |
| Envelope.Reencode | internal/event/message.go:35-143 | a decoded message encoded again decodes alike |
| Envelope.EncodingIsInjective | internal/event/message.go:35-143 | two well-formed envelopes never share a message |
| Envelope.EncodingIsUnique | internal/event/message.go:35-61 | one envelope has one metadata map |
| Envelope.KeysDiffer | internal/event/message.go:11-26 | no two metadata keys share their text |
| Forward.New | internal/sink/forward/sink.go:53-67 | the hop limit of an accepted sink is positive |
| Forward.Process | internal/sink/forward/sink.go:90-100 | refuses exactly at the limit, else publishes a message that decodes to the delivery with one hop more |
| Forward.CopyMessage | internal/sink/forward/sink.go:103-110 | the copy carries the whole envelope under the derived UUID |
| Forward.HopCounts | internal/sink/forward/sink.go:90-110 | one hop changes only the two forward markers, within the sink's limit |
| Forward.ChainIsBounded | internal/sink/forward/sink.go:90-110 | along any chain of copies the delivery is kept, hops are counted, and hops made plus chain length stay within the limits |
| Forward.TryHop | internal/sink/forward/sink.go:90-110 | a well-formed delivery moves on exactly while below the limit |
| Forward.TextTellsTarget | internal/sink/forward/sink.go:121-124 | copies of one delivery by other sinks or to other topics hash other texts |
| Forward.TextTellsDelivery | internal/sink/forward/sink.go:121-124 | so do copies of other deliveries while no GUID holds a colon |
| Forward.TextSharedIff | internal/sink/forward/sink.go:121-124 | the texts of any two copies agree if and only if deliveries, sinks and topics do, or one GUID continues the other after a colon and the shorter one's sink and topic are what follows it |
| Forward.TextCanCollide | internal/sink/forward/sink.go:121-124 | with a colon in a GUID two deliveries can share the text |
| ByteSize.ParseByteSize | internal/config/bytesize.go:47-72 | the digit loop and the overflow guard give the size the text means |
| ByteSize.NeverWraps | internal/config/bytesize.go:47-72 | a spelled size with a known unit reads as the true product, and is refused exactly when that does not fit |
| ByteSize.SpelledUnits | internal/config/bytesize.go:29-44 | kb, mb, gb, tb are powers of 1000, lone letters and kib, mib, gib, tib powers of 1024, in any case |
| ByteSize.EmptyOrNoNumberIff | internal/config/bytesize.go:47-60 | a text is empty exactly when it is all spaces, and has no number exactly when a non-digit comes first behind them |
| ByteSize.OnlySpellingsParse | internal/config/bytesize.go:47-72 | nothing but such spellings is read |
| ByteSize.RoundTrip | internal/config/bytesize.go:47-89 | a printed size reads back exactly when it is not negative |
| ByteSize.String | internal/config/bytesize.go:76-89 | the unit loop prints the text of the size |
| ByteSize.PrintedInLargestUnit | internal/config/bytesize.go:76-89 | TiB, GiB, MiB or KiB, the largest that fits and divides the size, else bytes |
| ByteSize.Best | internal/config/bytesize.go:80-88 | the largest unit that fits and divides, bytes otherwise |
| CurrentView.NumberOneIffWins | internal/sink/analytics/schema.go:160-164 | a row can be numbered one exactly when no row of its record outranks it |
| CurrentView.AppendRow | internal/sink/analytics/schema.go:154-164 | one more row replaces the winner exactly when it outranks it, or may on a tie |
| CurrentView.ViewExists | internal/sink/analytics/schema.go:154-164 | every log has a view |
| CurrentView.ViewIgnoresOrder | internal/sink/analytics/schema.go:154-164 | permuting and repeating rows leaves every winner's key, and the winner itself when keys are distinct |
| CurrentView.AppendIsJoin | internal/sink/analytics/schema.go:154-164 | the view of two logs together is the record-wise maximum of their views |
| CurrentView.AppendMovesUp | internal/sink/analytics/schema.go:154-164 | adding rows only moves winners up |
| CurrentView.OlderRowsChangeNothing | internal/sink/analytics/schema.go:154-164 | adding strictly older rows leaves exactly the same views |
| Projection.Project | internal/sink/analytics/record.go:200-218 | one row per run event, one per job and step of a job event in order, and what is skipped; what each row says and is about follows in the next rows |
| Projection.RowsShareRecordIff | internal/sink/analytics/record.go:200-311 | rows of any two events share a record exactly when they are about the same run, the same job, or the same-numbered step of the same job |
| Projection.RunRowSays | internal/sink/analytics/record.go:220-250 | status, times, whole-millisecond queue time and duration of a run row, and its event time by status or else its receipt |
| Projection.JobRowSays | internal/sink/analytics/record.go:252-281 | the same of a job row |
| Projection.StepRowSays | internal/sink/analytics/record.go:283-311 | the same of a step row, which falls back to the job's status and event time |
| Projection.RowsOfOneEvent | internal/sink/analytics/record.go:200-311 | the rows of one event are about different records exactly when its step numbers differ |
| Projection.StatusRank | internal/model/status.go:28-39 | the top rank is the completed status alone |
| Projection.EventTimeIsSet | internal/model/ids.go:139-208 | event times are never zero |
| Projection.CompletedStays | internal/sink/analytics/schema.go:154-164 | once any event reported an entity completed the view shows it completed, in any order |
| Projection.StatusNeverFallsBack | internal/model/status.go:28-39 | in the view started work never looks queued again, nor work of a known state like one of unknown state |
| Projection.ProjectedRowsAreRanked | internal/sink/analytics/record.go:220-311 | every projected row's rank is that of the status it carries |
| Projection.ReplayedEventTime | internal/model/ids.go:139-208 | a redelivered event keeps its event time exactly when its payload dates it |
| Projection.ReplayKeepsWinnerIff | internal/sink/analytics/schema.go:154-164 | exactly when a replayed row leaves the winner in place |
| Projection.ReplayOverwritesExample | internal/sink/analytics/schema.go:154-164 | a replayed queued event hides the later waiting state |
| Projection.ReplayAfterCompletion | internal/sink/analytics/schema.go:154-164 | replaying any other state of a completed entity changes nothing |
| OtlpRetry.Export | internal/otlp/client.go:184-218 | at most Attempts + 1 attempts, in time when attempts honour theirs, each retry after a retryable failure with its own wait, permanent exactly when the last failure is not retryable while the context lives |
| OtlpRetry.ExportIsAsSpecified | internal/otlp/retry.go:53-78 | only 429, 502, 503, 504 and the retryable gRPC codes are retried, each after the server's Retry-After or RetryInfo or else the backoff; the others are permanent; giving up has one of three reasons |
| OtlpRetry.TimeIsBounded | internal/otlp/client.go:184-218 | retried rounds take at most two timeouts each |
| OtlpRetry.Sleep | internal/otlp/client.go:236-248 | a sleep ends after its delay or with the context, whichever is first |
| OtlpRetry.Backoff | internal/otlp/retry.go:124-136 | the doubling loop, wrap-around included |
| OtlpRetry.BackoffIsCappedDoubling | internal/otlp/retry.go:124-136 | min(base * 2^(n - 1), 1 minute) for every base up to a minute |
| OtlpRetry.BackoffIsExactly | internal/otlp/retry.go:124-136 | for every positive base a minute once a doubling passed it, else base * 2^(n - 1) in 64 bits |
| OtlpRetry.BackoffIsCappedIff | internal/otlp/retry.go:124-136 | the cap holds for the first retry exactly for bases up to a minute, for all later ones of longer bases exactly below 2^62, from where the second delay is negative |
| OtlpRetry.DefaultWaits | internal/otlp/config.go:98-107 | with the default policy an unreachable collector is waited for half a second, then one second |

## Left out

- Append: the context check and the encoding of an envelope before the lock; a record is any line.
- ArchiveStore.Store.Open: which time the first line of a leftover file carries is arbitrary, so is the clock.
- ArchiveStore.Store.Sweep: the file name pattern and files of other owners in the tree; a tree holds only the store's files.
- ArchiveStore.Store.NextKey: numbers are unbounded, as are sizes and times in the store.
- ArchiveRuns.LifeOfFiles: a crash that garbles an unsynced tail may also change how many lines it holds, so the size bound is claimed while crashes only lose bytes.
- Directory fsync results, file modes and hardware behind an fsync are fixed by the disk assumption.
- RecoveryLoop.HookLoop.Candidates: sorts by insertion instead of the library sort; keys of different GUIDs never tie.
- RecoveryLoop.HookLoop.Scan: hook discovery is a scan that fails or has happened; pauses between requests, metrics and logging.
- RecoveryRuns.Drive: the several hooks of one loop are scanned one after another and share no state, so it follows one; ticks are any times that do not go back.
- Recovery.RequestsAreSpaced: a restart forgets requests by design, so spacing is per process.
- Recovery.NoStarvation: scans whose listing fails or whose requests are refused do not count; RecoveryRepeats.AskedAgain counts served scans too.
- OpenOnce.ClosedExactlyOnce: the publisher and the writer are the state of one step machine, not objects; the descriptor cache and table creation of the BigQuery writer, and what Close returns.
- OpenOnce.NoDeadlock: fairness of the scheduler; that some call can move, not that it is chosen.
- SinkHandler.StalledSet.Record: the sorted list and status rendering of stalled messages; reasons are kept, error values are not.
- Consumer.LeavesOnlyAccepted: the stream's retention by age, which also removes messages no sink accepted yet.
- Consumer.NoOverlap: broker and process share one clock; the in-flight limits and fetch loop of the subscriber.
- ByteSize.ParseByteSize: text is a sequence of Unicode characters; bytes that are not UTF-8 are left out.
- Envelope.RoundTrip: RFC 3339 text is any pair of functions, and the lemma asks that the one instant reads back.
- Forward.Process: what the publisher does with the message; its error is returned unchanged.
- Identity.SameIDSameEntity: truncation of SHA-256 to 16 and 8 bytes; the hash is any collision-free function.
- Projection.Project: columns copied from the model unchanged (names, branches, labels, runner, URLs) and duration saturation.
- OtlpRetry.Export: partial success counting, and the transports; an attempt is how long it took and how it failed.
- OtlpRetry.Sleep: timers fire on time.
- Parsing of the Retry-After header, whose seconds are multiplied in 64 bits.
- HTTP, gRPC, TLS, gzip bytes, protobuf, JSON and YAML, the NATS server and client, Watermill and the BigQuery clients.
- Configuration validation beyond the ack-wait margin, registries, capability policy, redaction, the receiver and admin listeners, the gochannel driver, lag polling, and trace and log projections: straight-line checks, finite tables or thin layers over libraries.
