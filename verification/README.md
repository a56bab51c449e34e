# A verified model of the command agent

The agent runs shell commands for many concurrent HTTP requests. This project models the parts of it whose
correctness depends on how steps of different requests interleave, and proves what they promise:

- **Command cache and run-command protocol** (`CommandCache`, `CacheHistory`, `RunProtocol`, `RunSessions`,
  `RunCache`, `RunHits`, `RunRequests`, `RunWitness`, `SessionStore`). The cache and the session store are classes,
  proved against value functions (`AfterGet`, `PutStep`, `Invalidated`, `AfterSet`). `RunProtocol.Step` uses the same
  functions as the steps of a machine in which any number of requests arrive, wait for their session's lock, look up,
  execute, invalidate, persist and store in any order. The world that commands see is an arbitrary value. It changes
  arbitrarily often while an uncached request is running, while the agent downloads or drops the files of an upload,
  and when it removes the upload directory of a request that it has answered. A state is quiet when no command can be
  changing the world and no upload has changed it since the latest invalidation.
- **Audit chain** (`AuditEvent`, `AuditVerify`, `AuditTamper`, `Days`, `AuditSink`, `AuditRetention`, `AuditRun`,
  `AuditNumbers`, `AuditDisk`). `Verify` is a loop over four maps, proved against a definition of acceptance that is
  then shown to be a local property of neighbouring events. `FileSink` and `Trace` are classes with every failure of
  the disk as a parameter. `AuditRun` interleaves concurrent traces over one sink, `AuditDisk` follows their lines
  through day files, rotation and retention back to what the audit command answers about the directory.
- **Output capture, routing and links** (`Capture`, `Execution`, `Numerals`, `Links`, `Artifacts`, `ArtifactRun`). From
  the bytes a process writes to the answer and its links, and from the text of a link through publishing, cleanup and
  downloads in every interleaving back to the bytes.
- **Upload batch** (`UploadNames`, `UploadBatch`). File names, then the parallel downloads of one batch into one
  directory in every interleaving.

In each machine a run is a finite sequence of states from an initial one, each reached from the one before by one
step of one participant; a state is reachable if some run ends in it. A section that the program executes with a
mutex held is one step.

## Findings

Each is a lemma with a concrete input or an exact condition.

- The guard on `cache_ttl_seconds` multiplies in 64 bits before it compares, although the error text says "between 0
  and 60". It lets through exactly the values whose product reads as negative or as at most a minute
  (`TtlValidExactly`): 9223372037 passes and its response is never stored, 18446744074 passes and its response is stored
  for 290 ms (`TtlRangeFailsOnWrap`). Whatever passes, a stored entry lives at most 60 s (`StoredLifetime`). The same
  product in `requestTimeout` can give a request no time at all (`TimeoutInRange`, `TimeoutWraps`).
- The generation guard of the cache is exact up to 2^64 invalidations between a lookup and its store (`GuardIsExact`).
- A cache hit for a request with an explicit `workdir` reports a directory that it does not make the session's
  directory (`HitKeepsSessionDir`, an equivalence, and `HitLeavesSessionElsewhere`, a run of three requests in which
  this happens). In a quiet state a hit without an explicit `workdir` cannot be told from a fresh execution.
- The agent removes an upload directory after the second invalidation of its request, and the files of a failed batch
  without any second invalidation. A cached command of another session that has seen those files stays in the cache
  and is served although executing afresh would answer otherwise (`UploadLeavesStaleEntry`, a run in which no command
  is running at the hit). Without such a removal or download since the latest invalidation this cannot happen
  (`EntriesMatchTheWorld`), and only requests with uploads cause one (`StrayedNeedsUpload`).
- When a write to a capture fails because the disk is full, and the command fails too, what fits inline is answered
  without a mark and without a link although bytes are missing (`InlineIsComplete`, an equivalence, and
  `FullDiskAnswersIncomplete`).
- When a day changes and closing, opening or protecting a file fails, the sink is left with a closed file and every
  later append fails until the sink is closed (`FailedRotationIsFinal`, `RotationFailsHalfWay`, `CloseEndsIt`). The
  program closes it only when it ends.
- Retention skips a file that it cannot remove and goes on, so it can remove the middle one of three days. What is left
  of a chain then does not verify any more (`FailedRemovalLeavesHole`, `FailedRemovalIsRejected`). What is left of
  genuine chains verifies if and only if for no chain a file with lines of it was removed between two kept ones
  (`VerifiesIffNoHole`, `VerifiesIffNoChainHasHole`). It is the end of the log if and only if no kept file lies before a
  removed one, where empty files do not count (`SuffixIffFromFront`).
- An event written before a failed sync stays on disk while the chain head does not move, so the next write breaks
  the chain. Log acceptance is therefore proved as an equivalence that names this (`AcceptedIffNoGapAndSynced`).
- An event whose line reaches 2 MiB is written but makes every later `Read` of the directory fail (`LineReadsBack`).
- Trace keys are built by concatenation with NUL. Traces of two chains can share a key if and only if one chain ID,
  with a NUL, is the beginning of the other one with a NUL (`KeysCanCollide`); then valid chains can make an invalid log
  (`CollisionIsMisjudged`, `TwoEventsMisjudged`, `TraceKeysCollide`). Generated chain IDs are hexadecimal and
  do not meet this condition.
- A repeated request ID starts again at 1. When no append fails, the log is accepted if and only if no ID was used by two
  traces that both made a call (`AcceptedIffNoIdTwice`). When appends fail, two traces with one ID can look like one
  (`ReusedIdCanBeAccepted`): the log is accepted if and only if the recorded numbers under each ID follow one another
  and nothing follows a failed sync (`AcceptedIffConsecutive`).
- When the captured output of a command cannot be read back, its capture files stay until the next start. They are the
  only files that the store leaks (`FilesAreOwned`, `AbandonedStay`).
- A write of nothing to a full capture marks it as truncated (`EmptyWriteMarksTruncated`, `TruncatedExactly`). The copying
  goroutine never does this.
- De-duplicated upload names can still be equal: `3-a`, `a`, `a` (`NamesCanClash`, `DistinctIffNoClash`). Exclusive
  creation turns this into a failed batch, never into a mixed file (`BatchIsAllOrNothing`).

## Assumptions

They are hypotheses of the lemmas or guards of the machines' steps.

- Cache keys are compared as tuples and hashes of the audit chain by `Codec.CollisionFree`: SHA-256 has no collisions.
  Session keys and chain IDs are hexadecimal, hence free of NUL.
- JSON text reads back (`Faithful`, `RoundTrips`) and contains no NUL. This needs valid UTF-8 in commands, paths and
  event data. The UTF-8 decoder and encoder of the executor agree on decoded runes (`Text.Faithful`).
- Commands sent with a cache TTL only read the world, as the API requires, and one that saw an unchanging world and
  was not cut off by its time limit answers with a function of that world, its
  cache scope, its directory and the request. The agent's own records
  of sessions, audit and output are not part of what they read. Nothing else changes what they read than uncached
  commands and uploads.
- The clock does not go back, nor does the UTC date. Times may be read before a lock is taken and be stale, so that the
  operations of the cache can see times in another order than that in which they take its mutex. Only
  `HitAgeNotNegative` and `MissOfLiveStoreNeedsFullCache` of `CacheHistory` take them to be in the same order.
- Fewer than 2^64 invalidations and fewer than 2^64 events of one trace.
- Random IDs do not repeat. The upload directory is fresh: two requests with one request ID would share it.
- A crash is the death of the process; what was written before it stays. Appends write a whole line or nothing.
  Removing an artifact's file, an upload file and the upload directory succeeds.

## Model

| member | source | states |
|---|---|---|
| Caching.CommandCache.Get | internal/agent/command_cache.go:35-52 | A lookup answers exactly for an unexpired entry under the full key, reports its age and the generation seen in the same step, and drops an expired entry |
| Caching.CommandCache.PutIfGeneration | internal/agent/command_cache.go:56-81 | A store is accepted exactly for a positive lifetime and an unmoved generation; then expired entries go, one oldest entry goes if the key is new and the cache is full, and the clamped entry is in |
| Caching.CommandCache.InvalidateAll | internal/agent/command_cache.go:86-96 | The map is emptied and the generation moves, modulo 2^64, also when the map was empty |
| Caching.CommandCache.PruneExpired | internal/agent/command_cache.go:98-104 | Whatever order the map is visited in, exactly the unexpired entries remain |
| Caching.CommandCache.EvictOldest | internal/agent/command_cache.go:106-118 | Exactly one entry goes, and none was stored before it |
| Caching.KeysDistinguish | internal/agent/command_cache.go:120-134 | Two requests share a key if and only if session scope, resolved directory, command, input, time limit and lifetime are all equal |
| Caching.StoreKeeps | internal/agent/command_cache.go:75-80 | After an accepted store no expired entry is left, no other entry has changed, and at most one was lost, the oldest, and only from a cache of 256 |
| Caching.GuardIsExact | internal/agent/command_cache.go:72-74 | After n invalidations a guarded store is accepted if and only if n is a multiple of 2^64 |
| Caching.TtlValidExactly | internal/agent/server.go:217-221 | The guard passes a value if and only if it is not negative and the 64 bits of its product read as a negative number or as at most a minute; a response can be stored if and only if they read as 1 ns to a minute |
| Caching.TtlRangeWithoutWrap | internal/agent/server.go:217-221 | For values whose product does not wrap this is exactly 0 to 60 seconds |
| Caching.TtlRangeFailsOnWrap | internal/agent/server.go:217-221 | Two values that pass although they are no minute: one is never stored, one is stored for 290 ms |
| Caching.StoredLifetime | internal/agent/command_cache.go:57-68 | Whatever passes the guard, a stored entry lives more than 0 and at most 60 seconds |
| CacheHistory.SizeBounded | internal/agent/command_cache.go:76-79 | In every sequence of operations, whatever the clock does, the cache holds at most 256 entries |
| CacheHistory.HitIsLatestStore | internal/agent/command_cache.go:43-51 | A hit is the latest accepted store of exactly that request tuple since the last invalidation, in the order of the mutex and whatever the clocks showed, and has not expired |
| CacheHistory.MissNeedsExpiryOrRivals | internal/agent/command_cache.go:75-79 | A latest store is missed only if its own lookup's clock or that of an operation since it has reached the expiry, or if at least 256 other keys were stored no earlier by the clock or after it |
| CacheHistory.HitAgeNotNegative | internal/agent/command_cache.go:51 | With times in the order of the mutex a hit's age is not negative |
| CacheHistory.MissOfLiveStoreNeedsFullCache | internal/agent/command_cache.go:75-79 | With times in the order of the mutex a latest store that has not expired is missed only if at least 256 other keys were stored no earlier |
| SessionStore.Store.Get | internal/agent/session.go:63-75 | The saved directory while it is one, the workspace root otherwise |
| SessionStore.Store.Set | internal/agent/session.go:77-96 | Memory and both files after an update, for each point at which it can fail; after a successful one a restart finds the new directory |
| SessionStore.SetReachesDisk | internal/agent/session.go:88-95 | After a call that got as far as its rename a restart finds the new map, and after any other call what it found before |
| SessionStore.SetIsSteps | internal/agent/session.go:83-95 | Each call, with each failure, is a sequence of steps of the crash machine, with a completed rename if and only if it gets that far |
| SessionStore.CrashLosesOnlyUnrenamed | internal/agent/session.go:21-38 | Wherever the process dies, loading succeeds and gives the map of the last completed rename |
| SessionStore.NothingUnsavedWhenIdle | internal/agent/session.go:77-96 | Between updates, unless the latest failed, that map is the one in memory |
| RunSessions.SectionsAreSerial | internal/agent/server.go:253-263 | In every interleaving the locked sections of a session key follow one another, every session event lies in the request's own section, and each section starts in the directory last set for the key, or in the root if unset or gone |
| RunSessions.MutualExclusion | internal/agent/session.go:48-61 | No two requests of one key are inside together, although finding the lock and taking it are separate steps |
| RunRequests.StartsInSavedDirectory | internal/agent/session.go:63-75 | A section starts in the directory saved for its key if there is one and it exists, and in the root otherwise |
| RunRequests.RunsWhereAsked | internal/agent/executor.go:223-241 | The command runs there or in the directory asked for, and only if that exists |
| RunRequests.OnlyValidRequestsArrive | internal/agent/server.go:217-226 | In every run the requests have a lifetime that passes the guard, and none together with uploads |
| RunRequests.ChoosesPath | internal/agent/server.go:271-291 | A request with a lifetime looks up if it has a session identity and bypasses the cache otherwise, and one without a lifetime invalidates |
| RunRequests.InvalidationEmpties | internal/agent/server.go:289-312 | Each of the two invalidations empties the cache and moves its generation |
| RunRequests.ChangesAreEnclosed | internal/agent/server.go:289-312 | In every run, what the command of an uncached request changes lies between two invalidations by that request |
| RunRequests.HitMarksItsAnswer | internal/agent/server.go:272-281 | A hit answers with the stored response, unexpired, marked as a hit, with its age in whole milliseconds and no duration |
| RunRequests.AnswerSetsDirectory | internal/agent/server.go:318 | A request whose command ran leaves its session in the command's final directory |
| RunRequests.OffersCompleteAnswers | internal/agent/server.go:324-331 | An answer is offered to the cache if and only if there is a session identity and it is a whole successful one from an unchanged directory |
| RunRequests.OnlyCompleteAnswersAreCached | internal/agent/server.go:324 | In every run the cache holds only such answers |
| RunRequests.HitAnswersTheSameRequest | internal/agent/command_cache.go:120-134 | In every run a hit answers with a response to a request with the same session, command, input, time limit and lifetime |
| RunCache.HitsAreNeverStale | internal/agent/server.go:270-290 | In every interleaving the response of a hit was looked up, executed and stored by one request after the last invalidation of either phase before the hit, and is the latest store under its key |
| RunCache.EntriesMatchTheWorld | internal/agent/server.go:297-312 | While no uncached request is between its start and its second invalidation, and no upload has changed the world since the latest invalidation, each entry is what executing any request with its key in the current world gives |
| RunCache.StrayedNeedsUpload | internal/agent/server.go:296-302 | Without requests that carry uploads the last condition always holds |
| RunWitness.UploadLeavesStaleEntry | internal/agent/server.go:297-312 | A run with an upload that ends in a hit with other output than a fresh execution, while no command is running |
| RunCache.HitAgeBounds | internal/agent/server.go:272-274 | In every run the age of a hit is at least 0 and below 60 seconds, also with wrapped lifetimes and stale clock readings |
| RunCache.ScopeFixesKey | internal/agent/server.go:249-253 | Equal cache scopes have equal session keys, hence one session lock |
| RunHits.HitIsAtHome | internal/agent/server.go:263-272 | At a hit in a quiet state the command's directory exists and the directory that the request read is the one its session is in now, although it was read earlier |
| RunHits.HitShowsFreshOutcome | internal/agent/server.go:272-281 | In a quiet state a hit shows the exit code, output and directory that executing afresh would show |
| RunHits.HitKeepsSessionDir | internal/agent/server.go:272-281 | It leaves the session where executing afresh would leave it if and only if the command's directory is the session's current one |
| RunWitness.HitLeavesSessionElsewhere | internal/agent/server.go:272-281 | A run of three requests that ends in a hit after which the session is not in the directory that the hit reports |
| RunHits.HitWithoutWorkdirIsTransparent | internal/agent/server.go:263-281 | Without an explicit workdir a hit in a quiet state cannot be told from a fresh execution, in its answer or in the next session directory |
| AuditEvent.HashDeterminesEvent | internal/audit/audit.go:216-231 | Two events with valid equal hashes are equal in every hashed field and in the link |
| AuditVerify.Verify | internal/audit/read.go:52-89 | The loop accepts exactly the acceptable logs, counts their chains, and otherwise reports the first faulty event and its fault in the order of the checks |
| AuditVerify.FaultInOrder | internal/audit/read.go:59-83 | The fault of an event: a missing field, else a broken chain, else a broken sequence, else a wrong hash, each in terms of the log itself |
| AuditVerify.VerdictNamesFirstFault | internal/audit/read.go:52-89 | A verdict is valid if and only if every event passes the four checks; otherwise it names the first event that does not and its first fault, and counts the chains up to there |
| AuditVerify.AcceptsIffLinked | internal/audit/read.go:64-77 | A log is accepted if and only if each event is well formed, links to the previous event of its chain and follows the previous number of its trace |
| AuditVerify.SliceAccepted | internal/audit/read.go:64-77 | Each contiguous part of an accepted log is accepted, so retention never invalidates a log |
| AuditVerify.AcceptsIffEachChain | internal/audit/read.go:54-88 | A log of NUL-free chains is accepted if and only if each chain is, and then the count is that of distinct chains |
| AuditVerify.KeysCanCollide | internal/audit/read.go:72 | Traces of two chains can have one trace key if and only if one chain ID with a NUL is the beginning of the other one with a NUL |
| AuditVerify.CollisionIsMisjudged | internal/audit/read.go:72-77 | A log whose chains are all accepted alone, whatever their IDs, is accepted if and only if the numbers under each trace key follow one another across the chains |
| AuditVerify.TwoEventsMisjudged | internal/audit/read.go:72-77 | Two events of different chains that are each accepted alone are accepted together if and only if their keys differ or their numbers happen to follow one another |
| AuditVerify.TraceKeysCollide | internal/audit/read.go:72-77 | Two accepted chains whose log is rejected |
| AuditTamper.HashesDistinct | internal/audit/audit.go:127-152 | All hashes of a genuine chain differ, by descent to the empty first link |
| AuditTamper.RearrangementDetected | internal/audit/read.go:64-86 | A log made of events of a genuine chain, in any selection, order and multiplicity, is accepted if and only if it is a contiguous run of the chain |
| AuditTamper.RearrangementDetectedInEachChain | internal/audit/read.go:64-86 | A log of events of many genuine chains is accepted if and only if it holds a contiguous run of each of them |
| AuditTamper.LastHashPinsHistory | internal/audit/read.go:67-84 | Two accepted logs of one chain that end in one hash: the shorter is a suffix of the longer |
| AuditTamper.TrustedHeadPinsChain | docs/08-audit-tracing.md:73 | Against the trusted last hash of a genuine chain, an accepted log is the end of that chain and nothing else |
| AuditSink.FileSink.Append | internal/audit/audit.go:116-154 | The sink, its files and the outcome after an append, for each way the disk can answer |
| AuditSink.AppendRecords | internal/audit/audit.go:127-153 | A recorded append adds one line at the end of the day's file that reads back as the event passed in, with chain ID, link and hash; the head moves if and only if it was synced |
| AuditSink.DropAddsNothing | internal/audit/audit.go:120-146 | Any other append adds no line and leaves the head |
| AuditSink.RecordedExactly | internal/audit/audit.go:116-154 | When an append is recorded, in terms of the open file and of what can fail |
| AuditSink.FileSink.Rotate | internal/audit/audit.go:156-178 | The sink after a rotation that succeeds or fails at each step |
| AuditSink.FileSink.Cleanup | internal/audit/audit.go:180-194 | What stays, with its lines, is exactly the current day's file, files that cannot be removed, and files not before the cut-off |
| AuditSink.RetainedExactly | internal/audit/audit.go:185-192 | The same of the files as a value |
| AuditSink.RotatedExactly | internal/audit/audit.go:156-178 | A rotation to another day leaves exactly these files and one for the day |
| AuditSink.FileSink.Close | internal/audit/audit.go:196-205 | Afterwards no file is open, whether or not closing worked |
| AuditSink.Trace.Event | internal/audit/audit.go:69-81 | A call uses up a number even when its append fails, changes nothing without a sink, and when recorded leaves a line with its own timestamp, stage, outcome, data, trace ID and number |
| AuditSink.FailedRotationIsFinal | internal/audit/audit.go:160-163 | With a closed file left behind, every later append fails and changes nothing |
| AuditSink.RotationFailsHalfWay | internal/audit/audit.go:156-178 | That state is entered if and only if the day changes under an open file and closing, opening or protecting fails |
| AuditSink.CloseEndsIt | internal/audit/audit.go:196-205 | After Close an append opens the file anew and is recorded if and only if no step of its own fails |
| AuditSink.ReadFile | internal/audit/read.go:21-41 | One file is read if and only if each line is short enough and decodes, and then gives its events in order |
| AuditSink.Read | internal/audit/read.go:10-43 | Reading gives the events of all files in order, if and only if every line is readable |
| Days.NamesSortByDate | internal/audit/audit.go:165 | File names compare as text exactly as their days do |
| Days.FileNameLooksLike | internal/audit/audit.go:165 | The text of a day's file name |
| Days.ListingIsSorted | internal/audit/audit.go:207-214 | The sorted listing of names is the listing by date |
| AuditRun.AcceptedIffNoGapAndSynced | internal/audit/audit.go:69-81 | In every interleaving of traces with distinct IDs the log is accepted if and only if no trace has a failed event between two recorded ones and nothing follows a failed sync |
| AuditNumbers.LogHoldsCalls | internal/audit/audit.go:75-80 | In every interleaving each entry of the log holds what the call that wrote it was given |
| AuditNumbers.HonestRunVerifies | internal/audit/audit.go:69-81 | When no append fails the log is accepted, has one event per call, and each trace's events stand in it with the numbers 1, 2, .. in order |
| AuditRun.LinksSurviveFailures | internal/audit/audit.go:120-153 | Appends that leave nothing on disk never break the hash links |
| AuditNumbers.AcceptedIffConsecutive | internal/audit/read.go:64-77 | In every run, whatever IDs it uses, the log is accepted if and only if the recorded numbers under each ID follow one another and nothing follows a failed sync |
| AuditNumbers.AcceptedIffNoIdTwice | internal/audit/audit.go:69-81 | When no append fails the log is accepted if and only if no ID was used by two traces that both made a call |
| AuditNumbers.ReusedIdCanBeAccepted | internal/audit/audit.go:73-80 | A run in which two traces share an ID, the first write of the second one fails, and the log is accepted |
| AuditNumbers.RestartsVerify | internal/audit/read.go:54-88 | However the runs of several processes are interleaved in the files, the log is accepted if and only if each of them numbered its traces without gaps and wrote nothing after a failed sync |
| AuditDisk.ReadSeesContent | internal/audit/read.go:10-16 | Reading in name order sees the lines in date order |
| AuditDisk.LineReadsBack | internal/audit/read.go:22 | A written line is readable if and only if it is shorter than 2 MiB, and then is the event |
| AuditRetention.SuffixIffFromFront | internal/audit/audit.go:186-193 | What is left after removing files is the end of the log if and only if no kept file lies before a removed one |
| AuditRetention.VerifiesIffNoHole | internal/audit/audit.go:186-193 | What is left of one genuine chain verifies if and only if no removed file lies between two kept ones |
| AuditRetention.VerifiesIffNoChainHasHole | internal/audit/audit.go:186-193 | The same for the chains of several processes, with the files that hold lines of one chain |
| AuditRetention.RetentionFromFront | internal/audit/audit.go:185-192 | When every removal succeeds retention removes only from the front |
| AuditRetention.FailedRemovalLeavesHole | internal/audit/audit.go:185-191 | Three days with a retention of one day, of which the oldest cannot be removed: only the middle one goes |
| AuditRetention.FailedRemovalIsRejected | internal/audit/audit.go:190-191 | What is then left of a chain over the three days is rejected |
| AuditDisk.ContentRotated | internal/audit/audit.go:156-178 | A rotation keeps the end of the log if and only if its retention removes only from the front |
| AuditDisk.ReadGivesSuffix | internal/audit/audit.go:156-194 | After any run whose retention removes only from the front, what is read is a suffix of the older events followed by the run's events in append order |
| AuditDisk.NewChainAccepted | internal/audit/read.go:64-77 | A new chain written after an accepted log leaves it accepted |
| AuditDisk.VerifyDirectory | cmd/mygpt-audit/main.go:20-60 | The audit command answers if and only if every line of the directory is readable, and then with the verdict on its events |
| AuditDisk.DirectoryVerifies | internal/audit/read.go:10-89 | End to end: after concurrent traces, day changes and retention from the front, the audit command reads the directory and finds it valid if the older log and the run's own log are |
| Capture.CappedFile.Write | internal/agent/artifact.go:66-83 | A write passes on what there is room for, reports the whole length unless the file fails, and notes what it drops |
| Capture.WriteMeans | internal/agent/artifact.go:66-83 | What one write keeps, when it fails, and when it sets the mark, by the room left and by what the file takes |
| Capture.KeepsFirstBytes | internal/agent/artifact.go:66-83 | After any sequence of writes that do not fail the file is the first limit bytes of the stream |
| Capture.TruncatedExactly | internal/agent/artifact.go:68-76 | The mark is set if and only if bytes were dropped or nothing was written to a full capture |
| Capture.TruncatedIffDropped | internal/agent/artifact.go:68-76 | For writes that are not empty the mark is set if and only if a byte was dropped |
| Capture.KeepsPrefix | internal/agent/artifact.go:77-82 | Also when a write fails the file is a prefix of the stream within the limit |
| Capture.EmptyWriteMarksTruncated | internal/agent/artifact.go:69-72 | A complete capture that is marked as truncated |
| Execution.Route | internal/agent/executor.go:162-201 | The answer and the store after routing, for each way reading back can fail |
| Execution.Attach | internal/agent/executor.go:181-196 | A stream that is not empty is published with its kept size and linked, an empty one is discarded |
| Execution.FitsInlineMeans | internal/agent/executor.go:167 | When an answer is inline |
| Execution.InlineLeavesNoFiles | internal/agent/executor.go:162-178 | An inline answer leaves neither capture file, and when a request fails because files cannot be read back |
| Execution.RoutingTouchesNothingElse | internal/agent/executor.go:162-201 | Other files and items stay as they are |
| Execution.ExitCodeMeans | internal/agent/executor.go:117-124 | A failing exit status is passed on, and without one a failed copy is answered as -1 |
| Execution.InlineIsComplete | internal/agent/executor.go:117-178 | If no write to a capture failed, an answer is marked as truncated if and only if a stream was longer than the limit, and has no link if and only if both whole streams fit inline, which it then carries; an inline answer is never marked and is complete if and only if no write failed, as exit code 0 always shows |
| Execution.FullDiskAnswersIncomplete | internal/agent/executor.go:117-178 | A command whose one byte is lost and that is answered inline, unmarked and without it |
| Execution.AttachmentsAreTheStreams | internal/agent/executor.go:180-200 | Otherwise it links exactly the streams that are not empty, in order, and each link reads back to an item with the kept bytes and size |
| Execution.TextIsBounded | internal/agent/executor.go:260-270 | No answer has more runes than the inline limit or 8000, and attached text is the last 4000 runes of what was kept |
| Execution.LastIsSuffix | internal/agent/executor.go:265-268 | The end that is shown is a suffix of the given length, or everything |
| Execution.TimeoutInRange | internal/agent/executor.go:272-281 | The time limit is at most the maximum, and positive if and only if none was requested or the 64 bits of the product read as a positive number |
| Execution.TimeoutWraps | internal/agent/executor.go:276 | A requested time limit that becomes negative |
| Numerals.IntReadsBack | internal/agent/artifact.go:112 | Every 64-bit expiry reads back from its numeral |
| Numerals.HexReadsBack | internal/agent/artifact.go:115 | Every signature reads back from its hexadecimal text |
| Numerals.IntSyntax | internal/agent/artifact.go:136 | An expiry is read only from digits after at most one sign |
| Numerals.UnhexSyntax | internal/agent/artifact.go:144 | A signature is read only from pairs of hexadecimal digits |
| Links.LinkReadsBack | internal/agent/artifact.go:111-144 | A link parses back to its own id, name, expiry and signature through escaping, splitting and query parsing |
| Links.LinkLooksLike | internal/agent/artifact.go:116-117 | The text of a link |
| Links.AskedParts | internal/agent/artifact.go:128-134 | A request is read only if its unescaped path has exactly an id and a name |
| Links.PathEscapeKeeps | internal/agent/artifact.go:116 | Ids and names of capture files stand in a link as they are |
| Links.PlainCharacterRead | internal/agent/artifact.go:128-136 | A character without a percent sign stands for itself, and in a query a plus sign for a space |
| Links.EscapeRead | internal/agent/artifact.go:128-136 | A percent sign and two hexadecimal digits stand for one byte, and anything else after a percent sign is not read |
| Links.BadPairIsSkipped | internal/agent/artifact.go:136 | A pair with a semicolon or a malformed key is passed over |
| Artifacts.ArtifactStore.NewCapture | internal/agent/artifact.go:85-98 | A new empty file, or nothing when the name exists |
| Artifacts.ArtifactStore.Publish | internal/agent/artifact.go:102-109 | The artifact gets its size and expiry and becomes an item |
| Artifacts.ArtifactStore.CleanUp | internal/agent/artifact.go:182-192 | Whatever order the items are visited in, exactly the expired ones go, and exactly the files that belong to one of them |
| Artifacts.NameLooksLike | internal/agent/artifact.go:90 | The text of a capture file's name |
| Artifacts.UnixIsFloor | internal/agent/artifact.go:112 | An expiry in a link is the artifact's expiry in whole seconds, rounded down |
| Artifacts.SignedTextDistinguishes | internal/agent/artifact.go:114 | The signed text fixes id, name and expiry |
| ArtifactRun.PublishedReadsBack | internal/agent/artifact.go:111-118 | The link of every published artifact reads back as that artifact, whatever its expiry |
| ArtifactRun.PublishSetsExpiry | internal/agent/artifact.go:102-109 | A published artifact has its file's bytes and size and expires one lifetime after publishing |
| ArtifactRun.LinkIsHonoured | internal/agent/artifact.go:120-177 | In every interleaving a published link is never answered as badly signed, is answered as expired if and only if its check falls into a later second than the expiry, always so from one second after it on, and gets the whole file whenever answered by the expiry |
| ArtifactRun.SignatureCoversTheLink | internal/agent/artifact.go:136-149 | With a collision-free signature, a request that carries the signature of a published link gets past the check only with exactly that link's id, name and expiry; otherwise it is refused as expired if late and as badly signed if not |
| ArtifactRun.BadPathIsNotFound | internal/agent/artifact.go:128-133 | A path without exactly two parts is not found |
| ArtifactRun.CleanUpIsComplete | internal/agent/artifact.go:182-192 | In every run a cleanup leaves exactly the items that have not expired by its time, and their files |
| ArtifactRun.OnlyLinksAreServed | internal/agent/artifact.go:136-157 | A file is served only to a request that reads like the link of one published artifact, in time, and whole |
| ArtifactRun.FilesAreOwned | internal/agent/artifact.go:179-193 | The directory always holds exactly the files of captures in progress, of items, and of captures abandoned at internal/agent/executor.go:162-166 |
| ArtifactRun.AbandonedStay | internal/agent/executor.go:162-166 | An abandoned file belongs to no capture or item and stays, whatever happens next |
| UploadNames.SafeFilenameIsPlain | internal/agent/uploads.go:210-221 | Every safe name is not empty, at most 160 characters, without a slash, and not the name of a directory |
| UploadNames.SafeNamingIsPlain | internal/agent/uploads.go:210-221 | The naming that the program uses meets the hypothesis of `NamesArePlain` and `NamedBatch`, which speak of any naming |
| UploadNames.MarksAndLetters | internal/agent/uploads.go:42 | Which characters a name keeps, and which it does not begin or end with |
| UploadNames.SpaceMeans | internal/agent/uploads.go:211 | White space is what Unicode calls so |
| UploadNames.PlainNameIsKept | internal/agent/uploads.go:210-221 | A name that is safe already is kept |
| UploadNames.SafeFilenameIs | internal/agent/uploads.go:210-221 | A safe name is the cleaned base without marks at its ends, or a numbered one when nothing is left, cut to 160 |
| UploadNames.TrimIsMiddle | internal/agent/uploads.go:211-213 | Trimming takes away exactly what is to be cut at both ends |
| UploadNames.BaseIsLastPart | internal/agent/uploads.go:211 | The base is the last part of the path that is not empty |
| UploadNames.CleanedKeeps | internal/agent/uploads.go:212 | Allowed characters stay |
| UploadNames.CleanedReplaces | internal/agent/uploads.go:212 | A run of other characters becomes one underscore |
| UploadNames.NameGiven | internal/agent/uploads.go:74-79 | A file keeps its safe name unless an earlier file has it, and then its number goes in front |
| UploadNames.NameFiles | internal/agent/uploads.go:44-84 | Names are given if and only if there are at most ten references and all are usable; otherwise the first bad one is reported and no directory is left |
| UploadNames.DistinctIffNoClash | internal/agent/uploads.go:74-79 | The names are distinct if and only if no repeated name takes the form of an earlier safe name |
| UploadNames.NamesCanClash | internal/agent/uploads.go:74-79 | Three ordinary names that clash |
| UploadNames.NamesArePlain | internal/agent/uploads.go:74-92 | Distinct or not, every path lies directly inside the directory |
| UploadBatch.BatchIsAllOrNothing | internal/agent/uploads.go:85-120 | In every interleaving a batch succeeds if and only if its names are distinct and every download goes well; then the directory is exactly the whole downloads within the limit, otherwise it is gone |
| UploadBatch.DownloadsDoNotInterfere | internal/agent/uploads.go:161-184 | At no time do two downloads hold one file, and a saved file is whole |
| UploadBatch.NamedBatch | internal/agent/uploads.go:60-120 | The same with the names of the naming loop |

## Left out

- HTTP plumbing: headers, authentication, allowlists, response statistics, request logging, method checks and redirects have no state worth proving.
- Bash itself, signals, process groups and background children: executing is one span of steps between a request's two invalidations.
- SHA-256, HMAC (section 2 of RFC 2104), JSON and UTF-8 as algorithms: parameters with the assumptions above.
- The copy that protects cached responses from aliasing (internal/agent/command_cache.go:136-141): responses are values here. Nil caches and nil traces without a recorder are not modelled, apart from a trace without a sink.
- What the files of an upload hold: in the run-command protocol writing and removing them (internal/agent/server.go:296-302) changes the world in any way.
- The calendar arithmetic behind the retention cut-off (internal/audit/audit.go:185), glob and open errors of `Read`: the cut-off is a parameter, and listed files can be opened.
- The removal of left-over capture files when the program starts (internal/agent/artifact.go:44-52): a run of the store starts with an empty directory.
- The base URL, the MIME type and the response headers of a download; a link is modelled from the path on, and copying the opened file to the client is one step.
- Parsing, host checks and redirects of a download link (internal/agent/uploads.go:126-155): the remote's answer is a parameter.
- AuditRun.AcceptedIffNoGapAndSynced: an append that leaves part of a line on disk is not modelled, because nothing can be read back after it.
- SessionStore.Store.Set: a temporary file that cannot even be opened counts as one in which nothing was written.
- UploadBatch.BatchIsAllOrNothing: says what holds when a batch has ended, not that it ends; the time limits of the downloads are not modelled.
