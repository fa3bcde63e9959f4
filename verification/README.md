# GPUFleet, verified

GPUFleet is a pull-based control plane: nodes heartbeat in, the server answers with tasks, collects their logs
and settles their results, and a web console shows the fleet. This project models the parts whose correctness
spans several functions, several writers or whole runs, and proves what they promise.

Each operation that changes state is a method of a class with the fields the program updates (`LogFiles`,
`TaskLogStream`, `AckFile`, `Server`, `AuthStore`, `CircuitBreaker`, `Feeder`, `AuditsList`), tied to functions on
values. Runs are sequences of steps of those functions, in any order and interleaving; a step that is not enabled
changes nothing. The main results are lemmas about every run.

**Log delivery.** `LogPump` is the node's sender with its file of confirmed offsets, `LogReceiver` the handler
that accepts offset-stamped chunks, `LogStore` the rotating files behind it, with UTF-8 (section 3 of RFC 3629) in
`Utf8`. `LogDelivery` puts sender and receiver on a network that loses, repeats and reorders requests and replies,
with crashes and loss of the offset file, and refines the whole to "the stored text is the node's log up to the
server's offset". Assumed: the node's decoded log grows only by whole code points, appending to the files and
updating the row are one atomic step, and a slice holds at least four bytes.

**Task lifecycle, review and dispatch.** `TaskModel` holds the transitions of one task row and every transaction
that uses them. `TaskLifecycle` runs all writers against each other (node events and results, admin cancel and
review, heartbeats, both background jobs), `Sweep` says exactly what a background job does to each row,
`NodeLiveness` when tasks are lost to a silent node, and `Dispatch` adds nodes with one task slot and a lossy
network. `ControlPlane` has the handlers and jobs in imperative form: each takes exactly one step of those runs, so
that all results about runs hold of the `Server` object, and answers its caller as `Answers` says. Every
`with db.connect()` block is one atomic step. The two background transitions have no guard of their own: that they
only hit active rows follows from the query of the sweep, across functions.

**Request ordering and the circuit breaker.** `NodeAuth` decides whether a node request is accepted, inside its
rolled-back transaction, with timestamps compared as stored text (`TextOrder`); `Breaker` is the node's retry loop
behind its circuit breaker, with the load bound during an outage and the recovery after it.

**Charts and lists.** `Lttb` is the downsampler, `SmoothFeeder` the streaming buffer whose screen limit rests on it.
`Base64Url` and `CursorCodec` are the cursor encoding (sections 3.2 and 5 of RFC 4648), `CursorPaging` the keyset
pages and the loop that follows them over a changing table. `PolledList` is the list of audit events that is
scrolled and polled at the same time, and `PolledRuns` its runs over a table to which rows are added in any order.

Places where the program does not do all that is said of it. The model follows the program, and each has its exact
condition.

- The audit list is meant to stay newest first. A task's creation is stamped, then waits for the reviewer, and its
  audit row is added only then, so a row can be added below one that is shown already; the merge puts it on top
  (`PolledRuns.LateRowBreaksOrder`). `PolledRuns.ListOrderedIff` and `PolledRuns.SafeIffCalm` say exactly when the
  order holds; that rows are shown once and that appended pages never overlap holds always.
- Nonces are kept to stop repeated requests. With a nonce lifetime below twice the accepted clock skew, 120 and 300
  seconds by default, a repeated request can get past them and only the growing timestamps stop it
  (`NodeAuth.NoncesAloneFailIff`).
- The field `stored_bytes` of a log reply counts characters, which is the number of bytes exactly for ASCII text
  (`LogReceiver.StoredBytesIffAscii`).
- The downsampler's summary promises at most `threshold` points (frontend/src/lib/lttb.ts:22); for two or less it
  returns its input, as the note on its parameter says, so the feeder's limit holds exactly above two
  (`SmoothFeeder.LimitHoldsIffAboveTwo`).

## Model

| member | source | states |
|---|---|---|
| Utf8.DecodeEncode | app/services/node_runtime_service.py:288-295 | Every text is read back from its UTF-8 bytes. |
| Utf8.EncodeDecode | app/services/node_runtime_service.py:288-295 | Only encodings decode, so the byte form of a text is unique. |
| Utf8.EncodedLengthGrows | app/services/node_runtime_service.py:293-298 | A longer prefix takes strictly more bytes, the monotonicity the binary search needs. |
| Utf8.Samples | app/services/node_runtime_service.py:288-295 | The bytes of four characters, of one to four bytes, as the standard gives them. |
| LogStore.TakeTextPrefixByBytes | app/services/node_runtime_service.py:285-299 | The binary search ends with the longest prefix that fits the byte limit; prefix and rest make up the input; with four bytes or more it is never empty. |
| LogStore.LogFiles.NextLogArchiveIndex | app/services/node_runtime_service.py:267-273 | The next number is one more than the number of slices, so there are no holes, until 99999 are used. |
| LogStore.LogFiles.RotateLogStream | app/services/node_runtime_service.py:276-282 | A non-empty live file becomes the next slice unchanged and the text stored stays the same; failure leaves all files as they were. |
| LogStore.LogFiles.FillLive | app/services/node_runtime_service.py:307-321 | One pass writes a non-empty part of the text or empties the live file, so the loop ends; slices stay within the limit and at most three bytes below it. |
| LogStore.LogFiles.AppendLogChunk | app/services/node_runtime_service.py:302-322 | After an append the files hold the old text followed by the new, no character is split, slice sizes stay between the limit minus three and the limit; it fails only when all slice numbers are used and the live file lacks room, with a prefix written. |
| LogStore.LogFiles.ReadBackIsWritten | app/services/node_runtime_service.py:302-322 | Decoding slices 1 to n in order and then the live file gives exactly all the text ever appended. |
| LogReceiver.ReceiveKeepsRow | app/services/node_runtime_service.py:702-798 | Whatever a chunk claims, the row's offset stays the number of characters stored and its preview the end of that text. |
| LogReceiver.ChunkMeans | app/services/node_runtime_service.py:698-798 | The same conditions for any state whose row describes its text, and in every refusal but the quota's nothing changes; the quota's marks the row truncated. |
| LogReceiver.PreviewIsEndOfStoredText | app/services/node_runtime_service.py:767-798 | After any chunks, overlaps and retries, the preview is the last 4000 characters of all text accepted, though computed from the old preview and the new part only. |
| LogReceiver.ReceiveTwice | app/services/node_runtime_service.py:710-717 | A chunk that was stored and arrives again stores nothing and changes nothing. |
| LogReceiver.StoredBytesIffAscii | app/services/node_runtime_service.py:807-813 | The number a reply calls stored bytes never exceeds the bytes the text grew by, and equals them exactly when every character added is below 0x80. |
| LogReceiver.StoredBytesTooFew | app/services/node_runtime_service.py:811 | One accented letter: the reply says one, the file grows by two bytes. |
| LogReceiver.TaskLogStream.TaskLogChunk | app/services/node_runtime_service.py:694-813 | Every reply has its exact condition in the stored text: must-start-at-zero, gap, truncated; quota exceeded exactly if the part beyond the stored text is not empty and usage plus its UTF-8 size exceeds the quota; else stored, and the text is the old one followed by that part. An exhausted archive is answered only for a new part within the quota, with a live file of no room, and leaves the row as it was. |
| LogPump.RequestsCoverLog | node_agent/src/gpufleet_node_agent/runner/log_pump.py:59-74 | The chunks cut from the unsent text carry it without gap or overlap, all of 3500 characters but the last, which is no longer, exactly the last one final if the upload is; nothing is sent exactly when there is nothing new and the upload is not final. |
| LogPump.SendLogChunksWithAck | node_agent/src/gpufleet_node_agent/runner/log_pump.py:59-74 | What is sent is a prefix of those chunks up to the first unanswered one, and the stored offset is the end of the last answered one. |
| LogPump.AckFile.InitLogOffsets | node_agent/src/gpufleet_node_agent/runner/log_pump.py:31-36 | Missing entries start at zero and no confirmed offset changes. |
| LogPump.AckFile.ClearLogOffsets | node_agent/src/gpufleet_node_agent/runner/log_pump.py:52-56 | Forgets the offsets of one task and no other. |
| LogDelivery.ReceiveHonest | app/services/node_runtime_service.py:698-798 | A chunk of the log that leaves no gap is stored exactly if the stream is whole and the chunk has nothing new or is within the quota; the text then reaches exactly to its end, unless it was there already. |
| LogDelivery.AcceptedTextIsLogPrefix | app/services/node_runtime_service.py:698-798 | Exactly once and in order: in every run with loss, repetition, reordering, crashes and loss of the offset file, the stored text is the node's log up to the server's offset, and the confirmed offset never exceeds it. |
| LogDelivery.NoOffsetErrors | app/services/node_runtime_service.py:703-729 | In every run such a node never meets the gap error or the must-start-at-zero error. |
| LogDelivery.TruncatedIsFrozen | app/services/node_runtime_service.py:730-747 | Once truncated, a stream's row and text are the same after any further steps. |
| LogDelivery.NothingIsCut | app/services/node_runtime_service.py:737-747 | In every run in which no delivery is over the quota, no stream is truncated and every delivery is answered as stored. |
| LogDelivery.DeliveryIsStored | app/services/node_runtime_service.py:737-798 | In such a run each delivered request, first or repeated, is answered as stored with the number of characters that were new, and the server then has the log at least to its end. |
| LogDelivery.CleanUploadCompletes | node_agent/src/gpufleet_node_agent/runner/log_pump.py:59-99 | Progress: from any state a run within the quota reaches between two uploads, whatever was lost before, one upload of which nothing is lost brings the whole log to the server and is confirmed to its end. |
| LogDelivery.FinishedUploadIsComplete | node_agent/src/gpufleet_node_agent/runner/log_pump.py:86-99 | When the whole log is confirmed, the server stores the whole log. |
| TaskLifecycle.TransitionAdvances | app/services/task_state.py:79-204 | Every accepted transition keeps the row well-formed and moves it forward or leaves its place; terminal rows accept none, given that background transitions are used on active rows. |
| TaskLifecycle.CreateIsGood | app/services/admin_tasks_service.py:285-435 | A created task starts under review or approved as its type demands, and disturbs nothing else. |
| TaskLifecycle.HeartbeatIsGood | app/services/node_runtime_service.py:575-581 | Sync and claim move at most one pending row to claimed and keep every invariant. |
| TaskLifecycle.StepIsGood | app/services/task_state.py:68-236 | Every request and job, in any state satisfying the invariants, keeps them and moves each row forward or leaves it. |
| TaskLifecycle.RunAdvances | app/services/task_state.py:68-236 | Over any continuation of any run a row's rank never falls, its node and type never change, and its review decision is settled once review ends. |
| TaskLifecycle.TerminalRowIsFinal | app/services/task_state.py:81-202 | First terminal verdict wins: a terminal row is the same in every column after any further steps of any writer. |
| TaskLifecycle.LockIsSetOnce | app/services/task_state.py:220-229 | A result lock, once set, is never set again or cleared. |
| TaskLifecycle.ResultIsLateIffTerminal | app/services/node_runtime_service.py:833-850 | In every reachable state a result counts as duplicate exactly when the task is terminal; then nothing changes, the attempt included, and the stored status is reported; for an active task the result is taken and locked. |
| TaskLifecycle.ReviewGate | app/services/admin_tasks_service.py:330-389 | In every reachable state a shell, python_script or modal_command task that is not reviewing, rejected or expired carries the decision approve or human_approved. |
| TaskLifecycle.CompletionAccounting | app/services/task_state.py:22-50 | In every reachable state each label's counter equals the number of tasks in its statuses: failed and rejected, timeout and review_expired, succeeded, lost, cancelled, across all terminal paths. |
| TaskLifecycle.AtMostSixChanges | app/task_utils.py:29-41 | In any run the status and review stage of a task change at most as often as its rank, hence at most six times. |
| Sweep.SweepRowByRow | app/background.py:183-296 | Looping over the rows ends each row as its own verdict says and leaves every other row alone, in whatever order the query returned them. |
| Sweep.LatestCancelIs | app/background.py:37-50 | The audit query finds a cancellation exactly if there is one of the task, and then none of the task is later. |
| Sweep.OneEventPerVerdict | app/background.py:195-290 | One audit event for each row ended, none for any other. |
| Sweep.SweepSoundAndComplete | app/background.py:160-296 | From every reachable state a sweep changes exactly the stuck tasks, timeout before lost, leaves no task stuck, keeps all other rows, and adds one audit event for each changed row. |
| Sweep.NothingOverdueAfterSweep | app/background.py:189-243 | After a sweep every running task has a start time and is within its timeout, and every task asked to cancel was asked within the last five minutes. |
| Sweep.ExpireSoundAndComplete | app/background.py:299-312 | The review job expires exactly the reviews started before the cutoff, and leaves none. |
| NodeLiveness.LostIffSilent | app/services/node_runtime_service.py:533-537 | In every run, after a heartbeat at a time and whatever follows but news of that node, a sweep ends a claimed or running task of the node as lost exactly if more than three of the announced intervals have passed since then and the task is within its own deadline. |
| NodeLiveness.HeardNodeLosesNothing | app/background.py:160-296 | A sweep within three intervals after a heartbeat leaves every claimed task of the node as it is, and a running one unless it is past its own deadline. |
| Dispatch.HonestHeartbeat | app/services/node_runtime_service.py:575-617 | A node that reports a task of its own gets nothing and changes no row; any other gets the oldest pending task, which becomes its only active one. |
| Dispatch.OneActiveTaskPerNode | app/db.py:420-444 | In every run over a lossy network a node has at most one claimed, running or cancel-requested task. |
| Dispatch.NoTaskHandedTwice | app/db.py:420-444 | In every run each task appears in at most one heartbeat response, to its own node. |
| Dispatch.ReportingNodeGetsNothing | app/db.py:446-474 | Nothing is handed out while the node reports a task of its own, even one already lost, and the branch that claims a reported pending task is never taken. |
| Dispatch.OnlyApprovedTasksReachNodes | node_agent/src/gpufleet_node_agent/cli.py:128-143 | A task that reached a node or sits in its slot is that node's own and, if its type needs review, approved. |
| ControlPlane.Server.Transit | app/services/task_state.py:68-204 | Each branch's update and counter end as the transition specification says; a refusal changes nothing. |
| ControlPlane.Server.RecordTaskTransitionMetrics | app/services/task_state.py:35-50 | For every label the counter grows by one if the status is terminal with that result, and stays otherwise. |
| Answers.StatusClasses | app/task_utils.py:29-32 | Active are exactly the statuses between a claim and the end of a task's way, terminal those at its end, and three task types need review. |
| Answers.AttemptMeans | app/services/node_runtime_service.py:192-258 | Each value given is recorded, each value not given keeps what was recorded, and no other attempt changes; a first attempt starts with an empty summary. |
| ControlPlane.Server.TaskEvents | app/services/node_runtime_service.py:649-679 | Is one step of the runs. A node's event is taken exactly for its own task in one of the statuses from which it may be reported; the row's first start and first end are dated, the attempt records them, the counter grows for a final status, and nothing else changes; a refusal names its cause and changes nothing. |
| ControlPlane.Server.ReceiveResult | app/services/node_runtime_service.py:828-863 | Is one step of the runs. A result of the node's own task is late exactly when the task is terminal, and then nothing changes; for an active task the row takes status, times and lock, the attempt the report, and the result is counted once. |
| ControlPlane.Server.Create | app/services/admin_tasks_service.py:285-473 | Is one step of the runs. A task is created exactly if its id is new, its directory is allowed and its node is known, enabled and takes the type; every column of the row, the default timeout included, is the one due to its type and the reviewer's answer; a refusal changes nothing. |
| ControlPlane.Server.CancelByAdmin | app/services/admin_tasks_service.py:547-574 | Is one step of the runs. Succeeds exactly for a pending or active task, which is then cancelled and counted or asked to stop, dated and on record in the audit trail; every refusal has its exact condition. |
| ControlPlane.Server.Escalate | app/services/admin_tasks_service.py:577-632 | Is one step of the runs. Succeeds exactly in the first review stage; the review goes to a human and its clock restarts, on record in the audit trail. |
| ControlPlane.Server.ApproveByAdmin | app/services/admin_tasks_service.py:635-704 | Is one step of the runs. Succeeds exactly in the human stage and ten seconds or more after the review started; the task is then pending and human_approved, on record in the audit trail. |
| ControlPlane.Server.RejectByAdmin | app/services/admin_tasks_service.py:707-752 | Is one step of the runs. Succeeds exactly for a task under review, which is then rejected, counted once as failed and on record. |
| ControlPlane.OldestPending | app/db.py:425-438 | Whenever some task waits there is an oldest one, so the claiming query finds a row. |
| ControlPlane.Server.ClaimNextTaskForNode | app/db.py:420-444 | Claims the oldest pending task of a node without active tasks, and nothing otherwise; the row found is the one claimed. |
| ControlPlane.Server.ReceiveHeartbeat | app/services/node_runtime_service.py:533-616 | Is one step of the runs. The node's row takes the interval and the time of the heartbeat and no other node changes. A task is handed out exactly if the node reports none of its own, has no active one and some task waits: the oldest, now claimed at that time. No other row changes, except a reported task that still waited; the cancel list is exactly its tasks asked to stop. |
| ControlPlane.Server.MarkLostTasks | app/background.py:160-296 | Is one step of the runs. Each stuck task ends, past its deadline as timed out and else as lost, dated to the second, with one audit event of the right action and time; no task is stuck afterwards and no other row or event is written. |
| ControlPlane.Server.ExpireReviewingTasks | app/background.py:299-312 | Is one step of the runs. Ends exactly the reviews that started more than thirty minutes ago, and changes no other row. |
| TextOrder.TextLessIff | app/services/node_runtime_service.py:161 | Stored text is less exactly if at the first difference it ends or has the smaller character. |
| NodeAuth.AuthStore.InsertNonce | app/services/node_runtime_service.py:142-154 | Succeeds exactly for a nonce the node has not stored. |
| NodeAuth.AuthStore.UpdateLastRequest | app/services/node_runtime_service.py:156-172 | Changes one row exactly when the node is enabled and the timestamp is greater than the stored one. |
| NodeAuth.AuthStore.Authenticate | app/services/node_runtime_service.py:47-174 | Accepts exactly if the four headers are there, the stamp parses and lies within the skew, the node is known, enabled and has a key, the signature is valid, the nonce is not stored and the stamp is greater than the last; then nonce, expiry and stamp are recorded and nothing else. A refusal gives a true reason and leaves everything unchanged by rollback. |
| NodeAuth.AuthStore.PruneExpiredNonces | app/db.py:409-411 | Removes exactly the nonces that expired before the given time. |
| NodeAuth.AcceptedWasGenuine | app/services/node_runtime_service.py:47-172 | In every run each accepted request was received, and when it was its signature was valid, its node enabled with a key, its stamp within the skew and its nonce free. |
| NodeAuth.GenuineIsAccepted | app/services/node_runtime_service.py:47-172 | In every run a request that is received is accepted exactly if it is genuine at that moment. |
| NodeAuth.AcceptedTimestampsIncrease | app/services/node_runtime_service.py:156-172 | In every run the requests accepted from a node have strictly increasing timestamps in the stored text order. |
| NodeAuth.NoReplay | app/services/node_runtime_service.py:142-172 | In every run with prunes at any time, a request with the timestamp of an accepted one is refused and leaves no trace, whatever became of its nonce. |
| NodeAuth.NonceFreedIff | app/services/node_runtime_service.py:142-154 | A used nonce is accepted again, for a request that passes all other checks, exactly when a prune past its expiry ran after its last use. |
| NodeAuth.NoncesAloneFailIff | app/services/node_runtime_service.py:65-172 | For any settings and clocks that never go back, the very request that was accepted can get past the nonce check, so that only the timestamp stops it, exactly when a nonce lives shorter than twice the accepted skew. |
| NodeAuth.RepeatRun | app/services/node_runtime_service.py:65-172 | The run that shows it for every such setting: a stamp one skew ahead, repeated two skews later, after a prune. |
| NodeAuth.DefaultsRepeat | app/config.py:34-35 | The same run with the default settings of 300 and 120 seconds. |
| Breaker.CircuitBreaker.OnTransientFailure | node_agent/src/gpufleet_node_agent/api_client.py:46-55 | The three outcomes of a failed call: reopen after a trial, open at the threshold, or count. |
| Breaker.CircuitBreaker.PostSignedJson | node_agent/src/gpufleet_node_agent/api_client.py:83-119 | Posts nothing exactly while the breaker is open and its time has not come; else posts at once and again after each retryable failure, three times at most, and succeeds exactly if the last answer is no error and its body is JSON. How the last attempt ended decides the whole new state of the breaker. |
| Breaker.AttemptsMade | node_agent/src/gpufleet_node_agent/api_client.py:93-119 | Attempts go on over transient errors only, and stop early only at one that is not transient. |
| Breaker.BreakerIsSettled | node_agent/src/gpufleet_node_agent/api_client.py:28-66 | From a new or settled breaker, whatever the calls meet, the breaker is afterwards closed with failures below the threshold, or open with exactly that many. |
| Breaker.OpenIffStreak | node_agent/src/gpufleet_node_agent/api_client.py:28-66 | Over any calls a new breaker is open exactly when the last threshold calls that posted failed in vain, and then until the open time after the last of them; while closed its count is the number of such calls since the last other one. |
| Breaker.RefusedIff | node_agent/src/gpufleet_node_agent/api_client.py:34-39 | After any calls the next is refused without a post exactly if at least threshold calls in a row failed in vain and it starts within the open time of the last. |
| Breaker.BreakerRecovers | node_agent/src/gpufleet_node_agent/api_client.py:34-44 | After any calls, one that starts the open time or more after the last failure in vain posts at once; if its first attempt is answered below 400 it posts once and the breaker is as new. |
| Breaker.OutageLoadBound | node_agent/src/gpufleet_node_agent/api_client.py:83-119 | From the state any earlier calls have left, if every attempt fails transiently from then on, a window of length T holds at most 3 * (threshold + floor(T / open_sec)) posts. |
| Lttb.BucketEnds | frontend/src/lib/lttb.ts:32-47 | The first bucket starts at index 1 and the last ends before the last index. |
| Lttb.BucketStartIs | frontend/src/lib/lttb.ts:32-40 | Bucket i starts at the first index past i * (n - 2) / (threshold - 2). |
| Lttb.BucketsPartition | frontend/src/lib/lttb.ts:38-43 | Every inner index lies in exactly one bucket. |
| Lttb.BucketBounds | frontend/src/lib/lttb.ts:39-48 | No bucket and no next bucket is empty, and the cut-off to the last index never applies. |
| Lttb.BucketRange | frontend/src/lib/lttb.ts:39-48 | The computed start, end and next end are the bucket's bounds. |
| Lttb.AverageOf | frontend/src/lib/lttb.ts:49-66 | The anchor is the average of the next bucket's points that have a value, or the last point. |
| Lttb.AnchorIsAverage | frontend/src/lib/lttb.ts:49-66 | The anchor is the one point from which the valued points of the next bucket deviate by nothing in total; without any it is the last point of all. |
| Lttb.FlatIffCollinear | frontend/src/lib/lttb.ts:77 | The area compared is zero exactly if previous point, candidate and anchor lie on one line. |
| Lttb.ShoelaceInvariant | frontend/src/lib/lttb.ts:77 | The area does not depend on the order of the three points or on moving them together, and grows in proportion when heights are stretched. |
| Lttb.Choose | frontend/src/lib/lttb.ts:71-82 | The chosen index is the first one with the largest area in its range. |
| Lttb.LargestTriangle | frontend/src/lib/lttb.ts:68-82 | The inner loop, with the formula of the source, finds the first index of the largest shoelace area of previous point, candidate and anchor. |
| Lttb.Pick | frontend/src/lib/lttb.ts:38-84 | The point taken from a bucket is the first one maximising the shoelace area with the point taken before and the next bucket's average. |
| Lttb.SelectionIsUnique | frontend/src/lib/lttb.ts:28-89 | Exactly one index sequence has the ends and, in each bucket, the first largest shoelace area: the one computed. |
| Lttb.SelectedIsLargest | frontend/src/lib/lttb.ts:68-84 | In any selection no candidate of a bucket, a missing value drawn at the previous point's height, has a larger shoelace area than the one taken, and an earlier one a strictly smaller. |
| Lttb.SelectionIsIncreasing | frontend/src/lib/lttb.ts:28-89 | The selection has exactly threshold strictly increasing indices, the first and last included. |
| Lttb.Downsample | frontend/src/lib/lttb.ts:28-89 | The nested loops return the points of such a selection, or the input for a threshold of two or less or at least n. |
| Lttb.RecordsAreSelected | frontend/src/lib/lttb.ts:95-110 | The records returned are those at the indices selected for their times and representing values. |
| Lttb.RecordsStayAscending | frontend/src/lib/lttb.ts:95-109 | Ascending records, ties allowed, stay ascending; first and last are kept, each record is taken at most as often as it is there, and there are exactly threshold of them when there were more. |
| SmoothFeeder.Feeder.RunFetch | frontend/src/lib/useSmoothFeeder.ts:97-124 | A fetch takes in exactly the records past the last x seen, in order; the first time the screen shows those in the window, downsampled only if they are too many, and later all of them go behind the buffer. |
| SmoothFeeder.Feeder.RunTick | frontend/src/lib/useSmoothFeeder.ts:163-182 | A tick moves the oldest waiting record to the screen, which shows it and every record before it within twice the window, downsampled only if they are too many. |
| SmoothFeeder.Feeder.Reset | frontend/src/lib/useSmoothFeeder.ts:136-143 | A reset forgets everything, the last x included. |
| SmoothFeeder.UpdateVisible | frontend/src/lib/useSmoothFeeder.ts:168-181 | A tick leaves an ascending screen of at most maxPoints records within twice the window, all from those shown and the new one, which comes last. |
| SmoothFeeder.ScreenIsOrderedAndBounded | frontend/src/lib/useSmoothFeeder.ts:97-182 | In every run of fetches, ticks and resets the screen followed by the buffer is ascending and not past the last x seen; the screen holds at most maxPoints records within twice the window. |
| SmoothFeeder.NoRecordEntersTwice | frontend/src/lib/useSmoothFeeder.ts:101-123 | Between resets every record a later batch brings in is strictly above all taken in before, and what is shown or waiting is among those taken in, none more often. |
| SmoothFeeder.NewestIsShown | frontend/src/lib/useSmoothFeeder.ts:97-182 | From any state of any run, as many ticks as records wait empty the buffer, and the newest record ever taken in is then the last on screen. |
| SmoothFeeder.NothingIsLost | frontend/src/lib/useSmoothFeeder.ts:97-182 | Without a window, and while no more than maxPoints records were taken in since a reset, screen and buffer hold all of them in order. |
| SmoothFeeder.CapNeverFires | frontend/src/lib/useSmoothFeeder.ts:176-177 | In every run what a tick collects is at most 2 * maxPoints, so the cap cuts nothing. |
| SmoothFeeder.LimitHoldsIffAboveTwo | frontend/src/lib/useSmoothFeeder.ts:178-180 | With any window or none, the screen limit holds in all runs exactly when maxPoints is above two; three records of one moment exceed every smaller limit. |
| Base64Url.PaddedShape | app/services/cursor_pagination.py:13-20 | Padding stands only at the end, at most two characters, and is exactly what re-padding by the length puts back. |
| Base64Url.AlphabetIs | app/services/cursor_pagination.py:13 | The symbols are A to Z, a to z, 0 to 9, minus and underscore, in that order. |
| Base64Url.QuartetIsNumber | app/services/cursor_pagination.py:13 | Three bytes and their four groups of six bits are the same number, most significant first. |
| Base64Url.EncodeThreeMore | app/services/cursor_pagination.py:13 | Three bytes put in front are their four symbols put in front. |
| Base64Url.DecodeEncode | app/services/cursor_pagination.py:13-21 | Every byte string encoded without padding is read back. |
| Base64Url.EncodeIsUrlSafe | app/services/cursor_pagination.py:13 | The text uses only the URL-safe alphabet and is four thirds of the bytes long, rounded up. |
| CursorCodec.StringRead | app/services/cursor_pagination.py:12-21 | Every string, with quotes, control characters and characters beyond 16 bits, survives JSON escaping and reading. |
| CursorCodec.IntRead | app/services/cursor_pagination.py:12-23 | Every integer survives decimal printing and reading. |
| CursorCodec.JsonSample | app/services/cursor_pagination.py:12 | The JSON of a cursor: created_at before id, no spaces, quotes escaped. |
| CursorCodec.CursorRoundTrip | app/services/cursor_pagination.py:11-32 | A cursor is non-empty, URL-safe and decodes to the creation time and id it was made from. |
| CursorCodec.CursorIsRead | app/services/cursor_pagination.py:16-32 | Only a missing or empty cursor asks for the first page; a cursor names a row exactly if it is the base64 of the UTF-8 bytes of a JSON text naming that row, and every other is refused. |
| CursorPaging.BelowTransitive | app/services/cursor_pagination.py:40-41 | The cursor's condition is transitive. |
| CursorPaging.BelowTotal | app/services/cursor_pagination.py:40-41 | Of two different rows one comes after the other. |
| CursorPaging.ListingIs | app/services/admin_tasks_service.py:515-524 | The query lists exactly the matching rows, each once, newest first. |
| CursorPaging.ListingIsUnique | app/services/admin_tasks_service.py:519 | There is only one descending list of a set of rows. |
| CursorPaging.FirstPage | app/services/admin_tasks_service.py:519-531 | Asking for one row more than the limit yields the first rows and a next cursor exactly when more follow. |
| CursorPaging.PageIsTop | app/services/admin_tasks_service.py:515-531 | A page is the top of the matching rows: every matching row not on it comes after all of it, and there is one exactly when a next cursor is given. |
| CursorPaging.ListPage | app/services/admin_tasks_service.py:515-535 | One request with the cursor as text: refused if it does not decode, else the page after its row, of the rows that pass the equality conditions. |
| CursorPaging.TaskPageIsTop | app/services/admin_tasks_service.py:508-531 | A page of the task list holds at most limit tasks, latest first and by id at equal times, each passing the node, status, type and time conditions and after the cursor's row; any other such task comes after all of a full page. |
| CursorPaging.ListTasks | app/services/admin_tasks_service.py:486-535 | The task list answers with that page, its next cursor as text, or refuses the cursor. |
| CursorPaging.CursorIsFollowed | app/services/cursor_pagination.py:35-41 | The cursor of a page is accepted by the next request and stands for the same row. |
| CursorPaging.RequestAllCursorPages | frontend/src/api.ts:163-183 | The loop collects what following the pages row by row collects, and no request rejects its cursor. |
| CursorPaging.TraversalIsComplete | frontend/src/api.ts:163-183 | However the table changes between requests, the result is strictly descending without repetition, holds only rows that were there, and at the end holds every row that was there throughout. |
| CursorPaging.TraversalIsSnapshot | frontend/src/api.ts:163-183 | If rows are only added above all existing ones, request m has brought the first m * limit rows of the table as first seen; the traversal ends exactly when that is all of them. |
| CursorPaging.StaticTraversalIsWhole | frontend/src/api.ts:163-183 | A table that does not change is returned whole, in order. |
| PolledList.MergeShowsLatest | frontend/src/lib/listMerge.ts:9-19 | After a merge every polled row is shown in its polled version, and a row that was not polled as before. |
| PolledList.MergeKeys | frontend/src/lib/listMerge.ts:14-18 | A merge keeps the shown rows in place under the new ones, which are exactly the polled rows not shown yet, newest first. |
| PolledList.MergeOrderedIff | frontend/src/lib/listMerge.ts:14-18 | A merge keeps the order of an ordered list exactly when each polled row is shown already or newer than the first row shown. |
| PolledList.AuditsList.Send | frontend/src/features/observability/SecurityView.tsx:351-383 | After sending, no answer to an earlier request has any effect; a reset empties list and cursor, anything else leaves them. |
| PolledList.AuditsList.Receive | frontend/src/features/observability/SecurityView.tsx:360-366 | Only the answer to the last request is used: a reset shows its rows, an append adds them, a refresh merges them and leaves the cursor. |
| PolledRuns.TopAfterAdd | app/routers/admin_observability.py:94-105 | A new row, wherever it belongs, only pushes rows off the first page. |
| PolledRuns.TopAfterLater | app/services/cursor_pagination.py:44-56 | Raising the lower time bound only removes rows from the first page. |
| PolledRuns.EachRowIsShownOnce | frontend/src/features/observability/SecurityView.tsx:348-376 | In every interleaving, whatever rows are added when, the list shows rows of the table only and none twice. |
| PolledRuns.NewcomersAreNewerIff | frontend/src/features/observability/SecurityView.tsx:360-366 | A refresh keeps the rows shown in place and shows every polled row as polled; what it puts before them is newer than all of them exactly when each polled row is shown or newer than the first row shown. |
| PolledRuns.AppendedPageIsOlder | frontend/src/features/observability/SecurityView.tsx:360-366 | In every interleaving, whatever rows are added when, an appended page is older than everything shown and never overlaps it. |
| PolledRuns.ListOrderedIff | frontend/src/features/observability/SecurityView.tsx:348-376 | In every run the list is strictly descending exactly if each refresh merged since it was last emptied had only rows shown already or newer than the first row shown. |
| PolledRuns.RefreshNowIff | frontend/src/features/observability/SecurityView.tsx:387-391 | In every reachable state an immediate refresh keeps an ordered list ordered exactly when each row of the first page is shown or newer than the first row shown. |
| PolledRuns.CoveredAfterAddIff | app/routers/admin_observability.py:94-105 | Adding a row keeps that so exactly when the row is off the first page or newer than the first row shown. |
| PolledRuns.SafeIffCalm | frontend/src/features/observability/SecurityView.tsx:348-391 | Throughout a run the list is in order, and would stay so on a refresh, exactly if each row added was off the first page or newer than the first row shown and the first row under way. |
| PolledRuns.GrowingListIsOrdered | frontend/src/features/observability/SecurityView.tsx:348-376 | Over a table that grows at its top only, the list is strictly descending in every interleaving and newcomers are newer than everything shown. |
| PolledRuns.LateRowBreaksOrder | app/services/admin_tasks_service.py:285-473 | A row stamped before the row shown and added after it ends up above it: the list is then not descending. |

## Left out

- DecodeCursor: reads the key order and spacing the encoder writes; Python's decoder also takes any other JSON spelling of the object, skips characters outside the base64 alphabet and keeps a lone surrogate as a character. All of them end in the same kind of answer or in the invalid-cursor error.
- LogDelivery: the archive is taken as never full, while `AppendLogChunk` and `TaskLogChunk` say what happens after 99999 slices; then part of a chunk can be in the files although the row was rolled back.
- AppendLogChunk: compression of archived slices is left abstract, and the size of a slice is that of its text.
- A half-written character at the end of a node's log, which the node would decode to a replacement character and send before the rest arrives.
- The storage quota as a bound: only log chunks check it, so it is an arbitrary trigger for truncation.
- Settings and the history window are constant during a run; clock values are counted in microseconds and need not grow, except that calls of the circuit breaker come one after another.
- Columns and tables no decision depends on: payloads, danger level, alerts, review audits, reviewing admin, webhooks, metrics other than the completion counter, which starts with the process.
- The language model's answer is any of its three verdicts, and workdir checks and signatures are given as booleans.
- Node deletion, pruning of logs and artifacts, schema migrations, onboarding, HTTP, gzip and SQLite themselves.
- The node's executor, artifact upload and crash recovery beyond a slot that is filled with a handed task and emptied at any time.
- Liveness of dispatch: a lost heartbeat reply leaves a claimed task until the sweep ends it.
- BucketStart: bucket bounds are exact quotients of integers and areas exact reals, where the program rounds in floating point; with exact bounds the guard that skips an empty bucket is never taken and is not part of the loop.
- RunFetch: batches in ascending order; the adaptive tick speed and fetch errors have no part in what is shown.
- ListPage: the actor, action and target conditions of the audit list; `TaskPageIsTop` has the conditions of the task list.
- PolledRuns: within one window the lower time bound of later requests does not fall, and audit rows are not removed.
- Sorting, filtering and rendering in the views, hash routing, rate limiting, key encryption and hardware collection.
