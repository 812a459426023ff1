# Verified model of SuperMCP's record-keeping and guard components

A Dafny model of the parts of SuperMCP whose correctness is hardest to see from the code,
with proofs of what those parts promise. `dafny verify dfyconfig.toml` checks all of it.

The model covers these components.

* **Audit hash chain** (`hashing`, `audit_chain`, `audit_verify`, `audit_store`,
  `audit_history`, `audit_completeness`, `audit_tamper`, `audit_deletion`). Events are chained
  by hash, checkpointed, scrubbed and cut by retention; one walk must accept every lawful history
  and pin every surviving row below a signed checkpoint. SHA-256 is a parameter that is free of
  collisions over the preimages in play; that the preimage itself can be read only one way is
  proved, not assumed. Rows are tied to the events that were submitted, so what a checkpoint pins is
  what callers wrote, and deleting any rows by hand is reported unless they are the newest ones
  with no checkpoint above what is left (`AuditDeletion.DeletionIsReportedExactlyWhen`). Whether a
  full walk accepts a history is characterised exactly (`AuditHistory.Verdict`): it depends on where
  the last cut that removed something fell and on whether an emptied stream was restarted right
  after a cut.
* **Audit writer and spool** (`segment_names`, `audit_spool`, `audit_gap`, `audit_writer`,
  `audit_run`, `audit_pipeline`). Queue, overflow, batch, disk spool and chain, with retries,
  losses and restarts. The spool is a FIFO: over any run of batches and restarts, the chain
  without its gap markers, followed by what is on disk, is what was there at the start followed
  by the stored part of every batch, in order, as long as no replayed segment fails to be deleted;
  each one that does is there once more and nothing else changes. The batches not stored whole
  are exactly what the metric counts; where it counts nothing every batch is whole, and where
  nothing is refused it counts nothing (`AuditRun.Run`). Over
  interleaved steps every accepted event is somewhere or its number is inside a reported gap, the
  loss metric counts exactly what the gaps account for, and it is known exactly after which runs
  every event is in one place.
* **Exporter** (`exporter`). Any number of sweeps, with crashes anywhere, never move the cursor
  past an event that was neither accepted by the receiver nor removed by retention.
* **Caches** (`authz_cache`). A cache guarded by two generation counters, one of which a full
  flush empties. No entry that predates an invalidated write comes back. The policy cache of
  `internal/dlp/policy.go` follows the same protocol with the organisation as its key.
* **Approvals** (`approvals`, `approval_limits`, `approval_service`). A request is decided by
  somebody else, in time, and spent once, for exactly the arguments its asker called with, and never
  after its tool changed what it does or after it was refused.
* **Data-loss scanning** (`check_digits`, `number_windows`, `number_rules`, `number_facts`,
  `masking`, `scanning`, `scan_facts`, `redaction_facts`, `nullable`, `dlp_policies`). Searching
  windows finds what searching the text finds, and a card number among words is found exactly when
  it is one; masking hides every character some detector matched and keeps every other; a clean scan
  read everything; policies stay within their scan budget whatever is written.
* **Catalog re-sync and rate limits** (`resync`, `sliding_window`, `token_bucket`). A re-sync
  settles and leaves hand-owned tools alone; the sliding window and the token bucket admit no
  more than they should, and a refused caller's wait is exact.

A transaction, a Lua call or a file rename is one step that happens or does not. Time, ids,
random numbers, signatures, the receiver's answers and the disk giving out are parameters.

Where comments or names promise more than the code does, the model follows the code:

* A retention cut that lands on a checkpointed row keeps the checkpoint, so nothing bridges the
  cut and the stream is reported as broken (`AuditTamper.CutOnACheckpointIsReportedBroken`); so
  is a stream that a cut emptied and an append restarted
  (`AuditTamper.RestartAfterACutIsReportedBroken`).
* The comment above `refuseDecision` says that a late decision settles the request as expired.
  The statement that would do so runs in a transaction that then returns an error and is rolled
  back, so a refused decision changes nothing (`Approvals.ARefusedDecisionChangesNothing`).
* The limit of twenty waiting requests and the rule that the same call joins the request it
  already has both look at the twenty newest candidates, refusals included. A call slips through
  when none of those twenty is this call and one of them is a refusal that still stands. A run
  keeps the limit if and only if no call slips through while the queue is full
  (`ApprovalLimits.CapHoldsExactlyWhen`), and a call that already has an answer is raised again if
  and only if it slips through (`Approvals.AskedTwiceExactlyWhen`); without refusals both hold.
  `ApprovalLimits.ARefusalOpensTheQueue` is a book where both fail.
* Making room in the token buckets measures idleness by the caller's window, not the bucket's own.
  Forgetting what has been idle for a window is harmless to a bucket's owner if and only if that
  window is no shorter than the owner's (`TokenBucket.HarmlessExactlyWhenNoShorter`); two callers of
  `Allow` can bring about the harm (`TokenBucket.AdmittedTwice`).
* The sliding window's bound needs one clock, except for a budget of one. With readings up to d
  behind earlier ones it holds for whole windows if and only if d is zero or the limit is at most
  one (`SlidingWindow.WindowBoundsExactlyWhen`), and from a limit of two on for exactly the
  stretches no longer than the window less d (`SlidingWindow.BoundsExactlyWhen`).
* A detector edit does not lock the other detectors its policies name. Two overlapping edits keep
  every policy within its budget when no policy names both (`DlpPolicies.EditsApartKeepPolicies`);
  when one does, they can exceed it together exactly when it could not afford all its detectors at
  the largest size (`DlpPolicies.EditsTogetherExceedExactlyWhen`). For one write after another the
  budget holds.
* The check on patterns refuses some that can match nothing at all
  (`Nullable.RefusedWithoutAMatch`); without assertions it is exact.

## Model

| member | source | states |
|---|---|---|
| `Hashing.ChainPreimageIsUniquelyReadable` | internal/audit/audit.go:886-903 | Two rows with the same hash preimage have the same predecessor, the same facts field by field and the same content digest, because fields are NUL-free and the digests have a fixed width. |
| `Hashing.ContentIsDetermined` | internal/audit/audit.go:873-884 | Among preimages without a collision, a content digest determines all three columns it was taken over. |
| `AuditStore.AuditDb.Append` | internal/audit/audit.go:765-813 | Adds one row for each event, under consecutive numbers, and each row carries its event's facts, diff, payload, metadata and display names; rows are linked from the number and the hash the stream ended with. A failure at any event changes nothing but the numbers used up, the refused row's own among them if it had drawn one. |
| `AuditChain.BatchCarriesItsEvents` | internal/audit/audit.go:789-838 | Row i of a batch carries event i, field by field, under the number i after the first, and is neither held nor scrubbed. |
| `AuditStore.AuditDb.Anchor` | internal/audit/read.go:401-431 | Puts a checkpoint with the newest row's hash and its signature over that row, unless the stream is empty, an anchor is already there or the signing failed; no other anchor changes. |
| `AuditStore.AuditDb.Cut` | internal/audit/read.go:467-505 | Removes exactly the rows up to the newest one that is older than the time given and below every legal hold, and leaves an anchor at the cut that keeps the kind of one already there. |
| `AuditChain.WhatACutLeaves` | internal/audit/read.go:467-505 | The rows behind the cut, every other anchor as it was, and at the cut an anchor with the cut row's hash: the one already there, kind and signature kept, or else an unsigned retention cut. |
| `AuditStore.AuditDb.Scrub` | internal/audit/read.go:512-525 | Empties diff and payload of exactly the organisation's unheld, unscrubbed rows older than the time given that have either, leaves every other row, and says how many. |
| `AuditStore.AuditDb.Verify` | internal/audit/read.go:232-398 | Reports valid exactly when the stored rows, anchors and bridge satisfy the declarative acceptance condition, and then every checkpoint in range is at or below the last row walked; names the first row at fault otherwise, and counts rows, checkpoints and scrubbed rows. |
| `AuditStore.NewestCuttable` | internal/audit/read.go:467-505 | The loop finds the newest row a cut may remove, or none. |
| `AuditStore.WalkRows` | internal/audit/read.go:303-378 | The walk stops at the first faulty row of the range and tallies what came before it. |
| `AuditStore.Bridge` | internal/audit/read.go:235-252 | The newest retention cut below the first row, if it carries that row's predecessor hash. |
| `AuditStore.BatchOf` | internal/audit/audit.go:789-813 | The rows of a batch, each linked to the one before and carrying its event, up to the event that is refused, and the numbers used, with or without that event's own. |
| `AuditStore.ScrubRows` | internal/audit/read.go:512-525 | Scrubs exactly the rows the statement selects, and counts them. |
| `AuditStore.RowsAbove` | internal/audit/read.go:486-490 | What is left after every row up to the cut row is deleted. |
| `AuditStore.LastCheckpoint` | internal/audit/read.go:255-275 | The number of the newest checkpoint in range, zero without one: it is at or above each of them and is one of them. |
| `AuditStore.WalkRow` | internal/audit/read.go:288-378 | One row of the walk: still consistent with everything walked so far, or the first fault. |
| `AuditStore.FrontOf` | internal/audit/read.go:303-334 | The first row is in order exactly when a genesis row, a matching cut or the start of a sub-range accounts for its predecessor. |
| `AuditStore.RowVerdict` | internal/audit/read.go:335-378 | A row passes exactly when link, hash, content and checkpoint are in order, and the fault named is the first in that order. |
| `AuditVerify.ScrubbedAreCounted` | internal/audit/read.go:303-378 | The tally of scrubbed rows is the number of scrubbed rows walked. |
| `AuditVerify.CheckpointsAreCounted` | internal/audit/read.go:340-378 | The tally of checkpoints is the number of rows walked that have a checkpoint. |
| `AuditVerify.UnsignedAreCounted` | internal/audit/read.go:340-378 | The tally of unsigned checkpoints is the number of those without a signature. |
| `AuditHistory.EveryHistoryIsIntact` | internal/audit/audit.go:777-813 | After any history of appends, refused appends, anchors, cuts and edits the rows are sorted, linked and correctly hashed, every anchor vouches for its row or lies where a row was cut away, and every row was appended with those hashed facts. |
| `AuditHistory.TheLogIsWhatWasSubmitted` | internal/audit/audit.go:777-838 | After any history the log has one row for each event submitted to an append that went through, in order, and each row carries its event's facts, contents and display names. |
| `AuditCompleteness.FullWalkVerdict` | internal/audit/read.go:232-398 | After any lawful history a full walk accepts the stream if and only if the last cut that removed something landed on no anchor (or, emptying the stream, met no checkpoint) and no restart followed a cut directly. |
| `AuditCompleteness.LawfulHistoriesVerify` | internal/audit/read.go:232-398 | Under that condition the full walk and every sub-range holding a row are reported valid, whatever the interleaving. |
| `AuditCompleteness.EverySubRangeIsAccepted` | internal/audit/read.go:253-300 | An intact stream whose ends are in order is accepted from any row to any row. |
| `AuditTamper.HashPinsEverythingBefore` | internal/audit/read.go:303-378 | Backward induction: a walked row with a logged hash is the logged row, and so is everything walked before it, in order and in every hashed fact. |
| `AuditTamper.CheckpointPinsTheStream` | internal/audit/read.go:340-378 | Whatever the store holds, if a walk accepts it and meets a signed checkpoint, the rows up to it are consecutive rows of what was appended and hold the facts of the submitted events, and they are the whole beginning of it when the walk starts at genesis and the log never restarted. |
| `AuditTamper.HistoriesHaveDistinctHashes` | internal/audit/audit.go:886-903 | With distinct event ids and no collision, no two rows ever written share a hash and none has the genesis hash. |
| `AuditTamper.PinnedContentIsOriginal` | internal/audit/audit.go:873-884 | The content of a pinned, unscrubbed row is what was appended, byte for byte. |
| `AuditTamper.PinnedRowIsTheEvent` | internal/audit/audit.go:789-903 | A pinned, unscrubbed row holds the facts, diff, payload and metadata of the event that was submitted, byte for byte. |
| `AuditDeletion.AMissingHeadIsReported` | internal/audit/read.go:255-275 | Whatever the store holds, a walk over a range with a checkpoint above every row left in it is rejected. |
| `AuditDeletion.DeletedHeadIsReportedExactlyWhen` | internal/audit/read.go:386-391 | Take any lawful history that a full walk accepts and delete rows from the head: the full walk still accepts if and only if every checkpoint is at or below the last row left. |
| `AuditDeletion.ADeletedCheckpointIsReported` | internal/audit/read.go:386-391 | After any lawful history, deleting rows from the head down past a checkpointed one is reported. |
| `AuditDeletion.DeletionIsReportedExactlyWhen` | internal/audit/read.go:303-391 | Take any lawful history that a full walk accepts and delete any set of its rows, at the front, in the middle or at the end: the full walk still accepts if and only if the deleted rows are the newest ones and every checkpoint has a row left at or above it. |
| `AuditDeletion.AHoleIsReported` | internal/audit/read.go:303-350 | Any intact stream whose rows and anchors have logged hashes, distinct ones, accepted or not, is rejected once what is left of its rows is not a beginning of it. |
| `AuditTamper.CutOnACheckpointIsReportedBroken` | internal/audit/read.go:478-490 | For any two events, appending, checkpointing, appending and cutting up to the checkpointed row leaves a stream the full walk rejects. |
| `AuditTamper.RestartAfterACutIsReportedBroken` | internal/audit/audit.go:782-789 | For any two events, a cut that empties the stream followed by an append leaves one it rejects. |
| `SegmentNames.SegmentNameReadsBack` | internal/audit/spool.go:613-623 | A segment name gives back the order and the count written into it, whatever the instance is called. |
| `SegmentNames.NamesSortByOrder` | internal/audit/spool.go:222-233 | Zero-padded names sort as their orders do, in both directions. |
| `AuditSpool.Spool.constructor` | internal/audit/spool.go:131-217 | Opening a directory of this instance builds an index of all its segments in write order, with the events and bytes they hold. |
| `AuditSpool.Spool.WriteSegment` | internal/audit/spool.go:394-461 | A segment goes behind everything that waits, or nothing changes when there is no room or the disk fails. |
| `AuditSpool.Spool.Write` | internal/audit/spool.go:383-392 | Adds a batch behind what waits; when it gives out, exactly the full segments before stay written and their number is known. |
| `AuditSpool.Spool.Oldest` | internal/audit/spool.go:467-510 | The segment that has waited longest, with its events; none exactly when none is listed. |
| `AuditSpool.Spool.Remove` | internal/audit/spool.go:515-558 | Takes exactly the oldest segment off the list and the disk and keeps the totals exact; a failed delete leaves everything. |
| `AuditSpool.RestartKeepsTheOrder` | internal/audit/spool.go:168-233 | The directory alone fixes the index: two indexes of the same files list them in the same order. |
| `AuditSpool.ReopeningKeepsEverything` | internal/audit/spool.go:131-217 | A reopened spool lists the same segments, events and bytes as the one before it. |
| `AuditSpool.ScanDirectory` | internal/audit/spool.go:168-217 | Rebuilds an index that lists exactly the directory's segments in order, with exact totals. |
| `AuditSpool.InsertName` | internal/audit/spool.go:222-233 | Puts a name where it sorts and adds what its segment holds. |
| `AuditSpool.Forget` | internal/audit/spool.go:539-558 | Takes a name out of the index with its counts, never below zero. |
| `AuditSpool.Spool.Empty` | internal/audit/spool.go:584-591 | Empty exactly when no segment waits, and then nothing is held. |
| `AuditGap.BatchGapIsExact` | internal/audit/audit.go:402-417 | A batch's gap counts it, covers every event of it, and begins and ends at numbers of events in it. |
| `AuditGap.AddGapCovers` | internal/audit/audit.go:228-249 | Adding gaps uncovers nothing either of them covered. |
| `AuditGap.AddGapCommutes` | internal/audit/audit.go:228-249 | Gaps put back in either order leave the same gap. |
| `AuditGap.GapOf` | internal/audit/audit.go:402-417 | The loop computes the batch's gap. |
| `AuditWriter.Writer.Lose` | internal/audit/audit.go:402-417 | A lost batch is added to the unreported gap and to the total, and nothing else changes. |
| `AuditWriter.Writer.Append` | internal/audit/audit.go:650-813 | A batch goes into the chain in order, marked as written directly, behind a marker with exactly the open gap if there is one; or neither goes in and the gap is given back. |
| `AuditWriter.CommittedIs` | internal/audit/audit.go:720-764 | What a commit adds is, in order, one marker that holds the gap if events were lost, and one record for each event with the mark of where it came from. |
| `AuditWriter.Writer.ReplayOldest` | internal/audit/audit.go:690-717 | The oldest segment moves from the head of the disk to the end of the chain; if it cannot be deleted after its append, exactly its events are in the chain as well and the disk is as it was. |
| `AuditWriter.Writer.Replay` | internal/audit/audit.go:690-717 | Moves some number of segments, in order, from the head of the disk to the end of the chain, all of them if it finishes; a replay a failed deletion stops has in both places exactly the one segment then at the head of the disk. |
| `AuditWriter.Writer.Hold` | internal/audit/audit.go:660-681 | A refused batch goes behind what is on disk; what does not fit is counted as lost, whole segments staying written. |
| `AuditWriter.Writer.Write` | internal/audit/audit.go:627-646 | FIFO: chain and disk together hold what they held, followed by the batch or by the part of it that was stored. Only a failed deletion repeats anything, and then exactly the one segment of the old disk that is still at its head. An event goes into the chain only when nothing is on disk ahead of it. |
| `AuditWriter.Writer.Deliver` | internal/audit/audit.go:562-592 | A batch is in the chain or on disk in full, or is counted as lost and covered by the gap; what was there before is kept in order, with exactly the segment at the head of the disk twice if it could not be deleted. |
| `AuditWriter.Restart` | internal/audit/audit.go:303-347 | A process that starts again finds the same events in the chain and on disk, in the same order. |
| `AuditWriter.Writer.Drain` | internal/audit/audit.go:627-717 | Empties the disk into the chain; or stops with everything kept, in order, once, but for the one segment at the head of the disk if that could not be deleted after its replay. |
| `AuditWriter.Writer.AppendOrHold` | internal/audit/audit.go:627-681 | A batch with nothing on disk ahead of it goes into the chain, or to disk, or is counted as lost. |
| `AuditWriter.Writer.CommitSegment` | internal/audit/audit.go:690-717 | A segment's events join the chain in order behind what is there, each marked as replayed from the spool, or the chain stays. |
| `AuditWriter.Writer.DropSegment` | internal/audit/audit.go:690-717 | A replayed segment leaves the disk, or stays when it cannot be deleted. |
| `AuditPipeline.NothingIsLostSilently` | internal/audit/audit.go:371-681 | After any interleaving every accepted event is with its caller, queued, parked, in the batch, on disk or in the chain, or a gap covers its number; the metric equals committed markers plus the open gap plus gaps in flight; and an event is in one place, plus one for each time it was left in two. |
| `AuditPipeline.PlacesAreExclusiveExactlyWhen` | internal/audit/audit.go:660-717 | After any run every accepted event is in exactly one place if and only if no spool write of the run gave out part-way and no non-empty segment outlived its replay. |
| `AuditPipeline.SmoothRunsAreExclusive` | internal/audit/audit.go:660-717 | So the places are exclusive whenever deletions succeed and every batch that goes to disk fits one segment. |
| `AuditRun.Run` | internal/audit/audit.go:499-592 | Any run of batches and restarts is a trace of lawful jobs from the state it began in to the one it ends in. The metrics of all its processes grow by exactly the batches not stored whole; with no segment repeated, chain and disk end as they began followed by the stored parts, in order, and otherwise hold the repeated segments besides; with nothing counted as lost the parts are the whole batches; and with nothing refused nothing is counted or repeated. |
| `AuditRun.RunOne` | internal/audit/audit.go:303-592 | One job is lawful: behind what chain and disk held, with at most the one undeletable segment at the head of the disk twice, comes the batch, whole or, all of it counted, whole segments of it; unless something was refused it is whole and in the chain. A restart changes nothing. |
| `AuditRun.RunKeeps` | internal/audit/audit.go:562-717 | Over a trace of lawful jobs, chain and disk grow by the stored parts in order and the repeated segments and nothing else, and the count of losses by exactly the batches not stored whole. |
| `AuditRun.NothingLostIsWhole` | internal/audit/audit.go:402-417 | If nothing was counted as lost, the stored parts are all batches, whole and in order. |
| `AuditRun.NothingRefusedIsClean` | internal/audit/audit.go:562-646 | If neither the database nor the disk refused anything, nothing was lost and no segment repeated. |
| `AuthzCache.KeysAreDistinct` | internal/authz/authz.go:484-486 | No two well-formed principals share a cache key. |
| `AuthzCache.Evaluator.Invalidate` | internal/authz/authz.go:242-257 | Drops the principal's entry and moves its organisation's counter on. |
| `AuthzCache.Evaluator.InvalidateOrg` | internal/authz/authz.go:260-270 | Drops exactly the entries of the organisation and moves its counter on. |
| `AuthzCache.Evaluator.InvalidateAll` | internal/authz/authz.go:273-279 | Empties the cache and the organisations' counters and moves the general counter on. |
| `AuthzCache.Evaluator.Store` | internal/authz/authz.go:474-481 | A finished load is kept, under its principal's key and with its time, exactly when neither counter moved since it began; every other entry stays. |
| `AuthzCache.StampsOnlyGrow` | internal/authz/authz.go:242-279 | For every organisation the pair of counters stays or grows lexicographically, and changes exactly when the invalidation reaches it, although a full flush empties one of them. |
| `AuthzCache.InvalidatedDrops` | internal/authz/authz.go:242-279 | An invalidation drops every entry it reaches and moves the stamp of each past what a load in flight saw. |
| `AuthzCache.InvalidatedKeepsTheRest` | internal/authz/authz.go:242-279 | The entry of a principal an invalidation does not reach is there after it, unchanged, exactly when it was there before. |
| `AuthzCache.NoStaleEntryComesBack` | internal/authz/authz.go:408-482 | In any interleaving of writes, invalidations and the two queries of each load, once a write was invalidated for, neither part of an entry it reaches predates it, and no load in flight that read either part before it is kept. |
| `AuthzCache.ServedEntriesAreYoung` | internal/authz/authz.go:408-440 | Even without invalidations both parts of a served entry were read less than the time to live ago and show every write at least that old. |
| `AuthzCache.Evaluator.Bump` | internal/authz/authz.go:242-270 | Moves one organisation's counter on and nothing else. |
| `AuthzCache.Evaluator.Lookup` | internal/authz/authz.go:408-425 | A hit is an entry younger than the time to live; otherwise the stamp a load begins under. |
| `AuthzCache.DropPrefix` | internal/authz/authz.go:260-270 | Keeps exactly the entries whose key does not begin with the prefix. |
| `Approvals.StepMoves` | internal/governance/approvals.go:488-566 | A step changes nothing about what was asked, moves a request only along the permitted transitions, and leaves a closed one as it is. |
| `Approvals.ClosedForGood` | internal/governance/approvals.go:488-566 | A rejected, expired, cancelled or consumed request is the same after any run. |
| `Approvals.LateIsNeverApproved` | internal/governance/approvals.go:488-516 | A request once effectively expired is never approved, whatever runs and whether or not it was swept. |
| `Approvals.ARefusedDecisionChangesNothing` | internal/governance/approvals.go:1117-1133 | A decision on a late request, or one that may not be made, leaves everything as it was. |
| `Approvals.SpentAtMostOnce` | internal/governance/approvals.go:994-1023 | Over any run a request is claimed at most once, and the claimed ones are exactly the consumed ones. |
| `Approvals.ClaimRunsWhatWasApproved` | internal/governance/approvals.go:994-1023 | A claim returns the arguments sealed at the start; the request was approved by somebody else, is spent by its asker within its window after the decision, and its tool does what it did when it was raised. |
| `Approvals.EveryRequestWasRaised` | internal/governance/approvals.go:403-481 | After any run, every request goes back to a call of its asker for its tool with its arguments, which created it. |
| `Approvals.DecidesAsTold` | internal/governance/approvals.go:488-516 | A decision that may be made leaves the request approved or rejected as told, with decider, time and reason; approving moves the deadline to one time to live from now, refusing does not. |
| `Approvals.EveryAnswerWasGiven` | internal/governance/approvals.go:488-516 | After any run, an approved or spent request goes back to an approval in time by somebody other than its asker, and a rejected one to a refusal by such a person. |
| `Approvals.DecidedAtMostOnce` | internal/governance/approvals.go:488-516 | Over any run, at most one decision on a request takes effect. |
| `Approvals.WhatIsSpentWasAskedAndApproved` | internal/governance/approvals.go:403-1023 | Over any run, a claim that spends a request was preceded by the claimant's own call with exactly the arguments the claim returns, and after it by an approval by somebody else that took effect. |
| `Approvals.WhatIsRefusedIsNeverSpent` | internal/governance/approvals.go:488-1023 | A waiting request that somebody refuses is never spent, whatever runs afterwards. |
| `Approvals.ChangedToolIsNeverRun` | internal/connector/tools.go:319-446 | After a tool changed what it does or was deleted, no approval raised before is ever spent. |
| `Approvals.TurnedAwayExactlyWhen` | internal/governance/approvals.go:1061-1109 | A call is turned away if and only if the twenty newest candidates are all waiting and none is this call. |
| `Approvals.RaisedExactlyWhen` | internal/governance/approvals.go:403-481 | A new request is raised if and only if none of the newest candidates is this call and they are not twenty waiting ones. |
| `Approvals.AskedTwiceExactlyWhen` | internal/governance/approvals.go:403-481 | A call that already waits or stands refused is raised again if and only if none of the twenty newest candidates is this call and one of them is a standing refusal. |
| `Approvals.NewestReadsTheNewest` | internal/governance/approvals.go:1061-1085 | A candidate the query leaves out is older than all it reads, of which there are then as many as the limit. |
| `ApprovalLimits.CapHoldsExactlyWhen` | internal/governance/approvals.go:1061-1109 | A run keeps at most twenty requests of one caller for one tool waiting, all the way, if and only if no call in it slips past a full queue: none of the twenty newest candidates is that call and one of them is a standing refusal. |
| `ApprovalLimits.StepOverfillsExactlyWhen` | internal/governance/approvals.go:1061-1109 | One step takes a queue of at most twenty over the limit if and only if it is such a call. |
| `ApprovalLimits.ThroughAFullQueueExactlyWhen` | internal/governance/approvals.go:1061-1109 | With twenty or more waiting, a call gets through if and only if none of the twenty newest candidates is this call and one of them is a standing refusal. |
| `ApprovalLimits.WithoutRefusalsBothHold` | internal/governance/approvals.go:403-481 | In a run through which no refusal of the caller for the tool stands, at most twenty wait and no waiting call is raised again. |
| `ApprovalLimits.ARefusalOpensTheQueue` | internal/governance/approvals.go:1061-1109 | A concrete book in which one standing refusal lets the same call be raised twice and a twenty-first request wait. |
| `ApprovalService.Service.Raise` | internal/governance/approvals.go:403-481 | Gives the request there is, turns the call away, or adds one pending request that seals the call's own tool, asker, arguments and time to live, with its deadline; whichever request it gives holds exactly these arguments, and nothing else changes. |
| `ApprovalService.Service.Decide` | internal/governance/approvals.go:488-516 | Moves exactly the one request, when it still waits, the decider is not the asker and a refusal has a reason: to approved or rejected as told, with the decider, the reason, the time and, when approved, a new deadline; otherwise changes nothing and says why. |
| `ApprovalService.Service.Cancel` | internal/governance/approvals.go:522-566 | Withdraws the asker's own pending request, except a confirmed one when only unconfirmed ones are meant; each of the six reasons for changing nothing is given exactly when it holds. |
| `ApprovalService.Service.Acknowledge` | internal/governance/approvals.go:572-610 | Confirms the asker's own waiting request once, gives the first confirmation back after that, and gives each reason for refusing exactly when it holds. |
| `ApprovalService.Service.Claim` | internal/governance/approvals.go:994-1023 | Spends an approved request in time, by its asker, and returns its sealed arguments. |
| `ApprovalService.Service.Sweep` | internal/governance/approvals.go:681-696 | Settles exactly the late requests, and counts them; afterwards every stored state is the effective one. |
| `ApprovalService.Service.EditTool` | internal/connector/tools.go:319-398 | When an edit of a tool goes through, its open requests are cancelled exactly when its behaviour changed. |
| `ApprovalService.Service.DeleteTool` | internal/connector/tools.go:401-446 | When a tool is deleted, its open requests are cancelled with it. |
| `ApprovalService.Governing` | internal/governance/approvals.go:334-370 | Finds the policy that governs among the matching ones: of those with the narrowest scope one that requires approval if there is one, and the first of these; none when none matches. |
| `ApprovalService.GoverningIsUnique` | internal/governance/approvals.go:1194-1205 | There is never more than one governing policy. |
| `ApprovalService.AnswerFor` | internal/governance/approvals.go:420-470 | What a call gets: the request it already has, being turned away, or a new request. |
| `ApprovalService.ExistingIsTheCall` | internal/governance/approvals.go:1085-1109 | The request a call is referred to waits or stands refused, and has the call's tool, asker and arguments; a new one gets the next number. |
| `ApprovalService.ReadCandidates` | internal/governance/approvals.go:1061-1085 | The newest twenty candidates, newest first, and how many of them wait. |
| `ApprovalService.FindSame` | internal/governance/approvals.go:1085-1109 | The newest candidate with exactly these arguments. |
| `ApprovalService.SettleLate` | internal/governance/approvals.go:681-696 | Every late pending request becomes expired, and their number is returned. |
| `ApprovalService.CancelFor` | internal/connector/tools.go:673-680 | Exactly the tool's pending and approved requests are cancelled, with the reason. |
| `CheckDigits.Luhn` | internal/dlp/detectors.go:201-214 | The loop accepts exactly the numbers whose weighted digit sum is a multiple of ten. |
| `CheckDigits.LuhnIsByPairs` | internal/dlp/detectors.go:201-214 | The number is valid in the sense of the standard: in pairs from the right, the left digit doubled and the digits of the double added up, the sum is a multiple of ten. |
| `CheckDigits.LuhnCatchesOneWrongDigit` | internal/dlp/detectors.go:201-214 | For numbers of any length, a valid number with one digit replaced is never valid (ISO/IEC 7812-1, Annex B). |
| `CheckDigits.LuhnCatchesSwaps` | internal/dlp/detectors.go:201-214 | A valid number with two neighbours swapped is valid if and only if they are equal or are a 0 and a 9. |
| `CheckDigits.Mod97` | internal/dlp/detectors.go:281-296 | The streaming remainder accepts exactly the strings whose rotated, letter-expanded decimal value leaves 1 modulo 97, and none with another character (ISO/IEC 7064 MOD 97-10). |
| `CheckDigits.Mod97CatchesOneWrongCharacter` | internal/dlp/detectors.go:281-296 | A valid string of any length with one digit replaced by another, or one letter by another, is never valid. |
| `CheckDigits.HybridCatchesOneWrongDigit` | internal/dlp/detectors.go:390-401 | MOD 11,10 (ISO/IEC 7064) rejects every valid number with one digit replaced, the check digit included. |
| `CheckDigits.CheckDETaxID` | internal/dlp/detectors.go:363-403 | Accepts exactly eleven digits without a leading zero among whose first ten exactly one digit comes twice or three times and no other twice, with a valid check digit. |
| `CheckDigits.TaxIdCatchesOneWrongDigit` | internal/dlp/detectors.go:363-403 | One wrong digit in a valid number is never accepted. |
| `CheckDigits.CountDigits` | internal/dlp/detectors.go:370-377 | How often each digit occurs. |
| `CheckDigits.Repeats` | internal/dlp/detectors.go:378-389 | Exactly one digit repeats, twice or three times, and no other does. |
| `CheckDigits.HybridCheck` | internal/dlp/detectors.go:390-402 | The loop accepts exactly the numbers whose last digit is the check digit of the others. |
| `NumberWindows.DigitSpans` | internal/dlp/detectors.go:576-601 | One pass finds a window, with two characters around it, for each run with enough digits, in order. |
| `NumberWindows.WindowSearch` | internal/dlp/detectors.go:541-601 | Searching a run's window finds exactly the matches the whole text has there, at the same places. |
| `NumberWindows.WindowsFindEveryHit` | internal/dlp/detectors.go:122-166 | For every text, and every rule whose matches are numbers, depend only on what they cover and its neighbours, and need at least the window's digits, the hits found window by window are the hits of the whole text, in order. |
| `NumberWindows.Run` | internal/dlp/detectors.go:583-596 | One run: where it ends, how many digits it has and where its last digit stands. |
| `NumberRules.RegisteredRulesFit` | internal/dlp/detectors.go:442-463 | Each registered number rule, card, social security, tax and the three telephone forms, is such a rule for the digit count it is registered with. |
| `NumberRules.Find` | internal/dlp/detectors.go:122-166 | Reports the first hundred and one of the hits over windows and rules, however the cap falls. |
| `NumberRules.WholeTextIsSearched` | internal/dlp/detectors.go:122-186 | For every text, the card, social security and tax number detectors report the first hits of the whole text. |
| `NumberRules.PhoneHitsAreTheWholeTexts` | internal/dlp/detectors.go:318-330 | Before the cap, a hit is among the telephone detector's if and only if one of its three rules has it in the whole text. |
| `NumberRules.AddMatches` | internal/dlp/detectors.go:144-166 | One rule's graded matches, added to what is there until the cap. |
| `NumberRules.FindIn` | internal/dlp/detectors.go:139-166 | All rules over one window, added to what is there until the cap. |
| `NumberFacts.SearchMissesNothing` | internal/dlp/detectors.go:144-166 | For every expression and text, what a search finds are matches, in order and without overlap, and every place where the expression matches lies in one of them. |
| `NumberFacts.ACardHitIsACard` | internal/dlp/detectors.go:186-214 | Every card hit, in any text, is thirteen to nineteen digits, not all the same, that satisfy the Luhn formula, in a stretch that stands on its own and holds only single spaces and hyphens besides. |
| `NumberFacts.ACardAmongWordsIsFound` | internal/dlp/detectors.go:122-214 | A stretch of thirteen to nineteen digits, however spaced, alone among words without digits is reported, whole and once, if and only if it is a card number in this sense. |
| `NumberFacts.CardIsGradedExactlyWhen` | internal/dlp/detectors.go:188-199 | The test passes exactly the card numbers, whatever separates their digits. |
| `NumberFacts.AnSsnHitIsAnSsn` | internal/dlp/detectors.go:338-349 | Every social security hit is three, two and four digits, none of the parts zero, the first below 900 and not 666. |
| `NumberFacts.AnSsnAmongWordsIsFound` | internal/dlp/detectors.go:338-349 | Nine digits so grouped, alone among words without digits, are reported if and only if they meet these conditions. |
| `NumberFacts.ATaxIdHitIsATaxId` | internal/dlp/detectors.go:361-403 | Every tax number hit is eleven digits on their own that make a valid number. |
| `NumberFacts.ATaxIdAmongWordsIsFound` | internal/dlp/detectors.go:361-403 | Eleven digits alone among words without digits are reported if and only if they make a valid number. |
| `NumberFacts.APhoneHitIsANumber` | internal/dlp/detectors.go:317-334 | Every telephone hit ends its word and has two different digits, and eight to fifteen of them with a plus sign in front, or ten to thirteen without. |
| `Masking.MaskSpans` | internal/dlp/dlp.go:359-382 | For sorted, non-empty spans the output is, position by position, the text outside all spans with one token where each maximal group of overlapping spans begins, of the kind of its first span. |
| `Masking.CopiedExactlyOutside` | internal/dlp/dlp.go:356-382 | A position is copied if and only if no match covers it. |
| `Masking.MaskHidesTheMatches` | internal/dlp/dlp.go:356-382 | Two strings that differ only inside the matches are masked alike. |
| `Masking.MaskKeepsTheRest` | internal/dlp/dlp.go:356-382 | And only such strings: where two strings are masked alike they agree outside the matches. |
| `Masking.NextGroup` | internal/dlp/dlp.go:364-372 | From a span on, exactly the spans that overlap it or one another, and where the group ends. |
| `Masking.MaskOfNothing` | internal/dlp/dlp.go:356-382 | Without a match the string is written as it is. |
| `Masking.MaskOfOne` | internal/dlp/dlp.go:356-387 | One match becomes a token that names its kind, between what stood before it and what stood after it. |
| `Scanning.BoundaryBelow` | internal/dlp/dlp.go:413-418 | Finds the last character boundary at or below a position. |
| `Scanning.Collect` | internal/dlp/dlp.go:312-332 | Asks every detector in turn unless the deadline passes first, and takes an overflowing detector as one match of the whole string. |
| `Scanning.Record` | internal/dlp/dlp.go:347-352 | Counts every match and keeps the first hundred. |
| `Scanning.Scanner.Read` | internal/dlp/dlp.go:291-345 | One string: read within the budget, judged by all detectors, recorded and masked, exactly as the budgeted scan of the string says. |
| `Scanning.Scanner.VisitObject` | internal/dlp/dlp.go:244-270 | Walks fields in order, redacts secret ones without descending, and hands back the object itself when nothing changed. |
| `Scanning.Scanner.VisitArray` | internal/dlp/dlp.go:272-287 | Walks items in order and hands back the array itself when nothing changed. |
| `Scanning.Apply` | internal/dlp/dlp.go:160-170 | Refuses on a missed deadline, refuses under that action exactly when something matched, and otherwise hands back the walked value: with every secret field replaced when masking, and the value as it came when not. |
| `Scanning.SecretsAreReplaced` | internal/dlp/dlp.go:244-270 | When masking, whatever the budget and the time, no field that looks secret keeps its value anywhere in the result. |
| `Scanning.Ask` | internal/dlp/dlp.go:315-332 | One finding for each match of the detector, over the very span it matched and under the detector's name, or one finding over the whole string when it overflows. |
| `Scanning.Finish` | internal/dlp/dlp.go:333-345 | Hits are put in order, recorded, and masked if that is the action. |
| `Scanning.InPlaceHolds` | internal/dlp/dlp.go:336-341 | Sorting the hits neither loses nor invents one. |
| `Scanning.Scanner.Take` | internal/dlp/dlp.go:299-309 | Takes the part of a string that fits off the budget, cut at a character boundary. |
| `Scanning.Scanner.Visit` | internal/dlp/dlp.go:229-242 | Walks a value exactly as the budgeted scan says, and a value reported as unchanged is the value itself. |
| `ScanFacts.CleanMeansReadWhole` | internal/dlp/dlp.go:172-175 | With time enough, a scan is clean if and only if the whole text is within the budget, no detector fires on any whole string and no field says it holds a secret. |
| `ScanFacts.MaskingIsComplete` | internal/dlp/dlp.go:229-345 | Within budget and time, masking hands back the value with every string masked and every secret field replaced, as a scan without a budget defines it. |
| `RedactionFacts.CoveredExactlyWhereClaimed` | internal/dlp/dlp.go:312-345 | A character is covered by the findings if and only if a match of some detector covers it, or a detector has more matches than are kept. |
| `RedactionFacts.TextsRedactAlikeExactlyWhen` | internal/dlp/dlp.go:291-382 | Two texts for which the detectors answer alike are redacted alike if and only if they agree wherever no detector claims the character: every claimed character is hidden and every other is kept. |
| `RedactionFacts.RedactAlikeExactlyWhen` | internal/dlp/dlp.go:229-382 | The same for whole values of any depth: alike if and only if they differ only inside claimed characters and secret fields. |
| `RedactionFacts.ScansMaskAlikeExactlyWhen` | internal/dlp/dlp.go:160-382 | And for the budgeted scan itself, within budget and time. |
| `RedactionFacts.SecretsAreNeverClean` | internal/dlp/dlp.go:172-264 | A scan in time of a value with a secret field is never clean. |
| `ScanFacts.ScanAccounts` | internal/dlp/dlp.go:291-352 | Whatever happens, bytes read plus budget left is the budget, all matches or the first hundred are on record, and without masking or matches the value comes back as it was. |
| `Nullable.MatchesCoverText` | internal/dlp/custom.go:315-351 | A pattern that passes matches at least one character wherever it matches, for every expression tree and text. |
| `Nullable.CheckIsExact` | internal/dlp/custom.go:320-351 | A pattern is refused if and only if it matches the empty span with assertions taken as holding; without assertions, if and only if it matches it. |
| `Nullable.RefusedWithoutAMatch` | internal/dlp/custom.go:315-323 | A boundary that is no boundary is refused though it matches nowhere. |
| `DlpPolicies.CustomCheck` | internal/dlp/policy.go:812-859 | Passes exactly when every custom name is stored and compiles and the programs, each counted once, fit the policy's limit. |
| `DlpPolicies.PoliciesFit` | internal/dlp/custom_store.go:312-385 | Passes exactly when every policy naming the detector fits its limit with the new pattern, every mention counted. |
| `DlpPolicies.ScanCost` | internal/dlp/custom.go:294-303 | The sum of the sizes, and the budget divided by the bytes the policy reads. |
| `DlpPolicies.Policies.SavePolicy` | internal/dlp/policy.go:510-633 | Stores exactly the policy given, exactly when it is accepted, every custom detector it names is stored and compiles, and their sizes, each counted once, times the bytes it reads are within the budget; otherwise changes nothing. |
| `DlpPolicies.AffordableExactlyWhen` | internal/dlp/policy.go:812-859 | The check with a quotient for a limit passes exactly when the product is within the budget. |
| `DlpPolicies.PriceIsItsSize` | internal/dlp/policy.go:812-859 | What a policy pays for a detector is the size of its stored pattern, or the most there is if that does not compile. |
| `DlpPolicies.Policies.ChangeDetector` | internal/dlp/custom_store.go:139-171 | A detector keeps its name, gets the new pattern and the next version, exactly when the pattern is accepted and compiles and, for every policy naming the detector, the new sizes, every mention counted, times its bytes are within the budget; otherwise nothing changes. |
| `DlpPolicies.StillAffordableExactlyWhen` | internal/dlp/custom_store.go:312-385 | So does the check of an edit, for every policy. |
| `DlpPolicies.Policies.AddDetector` | internal/dlp/custom_store.go:439-466 | A new detector is stored under version one exactly when its pattern is accepted and compiles, there are fewer than fifty, and the name is free; otherwise nothing changes. |
| `DlpPolicies.Policies.DeleteDetector` | internal/dlp/custom_store.go:180-252 | Goes through exactly when the detector exists and either it is forced or no policy names it; then the detector and its name are gone, and every policy has lost it in the same step. |
| `DlpPolicies.Policies.RestoreDetector` | internal/dlp/custom_store.go:265-310 | Changes the detector that is there, under its stored name, or adds it again. |
| `DlpPolicies.EveryWriteKeepsPolicies` | internal/dlp/policy.go:510-655 | Each of the eight writes keeps the invariant: names indexed, every custom name in a policy stored, every policy within its budget. |
| `DlpPolicies.PoliciesStayAffordable` | internal/dlp/custom.go:57-65 | After any run, a policy's custom detectors exist and their sizes, each counted once, times its effective bytes are within the budget. |
| `DlpPolicies.ForcedDeleteWakesNothing` | internal/dlp/custom_store.go:173-226 | A forced delete enables nothing, leaves other policies alone, and switches off exactly the enabled policies it emptied. |
| `DlpPolicies.EditsApartKeepPolicies` | internal/dlp/custom_store.go:315-385 | Two edits that each passed its check before the other was stored leave every policy within its budget when no policy names both detectors. |
| `DlpPolicies.EditsTogetherExceedExactlyWhen` | internal/dlp/custom_store.go:315-385 | For a policy that names both detectors among k of its own, each once and in no other policy, there are sizes at which both edits pass and the policy goes over if and only if its limit is at least one and less than k of the largest programs. |
| `DlpPolicies.Wanted` | internal/dlp/policy.go:819-825 | The custom names of a policy, each once, in order. |
| `DlpPolicies.Prices` | internal/dlp/custom_store.go:368-375 | The sizes of the custom detectors a policy names, every mention counted. |
| `DlpPolicies.TakeOut` | internal/dlp/custom_store.go:185-226 | The detector is removed from every policy naming it, each emptied one switched off, and whether any named it. |
| `DlpPolicies.Policies.CreatePolicy` | internal/dlp/policy.go:510-535 | Stores the policy given under a free id, or changes nothing. |
| `DlpPolicies.Policies.UpdatePolicy` | internal/dlp/policy.go:540-572 | Replaces a policy that exists by the one given, or changes nothing. |
| `DlpPolicies.Policies.RestorePolicy` | internal/dlp/policy.go:583-632 | Puts the policy given back under its id, whether or not it still exists, or changes nothing. |
| `DlpPolicies.Policies.DeletePolicy` | internal/dlp/policy.go:636-655 | Removes the policy and nothing else. |
| `DlpPolicies.Policies.CreateDetector` | internal/dlp/custom_store.go:116-133 | Stores a new detector exactly when its id and name are free, its pattern is accepted and compiles and there are not too many. |
| `DlpPolicies.Policies.UpdateDetector` | internal/dlp/custom_store.go:139-171 | Changes a detector at the expected version only; not found and a conflict are each reported exactly when they hold. |
| `Resync.MakePlan` | internal/connector/resync.go:279-365 | The two loops compute, name by name, what to add, update, remove, relabel and leave to its owner. |
| `Resync.PlanIsByName` | internal/connector/resync.go:279-365 | For every name, exactly when a plan adds it, updates it, removes it, relabels it or leaves it to its owner, and the definition or the reason it gives. |
| `Resync.NoChangesIsEqual` | internal/connector/resync.go:378-403 | No field is listed as changed exactly when the definitions are equal. |
| `Resync.ResyncConverges` | internal/connector/resync.go:463-527 | Planning again after applying a plan finds an empty plan, a connector that is not outdated, and the same tools left to their owners. |
| `Resync.HandOwnedToolsAreUntouched` | internal/connector/resync.go:367-376 | A custom or hand-edited tool is the same after a re-sync. |
| `Resync.TheRestIsTheBundles` | internal/connector/resync.go:463-527 | Every other name ends up in the connector exactly when the bundle has it, with the bundle's definition, marked as the catalog's, as enabled as it was, under the id it had or the one it is given, and with the next version exactly when its definition changed. |
| `Resync.ClassesAreDisjoint` | internal/connector/resync.go:280-365 | A name is in at most one of added, updated, removed and skipped, and what is relabelled is none of added, removed and skipped. |
| `Resync.ToolCountIsRight` | internal/connector/resync.go:529-538 | The count recorded is the number of enabled tools there are. |
| `Resync.Store.ApplyResync` | internal/connector/resync.go:196-277 | Applies exactly the reviewed plan to all its rows in one step, or changes nothing and says why, in the order the code decides; it is applied only when authorised, at the version and to the bundle that were reviewed. |
| `Resync.ApprovalsFollowTheTools` | internal/connector/resync.go:493-511 | Open requests for removed tools and tools that now do something else are cancelled, and all others are as they were. |
| `Resync.RulesFollowTheTools` | internal/connector/resync.go:505-511 | An access rule goes exactly when its tool goes. |
| `Resync.SecondAttemptDoesNothing` | internal/connector/resync.go:222-224 | A second attempt finds the connector up to date. |
| `Resync.CompareBundle` | internal/connector/resync.go:286-315 | The first loop: what the bundle adds, rewrites and relabels, and what it would change but may not. |
| `Resync.CompareStored` | internal/connector/resync.go:316-329 | The second loop: which stored tools the bundle no longer has go, and which were edited and stay. |
| `Resync.WriteTools` | internal/connector/resync.go:463-519 | The rows are inserted, updated, deleted and relabelled as planned, and the updated tools that now do something else are known. |
| `Resync.InsertTools` | internal/connector/resync.go:466-476 | Every added tool, enabled and marked as the catalog's. |
| `Resync.UpdateTools` | internal/connector/resync.go:477-488 | Every updated tool gets the bundled definition and the next version. |
| `SlidingWindow.Script` | internal/hardening/ratelimit.go:165-191 | The script trims, admits when there is room, and answers with what remains and when the oldest call leaves. |
| `SlidingWindow.Window.Call` | internal/hardening/ratelimit.go:382-415 | A call charges the key's window and never leaves more than the limit in it. |
| `SlidingWindow.RunTracks` | internal/hardening/ratelimit.go:165-191 | On a clock that does not run backwards the window holds exactly the admitted calls not older than it, and any limit plus one of them span at least the window. |
| `SlidingWindow.NeverMoreThanTheLimit` | internal/hardening/ratelimit.go:165-191 | Any stretch (t - window, t] of any run holds at most the limit of admitted calls. |
| `SlidingWindow.ResetIsExact` | internal/hardening/ratelimit.go:181-188 | A refused caller who calls alone is admitted when the reset has passed and not before. |
| `SlidingWindow.RemainingIsExact` | internal/hardening/ratelimit.go:181-191 | The remaining number is between none and the limit, the next call at that moment is admitted exactly when it is positive, and then leaves one less. |
| `SlidingWindow.OldestLeavesAtTheReset` | internal/hardening/ratelimit.go:181-191 | The oldest call is still in the window before the reset and gone from it on. |
| `SlidingWindow.ExpiryForgetsNothing` | internal/hardening/ratelimit.go:180-180 | A key left alone for a whole window answers as one that was forgotten. |
| `SlidingWindow.SkewShortensTheWindow` | internal/hardening/ratelimit.go:165-191 | If no reading lies more than d behind an earlier one, any stretch (t - (window - d), t] of any run holds at most the limit of admitted calls. |
| `SlidingWindow.WindowBoundsExactlyWhen` | internal/hardening/ratelimit.go:382-391 | With readings up to d behind earlier ones, every stretch as long as the window holds at most the limit, in every run, if and only if d is zero or the limit is at most one. |
| `SlidingWindow.BoundsExactlyWhen` | internal/hardening/ratelimit.go:382-391 | Where two or more calls are allowed, every stretch of a given length holds at most the limit, in every run with a skew of d, at most the window, if and only if it is no longer than the window less d. |
| `SlidingWindow.OneHoldsOnAnyClock` | internal/hardening/ratelimit.go:165-191 | A budget of one holds in every window whatever the clocks read. |
| `SlidingWindow.NoSmallerMargin` | internal/hardening/ratelimit.go:382-391 | For every limit of two or more and every skew up to the window, a burst, a call a window later and one whose clock is behind by d are all admitted, more than the limit of them in any stretch longer than the window less d. |
| `SlidingWindow.NothingYoungIsTrimmed` | internal/hardening/ratelimit.go:173-173 | Whatever the clocks read, admitted calls younger than the window by the newest reading are all still in it. |
| `SlidingWindow.SpreadBoundsEveryWindow` | internal/hardening/ratelimit.go:165-191 | If any limit plus one admitted calls span at least the window, no stretch of that length holds more than the limit. |
| `TokenBucket.Memory.Allow` | internal/hardening/ratelimit.go:417-451 | Charges the key's bucket, or a full one if it has none, leaves the others alone unless room must be made, and never keeps more than the allowed number of buckets. |
| `TokenBucket.Evict` | internal/hardening/ratelimit.go:464-489 | Leaves nobody idle, and if that is not room enough keeps only keys seen after a cutoff, less than half of those that were left. |
| `TokenBucket.AdmissionsAreBounded` | internal/hardening/ratelimit.go:417-444 | Calls between two moments, in whatever order the clock reports them, are admitted at most capacity plus rate times the time between. |
| `TokenBucket.EveryRunEarns` | internal/hardening/ratelimit.go:417-444 | Tokens stay between none and the capacity over any run, and admitted calls plus tokens left never exceed what was earned. |
| `TokenBucket.RetryAfterIsExact` | internal/hardening/ratelimit.go:440-450 | A refused caller who calls alone is admitted once the wait has passed and not before. |
| `TokenBucket.RemainingIsExact` | internal/hardening/ratelimit.go:440-450 | The remaining number is between none and the capacity, the next call at that moment is admitted exactly when it is positive, and then leaves one less. |
| `TokenBucket.ResetIsExact` | internal/hardening/ratelimit.go:440-450 | The bucket is full again when the reset has passed and not before. |
| `TokenBucket.AdmissionsAmongOthersAreBounded` | internal/hardening/ratelimit.go:417-451 | Among any calls of other keys, a key that is not forgotten once it is there and calls between two moments, its first call included, is admitted at most capacity plus rate times the time between; this covers every run from no buckets at all. |
| `TokenBucket.ChargedForItsOwn` | internal/hardening/ratelimit.go:417-451 | Such a key's bucket, counted as full before its first call, and how often it was admitted, are those of its own calls alone. |
| `TokenBucket.ForgottenExactlyWhenFull` | internal/hardening/ratelimit.go:464-474 | Forgetting a bucket leaves the next decision, and the bucket after it, as they were if and only if the bucket would have been full by then. |
| `TokenBucket.HarmlessExactlyWhenNoShorter` | internal/hardening/ratelimit.go:464-474 | Forgetting every bucket idle for a caller's window changes no decision if and only if that window is no shorter than the bucket's own. |
| `TokenBucket.RoomForOneForgetsAnother` | internal/hardening/ratelimit.go:417-474 | When a new key meets a full map, every bucket idle for that caller's window is forgotten. |
| `TokenBucket.AForgottenOwnerIsAdmitted` | internal/hardening/ratelimit.go:417-451 | The next call of an owner whose bucket was forgotten is admitted, and decided as it would have been if and only if the bucket was full. |
| `TokenBucket.AdmittedTwice` | internal/hardening/ratelimit.go:417-474 | Through two callers of `Allow`, a budget of one call a window admits its owner twice within any shorter window. |
| `TokenBucket.SharesStayWithinTheBudget` | internal/hardening/ratelimit.go:453-462 | All replicas' shares together are at most the budget or one each, and no larger equal share would stay within it. |
| `TokenBucket.Refill` | internal/hardening/ratelimit.go:431-438 | A bucket earns for the time since it was last used, never past its capacity, and never for a clock that went back. |
| `TokenBucket.ChargeOnce` | internal/hardening/ratelimit.go:417-451 | One bucket charged once, and the decision with its waits. |
| `TokenBucket.WithRoom` | internal/hardening/ratelimit.go:425-427 | Makes room exactly when the key is new and there is none. |
| `TokenBucket.SortedByLast` | internal/hardening/ratelimit.go:478-482 | All keys, each once, by when they were last seen. |
| `TokenBucket.MedianHalves` | internal/hardening/ratelimit.go:478-488 | Removing everyone seen no later than the median leaves less than half. |
| `Exporter.Stream.Ship` | internal/audit/exporter.go:147-172 | One sweep keeps everything up to its cursor settled, never moves the stored cursor back, leaves nothing unaccepted when it runs dry, and sends nothing but events of the categories asked for. |
| `Exporter.Stream.Send` | internal/audit/exporter.go:147-172 | One batch: sent exactly when the receiver took it, which adds its events, in order, to what was accepted and no event it was not asked for. |
| `Exporter.NothingIsSkipped` | internal/audit/exporter.go:354-390 | The next batch leaves out no wanted event before its last. |
| `Exporter.NothingIsSkippedOver` | internal/audit/exporter.go:147-172 | After any run of appends, cuts, concurrent sweeps and crashes, every wanted event above the starting cursor and not above the cursor was accepted by the receiver or removed by retention. |
| `Exporter.OnlyAskedForIsSent` | internal/audit/exporter.go:354-362 | After any run the receiver has accepted only events that were appended and are in the categories asked for. |
| `Exporter.TheCursorNeverGoesBack` | internal/audit/exporter.go:392-402 | However the run goes on, the cursor does not decrease. |
| `Exporter.AnEventShownLateIsNeverSent` | internal/audit/exporter.go:354-390 | An event that becomes visible once the cursor and the sweeps under way are past its number is never accepted by the receiver, however the run goes on, which is why appends hold the stream's lock. |
| `Exporter.Stream.Save` | internal/audit/exporter.go:392-402 | The stored cursor moves forward only. |
| `Exporter.EveryRunIsOk` | internal/audit/exporter.go:147-172 | Every run keeps every sweep's position settled and every batch complete from its sweep's cursor to its last. |

## Left out

- Audit columns: digests are exactly 32 bytes, an empty text or JSON column stands for NULL, and
  a time is microseconds written by an injective, NUL-free rendering. Sequence numbers are not
  hashed by the code, so nothing here pins them.
- `audit_events_cut` is taken to delete every row up to the given number; the SQL function is not
  part of this model.
- Spool files are known by order and count, their text names by `SegmentNames`. Orders fit in 64
  bits when a directory is opened, and a run goes on with the process it has where they do not.
  Adoption of another instance's segments, damaged lines, deletion by somebody else and fsync are
  not modelled.
- AuditSpool.Spool.constructor: leaves out adopting other instances' directories and clearing
  temporary files.
- AuditSpool.Spool.Oldest: leaves out damaged lines, which the code skips, and a file that has
  vanished, which it forgets; nobody else deletes files here.
- AuditSpool.Spool.Remove: leaves out a file that is already gone, which the code tolerates.
- A crash between a segment's append and its deletion is a deletion that fails, followed by a
  restart. The metric and the gap of a loss are updated in one step.
- A process that stops throws away its unreported gap, which the code only logs, and a crash what
  is in memory. `AuditPipeline` has no such step: its results are about one process while it runs.
- ApprovalService.Service.EditTool: the checks of version, definition and references that an edit
  must pass first come before it.
- ApprovalService.Service.DeleteTool: so do the checks that the tool is a custom one and that
  references are acknowledged.
- ApprovalService.Service.Acknowledge: the note left for the approver is not stored.
- NumberRules.PhoneHitsAreTheWholeTexts: says nothing about the order of hits of different rules,
  nor about the cap, because three rules are searched window by window.
- DlpPolicies.EditsTogetherExceedExactlyWhen: says nothing about policies that mention a detector
  more than once, since an edit counts every mention and may then be refused, nor about detectors
  that other policies name as well or that share a stored pattern, since one size then binds more
  than one sum.
- Global acceptance order across the overflow: a newer event can enter the queue before a parked
  one is taken, and the code does not promise otherwise.
- Liveness: that retries, tickers and heartbeats ever happen.
- Signing, sealing, key rotation and the JSON encoding of diffs and payloads.
- Raising a request leaves out the cleaning of the requester's text, sealing and the notice to the
  approver; approvals are those of one organisation. `claim` compares no tool, and neither does
  the model.
- Matching of approval and screening policies against a call, except how one of several
  matching approval policies governs.
- Regular expressions are given as the places they match, with the longest match taken at a
  place, which is what their greedy operators choose. Windows for e-mail addresses and account
  numbers are not modelled; for account numbers equality with the whole text does not hold, since
  45 bytes can be shorter than the pattern.
- The order of hits with equal bounds after sorting: the code's sort is not stable, the model
  keeps the order in which the detectors reported them.
- A scan's clock is a number of looks before the deadline has passed; an object's fields stand
  in key order; field names are held against a predicate.
- Text and sample validation of detectors and policies, and whether a policy's scope exists, come
  with each write as given.
- Re-sync: redacted previews of transport and auth, missing credentials, server versions,
  revisions and the cascade to screening policies. The order of a plan's lists is not modelled;
  a plan is by name.
- Token counts are real numbers: rounding of floats and of durations is not modelled.
- Counters and generation numbers are unbounded integers.
- HTTP handlers, commands, reports, destination formats, back-off of exporters and analytics.
