# mpedb, modelled and proved

mpedb is an embedded database with a SQLite-compatible C interface. Several processes share
one file; a commit is validated optimistically against the commits made since its snapshot,
and a collaborative editor can rebase a small edit over the ones that came first. This
project models the parts of it where the difficulty lies and proves what they promise, over
every input, every interleaving or every run.

* **Guarded editing** (`Slots`, `GuardedStore`, `DocEditors`, `Accounts`): workers take a
  snapshot, read, think while holding nothing and commit through a guard, retrying when
  refused. A run is any interleaving of their steps. Guarded runs are serialisable, no edit
  is lost, money and audit rows are conserved, and retries are bounded.
* **The guard itself** (`GuardRing`, `SettledGuard`, `RingGuard`): the ring of commit
  footprints in shared memory, the conflict test and the walk that carries an edit forward.
  Workers whose commits the ring decides make runs of the abstract model, so what is proved of
  those runs holds of them.
* **The counter quorum** (`CounterQuorum`, `QuorumRuns`, `BeatPromises`): editors and a service
  that flushes a batch when a majority has spoken, with no clock anywhere. It cannot deadlock,
  every run drains, and an editor that spoke for a round stays above it.
* **Sub-edits and batches** (`SubEdit`, `RecordTruth`, `RecordWalk`, `CommitRecords`,
  `RowCommits`, `EditBatch`, `SubmitBatch`, `MisledBatches`): rebasing a splice over a history;
  the one record a commit of several splices of several rows leaves in the ring, and exactly when
  it tells the truth about a row; the engine's walk over such records; and batches of edits with
  different snapshots and rows applied in counter order, over histories that earlier batches made.
* **The C interface** (`BlobHandles`, `BlobConnection`, `Lifetimes`, `Callbacks`,
  `CallbackOwner`, `OnlineBackup`): incremental blob handles, who frees what and when,
  destructor ownership and online backup.
* **CSV import** (`Csv`, `CsvSql`, `CsvColumns`, `CsvImport`): the reader, header and type
  inference, and the SQL that is written, against a printer and a literal reader, and the whole
  importer from text to decoded table.
* **Smaller algorithms** (`Civil`, `PlanTree`, `RateLimit`).

`Options`, `Counting` and `Text` hold what these share.

## How to read it

Concurrency is a step relation: a state, an `Enabled` predicate, a `Next` function, and runs
as sequences of steps. Where the source keeps objects with fields that methods update, the
model is a class whose methods are proved against functions on values, and the properties of
runs are proved about those functions. A value that another party can change between two
lines of the source is a parameter of the step (`Around` in `BlobHandles`, `between` in
`OnlineBackup`).

`dafny verify dfyconfig.toml` checks everything.

## Promises that do not hold as written

Each comes with a concrete input that shows it and with the exact condition under which the
promise holds.

* A driver with no operation per action commits actions that change no balance
  (`Accounts.NoOpsCommitMovesNothing`, `Accounts.ConservedIffSomeOps`).
* A batch measures a member's offset with the earlier members of the batch added and then walks
  it past commits that never saw them, so it can land beside the text its author meant
  (`MisledBatches.RulersAreMixed`). The edits that were applied are kept in one list for all rows,
  so an edit of one row moves or refuses an edit of another (`MisledBatches.RowsAreMixed`,
  `MisledBatches.RowsLoseToEachOther`). A member lands right exactly when its moves balance
  (`SubmitBatch.LandsRightIff`, for whole batches `SubmitBatch.SurvivorsLandRightIff`), and a
  member the batch has moved is never safe (`RecordWalk.SafeWhenMovedIff`).
* A commit leaves one span and one change of length for all its statements, each measured in the
  value its own statement found, whatever rows they are on, and even if they were undone. A
  pending edit that collides can pass it, and one that does not can be moved too far
  (`CommitRecords.RecordMissesACollision`, `MisledBatches.RecordHidesACollision`,
  `MisledBatches.RowsShareARecord`, `MisledBatches.UndoneStaysRecorded`; no edit is safe from
  all commits: `MisledBatches.NoEditIsSafe`). The walk is right for every edit of a row exactly
  when each record tells the truth about the row (`RowCommits.SafeIff`), which for a commit of
  edits that are apart is a matter of its span and its shift (`CommitRecords.ApartTellsIff`).
* An edit that has been rebased clears the whole conflict test, other keys included
  (`SettledGuard.SettledMissesAnOverwrite`), and relies on such records
  (`SettledGuard.RecordMissesAStrike`). Which actions that is enough for is
  `SettledGuard.SettledIsGuardedIff`, and over which histories `SettledGuard.HistoryProtectsIff`.
* A beat is said to promise nothing at or before its position; the editor's own next edit can
  have that position (`BeatPromises.BeatMayTieWithOwnEdit`), and has a later one exactly when
  another editor drew in between (`BeatPromises.BeatBoundsNextEdit`). What the quorum needs of it
  holds all the same (`BeatPromises.SpokenStaysAboveRound`).
* The engine's walk moves an insertion that stands exactly at the start of removed text; the
  splice algebra leaves it (`SubEdit.RingMovesTheInsertion`, `SubEdit.RingAgreesIff`).
* Two non-colliding splices give the same text in either order except when both insert at one
  spot (`SubEdit.SameSpotTellsTheOrder`, `SubEdit.CommuteIff`).
* A backup reads the source's commit counter after releasing the writer lock, so a commit in
  between is missed (`OnlineBackup.DoneMayMissACommit`, `OnlineBackup.DoneIsCurrentIff`, and over
  every run `OnlineBackup.DoneIsCurrentOverRuns`). The header of the backup module says that there
  is no restart; the code restarts, and the model follows the code.
* Numbering repeated column names can produce a name that is already taken
  (`CsvColumns.RepeatMayClash`, `CsvColumns.DistinctIff`).

## Model

| member | source | states |
|---|---|---|
| `Slots.SpliceSlot` | crates/mpedb-bench/src/doc_load.rs:138-153 | the rewritten body holds the counter in the editor's slot, for any body |
| `Slots.ReadAfterSplice` | crates/mpedb-bench/src/doc_load.rs:143-162 | any editor mapped to the slot reads back the counter just written |
| `Slots.ReadOtherAfterSplice` | crates/mpedb-bench/src/doc_load.rs:1046-1058 | writing one slot leaves every other slot's reading unchanged |
| `Slots.BlankReadsAsMissing` | crates/mpedb-bench/src/doc_load.rs:1060-1066 | a slot nobody wrote is missing, not zero |
| `Slots.LostInZero` | crates/mpedb-bench/src/doc_load.rs:637-640 | the check reports nothing iff every slot holds the last action's counter |
| `GuardedStore.Serialisable` | crates/mpedb-bench/src/doc_load.rs:316-363 | for every interleaving under a sound guard, the store is the serial replay of the commits in commit order |
| `GuardedStore.AcceptedReadsCurrent` | crates/mpedb-bench/src/doc_load.rs:336-361 | a commit that passes the guard was computed from the value that is still there |
| `GuardedStore.RefusalsCharged` | crates/mpedb-bench/src/doc_load.rs:319-361 | a worker is refused at most once per foreign commit that could refuse it |
| `GuardedStore.RetriesBounded` | crates/mpedb-bench/src/doc_load.rs:319-361 | all retries of a run number at most (W-1) per commit, so at most (W-1)*W*A |
| `GuardedStore.RunsBounded` | crates/mpedb-bench/src/doc_load.rs:316-363 | every run is finite, with an explicit bound on its length |
| `GuardedStore.StuckRunsAreComplete` | crates/mpedb-bench/src/doc_load.rs:316-363 | a run that cannot go on has finished every action of every worker |
| `DocEditors.SlotHoldsOwnCounter` | crates/mpedb-bench/src/doc_load.rs:186-256 | with at most 64 guarded field editors each slot always holds its owner's last counter |
| `DocEditors.NoEditLost` | crates/mpedb-bench/src/doc_load.rs:622-640 | after any complete guarded run, for any number of editors, no edit is reported lost |
| `DocEditors.UnguardedRunLosesAnEdit` | crates/mpedb-bench/src/doc_load.rs:336-349 | without the guard a complete run exists that loses an edit |
| `DocEditors.OnlySharersRefuse` | crates/mpedb-bench/src/doc_load.rs:186-256 | under an exact guard an editor's retries are paid for by commits to its own cell |
| `DocEditors.DisjointEditorsNeverRetry` | crates/mpedb-bench/src/doc_load.rs:186-256 | editors that share no cell are never refused |
| `DocEditors.BlocksAreDisjoint` | crates/mpedb-bench/src/doc_load.rs:104-109 | one block per seat keeps editors apart while seats stay within a document's stride |
| `Accounts.BalancesAndAuditConserved` | crates/mpedb-bench/src/notify_load.rs:178-239 | in every guarded run the balances sum to the committed actions and there are ops distinct audit rows per commit |
| `Accounts.FinishedRunTotals` | crates/mpedb-bench/src/notify_load.rs:185-239 | a finished run leaves one unit of balance and ops audit rows per action, whatever the retries |
| `Accounts.BandsSuffice` | crates/mpedb-bench/src/notify_load.rs:178-239 | a bound known before the run keeps every worker inside its band of audit ids |
| `Accounts.ConservedIffSomeOps` | crates/mpedb-bench/src/notify_load.rs:220-228 | conservation holds iff there is an operation per action or nothing was committed |
| `Accounts.NoOpsCommitMovesNothing` | crates/mpedb-bench/src/notify_load.rs:220-228 | a run without operations that commits and leaves balances summing to zero |
| `GuardRing.ClashIsHit` | crates/mpedb-core/src/shm/optimistic.rs:244-371 | no summary loses a real clash: two statements that may touch the same bytes always hit |
| `GuardRing.FootprintRing.Rebase` | crates/mpedb-core/src/shm/optimistic.rs:174-224 | the walk over the slots for one cell: what it skips, the offset it finds, and each refusal, as the whole history says |
| `SettledGuard.SettledIsGuardedIff` | crates/mpedb-core/src/engine/write/concurrency.rs:248-300 | a rebased action that walk and guard let through was struck by no statement, over every history whose records tell the truth about its bytes, iff everything it touched lies in the rebased cell and range |
| `SettledGuard.HistoryProtectsIff` | crates/mpedb-core/src/shm/optimistic.rs:174-224 | for every history: every edit of a cell, from any version to any later one, is refused or unstruck and where the statements carried it, iff each commit's record tells the truth about the cell |
| `SettledGuard.RecordMissesAStrike` | crates/mpedb-core/src/shm/optimistic.rs:174-224 | an edit wholly in the rebased range that passes a commit of two statements and was struck |
| `SettledGuard.SettledMissesAnOverwrite` | crates/mpedb-core/src/engine/write/concurrency.rs:248-300 | an action that read one row and carried an edit of another passes a rewrite of the first |
| `GuardRing.GuardIsSound` | crates/mpedb-core/src/shm/optimistic.rs:226-371 | a clear verdict means no commit since the snapshot clashed with any touched statement |
| `GuardRing.SingleCellExact` | crates/mpedb-core/src/shm/optimistic.rs:244-371 | for single-cell commits the test hits iff table, key and column are the same |
| `GuardRing.RefusalsExplained` | crates/mpedb-core/src/shm/optimistic.rs:226-371 | a refusal is an overlap, a snapshot older than the ring, or a gap, decided by the first commit that offends |
| `GuardRing.FootprintRing.Record` | crates/mpedb-core/src/shm/optimistic.rs:17-45 | the fixed ring of slots keeps the newest footprints of the history |
| `GuardRing.FootprintRing.ConflictSet` | crates/mpedb-core/src/shm/optimistic.rs:226-371 | the walk over the slots answers what the whole history says |
| `RingGuard.RingIsSoundGuard` | crates/mpedb-core/src/engine/commit.rs:81-128 | the ring implements the sound guard of the run model |
| `RingGuard.RingIsExactGuard` | crates/mpedb-core/src/engine/commit.rs:81-128 | for single-cell editors it implements the exact guard |
| `RingGuard.RingRunsAreRuns` | crates/mpedb-core/src/engine/commit.rs:81-128 | workers whose commits only the ring decides, with any unrecorded commits among them, make a run under the sound guard with the same final state |
| `RingGuard.RingRunsAreSerialisable` | crates/mpedb-core/src/engine/commit.rs:81-128 | so the store is the serial replay of their commits |
| `CounterQuorum.QuorumsIntersect` | crates/mpedb-bench/src/doc_load.rs:1119-1127 | any two quorums share an editor iff there are not exactly two editors; from three on a quorum is the least size for which they do |
| `CounterQuorum.QuorumService.OldestPending` | crates/mpedb-bench/src/doc_load.rs:1377-1431 | the round is the smallest position waiting |
| `CounterQuorum.QuorumService.CountSpoken` | crates/mpedb-bench/src/doc_load.rs:1377-1431 | counts the live members and those at or past the round |
| `CounterQuorum.QuorumService.Hear` | crates/mpedb-bench/src/doc_load.rs:1377-1431 | a message only raises positions, adds its edit or retires its sender |
| `CounterQuorum.QuorumService.Flush` | crates/mpedb-bench/src/doc_load.rs:1278-1289 | a flush answers every pending edit once and tallies each verdict |
| `CounterQuorum.QuorumService.Receive` | crates/mpedb-bench/src/doc_load.rs:1368-1431 | one turn of the service loop: hear, and flush exactly when the quorum is reached |
| `QuorumRuns.RunInv` | crates/mpedb-bench/src/doc_load.rs:1317-1431 | every reachable state keeps positions distinct and accounts for every position drawn |
| `QuorumRuns.OpenRoundHasALaggard` | crates/mpedb-bench/src/doc_load.rs:1119-1127 | an open round has a live editor below it that is not waiting for the service |
| `QuorumRuns.NoDeadlock` | crates/mpedb-bench/src/doc_load.rs:1317-1431 | every reachable state that is not drained has a next step |
| `QuorumRuns.RunsBounded` | crates/mpedb-bench/src/doc_load.rs:1317-1431 | every run is finite, with an explicit bound |
| `QuorumRuns.StuckRunsAreDrained` | crates/mpedb-bench/src/doc_load.rs:1377-1431 | at the end every edit was answered exactly once and committed + lost = members = editors * actions |
| `BeatPromises.BeatBoundsNextEdit` | crates/mpedb-bench/src/doc_load.rs:1282-1337 | in every run an editor's next position is not below its beat, and above it iff another editor drew in between |
| `BeatPromises.BeatMayTieWithOwnEdit` | crates/mpedb-bench/src/doc_load.rs:1282-1337 | a beat can carry the position of its sender's next edit |
| `BeatPromises.SpokenStaysAboveRound` | crates/mpedb-bench/src/doc_load.rs:1377-1431 | an editor that counts as spoken for a round and has no edit in it holds, now and in every continuation, only positions above the round |
| `SubEdit.CarryForward` | crates/mpedb-types/src/subedit.rs:127-140 | the loop over the history is the rebase through it |
| `SubEdit.RebaseThroughKeepsPlace` | crates/mpedb-types/src/subedit.rs:91-140 | through any history a splice stays on the bytes its author chose and between the same neighbours |
| `SubEdit.RebaseThroughKeepsText` | crates/mpedb-types/src/subedit.rs:127-152 | it then fits the value and removes exactly the text it was meant to remove |
| `SubEdit.ClashIffEntangled` | crates/mpedb-types/src/subedit.rs:91-113 | a rebase is refused iff both remove a common byte or one inserts strictly inside the other's removal, with the reason that says which; the relation is symmetric |
| `SubEdit.CommuteIff` | crates/mpedb-types/src/subedit.rs:72-126 | both commit orders give one text iff not two insertions racing for a spot with texts that do not commute |
| `SubEdit.SameSpotTellsTheOrder` | crates/mpedb-types/src/subedit.rs:72-126 | two such insertions whose orders differ |
| `SubEdit.RingAgreesIff` | crates/mpedb-core/src/shm/optimistic.rs:148-224 | the walk agrees with the splice algebra iff the edit is not an insertion at the start of removed text of another length |
| `SubEdit.RingMovesTheInsertion` | crates/mpedb-core/src/shm/optimistic.rs:209-221 | such an insertion is moved in front of text its author typed after |
| `RecordTruth.TellsIff` | crates/mpedb-core/src/shm/optimistic.rs:148-224 | for every record and every statements: each pending removal that fits is refused or carried as the statements carry it iff each byte outside the span is where the record says and next to its neighbour |
| `RecordTruth.TellsPointsIff` | crates/mpedb-core/src/shm/optimistic.rs:148-224 | the same for insertions |
| `RecordWalk.NeverMisleadsIff` | crates/mpedb-core/src/shm/optimistic.rs:148-224 | over every history: no edit, decided on any version and walked to any later one, is misled iff every record tells the truth about the value its commit found |
| `RecordWalk.SinglesNeverMislead` | crates/mpedb-core/src/shm/optimistic.rs:148-224 | so commits of one splice each never mislead a removal |
| `RecordWalk.EndsOffIff` | crates/mpedb-core/src/shm/optimistic.rs:174-224 | a walk that starts elsewhere ends a given distance from the edit's place iff nothing refuses it and its start and the strays of the records, commit by commit, add up to that distance |
| `RecordWalk.OffAtEveryVersionIff` | crates/mpedb-core/src/shm/optimistic.rs:174-224 | it keeps that distance at every version iff it starts so and no commit strays |
| `RecordWalk.SafeWhenMovedIff` | crates/mpedb/src/collab.rs:360-392 | an edit is never misled, whatever was committed with true records, iff the batch did not move it |
| `CommitRecords.PublishIsFootprint` | crates/mpedb-core/src/engine/write/concurrency.rs:277-296 | the span and length change of a commit's footprint are the union and the sum over its statements, whatever rows they are on |
| `CommitRecords.BatchCollides` | crates/mpedb-types/src/subedit.rs:91-140 | a pending edit collides with the edits of a commit iff it overlaps one of them in the value the commit found |
| `CommitRecords.RecordRefusesIff` | crates/mpedb-core/src/shm/optimistic.rs:174-224 | whatever else a commit wrote, the walk over its record refuses every real collision with its edits of a row iff the record shields each of them |
| `CommitRecords.ApartTellsIff` | crates/mpedb-core/src/shm/optimistic.rs:174-224 | and the record tells the truth about the row iff it also moves what they keep by their shift alone |
| `CommitRecords.RecordMissesACollision` | crates/mpedb-core/src/shm/optimistic.rs:174-224 | a deletion in front and a replacement behind: a pending edit of the replaced text passes |
| `CommitRecords.InsideRecordPlaces` | crates/mpedb-core/src/shm/optimistic.rs:209-224 | where the record holds every edit as it was, the offset found is the rebased one, save for an insertion at its start |
| `RowCommits.SafeIff` | crates/mpedb-core/src/shm/optimistic.rs:174-224 | over every history of commits of splices of any rows, hashes and unrecorded commits included: the ring refuses or rightly carries every edit of a row iff each record its walk stops at tells the truth about the row |
| `RowCommits.WalkIsEntries` | crates/mpedb-core/src/shm/optimistic.rs:174-224 | the walk over the footprints is the walk over what they say about the row |
| `SubmitBatch.Submit` | crates/mpedb/src/collab.rs:283-452 | the loop in counter order over snapshots and rows, with its verdicts, the values it leaves and the commit it adds to the history |
| `SubmitBatch.LandsRightIff` | crates/mpedb/src/collab.rs:344-404 | a member without a real collision ends where its author put it iff no record refuses it and the edits counted before it and the strays of the records add up to what the edits of its row move it by |
| `SubmitBatch.SurvivorsLandRightIff` | crates/mpedb/src/collab.rs:283-452 | all survivors of a batch land right iff none really collided and the moves of each balance |
| `SubmitBatch.RowsAreMerged` | crates/mpedb/src/collab.rs:283-452 | and then every row holds its survivors all at once |
| `SubmitBatch.FreshBatchLandsRight` | crates/mpedb/src/collab.rs:256-262 | a batch on one row whose members saw the last commit that may concern it always lands right |
| `SubmitBatch.FreshVerdicts` | crates/mpedb/src/collab.rs:344-404 | its verdicts are: the value could hold the edit and no survivor before it overlaps |
| `SubmitBatch.AloneLandsRight` | crates/mpedb/src/collab.rs:344-404 | an edit sent alone over a history of true records is refused or lands right |
| `SubmitBatch.HistoryExplainsRows` | crates/mpedb/src/collab.rs:283-452 | after every run of batches each row is the replay of what the commits in the history did to it |
| `SubmitBatch.TakesWhatWasSeen` | crates/mpedb/src/collab.rs:248-262 | after every run of batches a member that lands right takes out of its row exactly the text its author saw |
| `MisledBatches.RulersAreMixed` | crates/mpedb/src/collab.rs:360-392 | a member moved by the batch and then compared with an older commit lands in the wrong text |
| `MisledBatches.RowsAreMixed` | crates/mpedb/src/collab.rs:344-368 | text typed on one row moves an edit of another |
| `MisledBatches.RowsLoseToEachOther` | crates/mpedb/src/collab.rs:344-358 | a deletion on one row refuses an edit of another |
| `SubmitBatch.OrderIsDetermined` | crates/mpedb/src/collab.rs:292-295 | the counters fix the order, so arrival order changes nothing |
| `MisledBatches.RecordHidesACollision` | crates/mpedb-core/src/engine/write/concurrency.rs:277-296 | a batch whose only member really collides with a commit of two edits and lands in other text |
| `MisledBatches.RowsShareARecord` | crates/mpedb-core/src/engine/write/concurrency.rs:277-296 | a batch whose only member is moved by what a commit typed on another row |
| `MisledBatches.UndoneStaysRecorded` | crates/mpedb-core/src/engine/write/savepoint.rs:63-91 | a batch whose only member is moved by a statement that was undone |
| `MisledBatches.NoEditIsSafe` | crates/mpedb-core/src/engine/write/concurrency.rs:277-296 | a commit of two rows that misleads every edit of one of them |
| `EditBatch.MergeStep` | crates/mpedb/src/collab.rs:344-368 | splicing at the offset shifted by the applied edits is adding the edit to the set |
| `EditBatch.FitsIff` | crates/mpedb/src/collab.rs:344-392 | the shifted edit is in range iff the value it was decided against could hold it |
| `BlobHandles.ValidStep` | crates/mpedb-capi/src/blob.rs:361-402 | in every state each handle's size is the payload length of its snapshot column |
| `BlobHandles.OpenDecidesWriting` | crates/mpedb-capi/src/blob.rs:174-590 | an open remembers the row as it is; over every run after it a handle opened for reading never changes anything, and a write answers READONLY iff it was opened for reading, is in bounds and is alive |
| `BlobHandles.WriteIsSpliceOrNothing` | crates/mpedb-capi/src/blob.rs:404-504 | whatever changes in between, OK means exactly the splice on the row that was read, any other answer means nothing was written |
| `BlobHandles.DeadIffKilled` | crates/mpedb-capi/src/blob.rs:347-590 | over every run a handle is dead at the end iff one of its own reads, writes or reopens found its row not as remembered; no other handle or connection kills it |
| `BlobHandles.AbortedForever` | crates/mpedb-capi/src/blob.rs:361-590 | over every run a dead handle stays dead, changes nothing, reports no bytes and answers every use with the error its bounds decide |
| `BlobHandles.QuietStep` | crates/mpedb-capi/src/blob.rs:467-504 | on a row left to its handles no handle expires |
| `BlobHandles.NeverExpires` | crates/mpedb-capi/src/blob.rs:26-27 | over every such run a handle lives until its owner closes or reopens it |
| `BlobHandles.WritesSucceed` | crates/mpedb-capi/src/blob.rs:404-504 | there a write in bounds fails only by making a text invalid UTF-8 |
| `BlobHandles.ReadsReturnLatestBytes` | crates/mpedb-capi/src/blob.rs:347-504 | over every such run each read returns, byte for byte, what any handle last wrote there |
| `BlobConnection.Connection.Open` | crates/mpedb-capi/src/blob.rs:263-331 | a successful open adds one handle on the row as it is, a failed one changes nothing |
| `BlobConnection.Connection.CheckCurrentRow` | crates/mpedb-capi/src/blob.rs:345-359 | the comparison and its effect on the handle |
| `BlobConnection.Connection.Read` | crates/mpedb-capi/src/blob.rs:361-402 | refines the read on values, in the order of its checks |
| `BlobConnection.Connection.Write` | crates/mpedb-capi/src/blob.rs:404-548 | refines the write on values, with the row free to change before the UPDATE |
| `BlobConnection.Connection.Refresh` | crates/mpedb-capi/src/blob.rs:467-496 | exactly the live siblings that remembered the old row follow the write |
| `BlobConnection.Connection.Reopen` | crates/mpedb-capi/src/blob.rs:559-590 | refines the reopen, successful, failed or dead |
| `BlobConnection.Connection.Close` | crates/mpedb-capi/src/blob.rs:606-622 | takes exactly this handle off the list |
| `Lifetimes.NamedCounts.Acquire` | crates/mpedb-capi/src/open.rs:139-145 | counts the opener and says whether it is the first |
| `Lifetimes.NamedCounts.Release` | crates/mpedb-capi/src/open.rs:147-161 | gives one count back and says whether it was the last |
| `Lifetimes.InvStep` | crates/mpedb-capi/src/open.rs:1208-1297 | every operation keeps back-pointers allocated, frees once, zombies with a handle and no backup, and counts exact |
| `Lifetimes.Final` | crates/mpedb-capi/src/open.rs:1208-1297 | so the same holds at the end of every run |
| `Lifetimes.FreedOnlyIdle` | crates/mpedb-capi/src/blob.rs:606-622 | a connection is freed only by its close or by a zombie's last handle, with nothing left attached |
| `Lifetimes.CountedStep` | crates/mpedb-capi/src/open.rs:949-961 | a name's count is its number of unfreed connections, through failed opens, zombies and deserialize |
| `Lifetimes.FileEventsExact` | crates/mpedb-capi/src/open.rs:1285-1296 | a name is emptied exactly on an open with nobody on it and removed exactly when its last connection goes |
| `Lifetimes.StartBackupKeepsLinks` | crates/mpedb-capi/src/backup.rs:148-158 | a backup, started or refused, leaves every handle and backup linked to an allocated connection and no zombie with a backup |
| `Lifetimes.DeserializeKeepsLinks` | crates/mpedb-capi/src/ext.rs:1157-1186 | moving to a new backing keeps every link |
| `Lifetimes.SourceMayDangle` | crates/mpedb-capi/src/backup.rs:67-71 | a backup does not keep its source connection open |
| `Callbacks.EachDestructorRunsOnce` | crates/mpedb-capi/src/open.rs:1273-1284 | by close every destructor handed over has run exactly once, and a refused collation's never |
| `Callbacks.DestroyedIsUnreachable` | crates/mpedb-capi/src/ext.rs:544-602 | before close nothing destroyed is reachable from an engine registry |
| `Callbacks.StepKeeps` | crates/mpedb-capi/src/ext.rs:493-602 | every call keeps keys unique, registries equal to the lists, and every destructor accounted for |
| `Callbacks.LastFunctionWins` | crates/mpedb-capi/src/ext.rs:544-602 | the last registration of a name and argument count wins, in the registry of its kind only, and no other key changes |
| `Callbacks.LastWindowWins` | crates/mpedb-capi/src/ext.rs:711-762 | the same for window functions, which are aggregates |
| `CallbackOwner.Owner.Destroy` | crates/mpedb-capi/src/ext.rs:470-478 | a destructor may be called only when the engine cannot reach its data |
| `CallbackOwner.Owner.DropFunction` | crates/mpedb-capi/src/ext.rs:544-559 | a replaced function leaves list and registry before it is destroyed |
| `CallbackOwner.Owner.CreateFunction` | crates/mpedb-capi/src/ext.rs:493-602 | scalar, aggregate, delete and every refusal |
| `CallbackOwner.Owner.CreateWindowFunction` | crates/mpedb-capi/src/ext.rs:669-762 | the window form and its refusals |
| `CallbackOwner.Owner.CreateCollation` | crates/mpedb-capi/src/ext.rs:788-836 | the new comparator is in before the old one is destroyed; refusal destroys nothing |
| `CallbackOwner.Owner.Close` | crates/mpedb-capi/src/open.rs:1273-1284 | runs what is left, functions first |
| `OnlineBackup.Handle.constructor` | crates/mpedb-capi/src/backup.rs:232-242 | a new backup reports its whole page count as remaining |
| `OnlineBackup.Handle.Step` | crates/mpedb-capi/src/backup.rs:254-327 | restart, metering and installation, with the reported numbers in step |
| `OnlineBackup.DestinationOverRuns` | crates/mpedb-capi/src/backup.rs:254-327 | over every run the destination is what it was until DONE, and from then on the image that was installed |
| `OnlineBackup.DoneIsCurrentIff` | crates/mpedb/src/backup.rs:75-109 | after DONE the destination is the source's committed state iff the commits between copy and stamp of the installed capture ended in the content copied |
| `OnlineBackup.DoneMayMissACommit` | crates/mpedb/src/backup.rs:92-109 | a commit in that gap is missing from the destination |
| `OnlineBackup.DoneIsCurrentOverRuns` | crates/mpedb-capi/src/backup.rs:254-327 | the same over every run of commits and steps with any commits in any gap: only the gap of the capture that is installed matters |
| `OnlineBackup.OtherSourcesKeepTheirImage` | crates/mpedb-capi/src/backup.rs:64-71 | a source other than main is installed as it was at the start |
| `OnlineBackup.StepsNeeded` | crates/mpedb-capi/src/backup.rs:37-41 | with an idle source DONE comes at step ceil(left / n) and not before |
| `Csv.ParseCsv` | web/csv.js:31-62 | the loop over an index and four variables reads what the automaton reads |
| `Csv.ParseOfPrint` | web/csv.js:31-62 | reading the fully quoted rendering of any table returns its rows, dropping exactly empty rows and lone empty cells |
| `Csv.KeptIsIdentity` | web/csv.js:52 | so the round trip is exact iff every row can be stored |
| `Csv.ParsePrintParse` | web/csv.js:31-62 | parse, print, parse is parse, for any text |
| `CsvSql.InferType` | web/csv.js:154-168 | the early-exit loop finds the type every value proves |
| `CsvSql.InferredTypesFit` | web/csv.js:154-168 | an INT column holds only integers and empty cells |
| `CsvSql.LiteralReadsAs` | web/csv.js:178-186 | every literal reads back as the value its cell stands for |
| `CsvSql.ToSql` | web/csv.js:191-206 | the INSERTs decode to every row once and in order, in ceil(n/200) groups |
| `CsvColumns.Unique` | web/csv.js:97-104 | the first column of a name keeps it, each later one gets its occurrence number |
| `CsvColumns.DistinctIff` | web/csv.js:97-104 | the names come out distinct iff no repeat's new name was already taken |
| `CsvColumns.RepeatMayClash` | web/csv.js:97-104 | three columns for which they do not |
| `CsvImport.PlanTable` | web/csv.js:132-172 | fails iff there is no row; header, width, row limit, names and types, and the data rows cell by cell |
| `CsvImport.Import` | web/csv.js:31-206 | from text to statements: the INSERTs decode to the table the text describes |
| `CsvImport.PrintedTableImports` | web/csv.js:31-206 | a table printed under a header and imported comes back row by row, up to the row limit |
| `CsvImport.StoredTellsTheCell` | web/csv.js:1-8 | two cells of a TEXT or INT column are stored alike iff they are the same up to a plus sign and the sign of zero |
| `Civil.FromDaysIsADate` | crates/mpedb-bench/src/util.rs:344-356 | every day count gives a real Gregorian date with that day count |
| `Civil.DateRecovered` | crates/mpedb-bench/src/util.rs:344-356 | every Gregorian date is recovered from its day count |
| `Civil.ConsecutiveDays` | crates/mpedb-bench/src/util.rs:338-356 | consecutive counts are consecutive calendar days, starting at 1 January 1970 |
| `PlanTree.Explain` | crates/mpedb-capi/src/exec.rs:1223-1248 | one row per non-blank line, numbered, whose parent is the nearest line above that is indented less |
| `PlanTree.PlanIsDetermined` | crates/mpedb-capi/src/exec.rs:1213-1222 | the text determines the rows |
| `PlanTree.PlanIsForest` | crates/mpedb-capi/src/exec.rs:1231-1248 | a parent comes before its child |
| `PlanTree.SubtreesAreContiguous` | crates/mpedb-capi/src/exec.rs:1231-1248 | the forest is in pre-order: descendants are contiguous |
| `RateLimit.NeverOverLimit` | workbench/ingest-lab/serve.py:41-49 | over any run at most `limit` grants in any half-open interval of one window |
| `RateLimit.RecentBounded` | workbench/ingest-lab/serve.py:41-49 | never more than `limit` grants are recent, so a refusal means exactly `limit` |
| `RateLimit.Limiter.Charge` | workbench/ingest-lab/serve.py:41-49 | refuses iff exactly `limit` grants are recent, and otherwise reports what is left |

## Left out

- The storage engine below the guard: pages, trees, the log, recovery, locks and the SQL planner.
- Retry sleeps, latencies, deadlines and every other clock of the benchmark drivers.
- The PostgreSQL, SQLite and Turso adapters, report rendering and HTTP handlers: clients only.
- Lifetimes: connections, handles and backups are values in maps keyed by pointer, because an object that is freed cannot be expressed otherwise; update in place is therefore not captured there.
- Lifetimes.Final: panics inside the engine, and pointers a caller uses after freeing them, are outside the runs.
- Slots.SpliceSlot: the counter has at most fifteen digits, the width of a slot; a longer one makes the source stop with a length mismatch when it copies the mark over the slot.
- DocEditors.SlotHoldsOwnCounter: for the same reason the number of actions is at most 10^15.
- CounterQuorum.QuorumService.Flush: the engine's verdicts are a parameter with one verdict per edit; what decides them is `SubmitBatch`.
- BlobConnection.Connection.Open: name resolution, shadowed rowid spellings and the index check are one refusal code given as a parameter.
- BlobHandles.WriteIsSpliceOrNothing: the `IS` comparison of the guarded UPDATE is identity of values; collations and cross-type equality are not modelled.
- SubmitBatch.Submit: character boundaries of UTF-8 text, the failure of an inexact undo and the provisional verdicts of a replica are not modelled; commits are of splices of the one column, since a commit with any other statement on it publishes no range and is refused by every walk that stops there.
- SubmitBatch.FreshVerdicts: the snapshot is one the ring still reaches; an older one is refused.
- CommitRecords.RecordRefusesIff: the edits of the row are apart in the value the commit found; `RecordTruth.TellsIff` has no such condition.
- SettledGuard.SettledIsGuardedIff: a statement that names no key counts as writing every cell it may concern.
- RingGuard.RingIsExactGuard: hashes of distinct keys are distinct and the snapshot is one the ring still reaches; otherwise the ring refuses more, and `RingGuard.RingIsSoundGuard` still holds.
- SubEdit.RebaseThroughKeepsPlace: offsets are unbounded, so 64-bit overflow does not arise.
- OnlineBackup.Handle.Step: a failing capture, rename or reopen, and two backups into one destination at once, are not modelled.
- Callbacks.StepKeeps: the per-name window flag and the builtins the shim registers itself are not modelled; a call on a null connection has no state to keep.
- Csv.ParseCsv: the delimiter is given; guessing it from the first lines is not modelled.
- CsvSql.ToSql: how a FLOAT cell is rendered is a parameter that yields one token without separators, so what a float keeps of its cell is not stated.
- PlanTree.Explain: the text comes as a list of lines.
- RateLimit.Limiter.Charge: clock readings are reals that never decrease.
- CsvImport.PlanTable: how an identifier is made of a header cell or a file name, and what counts as a float, are parameters.
- The sidecar import of SQLite files, serialisation formats, authorizers, tracing and virtual tables.
