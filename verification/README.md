# Verified model of TileCloud-chain

TileCloud-chain generates map tiles. A PostgreSQL queue distributes metatiles
(squares of n by n tiles) to worker processes, a seeding step decides which
metatiles exist, and a tile server generates what was not seeded on demand. This
project models those parts in Dafny and proves what they guarantee over every
input and every interleaving.

## Layout

| modules | subject |
|---|---|
| `Common` | options, results, tile coordinates |
| `Countdown`, `MetatileCounter` | the counter that acknowledges a metatile when its last tile settles: the protocol of its tiles, and the fields they update |
| `QueueTables` | what each transaction computes from the `job` and `queue` tables |
| `PostgresqlStore` | the store as a class that updates the tables and its buffer in place, and the iterator that `list()` is |
| `QueueSystem`, `QueueEffects`, `QueueTheorems` | the whole queue protocol as a state machine (tables, queue generations, workers, clock), its invariant, and its guarantees |
| `QueueEndings`, `QueueExamples`, `CommandErrors` | what a done job says about how its command ended, jobs that are stuck, runs that end unexpectedly, and how the command reports errors |
| `InsertBuffer` | concurrent puts and flushes of the insert buffer |
| `IndexIntervals`, `TileRanges`, `TileMatrixLimits`, `SparseSeeding` | from geometries to tile indices: interval merging, clamped ranges, WMTS limits, seeded metatiles |
| `Divisibility`, `ResolutionScale` | prime factors and the least common multiple of resolution denominators |
| `ZoomRouting` | which zooms are seeded and which are served dynamically |
| `JsonText`, `TileFrame` | the binary frame of a cached tile and its JSON trailer |
| `MapCache`, `Fetching` | generation of the tiles of a metatile on demand: alone, and among concurrent requests |
| `TextTools`, `ErrorFile`, `ErrorFileTheorems`, `ErrorMessages` | the error file: printing, reading, the exact round trip, and the messages that the generation logs |
| `JobStream`, `GenerationBuffer`, `EndToEnd` | the cores together: the metatiles of a job over its layers, grids and dimensions, its insert buffer at work among the events of the queue, and what that means for a done job |

Where the source updates objects in place the model has classes whose methods are
proved against functions on values; the properties are then lemmas about those
functions. The protocols are state machines: one event is one database
transaction, or one uninterruptible step of a task, and runs are sequences of
events. Sets of rows, the rows put, and the rows completed are kept as history
where a theorem needs them.

## What was found

These follow from the code as it is; each has a lemma, and each failure a concrete
run or input.

- Neither `retry` nor `start_job` looks at how a job's command ended. A job whose
  command was refused (`RefusedThenDone`), whose queue generation failed part-way
  (`FailedThenDone`), or which was started by a master process some of whose puts
  failed (`MasterFailedThenDone`, without any retry) can therefore end as done. A
  done job's command ended without error exactly when the job was neither retried
  after a failure nor started by a master whose command failed
  (`DoneEndedWellExact`). The command itself reports an error by its exit code, and
  forgets the errors of every layer but the last (`ReportedExact`, `LastLayerHides`).
- A job of a master process that stops before it starts the job is never given up:
  it stays pending, and neither it nor its rows ever change (`StuckForever`,
  `MasterStopped`).
- A job that is retried while a first worker still holds one of its rows can have
  that row marked in error although a second worker is processing it
  (`RepeatAfterRetry`). Without a retry in between the first outcome wins
  (`FirstOutcomeWins`).
- A failed insert duplicates the rows of the buffer (`PutsConserved`), and a
  failed commit after a flush from `put_one` loses them (`LostByRollback`,
  `RowIsLost`).
- When the last column of metatiles is wider than what is left of the grid, geometry
  in that column beyond the side of the grid is not seeded
  (`SeedsEverythingExact`). Rows have no such cut.
- Resolving the zooms of one grid overwrites the option that the next grid starts
  from, in the same layer or in the next layer of the command, so a zoom that only a
  later grid has is neither seeded nor generated on demand (`SecondGridExact`,
  `LaterGridMissesZoom`).
- An error of the database before the first row was ever read ends the iteration of
  `list()`: the handler reads a variable that is not set yet (`Serve`).
- The cache key of a metatile is the key of its top-left tile. While tiles are being
  cached, a request for that tile can be answered with the image of the whole
  metatile (`WholeIsServed`), and a generation that does not succeed can leave
  it there for later requests (`WholeIsKept`; `WholeAtEndExact` says exactly
  when).

## Model

Paths are relative to the root of the repository.

| member | source | states |
|---|---|---|
| `Countdown.StepInv` | tilecloud_chain/__init__.py:1546-1555 | whatever a metatile does next, the counter equals the number of unsettled tiles, the error flag tells of a failed fetch or tile, the calls made are those that its stage asks for, and an error-free call is only made for a metatile that was dropped as empty or all of whose tiles were stored or dropped |
| `Countdown.CountdownExact` | tilecloud_chain/generate.py:314-368 | for every n and every interleaving, the tiles have called `delete_one` exactly once if all have settled and not at all before, and that call carries an error exactly when some tile failed |
| `Countdown.CallsExact` | tilecloud_chain/__init__.py:364-373 | all the calls of a metatile over any run, delivered or not: one, with an error if and only if the fetch failed, when it ends before its tiles run; else that of the last tile, and after the tiles a second one with an error if a tile failed; when a tile raised, one with an error; none when it is unwanted |
| `Countdown.FetchFailedExact` | tilecloud_chain/__init__.py:364-373 | a metatile is over with an error if and only if its fetch failed in the run |
| `Countdown.CleanKept` | tilecloud_chain/__init__.py:2483-2489 | a metatile whose tiles were all stored or dropped as empty stays so |
| `MetatileCounter.Metatile.AddElapsedToGenerate` | tilecloud_chain/generate.py:314-318 | the counter starts at n squared, as the protocol's split does |
| `MetatileCounter.Metatile.DeleteFromStore` | tilecloud_chain/generate.py:357-366 | a stored tile takes the protocol's step and makes exactly the call that this step makes |
| `MetatileCounter.Metatile.DropEmpty` | tilecloud_chain/__init__.py:2483-2494 | the same for a tile dropped as empty |
| `MetatileCounter.Metatile.TileInError` | tilecloud_chain/__init__.py:364-373 | the same for a tile in error, which also sets the error of the metatile |
| `MetatileCounter.CalledExact` | tilecloud_chain/generate.py:361-363 | a settling tile makes a call exactly when no other tile is left, and the call tells whether any tile failed |
| `QueueTables.ClearsOwnRows` | tilecloud_chain/store/postgresql.py:268-271 | clearing the queue of a job leaves no row of it and touches no other job or row |
| `QueueTables.EndsOwnGeneration` | tilecloud_chain/store/postgresql.py:288-301 | ending a queue generation touches no other job and no row of another job |
| `QueueTables.RetriedRows` | tilecloud_chain/store/postgresql.py:487-505 | a retry keeps the job's rows and their metatiles; none is in error any more and pending ones stay pending |
| `QueueTables.RetriesOwnRows` | tilecloud_chain/store/postgresql.py:487-505 | a retry touches no other job and no row of another job |
| `QueueTables.CancelledRows` | tilecloud_chain/store/postgresql.py:524-528 | a cancel leaves exactly the job's rows that are pending or in error, unchanged |
| `QueueTables.CancelsOwnRows` | tilecloud_chain/store/postgresql.py:524-528 | a cancel touches no other job and no row of another job |
| `QueueTables.SettlesOneRow` | tilecloud_chain/store/postgresql.py:886-910 | settling a row touches no job and no other row, and leaves the row not pending |
| `QueueTables.RestartsOverdue` | tilecloud_chain/store/postgresql.py:651-665 | after a restart no pending job, or row, is overdue; only overdue ones change, and only their status; nothing is added or removed |
| `QueueTables.InsertAllExact` | tilecloud_chain/store/postgresql.py:370-376 | inserted rows get the next ids in their order, waiting, with their job and metatile, and every other row stays as it is |
| `QueueTables.MaintainedFacts` | tilecloud_chain/store/postgresql.py:636-755 | the whole maintenance in terms of the tables before and after: a started job afterwards has a row that is not in error, one that was started and is done has no row, one in error has rows and all are in error; nothing overdue is left; an oldest waiting job was run for exactly the config files with waiting jobs and no started one, and what its command left is given exactly; every other job and row is as it was, except that overdue ones wait again |
| `QueueTables.MaintainedRan` | tilecloud_chain/store/postgresql.py:215-322 | what the command of each picked job leaves: a refused job in error, a subprocess done or in error, and for a filling command exactly its metatiles as waiting rows and their number as total, done if there was none |
| `QueueTables.NextRowExists` | tilecloud_chain/store/postgresql.py:797-813 | a config file with an available row has one that is first by creation time of its job and then by row id, so `list` only drops a config file without available rows |
| `QueueTables.OldestWaitingExists` | tilecloud_chain/store/postgresql.py:680-689 | a config file with waiting jobs has an oldest one to pick |
| `PostgresqlStore.PostgresqlTileStore.FlushPutBuffer` | tilecloud_chain/store/postgresql.py:359-384 | on success id nextRowId + k holds the job and metatile of the k-th buffered row, waiting, every other row is unchanged, and the buffer is empty; when the insert fails nothing is inserted and the buffer holds its rows twice |
| `PostgresqlStore.PostgresqlTileStore.InsertRows` | tilecloud_chain/store/postgresql.py:370-376 | the bulk insert gives the rows consecutive new ids in buffer order and changes no other row |
| `PostgresqlStore.PostgresqlTileStore.PutOne` | tilecloud_chain/store/postgresql.py:841-858 | after a put that succeeds fewer rows than a batch are buffered; a full batch is in the queue row by row under new ids; a failed insert doubles the buffer, a failed commit loses its rows |
| `PostgresqlStore.PostgresqlTileStore.CreateJob` | tilecloud_chain/store/postgresql.py:431-450 | the job gets a new id and the given status |
| `PostgresqlStore.PostgresqlTileStore.Close` | tilecloud_chain/store/postgresql.py:860-864 | closing inserts every buffered row under a new id and leaves none behind unless it fails |
| `PostgresqlStore.PostgresqlTileStore.DeleteRows` | tilecloud_chain/store/postgresql.py:268-271 | a new queue generation first removes exactly the rows of its job |
| `PostgresqlStore.PostgresqlTileStore.CloseGeneration` | tilecloud_chain/store/postgresql.py:288-301 | the total is the number of rows queued, and the job is started, or in error without a start time; a job that is gone is skipped; no other job is touched |
| `PostgresqlStore.PostgresqlTileStore.StartJob` | tilecloud_chain/store/postgresql.py:452-469 | only a pending job becomes started, with the number of its rows as total |
| `PostgresqlStore.PostgresqlTileStore.Retry` | tilecloud_chain/store/postgresql.py:471-505 | succeeds exactly for a job in error of that config file, puts back only its rows in error, and counts its rows |
| `PostgresqlStore.PostgresqlTileStore.Cancel` | tilecloud_chain/store/postgresql.py:507-528 | succeeds exactly for a started job of that config file and removes only its waiting rows |
| `PostgresqlStore.PostgresqlTileStore.RestartPendingJobs` | tilecloud_chain/store/postgresql.py:651-665 | exactly the overdue pending jobs wait again |
| `PostgresqlStore.PostgresqlTileStore.PickJob` | tilecloud_chain/store/postgresql.py:680-695 | picks an oldest waiting job of the config file, and none only if none waits |
| `PostgresqlStore.PostgresqlTileStore.JudgeJob` | tilecloud_chain/store/postgresql.py:713-739 | the counts of rows by status decide the status of one job |
| `PostgresqlStore.PostgresqlTileStore.UpdateJobStatus` | tilecloud_chain/store/postgresql.py:704-740 | judging the started jobs one after the other judges each by the rows of before |
| `PostgresqlStore.PostgresqlTileStore.RestartPendingRows` | tilecloud_chain/store/postgresql.py:741-755 | exactly the overdue pending rows wait again |
| `PostgresqlStore.PostgresqlTileStore.RunJob` | tilecloud_chain/store/postgresql.py:215-322 | the command of a picked job refuses it, runs it, or replaces its rows and closes its generation |
| `PostgresqlStore.PostgresqlTileStore.PickJobs` | tilecloud_chain/store/postgresql.py:667-702 | exactly one oldest waiting job is picked and run for each config file that has waiting jobs and no started one; each command leaves what it was given to do, and no other job changes |
| `PostgresqlStore.PostgresqlTileStore.Maintenance` | tilecloud_chain/store/postgresql.py:636-755 | the promises of `QueueTables.MaintainedFacts` hold of the tables from before the flush; the steps are applied in the order of the source; a failed flush changes no table |
| `PostgresqlStore.PostgresqlTileStore.HandOut` | tilecloud_chain/store/postgresql.py:796-834 | hands out the first available row, sets the first hand-out time of its job once, and hands out nothing only if no row is available |
| `PostgresqlStore.PostgresqlTileStore.DeleteOne` | tilecloud_chain/store/postgresql.py:866-911 | only a pending row is affected: put in error or removed |
| `PostgresqlStore.ListIterator.BeginPass` | tilecloud_chain/store/postgresql.py:763-780 | maintenance runs when no config file is left or after 1000 passes, so at least once every 1001 passes, with all that a maintenance promises, and then the config files are those with a started job; a failed flush changes no table |
| `PostgresqlStore.ListIterator.Serve` | tilecloud_chain/store/postgresql.py:782-839 | a config file gets one turn a pass: its first available row, or it is dropped exactly when it has none, or an error costs it the turn and changes nothing; an error before any row was ever read ends the iteration |
| `PostgresqlStore.ListIterator.FairShares` | tilecloud_chain/store/postgresql.py:757-835 | the config files that still have work had as many turns, to within one at any moment and exactly at the end of a pass; without read errors they were served as often |
| `QueueSystem.StepInv` | tilecloud_chain/store/postgresql.py:431-911 | every event of every process keeps the invariant that ties jobs, rows, queue generations, workers and history |
| `QueueEffects.CreateEffect` | tilecloud_chain/store/postgresql.py:431-450 | a created job waits, a master's job is pending and being filled; nothing else changes |
| `QueueEffects.RetryEffect` | tilecloud_chain/store/postgresql.py:471-505 | the event is possible exactly for a job in error; the new job and each of its rows |
| `QueueEffects.CancelEffect` | tilecloud_chain/store/postgresql.py:507-528 | the event is possible exactly for a started job; the rows that are left |
| `QueueEffects.PickEffect` | tilecloud_chain/store/postgresql.py:680-695 | the event is possible exactly for an oldest waiting job, and begins its queue generation |
| `QueueEffects.RestartEffect` | tilecloud_chain/store/postgresql.py:651-665 | exactly the overdue jobs, or rows, wait again |
| `QueueEffects.VerdictEffect` | tilecloud_chain/store/postgresql.py:704-740 | each started job is judged by its rows, and no other job changes |
| `QueueEffects.FillEffect` | tilecloud_chain/store/postgresql.py:268-271 | a queue generation removes exactly the rows of its job, and each put adds one waiting row with its metatile |
| `QueueEffects.FinishEffect` | tilecloud_chain/store/postgresql.py:288-301 | the end of a queue generation, picked or of a master: the status and the number of rows |
| `QueueEffects.HandOutEffect` | tilecloud_chain/store/postgresql.py:796-834 | the row handed out is first among the available ones, becomes pending now, and its worker begins with its metatile |
| `QueueEffects.CommandEffect` | tilecloud_chain/store/postgresql.py:215-265 | a refused command puts its job in error, a subprocess ends it as done or in error |
| `QueueEffects.WorkEffect` | tilecloud_chain/generate.py:314-368 | a step of a worker changes its own metatile and no table |
| `QueueTheorems.RunInv` | tilecloud_chain/store/postgresql.py:431-911 | the invariant holds in every state of every run from an empty database |
| `QueueTheorems.DoneMeansGenerated` | tilecloud_chain/store/postgresql.py:704-740 | a done job has no row, and every row of its last queue generation was removed by an error-free call of a worker that was handed that row and whose n squared tiles were all stored or dropped, or whose whole image was recognised as empty |
| `QueueTheorems.NoRowLost` | tilecloud_chain/store/postgresql.py:896-910 | until its job is cancelled a row of the job's last queue generation is either still queued or completed, never both and never neither |
| `QueueTheorems.ProgressConserved` | tilecloud_chain/store/postgresql.py:492-504 | the total of a started job is its queued rows plus the rows completed since its last activation or retry |
| `QueueTheorems.EtaExact` | tilecloud_chain/store/postgresql.py:615-631 | in every reachable state the clamps of the estimate do nothing: estimate times completed is at most queued times elapsed, which is less than one completed more, counted since the first hand-out after the last activation or retry |
| `QueueTables.VerdictExact` | tilecloud_chain/store/postgresql.py:713-739 | a started job becomes done if and only if it has no row, in error if and only if it has rows and all are in error |
| `QueueTheorems.VerdictStable` | tilecloud_chain/store/postgresql.py:704-755 | no event but its retry changes a job that is done or in error, or any of its rows |
| `QueueTheorems.VerdictKept` | tilecloud_chain/store/postgresql.py:704-755 | the same over any stretch of a run; a done job never changes again |
| `QueueTheorems.RetriedWithoutRows` | tilecloud_chain/store/postgresql.py:471-505 | after a retry the next maintenance calls the job done if and only if it had no row |
| `QueueTheorems.PendingRowOwner` | tilecloud_chain/store/postgresql.py:797-828 | a pending row belongs to a started or cancelled job |
| `QueueTheorems.ExclusiveLease` | tilecloud_chain/store/postgresql.py:741-755 | between two hand-outs of a row there is a retry of its job, or a timeout more than the pending time after the first |
| `QueueTheorems.DeliverExact` | tilecloud_chain/store/postgresql.py:886-909 | a delivered call changes the tables exactly when its row is pending: with an error the row is in error with that message, without one it is removed, and no other row and no job changes |
| `QueueTheorems.FailureReported` | tilecloud_chain/__init__.py:364-373 | over every run, a worker whose fetch failed, or one of whose tiles failed or raised, has a call with an error among its calls; once they are delivered, one of them was delivered with an error, and its row was put in error if it was still pending |
| `QueueTheorems.FirstOutcomeWins` | tilecloud_chain/__init__.py:333-373 | once a row is settled, a repeated call for it changes nothing until its job is retried |
| `QueueExamples.RepeatAfterRetry` | tilecloud_chain/store/postgresql.py:886-895 | a run in which, after a retry, the repeated call of a first worker puts in error the row a second worker holds |
| `QueueExamples.FetchFailureEnds` | tilecloud_chain/__init__.py:364-373 | a run in which a failed fetch puts its row, and then its job, in error |
| `QueueExamples.HandedOutTwice` | tilecloud_chain/store/postgresql.py:741-755 | a run in which a row that is pending for too long is handed out to a second worker |
| `QueueExamples.PickedTwice` | tilecloud_chain/store/postgresql.py:651-702 | a run in which a job whose queue generation stopped is given up and picked again |
| `QueueExamples.CancelledWaiting` | tilecloud_chain/store/postgresql.py:507-528 | a run in which a cancelled job is left without rows |
| `QueueExamples.SubprocessEnds` | tilecloud_chain/store/postgresql.py:215-265 | a run in which a job ends with its subprocess |
| `QueueEndings.EndsOnce` | tilecloud_chain/store/postgresql.py:215-322 | the command of a job ends at most once in any run, retries included |
| `QueueEndings.FailureLasts` | tilecloud_chain/store/postgresql.py:471-505 | a picked job whose command failed or was refused stays in error until it is retried |
| `QueueEndings.DoneEndedWellExact` | tilecloud_chain/generate.py:875-898 | the command of a done job ended without error if and only if the job was not retried after it was refused or failed, and was not started by a master process whose command failed |
| `QueueEndings.StuckForever` | tilecloud_chain/store/postgresql.py:651-665 | a pending job without a start time and without a running queue generation stays so in every later state, and neither it nor any of its rows changes |
| `QueueEndings.GivenUpExact` | tilecloud_chain/store/postgresql.py:651-665 | a pending job is given up at some later time if and only if it has a start time |
| `CommandErrors.Generation.Gene` | tilecloud_chain/generate.py:105-133 | every layer starts its error count again |
| `CommandErrors.Generation.GenerateLayers` | tilecloud_chain/generate.py:856-898 | the job is started unless an exception ended the command, whatever the error count; the exit code is 1 if and only if an exception ended it or the last layer had errors |
| `CommandErrors.ReportedExact` | tilecloud_chain/generate.py:897-898 | the exit code tells whether anything failed, except when only layers before the last one had errors |
| `CommandErrors.LastLayerHides` | tilecloud_chain/generate.py:118 | a last layer without errors hides all that were counted before |
| `QueueExamples.RefusedThenDone` | tilecloud_chain/store/postgresql.py:218-231 | a run in which a job whose command was refused ends as done |
| `QueueExamples.FailedThenDone` | tilecloud_chain/store/postgresql.py:288-301 | a run in which a job whose queue generation failed part-way ends as done |
| `QueueExamples.MasterFailedThenDone` | tilecloud_chain/generate.py:882-898 | a run in which the job of a master whose command failed ends as done without any retry |
| `QueueExamples.MasterStopped` | tilecloud_chain/generate.py:882-895 | a run in which a master stops before it starts its job and leaves it stuck, with the rows put so far |
| `JobStream.StreamExact` | tilecloud_chain/__init__.py:2215-2231 | the stream of a layer and grid has each metatile with each combination of dimension values, once |
| `JobStream.StreamIsSeeded` | tilecloud_chain/__init__.py:2187-2231 | the stream of a job, over its layers and grids, has each seeded metatile that the filters keep once for each combination of dimension values, and no other |
| `GenerationBuffer.RowsNumbered` | tilecloud_chain/store/postgresql.py:268-271 | in every run the rows of a job's last queue generation are one for each metatile inserted since its queue was cleared |
| `GenerationBuffer.InsertedKept` | tilecloud_chain/store/postgresql.py:288-301 | nothing is inserted for a job once its command ended |
| `GenerationBuffer.WovenRows` | tilecloud_chain/store/postgresql.py:359-384 | whatever happens in between, the rows inserted for a job since its generation began are those that its buffer has committed |
| `GenerationBuffer.InsertedAtEnd` | tilecloud_chain/generate.py:681-687 | so they are when the generation ends |
| `EndToEnd.DoneMeansSeededExact` | tilecloud_chain/generate.py:228-235 | when a queue generation puts the seeded metatiles that its filters keep, a done job has exactly one row for each of them, removed by the error-free call of a worker that stored or dropped all its tiles, if and only if the buffer committed exactly the rows that were put |
| `EndToEnd.DoneMeansSeeded` | tilecloud_chain/generate.py:228-235 | in particular when no insert failed, every transaction was committed and nothing waits |
| `InsertBuffer.PrefixTestSucceeds` | tilecloud_chain/store/postgresql.py:382-384 | whatever interleaves and fails, the copied rows are still the front of the buffer |
| `InsertBuffer.PutsConserved` | tilecloud_chain/store/postgresql.py:359-384 | inserted rows followed by the waiting ones are the puts in order if no insert failed; in any case no row is lost before its transaction ends, and rows are duplicated if and only if an insert failed |
| `InsertBuffer.FlushAlone` | tilecloud_chain/store/postgresql.py:359-384 | a flush that nothing interleaves with inserts the whole buffer in one batch and leaves it empty, or doubles it when the insert fails |
| `InsertBuffer.CommitExact` | tilecloud_chain/store/postgresql.py:841-858 | the end of a transaction is recorded for its own rows only |
| `InsertBuffer.LostByRollback` | tilecloud_chain/store/postgresql.py:854-857 | without failed inserts, nothing is lost if and only if no transaction was rolled back |
| `InsertBuffer.RowIsLost` | tilecloud_chain/store/postgresql.py:854-857 | a run of one put whose row is neither in the table nor in the buffer after a failed commit |
| `IndexIntervals.MergeIndexIntervals` | tilecloud_chain/__init__.py:494-506 | the output is sorted, has a missing index between neighbours, and covers exactly the indices of the input |
| `IndexIntervals.CanonicalUnique` | tilecloud_chain/__init__.py:494-506 | there is only one such list, so inputs that cover the same indices give the same output |
| `TileRanges.RangeExact` | tilecloud_chain/__init__.py:458-474 | the indices from the floor of the lower bound to the ceiling of the upper one less 1 are exactly the cells that overlap the bounds |
| `TileRanges.ClampedRange` | tilecloud_chain/__init__.py:458-492 | a cell of the matrix that overlaps the bounds is in the clamped range, and a cell in the range overlaps them or is the first or last one when they lie outside |
| `TileRanges.NestedFloor` | tilecloud_chain/__init__.py:533-535 | the floor at n times the span is the floor at the span divided by n |
| `TileRanges.NestedCeil` | tilecloud_chain/__init__.py:533-535 | the same for the last cell, through the ceiling |
| `TileRanges.CoarseEqualsFine` | tilecloud_chain/__init__.py:533-548 | the clamped range of metatiles is the clamped range of tiles divided by n at both ends |
| `TileMatrixLimits.GetTileMatrixLimits` | tilecloud_chain/__init__.py:779-836 | limits are given exactly when the layer has a box that overlaps the grid with an area and the buffer is zero or limits are forced; then for each zoom z a valid part of the matrix whose tiles are `resolutions[z] * tileSize` wide, and a tile of that matrix is inside if and only if it overlaps the box widened by `pxBuffer * resolutions[z]` |
| `TileMatrixLimits.LimitAtResolution` | tilecloud_chain/__init__.py:816-835 | the same for one resolution |
| `TileMatrixLimits.LimitsValid` | tilecloud_chain/__init__.py:816-835 | 0 <= min <= max < matrix size for rows and columns |
| `TileMatrixLimits.LimitsComplete` | tilecloud_chain/__init__.py:816-835 | a tile of the matrix is inside if and only if it overlaps the buffered box, so that only indices outside the matrix are clamped |
| `TileMatrixLimits.LimitsExact` | tilecloud_chain/__init__.py:816-835 | with no buffer a tile is inside if and only if it overlaps the box with an area, so the clamps are inert and the limits tight |
| `TileMatrixLimits.NormalizedCorners` | tilecloud_chain/__init__.py:799-808 | a normalized box has the same sides, in order |
| `SparseSeeding.CollectRowIntervals` | tilecloud_chain/__init__.py:550-573 | the intervals of a row are canonical and cover exactly the columns of its clipped boxes |
| `SparseSeeding.RowCells` | tilecloud_chain/__init__.py:575-603 | the metatiles of a row are those of its intervals, in order |
| `SparseSeeding.ZoomCells` | tilecloud_chain/__init__.py:605-627 | the metatiles of a zoom are the seeded ones, in increasing order |
| `SparseSeeding.MetaTileCoords` | tilecloud_chain/__init__.py:605-627 | over all zooms, exactly the metatiles of seeded cells, each once: aligned to n, beginning in the grid, and touching the geometry of their zoom with the box of n by n tiles; and every aligned metatile whose box shares an area with the geometry between the sides of the grid |
| `SparseSeeding.SeededTileTouches` | tilecloud_chain/__init__.py:600-627 | a metatile that is put has the side n, an x and y that are multiples of n, a left and a top side in the grid, and a box of n by n tiles at the resolution of its zoom that touches the geometry of that zoom |
| `SparseSeeding.OverlappedTile` | tilecloud_chain/__init__.py:600-627 | every such metatile whose box shares an area with the geometry between the sides of the grid is put |
| `SparseSeeding.SeededTouches` | tilecloud_chain/__init__.py:458-627 | a seeded metatile touches the geometry |
| `SparseSeeding.OverlappedSeeded` | tilecloud_chain/__init__.py:458-627 | a metatile that shares an area with the geometry between the sides of the grid is seeded |
| `SparseSeeding.SeedsEverythingExact` | tilecloud_chain/__init__.py:521-598 | every metatile of the matrix that shares an area with the geometry is seeded, whatever the geometry, if and only if the last column ends at the side of the grid |
| `SparseSeeding.AdvertisedIsSeeded` | tilecloud_chain/__init__.py:816-835 | with no buffer, every advertised tile lies in a seeded metatile |
| `ResolutionScale.PrimeFactors` | tilecloud_chain/__init__.py:1294-1304 | ends with primes in ascending order whose product is the input |
| `ResolutionScale.Record` | tilecloud_chain/__init__.py:1311-1315 | the recorded exponent of each prime is its largest count so far |
| `ResolutionScale.PowerProduct` | tilecloud_chain/__init__.py:1317-1320 | the product of the prime powers is their least common multiple |
| `ResolutionScale.Scale` | tilecloud_chain/__init__.py:1306-1320 | positive, a multiple of every denominator, and a divisor of every other common multiple |
| `ResolutionScale.ScaleOf` | tilecloud_chain/__init__.py:1306-1320 | an integer makes every resolution integral if and only if it is a multiple of the scale |
| `ZoomRouting.Options.FilterZoomOutsideGrid` | tilecloud_chain/__init__.py:2029-2047 | requested zooms beyond the grid are removed, the others stay in order |
| `ZoomRouting.Options.ApplyMinResolutionSeedFilter` | tilecloud_chain/__init__.py:2049-2074 | with a limit only seedable zooms remain, of all zooms if none was requested |
| `ZoomRouting.Options.ResolveGridZooms` | tilecloud_chain/__init__.py:2076-2088 | a zoom is resolved if and only if the grid has it, it was requested if any was, and its resolution is seedable; ascending zooms stay so; the result also becomes the option |
| `ZoomRouting.GetMaxZoomSeed` | tilecloud_chain/server.py:359-373 | the last seedable zoom: seedable itself, and no later one is |
| `ZoomRouting.MaxZoomSeedExact` | tilecloud_chain/server.py:366-372 | a zoom is not beyond it if and only if it or a later one is seedable |
| `ZoomRouting.DecreasingSeedableFirst` | tilecloud_chain/server.py:366-372 | resolutions that never increase satisfy the condition of the next lemma |
| `ZoomRouting.RoutingExact` | tilecloud_chain/server.py:694-695 | when no zoom was requested, the server generates on demand exactly what is not seeded if and only if no zoom is seedable after one that is not |
| `ZoomRouting.LaterGridExact` | tilecloud_chain/__init__.py:2076-2088 | for a later grid this holds if and only if the list left by the earlier grid has every seedable zoom |
| `ZoomRouting.SecondGridExact` | tilecloud_chain/__init__.py:2076-2088 | on the second of two grids, of one layer or of two layers of one command, routing agrees with seeding if and only if every zoom seedable there is a seedable zoom of the first |
| `ZoomRouting.LaterGridMissesZoom` | tilecloud_chain/__init__.py:2086-2088 | two grids for which it fails |
| `JsonText.StringRoundTrip` | tilecloud_chain/internal_mapcache.py:49-51 | an escaped JSON string is read back, surrogate pairs included |
| `JsonText.ObjectRoundTrip` | tilecloud_chain/internal_mapcache.py:49-51 | an object of two strings or nulls is read back |
| `TileFrame.Int64RoundTrip` | tilecloud_chain/internal_mapcache.py:40-51 | a signed 8-byte integer is read back |
| `TileFrame.FrameLayout` | tilecloud_chain/internal_mapcache.py:46-51 | the frame is the length of the image on 8 bytes, the image, and the ASCII text of the JSON object |
| `TileFrame.Int64OfByte` | tilecloud_chain/internal_mapcache.py:46-51 | the least significant byte of the length comes first |
| `TileFrame.FrameRoundTrip` | tilecloud_chain/internal_mapcache.py:38-51 | decoding an encoded tile restores data, encoding and type, for every data from 1 byte to under 2^63 |
| `TileFrame.Tile.Decode` | tilecloud_chain/internal_mapcache.py:38-44 | fills the tile, or raises having at most set its data |
| `TileFrame.RedisStore.PutOne` | tilecloud_chain/internal_mapcache.py:110-115 | refuses a tile without data; changes one key only |
| `TileFrame.RedisStore.GetOne` | tilecloud_chain/internal_mapcache.py:99-108 | leaves the tile alone when its key is missing, else fills it with what the frame decodes to |
| `MapCache.MetaTileOfChild` | tilecloud_chain/internal_mapcache.py:277-283 | the metatile of a tile of an aligned metatile is that metatile |
| `MapCache.TileOfMetaTile` | tilecloud_chain/internal_mapcache.py:277-283 | the metatile of a tile is aligned, and the tile is exactly one of its tiles |
| `MapCache.KeysDiffer` | tilecloud_chain/internal_mapcache.py:123-133 | the tiles of a metatile have different keys, and the metatile shares the key of its top-left tile only |
| `MapCache.VisitedAt` | tilecloud_chain/internal_mapcache.py:219-236 | what visiting a prefix of the tiles leaves under each tile's key |
| `MapCache.PutAt` | tilecloud_chain/internal_mapcache.py:219-236 | what an attempt leaves under each tile's key, given which of its tiles are good and whether tries are left |
| `MapCache.WholeLeftExact` | tilecloud_chain/internal_mapcache.py:208-237 | after any attempts the top-left key holds the whole metatile if and only if the last attempt that wrote the key wrote the metatile and not the tile, or none did and it was there |
| `MapCache.SuccessIsOwnData` | tilecloud_chain/internal_mapcache.py:208-237 | when `compute_tile` succeeds every tile's key holds that tile's own data, made by the last attempt |
| `MapCache.Generator.PutTiles` | tilecloud_chain/internal_mapcache.py:219-237 | a good tile is cached exactly when no try is left or everything before it was good; the top-left key otherwise gets the metatile, if that is good, and every other key stays as it is |
| `MapCache.Generator.ComputeTile` | tilecloud_chain/internal_mapcache.py:208-237 | attempts are made until one gives everything or six failed, and the cache is the one those attempts leave |
| `Fetching.StepInv` | tilecloud_chain/internal_mapcache.py:261-317 | every step of every request keeps the invariant: one holder of the lock, and a cache that is what the holder's attempts leave |
| `Fetching.ReadsExact` | tilecloud_chain/internal_mapcache.py:261-293 | a request whose key is cached is answered from the cache, before or after it took the lock, and makes no attempt; one whose key is not takes the lock and generates |
| `Fetching.FirstAttemptServes` | tilecloud_chain/internal_mapcache.py:208-237 | for every metatile, a run whose first attempt gives everything ends with the request answered and the lock free |
| `Fetching.OneGeneration` | tilecloud_chain/internal_mapcache.py:269-317 | at most one generation succeeds; from then on no attempt is made and every tile's key holds that tile's own data |
| `Fetching.AnswerIsOwn` | tilecloud_chain/internal_mapcache.py:261-317 | an answer is the tile's own data, or, for the top-left tile only, perhaps the whole metatile |
| `Fetching.EndsLikeAlone` | tilecloud_chain/internal_mapcache.py:285-293 | a generation among other requests ends with the answer and the cache of `compute_tile` alone |
| `Fetching.WholeAtEndExact` | tilecloud_chain/internal_mapcache.py:219-237 | when a generation is over, the exact condition for the whole metatile to be left under the top-left key |
| `Fetching.WholeIsServed` | tilecloud_chain/internal_mapcache.py:269-270 | for every metatile of more than one tile and every attempt that gives its image, a run that answers a request for the top-left tile with the whole metatile |
| `Fetching.WholeIsKept` | tilecloud_chain/internal_mapcache.py:213-232 | for every metatile of more than one tile, a run whose generation is refused after six attempts and leaves the whole metatile, with which a later request for the top-left tile is answered |
| `TextTools.IntRoundTrip` | tilecloud_chain/__init__.py:2736-2755 | a printed integer is read back |
| `TextTools.ParseIntExact` | tilecloud_chain/__init__.py:2736-2755 | an integer is read exactly from digits behind one sign or none, between spaces |
| `TextTools.SplitInTwo` | tilecloud_chain/__init__.py:2870-2873 | a text splits in two if and only if it has one separator |
| `ErrorFile.CoordRoundTrip` | tilecloud_chain/tests/test_generate.py:765-769 | a coordinate printed as `z/x/y` or `z/x/y:+n/+n` is parsed back, for every n |
| `ErrorFile.ParseExact` | tilecloud_chain/__init__.py:2736-2755 | exactly which texts are coordinates, and what they stand for: three integers z, x and y, and the side from the first part behind one ':' |
| `ErrorFile.CoordExamples` | tilecloud_chain/tests/test_generate.py:765-769 | how coordinates are written |
| `ErrorFile.BodyExact` | tilecloud_chain/__init__.py:2850-2873 | a line whose first word is no coordinate is skipped whatever follows; else it raises if and only if some other word has not exactly one '=' |
| `ErrorFile.BlankLine` | tilecloud_chain/__init__.py:2850-2873 | a line with nothing in front of its comment gives nothing |
| `ErrorFile.SortedKeys` | tilecloud_chain/__init__.py:118 | the keys are printed once each, in strictly increasing order |
| `ErrorFile.FromTokensRoundTrip` | tilecloud_chain/__init__.py:2870-2873 | the dictionary of the printed tokens is the one they were printed from |
| `ErrorFile.ListTiles` | tilecloud_chain/__init__.py:2850-2873 | the loop over the lines yields the tiles of all lines that give one, in order and each from its own line, up to the first line that raises, if one does |
| `ErrorFileTheorems.LineRoundTrip` | tilecloud_chain/__init__.py:1649-1655 | a line gives its coordinate and metadata, the last value without the spaces that end it, whatever the comment |
| `ErrorFileTheorems.FileRoundTrip` | tilecloud_chain/__init__.py:2850-2873 | a whole file of tile lines and comment lines is read as exactly the logged tiles, in order |
| `ErrorFileTheorems.ReadBackExact` | tilecloud_chain/__init__.py:1636-1655 | a logged tile is read back if and only if no key or value has a blank, '=', '#' or line break and the last value does not end with a space character |
| `ErrorFileTheorems.MessageLeak` | tilecloud_chain/__init__.py:1650-1655 | for any message at all: the tile, followed by what the message's own lines read as |
| `ErrorFileTheorems.ReturnAddsTile` | tilecloud_chain/__init__.py:1654-1655 | a direct caller that logs a message with a carriage return as it is adds a tile which was never logged |
| `ErrorMessages.ReprOneLine` | tilecloud_chain/__init__.py:357-359 | `repr` of any string is one line, whatever line breaks the string has |
| `ErrorMessages.ErrorExact` | tilecloud_chain/__init__.py:357-359 | `repr` of an error has no carriage return if and only if no class name in it and no `repr` that an object defines itself has one; strings do not matter |
| `ErrorMessages.LoggedExact` | tilecloud_chain/__init__.py:2708-2718 | a tile that the generation logs, with an error of the kind above, is read back if and only if its metadata are clean |
| `ErrorMessages.LoggedFileRoundTrip` | tilecloud_chain/__init__.py:1612-1655 | a whole file that the generation wrote, with such errors, is read as exactly the tiles it logged, in order |

## Assumptions

- Transactions are serialisable; concurrent effects inside one transaction block are
  not modelled.
- The queue generation of a job ends before the pending time of that job is over, and
  rows of a job are put by its own queue generation only.
- Nothing raises between a tile's decrement of the counter and the end of its pipeline
  (the second `DatabaseLogger` of tilecloud_chain/generate.py:370-376 runs there).
- Cache entries and locks do not expire while the requests of one metatile run.

## Left out

- All input and output: SQL, Redis, S3, WMS and HTTP, image decoding and splitting, logging and metrics. Fetches and splits are nondeterministic outcomes; the splitter yields all n squared tiles of an image.
- Command parsing and subprocess handling of a job: what a command does is a field of the job (refused, fills the queue, subprocess).
- `PostgresqlStore.ListIterator.BeginPass`: the sleeps of the loop are not modelled. Fairness is a property of one iterator; `TimedTileStoreWrapper` restarts it for every tile.
- `PostgresqlStore.PostgresqlTileStore.Maintenance`: no other process acts between its transactions, and the clock stands still; `QueueSystem` has them as separate events.
- `QueueSystem.StepInv`: inserts are one row per event, and a job is picked whatever other jobs of its config file do, which allows more runs than the code has.
- `EndToEnd.DoneMeansSeeded`: which seeded metatiles the geometry and process filters keep is a parameter, and no combination of dimension values is listed twice. The message of a row is its coordinate and its metadata.
- `QueueTheorems.EtaExact`: the float division of two integers and its truncation are an integer division.
- Row errors and counts by zoom in the status report, job titles and messages.
- The process-local job filters, the consecutive-error counter, `log_size`, counters and cost estimates, which only add easy members.
- `TileMatrixLimits.GetTileMatrixLimits`: the reprojection of a layer's box and the `tile_matrix` identifier; both boxes are in the grid's projection.
- `SparseSeeding.MetaTileCoords`: a geometry is a finite union of axis-parallel boxes that already includes the buffer (the corner shape of a buffered geometry and the extraction of leaf geometries are foreign code); arithmetic is over real numbers. Geometries without area that lie on a cell boundary give no metatile.
- `ResolutionScale.ScaleOf`: takes resolutions as fractions in lowest terms, as `Fraction(str(resolution))` gives them; `ResolutionScale.PrimeFactors` divides exactly where the code rounds a float quotient.
- `ZoomRouting.Options.ResolveGridZooms`: the default zoom of time measurements.
- `TileFrame.Tile.Decode`: of JSON it reads objects of strings and nulls in ASCII, which is what the encoder writes; the native byte order is taken as little-endian.
- `MapCache.KeysDiffer`: keys are compared by zoom, column and row; the layer, grid and dimensions are fixed, and the joining of key parts by '_' is not modelled.
- `Fetching.StepInv`: metatiles of layers with the `meta` option; for a metatile of a single tile, where the two share one dictionary entry, the two-write order is not that of the code, so the theorems about the whole image ask for n > 1.
- `ErrorFile.CoordRoundTrip`: underscores and non-ASCII digits, which `int()` accepts, are not read.
- `ErrorMessages.LoggedExact`: the `repr` of an object that defines its own is given as a text, and which characters beyond ASCII are printable is a parameter; times and layer names are one line.
- `ErrorFileTheorems.ReadBackExact`: metadata values are strings; the `tiles` entry of a served metatile is not printed.
