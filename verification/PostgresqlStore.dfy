/** The PostgreSQL store itself: methods that update the two tables and the
    insert buffer in place, proved against the transactions of `QueueTables`. */
module PostgresqlStore {
  import opened Common
  import opened QueueTables

  /** The database shared by all the stores. */
  class Database {
    var jobs: map<nat, Job>
    var queue: map<nat, Row>
    var nextJobId: nat
    var nextRowId: nat

    function Value(): Tables
      reads this
    {
      Tables(jobs, queue, nextJobId, nextRowId)
    }

    constructor ()
      ensures Value() == EMPTY_TABLES
    {
      jobs, queue, nextJobId, nextRowId := map[], map[], 1, 1;
    }
  }

  /** A batch size, at least 1. */
  type BatchSize = n: nat | n >= 1 witness 1

  class PostgresqlTileStore {
    const db: Database
    const maxPending: nat
    const insertBatchSize: BatchSize
    var insertBuffer: seq<NewRow>

    constructor (db: Database, maxPending: nat, queueInsertBatchSize: int)
      ensures this.db == db && this.maxPending == maxPending && insertBuffer == []
      ensures insertBatchSize == if queueInsertBatchSize < 1 then 1 else queueInsertBatchSize
    {
      this.db, this.maxPending, insertBuffer := db, maxPending, [];
      insertBatchSize := if queueInsertBatchSize < 1 then 1 else queueInsertBatchSize;
    }

    /** Insert the buffered rows. `insertFails` is whether the database refuses them. */
    method FlushPutBuffer(insertFails: bool) returns (flushed: Result<()>)
      modifies db, `insertBuffer
      ensures flushed.Failure? <==> insertFails && old(insertBuffer) != []
      ensures flushed.Success? ==>
                insertBuffer == [] && db.Value() == InsertAll(old(db.Value()), old(insertBuffer))
      ensures flushed.Success? ==>
              forall id: nat | old(db.nextRowId) <= id < old(db.nextRowId) + |old(insertBuffer)| ::
                id in db.queue
                && db.queue[id] == Row(old(insertBuffer)[id - old(db.nextRowId)].jobId,
                                       old(insertBuffer)[id - old(db.nextRowId)].metaTile, RowCreated, "", None)
      ensures flushed.Success? ==>
              forall id: nat | !(old(db.nextRowId) <= id < old(db.nextRowId) + |old(insertBuffer)|) ::
                (id in db.queue <==> id in old(db.queue)) && (id in db.queue ==> db.queue[id] == old(db.queue)[id])
      ensures flushed.Success? ==> db.nextRowId == old(db.nextRowId) + |old(insertBuffer)| && db.jobs == old(db.jobs)
      // The rows were still in the buffer when they are put back in front of it.
      ensures flushed.Failure? ==>
                insertBuffer == old(insertBuffer) + old(insertBuffer) && db.Value() == old(db.Value())
    {
      var rows := insertBuffer;
      InsertAllExact(db.Value(), rows);
      if rows == [] {
        return Success(());
      }
      if insertFails {
        insertBuffer := rows + insertBuffer;
        return Failure("insert failed");
      }
      InsertRows(rows);
      if |rows| <= |insertBuffer| && insertBuffer[..|rows|] == rows {
        insertBuffer := insertBuffer[|rows|..];
      }
      return Success(());
    }

    method InsertRows(rows: seq<NewRow>)
      modifies db
      ensures db.Value() == InsertAll(old(db.Value()), rows)
      ensures forall id: nat | old(db.nextRowId) <= id < old(db.nextRowId) + |rows| ::
                id in db.queue
                && db.queue[id] == Row(rows[id - old(db.nextRowId)].jobId, rows[id - old(db.nextRowId)].metaTile,
                                       RowCreated, "", None)
      ensures forall id: nat | !(old(db.nextRowId) <= id < old(db.nextRowId) + |rows|) ::
                (id in db.queue <==> id in old(db.queue)) && (id in db.queue ==> db.queue[id] == old(db.queue)[id])
      ensures db.nextRowId == old(db.nextRowId) + |rows| && db.jobs == old(db.jobs)
    {
      InsertAllExact(db.Value(), rows);
      var i := 0;
      while i < |rows|
        invariant i <= |rows|
        invariant InsertAll(db.Value(), rows[i..]) == InsertAll(old(db.Value()), rows)
      {
        var row := rows[i];
        assert rows[i..][1..] == rows[i + 1..];
        db.queue := db.queue[db.nextRowId := Row(row.jobId, row.metaTile, RowCreated, "", None)];
        db.nextRowId := db.nextRowId + 1;
        i := i + 1;
      }
    }

    /** Put a metatile in the queue: it stays buffered until the batch is full. The
        flush of a full batch runs in a transaction that is committed afterwards;
        ids taken in it are not given again. */
    method PutOne(jobId: nat, metaTile: Message, insertFails: bool, commitFails: bool) returns (put: Result<()>)
      modifies db, `insertBuffer
      ensures var all := old(insertBuffer) + [NewRow(jobId, metaTile)];
              && (put.Failure? <==> |all| >= insertBatchSize && (insertFails || commitFails))
              && (|all| < insertBatchSize ==> insertBuffer == all && db.Value() == old(db.Value()))
              && (|all| >= insertBatchSize && insertFails ==>
                    insertBuffer == all + all && db.Value() == old(db.Value()))
              // The rows have left the buffer and are not in the table.
              && (|all| >= insertBatchSize && !insertFails && commitFails ==>
                    insertBuffer == [] && db.Value() == old(db.Value()).(nextRowId := old(db.nextRowId) + |all|))
              && (|all| >= insertBatchSize && !insertFails && !commitFails ==>
                    insertBuffer == [] && db.Value() == InsertAll(old(db.Value()), all))
      ensures put.Success? ==> |insertBuffer| < insertBatchSize
      ensures put.Success? && |old(insertBuffer)| + 1 >= insertBatchSize ==>
        var all, first := old(insertBuffer) + [NewRow(jobId, metaTile)], old(db.nextRowId);
        && db.nextRowId == first + |all| && db.jobs == old(db.jobs)
        && (forall id: nat | first <= id < first + |all| ::
              id in db.queue
              && db.queue[id] == Row(all[id - first].jobId, all[id - first].metaTile, RowCreated, "", None))
        && forall id: nat | !(first <= id < first + |all|) ::
             (id in db.queue <==> id in old(db.queue)) && (id in db.queue ==> db.queue[id] == old(db.queue)[id])
    {
      var queue := db.queue;
      insertBuffer := insertBuffer + [NewRow(jobId, metaTile)];
      ghost var all := insertBuffer;
      if |insertBuffer| < insertBatchSize {
        return Success(());
      }
      put := FlushPutBuffer(insertFails);
      if put.Success? && commitFails {
        InsertAllKeeps(old(db.Value()), all);
        db.queue := queue;
        put := Failure("commit failed");
      }
    }

    method CreateJob(configFilename: string, command: Command, initialStatus: JobStatus, now: int) returns (id: nat)
      modifies db
      ensures id == old(db.nextJobId) && OthersKept(old(db.Value()), db.Value(), id)
      ensures db.Value() == QueueTables.CreateJob(old(db.Value()), configFilename, command, initialStatus, now)
      ensures db.jobs.Keys == old(db.jobs).Keys + {id} && db.queue == old(db.queue) && db.nextJobId == id + 1
      ensures db.jobs[id] == Job(configFilename, command, initialStatus, now, None, None, 0)
    {
      id := db.nextJobId;
      db.jobs := db.jobs[id := Job(configFilename, command, initialStatus, now, None, None, 0)];
      db.nextJobId := id + 1;
    }

    /** Flush what is left before the engine is disposed of. */
    method Close(insertFails: bool) returns (closed: Result<()>)
      modifies db, `insertBuffer
      ensures closed.Success? ==> insertBuffer == [] && db.Value() == InsertAll(old(db.Value()), old(insertBuffer))
      ensures closed.Success? ==>
              forall id: nat | old(db.nextRowId) <= id < old(db.nextRowId) + |old(insertBuffer)| ::
                id in db.queue
                && db.queue[id] == Row(old(insertBuffer)[id - old(db.nextRowId)].jobId,
                                       old(insertBuffer)[id - old(db.nextRowId)].metaTile, RowCreated, "", None)
      ensures closed.Success? ==>
              forall id: nat | !(old(db.nextRowId) <= id < old(db.nextRowId) + |old(insertBuffer)|) ::
                (id in db.queue <==> id in old(db.queue)) && (id in db.queue ==> db.queue[id] == old(db.queue)[id])
      ensures closed.Success? ==> db.nextRowId == old(db.nextRowId) + |old(insertBuffer)| && db.jobs == old(db.jobs)
      ensures closed.Failure? ==> db.Value() == old(db.Value()) && old(insertBuffer) <= insertBuffer
    {
      closed := FlushPutBuffer(insertFails);
    }

    /** Remove what an earlier queue generation of the job left. */
    method DeleteRows(jobId: nat)
      modifies db`queue
      ensures db.Value() == ClearRows(old(db.Value()), jobId)
      ensures OthersKept(old(db.Value()), db.Value(), jobId) && RowsOf(db.Value(), jobId) == {}
      ensures forall r :: r in db.queue <==> r in old(db.queue) && old(db.queue)[r].jobId != jobId
      ensures forall r | r in db.queue :: db.queue[r] == old(db.queue)[r]
    {
      ClearsOwnRows(db.Value(), jobId);
      db.queue := db.queue - set r | r in db.queue && db.queue[r].jobId == jobId;
    }

    /** Record that the queue generation of a job ended, with or without an error. */
    method CloseGeneration(jobId: nat, error: bool)
      modifies db`jobs
      ensures db.Value() == FinishGeneration(old(db.Value()), jobId, error)
      ensures OthersKept(old(db.Value()), db.Value(), jobId)
      ensures jobId in old(db.jobs) ==>
        && jobId in db.jobs && db.jobs[jobId].status == (if error then JobError else JobStarted)
        && db.jobs[jobId].metaTilesTotal == |set r | r in db.queue && db.queue[r].jobId == jobId|
        && db.jobs[jobId].tilesStartedAt == (if error then None else old(db.jobs)[jobId].tilesStartedAt)
    {
      var t := db.Value();
      EndsOwnGeneration(t, jobId, 0, error);
      assert (set r | r in db.queue && db.queue[r].jobId == jobId) == RowsOf(t, jobId);
      if jobId in db.jobs {
        var job := db.jobs[jobId].(metaTilesTotal := |RowsOf(t, jobId)|);
        job := job.(status := if error then JobError else JobStarted);
        if error {
          job := job.(tilesStartedAt := None);
        }
        db.jobs := db.jobs[jobId := job];
      }
    }

    method StartJob(jobId: nat, now: int)
      modifies db
      ensures db.Value() == QueueTables.StartJob(old(db.Value()), jobId, now)
      ensures OthersKept(old(db.Value()), db.Value(), jobId)
      ensures jobId in old(db.jobs) ==> jobId in db.jobs
      ensures jobId in old(db.jobs) && old(db.jobs)[jobId].status.JobPending? ==>
        && db.jobs[jobId].status.JobStarted? && db.jobs[jobId].startedAt == Some(now)
        && db.jobs[jobId].metaTilesTotal == |set r | r in db.queue && db.queue[r].jobId == jobId|
      ensures jobId in old(db.jobs) && !old(db.jobs)[jobId].status.JobPending? ==> db.jobs == old(db.jobs)
      ensures db.queue == old(db.queue)
    {
      EndsOwnGeneration(db.Value(), jobId, now, false);
      assert (set r | r in db.queue && db.queue[r].jobId == jobId) == RowsOf(db.Value(), jobId);
      var count := |set r | r in db.queue && db.queue[r].jobId == jobId|;
      if jobId in db.jobs && db.jobs[jobId].status.JobPending? {
        db.jobs := db.jobs[jobId := db.jobs[jobId].(status := JobStarted, startedAt := Some(now),
                                                    metaTilesTotal := count)];
      }
    }

    method Retry(jobId: nat, configFilename: string) returns (done: Result<()>)
      modifies db
      ensures done.Success? <==> CanRetry(old(db.Value()), jobId, configFilename)
      ensures done.Success? ==> db.Value() == QueueTables.Retry(old(db.Value()), jobId)
      ensures done.Success? ==> OthersKept(old(db.Value()), db.Value(), jobId)
      ensures done.Failure? ==> db.Value() == old(db.Value())
      ensures done.Success? <==>
        jobId in old(db.jobs) && old(db.jobs)[jobId].status.JobError?
        && old(db.jobs)[jobId].configFilename == configFilename
      ensures done.Success? ==>
        && jobId in db.jobs && db.jobs[jobId].status.JobStarted? && db.jobs[jobId].tilesStartedAt.None?
        && db.jobs[jobId].metaTilesTotal == |set r | r in db.queue && db.queue[r].jobId == jobId|
        && db.queue.Keys == old(db.queue).Keys
        && forall r | r in db.queue ::
             db.queue[r] == if old(db.queue)[r].jobId == jobId && old(db.queue)[r].status.RowError?
                            then old(db.queue)[r].(status := RowCreated, error := "") else old(db.queue)[r]
    {
      if !(jobId in db.jobs && db.jobs[jobId].status.JobError? && db.jobs[jobId].configFilename == configFilename) {
        return Failure("Job not found with the correct status, for the host");
      }
      RetriesOwnRows(db.Value(), jobId);
      ghost var before := db.Value();
      db.queue := map r | r in db.queue ::
        if db.queue[r].jobId == jobId && db.queue[r].status.RowError?
        then db.queue[r].(status := RowCreated, error := "") else db.queue[r];
      assert (set r | r in db.queue && db.queue[r].jobId == jobId) == RowsOf(before, jobId);
      var count := |set r | r in db.queue && db.queue[r].jobId == jobId|;
      db.jobs := db.jobs[jobId := db.jobs[jobId].(status := JobStarted, tilesStartedAt := None,
                                                  metaTilesTotal := count)];
      return Success(());
    }

    method Cancel(jobId: nat, configFilename: string) returns (done: Result<()>)
      modifies db
      ensures done.Success? <==> CanCancel(old(db.Value()), jobId, configFilename)
      ensures done.Success? ==> db.Value() == QueueTables.Cancel(old(db.Value()), jobId)
      ensures done.Success? ==> OthersKept(old(db.Value()), db.Value(), jobId)
      ensures done.Failure? ==> db.Value() == old(db.Value())
      ensures done.Success? <==>
        jobId in old(db.jobs) && old(db.jobs)[jobId].status.JobStarted?
        && old(db.jobs)[jobId].configFilename == configFilename
      ensures done.Success? ==>
        && jobId in db.jobs && db.jobs[jobId].status.JobCancelled?
        && (forall r :: r in db.queue <==>
              r in old(db.queue) && !(old(db.queue)[r].jobId == jobId && old(db.queue)[r].status.RowCreated?))
        && forall r | r in db.queue :: db.queue[r] == old(db.queue)[r]
    {
      if !(jobId in db.jobs && db.jobs[jobId].status.JobStarted? && db.jobs[jobId].configFilename == configFilename) {
        return Failure("Job not found, with the correct status, for the host");
      }
      CancelsOwnRows(db.Value(), jobId);
      db.queue := db.queue - set r | r in db.queue && db.queue[r].jobId == jobId && db.queue[r].status.RowCreated?;
      db.jobs := db.jobs[jobId := db.jobs[jobId].(status := JobCancelled)];
      return Success(());
    }

    method RestartPendingJobs(now: int)
      modifies db
      ensures db.Value() == QueueTables.RestartPendingJobs(old(db.Value()), now, maxPending)
      ensures db.queue == old(db.queue) && db.jobs.Keys == old(db.jobs).Keys
      ensures forall j | j in db.jobs ::
        db.jobs[j] == if old(db.jobs)[j].status.JobPending? && old(db.jobs)[j].startedAt.Some?
                         && old(db.jobs)[j].startedAt.value < now - maxPending
                      then old(db.jobs)[j].(status := JobCreated) else old(db.jobs)[j]
    {
      db.jobs := map j | j in db.jobs ::
        if db.jobs[j].status.JobPending? && Overdue(db.jobs[j].startedAt, now, maxPending)
        then db.jobs[j].(status := JobCreated) else db.jobs[j];
    }

    /** Take the oldest waiting job of the config file, if there is one. */
    method PickJob(configFilename: string, now: int) returns (picked: Option<nat>)
      modifies db
      ensures picked.None? ==> db.Value() == old(db.Value()) && forall j :: !Waiting(old(db.Value()), j, configFilename)
      ensures picked.Some? ==>
                OldestWaiting(old(db.Value()), picked.value, configFilename)
                && db.Value() == QueueTables.PickJob(old(db.Value()), picked.value, now)
      ensures picked.None? ==> forall j | j in old(db.jobs) ::
        !(old(db.jobs)[j].status.JobCreated? && old(db.jobs)[j].configFilename == configFilename)
      ensures picked.Some? ==>
        && picked.value in old(db.jobs) && old(db.jobs)[picked.value].status.JobCreated?
        && old(db.jobs)[picked.value].configFilename == configFilename
        && (forall k | k in old(db.jobs) && old(db.jobs)[k].status.JobCreated?
                       && old(db.jobs)[k].configFilename == configFilename ::
              old(db.jobs)[picked.value].createdAt <= old(db.jobs)[k].createdAt)
        && db.queue == old(db.queue)
        && db.jobs == old(db.jobs)[picked.value := old(db.jobs)[picked.value].(
             status := JobPending, startedAt := Some(now), tilesStartedAt := None, metaTilesTotal := 0)]
    {
      var t := db.Value();
      if exists j :: j in t.jobs && OldestWaiting(t, j, configFilename) {
        var j :| j in t.jobs && OldestWaiting(t, j, configFilename);
        db.jobs := db.jobs[j := db.jobs[j].(status := JobPending, startedAt := Some(now), tilesStartedAt := None,
                                            metaTilesTotal := 0)];
        return Some(j);
      }
      assert forall j :: !Waiting(t, j, configFilename) by {
        if exists k :: Waiting(t, k, configFilename) { OldestWaitingExists(t, configFilename); }
      }
      return None;
    }

    /** How many rows of a job have the given status. */
    method CountRows(jobId: nat, status: RowStatus) returns (count: nat)
      ensures count == |RowsWith(db.Value(), jobId, status)|
    {
      var t := db.Value();
      count := |RowsWith(t, jobId, status)|;
    }

    /** Give a started job its status. */
    method JudgeJob(jobId: nat)
      requires jobId in db.jobs && db.jobs[jobId].status.JobStarted?
      modifies db`jobs
      ensures db.jobs == old(db.jobs)[jobId := old(db.jobs)[jobId].(status := Verdict(old(db.Value()), jobId))]
    {
      var nbMessages := CountRows(jobId, RowCreated);
      var nbPending := CountRows(jobId, RowPending);
      if nbMessages == 0 && nbPending == 0 {
        var nbError := CountRows(jobId, RowError);
        db.jobs := db.jobs[jobId := db.jobs[jobId].(status := if nbError != 0 then JobError else JobDone)];
      }
    }

    /** Give every started job its status, one after the other. */
    method UpdateJobStatus()
      modifies db`jobs
      ensures db.Value() == Verdicts(old(db.Value()))
      ensures db.jobs.Keys == old(db.jobs).Keys && db.queue == old(db.queue)
      ensures forall j | j in db.jobs && !old(db.jobs)[j].status.JobStarted? :: db.jobs[j] == old(db.jobs)[j]
      ensures forall j | j in db.jobs && old(db.jobs)[j].status.JobStarted? ::
        && db.jobs[j] == old(db.jobs)[j].(status := db.jobs[j].status)
        && (db.jobs[j].status.JobDone? <==> forall r | r in db.queue :: db.queue[r].jobId != j)
        && (db.jobs[j].status.JobStarted? <==>
              exists r :: r in db.queue && db.queue[r].jobId == j && !db.queue[r].status.RowError?)
        && (!db.jobs[j].status.JobDone? && !db.jobs[j].status.JobStarted? ==> db.jobs[j].status.JobError?)
    {
      ghost var before := db.Value();
      var todo := set j | j in db.jobs && db.jobs[j].status.JobStarted?;
      while todo != {}
        invariant Judged(before, db.Value(), todo)
        decreases |todo|
      {
        var j :| j in todo;
        JudgedMore(before, db.Value(), todo, j);
        JudgeJob(j);
        todo := todo - {j};
      }
      AllJudged(before, db.Value());
      forall j | j in db.jobs && before.jobs[j].status.JobStarted?
        ensures db.jobs[j].status.JobDone? <==> forall r | r in db.queue :: db.queue[r].jobId != j
        ensures db.jobs[j].status.JobStarted? <==>
                exists r :: r in db.queue && db.queue[r].jobId == j && !db.queue[r].status.RowError?
        ensures !db.jobs[j].status.JobDone? && !db.jobs[j].status.JobStarted? ==> db.jobs[j].status.JobError?
      {
        JudgedExactly(before, j);
      }
    }

    method RestartPendingRows(now: int)
      modifies db
      ensures db.Value() == QueueTables.RestartPendingRows(old(db.Value()), now, maxPending)
      ensures db.jobs == old(db.jobs) && db.queue.Keys == old(db.queue).Keys
      ensures forall r | r in db.queue ::
        db.queue[r] == if old(db.queue)[r].status.RowPending? && old(db.queue)[r].startedAt.Some?
                          && old(db.queue)[r].startedAt.value < now - maxPending
                       then old(db.queue)[r].(status := RowCreated) else old(db.queue)[r]
    {
      db.queue := map r | r in db.queue ::
        if db.queue[r].status.RowPending? && Overdue(db.queue[r].startedAt, now, maxPending)
        then db.queue[r].(status := RowCreated) else db.queue[r];
    }

    /** Run the command of a picked job; what it comes to is given. */
    method RunJob(jobId: nat, work: Work)
      requires jobId in db.jobs
      modifies db
      ensures db.Value() == RunCommand(old(db.Value()), jobId, work)
      ensures db.jobs.Keys == old(db.jobs).Keys
      ensures old(db.jobs)[jobId].command.NotAllowed? ==>
        db.queue == old(db.queue) && db.jobs == old(db.jobs)[jobId := old(db.jobs)[jobId].(status := JobError)]
      ensures old(db.jobs)[jobId].command.Subprocess? ==>
        && db.queue == old(db.queue)
        && db.jobs == old(db.jobs)[jobId := old(db.jobs)[jobId].(status := if work.failed then JobError else JobDone)]
      ensures old(db.jobs)[jobId].command.FillsQueue? ==>
        var first := old(db.nextRowId);
        && db.jobs[jobId].status == (if work.failed then JobError else JobStarted)
        && db.jobs[jobId].metaTilesTotal == |set r | r in db.queue && db.queue[r].jobId == jobId|
        && (forall id: nat | first <= id < first + |work.tiles| ::
              id in db.queue && db.queue[id] == Row(jobId, work.tiles[id - first], RowCreated, "", None))
        && forall id: nat | !(first <= id < first + |work.tiles|) ::
             (id in db.queue <==> id in old(db.queue) && old(db.queue)[id].jobId != jobId)
             && (id in db.queue ==> db.queue[id] == old(db.queue)[id])
    {
      match db.jobs[jobId].command
      case NotAllowed =>
        db.jobs := db.jobs[jobId := db.jobs[jobId].(status := JobError)];
      case Subprocess =>
        db.jobs := db.jobs[jobId := db.jobs[jobId].(status := if work.failed then JobError else JobDone)];
      case FillsQueue =>
        DeleteRows(jobId);
        InsertRows(NewRows(jobId, work.tiles));
        CloseGeneration(jobId, work.failed);
    }

    /** Pick and run an oldest waiting job of a config file that has waiting jobs. */
    method PickAndRun(c: string, now: int, work: nat -> Work) returns (ghost j: nat)
      requires exists k :: Waiting(db.Value(), k, c)
      modifies db
      ensures OldestWaiting(old(db.Value()), j, c)
      ensures db.Value() == RunCommand(QueueTables.PickJob(old(db.Value()), j, now), j, work(j))
    {
      var job := PickJob(c, now);
      j := job.value;
      RunJob(job.value, work(job.value));
    }

    /** Pick and run the oldest waiting job of every config file that has waiting jobs
        and no started one, in any order. */
    method PickJobs(now: int, work: nat -> Work) returns (ghost picked: seq<nat>)
      modifies db
      ensures PickedJobs(old(db.Value()), picked)
      ensures db.Value() == RunAll(old(db.Value()), picked, now, work)
      ensures CommandsRan(old(db.Value()), db.Value(), picked, now, work, false)
      ensures forall j | j in old(db.jobs) && j !in picked :: j in db.jobs && db.jobs[j] == old(db.jobs)[j]
    {
      ghost var t := db.Value();
      var todo := CreatedFiles(db.Value()) - StartedFiles(db.Value());
      picked := [];
      NonePicked(t);
      while todo != {}
        invariant PickedSoFar(t, db.Value(), picked, todo, now, work)
        decreases |todo|
      {
        var c :| c in todo;
        ghost var before := db.Value();
        StillWaiting(t, before, picked, todo, c, now, work);
        ghost var j := PickAndRun(c, now, work);
        PickStep(t, before, picked, todo, c, now, work, j);
        picked := picked + [j];
        todo := todo - {c};
      }
      RunAllKeeps(t, picked, now, work);
      PickedOnce(t, picked);
      forall k | k in picked ensures CommandRan(t, db.Value(), k, now, work(k), false) {
        RunAllRan(t, picked, now, work, k);
      }
    }

    /** The periodic maintenance, after a flush of what is buffered. */
    method Maintenance(now: int, insertFails: bool, work: nat -> Work)
      returns (done: Result<()>, ghost picked: seq<nat>)
      modifies db, `insertBuffer
      ensures done.Failure? <==> insertFails && old(insertBuffer) != []
      ensures done.Failure? ==>
        insertBuffer == old(insertBuffer) + old(insertBuffer) && db.Value() == old(db.Value())
      ensures done.Success? ==>
        var flushed := InsertAll(old(db.Value()), old(insertBuffer));
        && insertBuffer == [] && PickedJobs(QueueTables.RestartPendingJobs(flushed, now, maxPending), picked)
        && db.Value() == Maintained(flushed, now, maxPending, picked, work)
      ensures done.Success? ==> MaintenanceDone(old(db.Value()), db.Value(), now, maxPending, picked, work)
    {
      picked := [];
      done := FlushPutBuffer(insertFails);
      if done.Success? {
        RestartPendingJobs(now);
        picked := PickJobs(now, work);
        UpdateJobStatus();
        RestartPendingRows(now);
        MaintainedFacts(old(db.Value()), old(insertBuffer), now, maxPending, picked, work);
      }
    }

    /** Whether a config file has a row to hand out. */
    method HasRow(configFilename: string) returns (found: bool)
      ensures found <==> exists r: nat :: Available(db.Value(), r, configFilename)
    {
      var t := db.Value();
      found := exists r :: r in t.queue && Available(t, r, configFilename);
    }

    /** Hand out the next metatile of a config file, if it has one. */
    method HandOut(configFilename: string, now: int) returns (row: Option<nat>)
      modifies db
      ensures row.None? ==> db.Value() == old(db.Value()) && forall r :: !Available(old(db.Value()), r, configFilename)
      ensures row.Some? ==>
                NextRow(old(db.Value()), row.value, configFilename)
                && db.Value() == QueueTables.HandOut(old(db.Value()), row.value, now)
      ensures row.None? ==> forall r | r in old(db.queue) ::
        !(old(db.queue)[r].status.RowCreated? && old(db.queue)[r].jobId in old(db.jobs)
          && old(db.jobs)[old(db.queue)[r].jobId].status.JobStarted?
          && old(db.jobs)[old(db.queue)[r].jobId].configFilename == configFilename)
      ensures row.Some? ==>
        && row.value in old(db.queue) && old(db.queue)[row.value].status.RowCreated?
        && old(db.queue)[row.value].jobId in old(db.jobs)
        && var job := old(db.jobs)[old(db.queue)[row.value].jobId];
           && job.status.JobStarted? && job.configFilename == configFilename
           && forall r | r in old(db.queue) && old(db.queue)[r].status.RowCreated?
                         && old(db.queue)[r].jobId in old(db.jobs)
                         && old(db.jobs)[old(db.queue)[r].jobId].status.JobStarted?
                         && old(db.jobs)[old(db.queue)[r].jobId].configFilename == configFilename ::
                job.createdAt < old(db.jobs)[old(db.queue)[r].jobId].createdAt
                || (job.createdAt == old(db.jobs)[old(db.queue)[r].jobId].createdAt && row.value <= r)
      ensures row.Some? ==>
        var j := old(db.queue)[row.value].jobId;
        && db.queue
           == old(db.queue)[row.value := old(db.queue)[row.value].(status := RowPending, startedAt := Some(now))]
        && db.jobs == if old(db.jobs)[j].tilesStartedAt.None?
                      then old(db.jobs)[j := old(db.jobs)[j].(tilesStartedAt := Some(now))] else old(db.jobs)
    {
      var t := db.Value();
      if exists r :: r in t.queue && NextRow(t, r, configFilename) {
        var r :| r in t.queue && NextRow(t, r, configFilename);
        var jobId := db.queue[r].jobId;
        db.queue := db.queue[r := db.queue[r].(status := RowPending, startedAt := Some(now))];
        if db.jobs[jobId].tilesStartedAt.None? {
          db.jobs := db.jobs[jobId := db.jobs[jobId].(tilesStartedAt := Some(now))];
        }
        return Some(r);
      }
      assert forall r :: !Available(t, r, configFilename) by {
        if exists q :: Available(t, q, configFilename) { NextRowExists(t, configFilename); }
      }
      return None;
    }

    /** Settle the metatile that was handed out with row `id`; `error` is its error. */
    method DeleteOne(id: nat, error: Option<string>)
      modifies db
      ensures db.Value() == QueueTables.DeleteOne(old(db.Value()), id, error)
      ensures db.jobs == old(db.jobs)
      ensures !(id in old(db.queue) && old(db.queue)[id].status.RowPending?) ==> db.queue == old(db.queue)
      ensures id in old(db.queue) && old(db.queue)[id].status.RowPending? && error.None? ==>
        db.queue == old(db.queue) - {id}
      ensures id in old(db.queue) && old(db.queue)[id].status.RowPending? && error.Some? ==>
        db.queue == old(db.queue)[id := old(db.queue)[id].(status := RowError, error := error.value)]
    {
      if id in db.queue && db.queue[id].status.RowPending? {
        match error
        case Some(message) => db.queue := db.queue[id := db.queue[id].(status := RowError, error := message)];
        case None => db.queue := db.queue - {id};
      }
    }
  }

  /** What trying one config file comes to: a metatile, no metatile, an error that costs
      the config file its turn, or an error that ends the iteration. */
  datatype Turn = Served(row: nat) | NoneLeft | TurnLost | Ended

  /** An error of the database while a config file is tried: before a row was read, or
      after it. */
  datatype Trouble = NoTrouble | BeforeRow | AfterRow

  /** One iteration over `list()`: it mixes the config files that have started
      jobs, and looks for new ones when none is left or after 1000 passes.

      Other processes may change the database between any two calls. */
  class ListIterator {
    const store: PostgresqlTileStore
    var configFilenames: set<string>
    var nbIter: nat
    /** The config files that this pass has not tried yet. */
    var todo: set<string>
    /** Whether a row was ever read; the error handler reads a variable that is only
        set then. */
    var rowRead: bool

    /** The passes begun since the config files were read, the metatiles handed out
        to each of them since then, and its turns that were lost to an error. */
    ghost var passes: nat
    ghost var served: map<string, nat>
    ghost var lost: map<string, nat>
    ghost var passesSinceMaintenance: nat

    ghost predicate Valid()
      reads this
    {
      && todo <= configFilenames
      && nbIter <= 1000
      && passesSinceMaintenance == nbIter
      && configFilenames <= served.Keys && configFilenames <= lost.Keys
      && forall c | c in configFilenames :: served[c] + lost[c] + (if c in todo then 1 else 0) == passes
    }

    constructor (store: PostgresqlTileStore)
      ensures Valid() && this.store == store && configFilenames == todo == {} && !rowRead
    {
      this.store := store;
      configFilenames, todo, nbIter, passes, passesSinceMaintenance := {}, {}, 0, 0, 0;
      served, lost, rowRead := map[], map[], false;
    }

    /** Start a pass, with the maintenance if it is time for it. The result is whether
        there was one; a flush that fails ends the iteration. */
    method BeginPass(now: int, insertFails: bool, work: nat -> Work)
      returns (maintained: Result<bool>, ghost picked: seq<nat>)
      requires Valid() && todo == {}
      modifies this, store.db, store`insertBuffer
      ensures Valid() && rowRead == old(rowRead)
      ensures maintained.Failure? <==> insertFails && old(store.insertBuffer) != []
      ensures maintained.Failure? ==> store.db.Value() == old(store.db.Value()) && todo == {}
      ensures maintained.Success? ==>
        && todo == configFilenames
        && (maintained.value <==> old(nbIter) >= 1000 || old(configFilenames) == {})
        && passesSinceMaintenance == (if maintained.value then 0 else old(passesSinceMaintenance) + 1)
      ensures maintained.Success? && !maintained.value ==>
        && configFilenames == old(configFilenames) && passes == old(passes) + 1
        && served == old(served) && lost == old(lost)
        && store.db.Value() == InsertAll(old(store.db.Value()), old(store.insertBuffer))
      ensures maintained.Success? && maintained.value ==>
        var flushed := InsertAll(old(store.db.Value()), old(store.insertBuffer));
        && PickedJobs(QueueTables.RestartPendingJobs(flushed, now, store.maxPending), picked)
        && store.db.Value() == Maintained(flushed, now, store.maxPending, picked, work)
        && passes == 1 && configFilenames == StartedFiles(store.db.Value())
      ensures maintained.Success? && maintained.value ==>
        var t := store.db.Value();
        && configFilenames == (set j | j in t.jobs && t.jobs[j].status.JobStarted? :: t.jobs[j].configFilename)
        && MaintenanceDone(old(store.db.Value()), t, now, store.maxPending, picked, work)
    {
      picked := [];
      var flushed := store.FlushPutBuffer(insertFails);
      if flushed.Failure? {
        return Failure(flushed.message), picked;
      }
      var due := nbIter >= 1000 || configFilenames == {};
      if due {
        ghost var t := store.db.Value();
        picked := MaintainNow(now, insertFails, work);
        FromBeforeFlush(old(store.db.Value()), t, store.db.Value(), now, store.maxPending, picked, work);
      } else {
        NextPass();
      }
      maintained := Success(due);
    }

    /** The maintenance, after a flush that has emptied the buffer. */
    method MaintainNow(now: int, insertFails: bool, work: nat -> Work) returns (ghost picked: seq<nat>)
      requires store.insertBuffer == []
      modifies this, store.db, store`insertBuffer
      ensures Valid() && rowRead == old(rowRead) && passes == 1 && passesSinceMaintenance == 0
      ensures var before, t := old(store.db.Value()), store.db.Value();
        && PickedJobs(QueueTables.RestartPendingJobs(before, now, store.maxPending), picked)
        && t == Maintained(before, now, store.maxPending, picked, work)
        && MaintenanceDone(before, t, now, store.maxPending, picked, work)
        && todo == configFilenames == StartedFiles(t)
    {
      var maintained;
      maintained, picked := store.Maintenance(now, insertFails, work);
      ReadFiles();
    }

    /** Begin again with the config files that have a started job now. */
    method ReadFiles()
      modifies this
      ensures Valid() && todo == configFilenames == StartedFiles(store.db.Value())
      ensures passes == 1 && passesSinceMaintenance == 0 && rowRead == old(rowRead)
    {
      nbIter := 0;
      configFilenames := StartedFiles(store.db.Value());
      passes, passesSinceMaintenance := 1, 0;
      served, lost := map c | c in configFilenames :: 0, map c | c in configFilenames :: 0;
      todo := configFilenames;
    }

    /** Go on with the config files that are left. */
    method NextPass()
      requires Valid() && todo == {} && nbIter < 1000
      modifies this
      ensures Valid() && todo == configFilenames == old(configFilenames)
      ensures passes == old(passes) + 1 && passesSinceMaintenance == old(passesSinceMaintenance) + 1
      ensures served == old(served) && lost == old(lost) && rowRead == old(rowRead)
    {
      nbIter := nbIter + 1;
      passes, passesSinceMaintenance := passes + 1, passesSinceMaintenance + 1;
      todo := configFilenames;
    }

    /** Read the next metatile of a config file and hand it out. An error before any row
        was ever read ends the iteration: its handler then fails itself. */
    method TryFile(configFilename: string, now: int, trouble: Trouble) returns (turn: Turn)
      modifies this`rowRead, store.db
      ensures turn.Ended? <==> trouble.BeforeRow? && !old(rowRead)
      ensures trouble.BeforeRow? && old(rowRead) ==> turn.TurnLost?
      ensures turn.NoneLeft? <==>
        !trouble.BeforeRow? && forall r: nat :: !Available(old(store.db.Value()), r, configFilename)
      ensures turn.Served? ==> trouble.NoTrouble?
      ensures rowRead == (old(rowRead) || turn.Served? || (turn.TurnLost? && trouble.AfterRow?))
      ensures !turn.Served? ==> store.db.Value() == old(store.db.Value())
      ensures turn.Served? ==> NextRow(old(store.db.Value()), turn.row, configFilename)
                               && store.db.Value() == HandOut(old(store.db.Value()), turn.row, now)
    {
      if trouble.BeforeRow? {
        return if rowRead then TurnLost else Ended;
      }
      ghost var t := store.db.Value();
      var available := store.HasRow(configFilename);
      assert store.db.Value() == t;
      if !available {
        assert forall r: nat :: !Available(t, r, configFilename);
        return NoneLeft;
      }
      rowRead := true;
      if trouble.AfterRow? {
        return TurnLost;
      }
      var row := store.HandOut(configFilename, now);
      return Served(row.value);
    }

    /** Try one config file of the pass: it gets a metatile, is dropped from the set, or
        loses its turn. */
    method Serve(configFilename: string, now: int, trouble: Trouble) returns (turn: Turn)
      requires Valid() && configFilename in todo
      modifies this, store.db
      ensures Valid() && todo == old(todo) - {configFilename}
      ensures passes == old(passes) && passesSinceMaintenance == old(passesSinceMaintenance)
      ensures turn.Ended? <==> trouble.BeforeRow? && !old(rowRead)
      ensures turn.NoneLeft? <==>
        !trouble.BeforeRow? && forall r: nat :: !Available(old(store.db.Value()), r, configFilename)
      ensures turn.Served? ==> trouble.NoTrouble?
      ensures rowRead == (old(rowRead) || turn.Served? || (turn.TurnLost? && trouble.AfterRow?))
      ensures configFilenames == old(configFilenames) - if turn.NoneLeft? then {configFilename} else {}
      ensures served == Counted(old(served), configFilename, turn.Served?)
      ensures lost == Counted(old(lost), configFilename, turn.TurnLost? || turn.Ended?)
      ensures !turn.Served? ==> store.db.Value() == old(store.db.Value())
      ensures turn.Served? ==> NextRow(old(store.db.Value()), turn.row, configFilename)
                               && store.db.Value() == HandOut(old(store.db.Value()), turn.row, now)
    {
      turn := TryFile(configFilename, now, trouble);
      todo := todo - {configFilename};
      served := Counted(served, configFilename, turn.Served?);
      lost := Counted(lost, configFilename, turn.TurnLost? || turn.Ended?);
      if turn.NoneLeft? {
        configFilenames := configFilenames - {configFilename};
      }
    }

    /** At every moment, the config files still in the set had the same number of turns,
        to within one; without errors, they were served as often. */
    lemma FairShares(c: string, d: string)
      requires Valid() && c in configFilenames && d in configFilenames
      ensures served[c] + lost[c] <= served[d] + lost[d] + 1
      ensures lost[c] == lost[d] == 0 ==> served[c] <= served[d] + 1
      ensures todo == {} ==> served[c] + lost[c] == served[d] + lost[d] == passes
    {
    }
  }

  function Counted(counts: map<string, nat>, c: string, one: bool): map<string, nat>
    requires c in counts
  {
    counts[c := counts[c] + if one then 1 else 0]
  }
}
