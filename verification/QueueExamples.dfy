/** Runs of the queue that end where one would not expect. */
module QueueExamples {
  import opened Common
  import T = QueueTables
  import C = Countdown
  import opened QueueSystem
  import opened QueueTheorems
  import opened QueueEndings

  function Last(ss: seq<System>): System
    requires ss != []
  {
    ss[|ss| - 1]
  }

  /** One more event at the end of a run. */
  lemma Play(ss: seq<System>, es: seq<Event>, e: Event) returns (ss': seq<System>, es': seq<Event>)
    requires IsRun(ss, es) && Enabled(Last(ss), e)
    ensures IsRun(ss', es') && es' == es + [e] && ss' == ss + [Step(Last(ss), e)]
  {
    ss', es' := ss + [Step(Last(ss), e)], es + [e];
    forall i | 0 <= i < |es'| ensures StepAt(ss', es', i) {
      if i < |es| {
        assert StepAt(ss, es, i);
      }
    }
  }

  const TILE := T.Message(TileCoord(0, 0, 0, 1), map[])

  /** Job 1 is the only one. */
  ghost predicate OneJob(s: System, command: T.Command, status: T.JobStatus) {
    && s.tables.jobs.Keys == {1}
    && s.tables.jobs[1].configFilename == "c"
    && s.tables.jobs[1].command == command && s.tables.jobs[1].status == status
  }

  ghost predicate NoRow(s: System) { s.tables.queue == map[] && s.tables.nextRowId == 1 }

  /** Row 1 of job 1 is the only one. */
  ghost predicate OneRow(s: System, status: T.RowStatus) {
    && s.tables.queue.Keys == {1}
    && s.tables.queue[1].jobId == 1 && s.tables.queue[1].metaTile == TILE && s.tables.queue[1].status == status
  }

  // ----- Single events -----

  ghost predicate Extends(ss: seq<System>, es: seq<Event>, e: Event, ss': seq<System>, es': seq<Event>)
    requires |ss| > 0
  {
    IsRun(ss', es') && es' == es + [e] && |ss'| == |ss| + 1 && ss'[0] == ss[0]
  }

  lemma Created(ss: seq<System>, es: seq<Event>, command: T.Command) returns (ss': seq<System>, es': seq<Event>)
    requires IsRun(ss, es)
    requires es == []
    ensures Extends(ss, es, CreateJob("c", command), ss', es')
    ensures OneJob(Last(ss'), command, T.JobCreated) && NoRow(Last(ss'))
    ensures Last(ss').workers == map[] && Last(ss').generations == map[]
  {
    ss', es' := Play(ss, es, CreateJob("c", command));
  }

  lemma Picked(ss: seq<System>, es: seq<Event>, command: T.Command) returns (ss': seq<System>, es': seq<Event>)
    requires IsRun(ss, es)
    requires OneJob(Last(ss), command, T.JobCreated) && NoRow(Last(ss))
    ensures Extends(ss, es, PickJob(1, "c"), ss', es')
    ensures OneJob(Last(ss'), command, T.JobPending) && NoRow(Last(ss'))
    ensures Last(ss').workers == Last(ss).workers
    ensures Last(ss').generations == Last(ss).generations[1 := Starting]
    ensures Last(ss').tables.jobs[1].startedAt == Some(Last(ss').now)
  {
    ss', es' := Play(ss, es, PickJob(1, "c"));
  }

  lemma Refused(ss: seq<System>, es: seq<Event>) returns (ss': seq<System>, es': seq<Event>)
    requires IsRun(ss, es)
    requires OneJob(Last(ss), T.NotAllowed, T.JobPending) && NoRow(Last(ss)) && Generating(Last(ss), 1, Starting)
    ensures Extends(ss, es, Reject(1), ss', es')
    ensures OneJob(Last(ss'), T.NotAllowed, T.JobError) && NoRow(Last(ss'))
  {
    ss', es' := Play(ss, es, Reject(1));
  }

  lemma Cleared(ss: seq<System>, es: seq<Event>) returns (ss': seq<System>, es': seq<Event>)
    requires IsRun(ss, es)
    requires OneJob(Last(ss), T.FillsQueue, T.JobPending) && NoRow(Last(ss)) && Generating(Last(ss), 1, Starting)
    ensures Extends(ss, es, ClearRows(1), ss', es')
    ensures OneJob(Last(ss'), T.FillsQueue, T.JobPending) && NoRow(Last(ss'))
    ensures Last(ss').workers == Last(ss).workers && Generating(Last(ss'), 1, Filling)
  {
    ss', es' := Play(ss, es, ClearRows(1));
  }

  lemma Filled(ss: seq<System>, es: seq<Event>) returns (ss': seq<System>, es': seq<Event>)
    requires IsRun(ss, es)
    requires OneJob(Last(ss), T.FillsQueue, T.JobPending) && NoRow(Last(ss)) && Generating(Last(ss), 1, Filling)
    ensures Extends(ss, es, Insert(1, TILE), ss', es')
    ensures OneJob(Last(ss'), T.FillsQueue, T.JobPending) && OneRow(Last(ss'), T.RowCreated)
    ensures Last(ss').workers == Last(ss).workers && Generating(Last(ss'), 1, Filling)
  {
    ss', es' := Play(ss, es, Insert(1, TILE));
  }

  lemma CreatedByMaster(ss: seq<System>, es: seq<Event>) returns (ss': seq<System>, es': seq<Event>)
    requires IsRun(ss, es)
    requires es == []
    ensures Extends(ss, es, CreateMasterJob("c"), ss', es')
    ensures OneJob(Last(ss'), T.FillsQueue, T.JobPending) && NoRow(Last(ss'))
    ensures Last(ss').workers == map[] && Last(ss').generations == map[1 := FillingAsMaster]
    ensures Last(ss').tables.jobs[1].startedAt.None?
  {
    ss', es' := Play(ss, es, CreateMasterJob("c"));
  }

  lemma FilledByMaster(ss: seq<System>, es: seq<Event>) returns (ss': seq<System>, es': seq<Event>)
    requires IsRun(ss, es)
    requires OneJob(Last(ss), T.FillsQueue, T.JobPending) && NoRow(Last(ss))
    requires Last(ss).generations == map[1 := FillingAsMaster]
    ensures Extends(ss, es, Insert(1, TILE), ss', es')
    ensures OneJob(Last(ss'), T.FillsQueue, T.JobPending) && OneRow(Last(ss'), T.RowCreated)
    ensures Last(ss').workers == Last(ss).workers && Last(ss').generations == Last(ss).generations
    ensures Last(ss').tables.jobs == Last(ss).tables.jobs
  {
    ss', es' := Play(ss, es, Insert(1, TILE));
  }

  lemma StartedByMaster(ss: seq<System>, es: seq<Event>, failed: bool)
    returns (ss': seq<System>, es': seq<Event>)
    requires IsRun(ss, es)
    requires OneJob(Last(ss), T.FillsQueue, T.JobPending) && OneRow(Last(ss), T.RowCreated)
    requires Last(ss).generations == map[1 := FillingAsMaster]
    ensures Extends(ss, es, StartJob(1, failed), ss', es')
    ensures OneJob(Last(ss'), T.FillsQueue, T.JobStarted) && OneRow(Last(ss'), T.RowCreated)
    ensures Last(ss').workers == Last(ss).workers
  {
    ss', es' := Play(ss, es, StartJob(1, failed));
  }

  lemma Stopped(ss: seq<System>, es: seq<Event>) returns (ss': seq<System>, es': seq<Event>)
    requires IsRun(ss, es)
    requires OneJob(Last(ss), T.FillsQueue, T.JobPending) && Last(ss).generations == map[1 := FillingAsMaster]
    requires Last(ss).tables.jobs[1].startedAt.None?
    ensures Extends(ss, es, StopGeneration(1), ss', es')
    ensures Stuck(Last(ss'), 1) && Last(ss').tables == Last(ss).tables
  {
    ss', es' := Play(ss, es, StopGeneration(1));
  }

  lemma Finished(ss: seq<System>, es: seq<Event>, failed: bool) returns (ss': seq<System>, es': seq<Event>)
    requires IsRun(ss, es)
    requires OneJob(Last(ss), T.FillsQueue, T.JobPending) && OneRow(Last(ss), T.RowCreated)
    requires Generating(Last(ss), 1, Filling)
    ensures Extends(ss, es, FinishGeneration(1, failed), ss', es')
    ensures OneJob(Last(ss'), T.FillsQueue, if failed then T.JobError else T.JobStarted)
    ensures OneRow(Last(ss'), T.RowCreated) && Last(ss').workers == Last(ss).workers
  {
    ss', es' := Play(ss, es, FinishGeneration(1, failed));
  }

  lemma RetriedEmpty(ss: seq<System>, es: seq<Event>, command: T.Command) returns (ss': seq<System>, es': seq<Event>)
    requires IsRun(ss, es)
    requires OneJob(Last(ss), command, T.JobError) && NoRow(Last(ss))
    ensures Extends(ss, es, Retry(1, "c"), ss', es')
    ensures OneJob(Last(ss'), command, T.JobStarted) && Last(ss').tables.queue == map[]
  {
    ss', es' := Play(ss, es, Retry(1, "c"));
  }

  lemma RetriedRow(ss: seq<System>, es: seq<Event>, row: T.RowStatus) returns (ss': seq<System>, es': seq<Event>)
    requires IsRun(ss, es)
    requires OneJob(Last(ss), T.FillsQueue, T.JobError) && OneRow(Last(ss), row) && !row.RowPending?
    ensures Extends(ss, es, Retry(1, "c"), ss', es')
    ensures OneJob(Last(ss'), T.FillsQueue, T.JobStarted) && OneRow(Last(ss'), T.RowCreated)
    ensures Last(ss').workers == Last(ss).workers
  {
    ss', es' := Play(ss, es, Retry(1, "c"));
  }

  lemma GivenOut(ss: seq<System>, es: seq<Event>, w: nat) returns (ss': seq<System>, es': seq<Event>)
    requires IsRun(ss, es)
    requires OneJob(Last(ss), T.FillsQueue, T.JobStarted) && OneRow(Last(ss), T.RowCreated) && w !in Last(ss).workers
    ensures Extends(ss, es, HandOut(1, "c", w), ss', es')
    ensures OneJob(Last(ss'), T.FillsQueue, T.JobStarted) && OneRow(Last(ss'), T.RowPending)
    ensures Last(ss').workers == Last(ss).workers[w := Worker(1, C.Start(1))]
    ensures Last(ss').tables.queue[1].startedAt == Some(Last(ss').now)
  {
    assert T.NextRow(Last(ss).tables, 1, "c");
    ss', es' := Play(ss, es, HandOut(1, "c", w));
  }

  lemma WorkedOn(ss: seq<System>, es: seq<Event>, w: nat, what: C.Event, row: T.RowStatus)
    returns (ss': seq<System>, es': seq<Event>)
    requires IsRun(ss, es)
    requires OneJob(Last(ss), T.FillsQueue, T.JobStarted) && OneRow(Last(ss), row)
    requires w in Last(ss).workers && !what.Delivered? && C.Enabled(Last(ss).workers[w].metatile, what)
    ensures Extends(ss, es, Work(w, what), ss', es')
    ensures OneJob(Last(ss'), T.FillsQueue, T.JobStarted) && OneRow(Last(ss'), row)
    ensures Last(ss').workers
         == Last(ss).workers[w := Worker(Last(ss).workers[w].row, C.Step(Last(ss).workers[w].metatile, what))]
  {
    ss', es' := Play(ss, es, Work(w, what));
  }

  /** The metatile once all its calls have reached the database. */
  function AllDelivered(m: C.Metatile): C.Metatile { m.(outbox := [], delivered := m.delivered + m.outbox) }

  lemma Delivered(ss: seq<System>, es: seq<Event>, w: nat, error: bool) returns (ss': seq<System>, es': seq<Event>)
    requires IsRun(ss, es)
    requires OneJob(Last(ss), T.FillsQueue, T.JobStarted) && OneRow(Last(ss), T.RowPending)
    requires w in Last(ss).workers && Last(ss).workers[w].row == 1 && Last(ss).workers[w].metatile.outbox == [error]
    ensures Extends(ss, es, Deliver(w, "x"), ss', es')
    ensures OneJob(Last(ss'), T.FillsQueue, T.JobStarted)
    ensures if error then OneRow(Last(ss'), T.RowError) else Last(ss').tables.queue == map[]
    ensures Last(ss').workers == Last(ss).workers[w := Worker(1, AllDelivered(Last(ss).workers[w].metatile))]
  {
    assert Last(ss).workers[w].metatile.outbox[1..] == [];
    assert Last(ss).workers[w].metatile.outbox == [Last(ss).workers[w].metatile.outbox[0]];
    ss', es' := Play(ss, es, Deliver(w, "x"));
  }

  lemma JudgedEmpty(ss: seq<System>, es: seq<Event>, command: T.Command) returns (ss': seq<System>, es': seq<Event>)
    requires IsRun(ss, es)
    requires OneJob(Last(ss), command, T.JobStarted) && Last(ss).tables.queue == map[]
    ensures Extends(ss, es, Verdicts, ss', es')
    ensures OneJob(Last(ss'), command, T.JobDone)
  {
    assert T.RowsOf(Last(ss).tables, 1) == {};
    T.VerdictExact(Last(ss).tables, 1);
    ss', es' := Play(ss, es, Verdicts);
  }

  lemma JudgedInError(ss: seq<System>, es: seq<Event>) returns (ss': seq<System>, es': seq<Event>)
    requires IsRun(ss, es)
    requires OneJob(Last(ss), T.FillsQueue, T.JobStarted) && OneRow(Last(ss), T.RowError)
    ensures Extends(ss, es, Verdicts, ss', es')
    ensures OneJob(Last(ss'), T.FillsQueue, T.JobError) && OneRow(Last(ss'), T.RowError)
    ensures Last(ss').workers == Last(ss).workers
  {
    assert T.RowsOf(Last(ss).tables, 1) == {1};
    T.VerdictExact(Last(ss).tables, 1);
    ss', es' := Play(ss, es, Verdicts);
  }

  // ----- A done job whose command was refused -----

  /** A job whose command was refused is done after a retry. */
  lemma RefusedThenDone(s0: System) returns (ss: seq<System>, es: seq<Event>)
    requires Init(s0)
    ensures IsRun(ss, es) && ss[0] == s0
    ensures es == [CreateJob("c", T.NotAllowed), PickJob(1, "c"), Reject(1), Retry(1, "c"), Verdicts]
    ensures OneJob(Last(ss), T.NotAllowed, T.JobDone)
    ensures RetriedAfterFailure(es, |es|, 1)
  {
    ss, es := [s0], [];
    ss, es := Created(ss, es, T.NotAllowed);
    ss, es := Picked(ss, es, T.NotAllowed);
    ss, es := Refused(ss, es);
    ss, es := RetriedEmpty(ss, es, T.NotAllowed);
    ss, es := JudgedEmpty(ss, es, T.NotAllowed);
    assert Fails(es[2], 1) && Retries(es[3], 1);
  }

  // ----- A done job whose queue generation failed -----

  lemma Generation(s0: System, failed: bool) returns (ss: seq<System>, es: seq<Event>)
    requires Init(s0)
    ensures IsRun(ss, es) && ss[0] == s0
    ensures es == [CreateJob("c", T.FillsQueue), PickJob(1, "c"), ClearRows(1), Insert(1, TILE),
                   FinishGeneration(1, failed)]
    ensures OneJob(Last(ss), T.FillsQueue, if failed then T.JobError else T.JobStarted)
    ensures OneRow(Last(ss), T.RowCreated)
    ensures Last(ss).workers == map[]
  {
    ss, es := [s0], [];
    ss, es := Created(ss, es, T.FillsQueue);
    ss, es := Picked(ss, es, T.FillsQueue);
    ss, es := Cleared(ss, es);
    ss, es := Filled(ss, es);
    ss, es := Finished(ss, es, failed);
  }

  /** The only row of a started job is completed, and the job judged. */
  lemma Emptied(ss: seq<System>, es: seq<Event>) returns (ss': seq<System>, es': seq<Event>)
    requires IsRun(ss, es)
    requires OneJob(Last(ss), T.FillsQueue, T.JobStarted) && OneRow(Last(ss), T.RowCreated) && Last(ss).workers == map[]
    ensures IsRun(ss', es') && ss'[0] == ss[0]
    ensures es' == es + [HandOut(1, "c", 1), Work(1, C.DroppedWhole), Deliver(1, "x"), Verdicts]
    ensures OneJob(Last(ss'), T.FillsQueue, T.JobDone)
  {
    ss', es' := GivenOut(ss, es, 1);
    ss', es' := WorkedOn(ss', es', 1, C.DroppedWhole, T.RowPending);
    ss', es' := Delivered(ss', es', 1, false);
    ss', es' := JudgedEmpty(ss', es', T.FillsQueue);
  }

  /** A job whose queue generation failed part-way is done after a retry, once the
      rows that were put are completed. */
  lemma FailedThenDone(s0: System) returns (ss: seq<System>, es: seq<Event>)
    requires Init(s0)
    ensures IsRun(ss, es) && ss[0] == s0
    ensures es == [CreateJob("c", T.FillsQueue), PickJob(1, "c"), ClearRows(1), Insert(1, TILE),
                   FinishGeneration(1, true), Retry(1, "c"),
                   HandOut(1, "c", 1), Work(1, C.DroppedWhole), Deliver(1, "x"), Verdicts]
    ensures OneJob(Last(ss), T.FillsQueue, T.JobDone)
    ensures RetriedAfterFailure(es, |es|, 1)
  {
    ss, es := Generation(s0, true);
    ss, es := RetriedRow(ss, es, T.RowCreated);
    ss, es := Emptied(ss, es);
    assert Fails(es[4], 1) && Retries(es[5], 1);
  }

  // ----- Jobs of a master process -----

  /** A master process some of whose puts failed starts its job all the same. The job
      is done once the rows that were put are completed, without any retry. */
  lemma MasterFailedThenDone(s0: System) returns (ss: seq<System>, es: seq<Event>)
    requires Init(s0)
    ensures IsRun(ss, es) && ss[0] == s0
    ensures es == [CreateMasterJob("c"), Insert(1, TILE), StartJob(1, true), HandOut(1, "c", 1),
                   Work(1, C.DroppedWhole), Deliver(1, "x"), Verdicts]
    ensures OneJob(Last(ss), T.FillsQueue, T.JobDone)
    ensures StartedByFailure(es, |es|, 1) && !RetriedAfterFailure(es, |es|, 1)
  {
    ss, es := [s0], [];
    ss, es := CreatedByMaster(ss, es);
    ss, es := FilledByMaster(ss, es);
    ss, es := StartedByMaster(ss, es, true);
    ss, es := Emptied(ss, es);
    assert es[2] == StartJob(1, true);
  }

  /** A master process that stops before it starts its job leaves a stuck job, with
      the rows it has put so far. */
  lemma MasterStopped(s0: System) returns (ss: seq<System>, es: seq<Event>)
    requires Init(s0)
    ensures IsRun(ss, es) && ss[0] == s0
    ensures es == [CreateMasterJob("c"), Insert(1, TILE), StopGeneration(1)]
    ensures Stuck(Last(ss), 1) && OneRow(Last(ss), T.RowCreated)
  {
    ss, es := [s0], [];
    ss, es := CreatedByMaster(ss, es);
    ss, es := FilledByMaster(ss, es);
    ss, es := Stopped(ss, es);
  }

  // ----- A repeated call after a retry -----

  const RUNNING_TILE := C.Metatile(1, C.Splitting, [C.Running], 1, false, false, [], [], [])
  const FAILED_TILE := C.Metatile(1, C.Splitting, [C.Failed], 0, true, false, [true], [true], [])
  const JOINED_TILE := C.Metatile(1, C.Joined, [C.Failed], 0, true, false, [true], [true], [true])

  lemma OneTile()
    ensures C.Step(C.Start(1), C.Split) == RUNNING_TILE
    ensures C.Step(RUNNING_TILE, C.Settle(0, C.Failed)) == FAILED_TILE
    ensures C.Enabled(AllDelivered(FAILED_TILE), C.Join)
    ensures C.Step(AllDelivered(FAILED_TILE), C.Join) == JOINED_TILE
  {
  }

  /** Worker 1 fails on the tile of the row it was just handed. */
  lemma TileFailed(ss: seq<System>, es: seq<Event>) returns (ss': seq<System>, es': seq<Event>)
    requires IsRun(ss, es)
    requires OneJob(Last(ss), T.FillsQueue, T.JobStarted) && OneRow(Last(ss), T.RowPending)
    requires Last(ss).workers == map[1 := Worker(1, C.Start(1))]
    ensures IsRun(ss', es') && ss'[0] == ss[0]
    ensures OneJob(Last(ss'), T.FillsQueue, T.JobStarted) && OneRow(Last(ss'), T.RowPending)
    ensures Last(ss').workers == map[1 := Worker(1, FAILED_TILE)]
  {
    OneTile();
    ss', es' := WorkedOn(ss, es, 1, C.Split, T.RowPending);
    ss', es' := WorkedOn(ss', es', 1, C.Settle(0, C.Failed), T.RowPending);
  }

  /** Worker 1 fails on the tile of row 1 and delivers that, and the job is retried. */
  lemma ReachRetried(s0: System) returns (ss: seq<System>, es: seq<Event>)
    requires Init(s0)
    ensures IsRun(ss, es) && ss[0] == s0
    ensures OneJob(Last(ss), T.FillsQueue, T.JobStarted) && OneRow(Last(ss), T.RowCreated)
    ensures Last(ss).workers == map[1 := Worker(1, AllDelivered(FAILED_TILE))]
  {
    ss, es := Generation(s0, false);
    ss, es := GivenOut(ss, es, 1);
    ss, es := TileFailed(ss, es);
    ss, es := Delivered(ss, es, 1, true);
    ss, es := JudgedInError(ss, es);
    ss, es := RetriedRow(ss, es, T.RowError);
  }

  /** With a retry in between the first outcome does not win: the repeated call of a
      first worker can mark in error a row that a second worker is processing. */
  lemma RepeatAfterRetry(s0: System) returns (ss: seq<System>, es: seq<Event>)
    requires Init(s0)
    ensures IsRun(ss, es) && ss[0] == s0
    // Worker 1 delivers its call for the second time ...
    ensures |es| > 2 && es[|es| - 1] == Deliver(1, "x") && es[|es| - 3] == HandOut(1, "c", 2)
    // ... which leaves row 1 in error although worker 2, who holds it, made no call.
    ensures OneRow(Last(ss), T.RowError)
    ensures 2 in Last(ss).workers && Last(ss).workers[2] == Worker(1, C.Start(1))
  {
    OneTile();
    ss, es := ReachRetried(s0);
    ss, es := GivenOut(ss, es, 2);
    ss, es := WorkedOn(ss, es, 1, C.Join, T.RowPending);
    ss, es := Delivered(ss, es, 1, true);
  }

  // ----- Other endings -----

  /** A metatile whose fetch fails puts its row, and then its job, in error. */
  lemma FetchFailureEnds(s0: System) returns (ss: seq<System>, es: seq<Event>)
    requires Init(s0)
    ensures IsRun(ss, es) && ss[0] == s0
    ensures es == [CreateJob("c", T.FillsQueue), PickJob(1, "c"), ClearRows(1), Insert(1, TILE),
                   FinishGeneration(1, false), HandOut(1, "c", 1), Work(1, C.FetchFailed), Deliver(1, "x"), Verdicts]
    ensures OneJob(Last(ss), T.FillsQueue, T.JobError) && OneRow(Last(ss), T.RowError)
  {
    ss, es := Generation(s0, false);
    ss, es := GivenOut(ss, es, 1);
    ss, es := WorkedOn(ss, es, 1, C.FetchFailed, T.RowPending);
    ss, es := Delivered(ss, es, 1, true);
    ss, es := JudgedInError(ss, es);
  }

  /** Cancelling a job whose only row waits leaves it without rows. */
  lemma CancelledWaiting(s0: System) returns (ss: seq<System>, es: seq<Event>)
    requires Init(s0)
    ensures IsRun(ss, es) && ss[0] == s0
    ensures es == [CreateJob("c", T.FillsQueue), PickJob(1, "c"), ClearRows(1), Insert(1, TILE),
                   FinishGeneration(1, false), Cancel(1, "c")]
    ensures OneJob(Last(ss), T.FillsQueue, T.JobCancelled) && Last(ss).tables.queue == map[]
  {
    ss, es := Generation(s0, false);
    assert T.RowsWith(Last(ss).tables, 1, T.RowCreated) == {1};
    ss, es := Play(ss, es, Cancel(1, "c"));
  }

  /** A job whose command is a subprocess ends with it. */
  lemma SubprocessEnds(s0: System, failed: bool) returns (ss: seq<System>, es: seq<Event>)
    requires Init(s0)
    ensures IsRun(ss, es) && ss[0] == s0
    ensures es == [CreateJob("c", T.Subprocess), PickJob(1, "c"), FinishSubprocess(1, failed)]
    ensures OneJob(Last(ss), T.Subprocess, if failed then T.JobError else T.JobDone)
  {
    ss, es := [s0], [];
    ss, es := Created(ss, es, T.Subprocess);
    ss, es := Picked(ss, es, T.Subprocess);
    ss, es := Play(ss, es, FinishSubprocess(1, failed));
  }

  lemma Waited(ss: seq<System>, es: seq<Event>, seconds: nat) returns (ss': seq<System>, es': seq<Event>)
    requires IsRun(ss, es)
    ensures Extends(ss, es, Tick(seconds), ss', es')
    ensures Last(ss') == Last(ss).(now := Last(ss).now + seconds)
  {
    ss', es' := Play(ss, es, Tick(seconds));
  }

  lemma PutBack(ss: seq<System>, es: seq<Event>) returns (ss': seq<System>, es': seq<Event>)
    requires IsRun(ss, es)
    requires OneJob(Last(ss), T.FillsQueue, T.JobStarted) && OneRow(Last(ss), T.RowPending)
    requires T.Overdue(Last(ss).tables.queue[1].startedAt, Last(ss).now, Last(ss).maxPending)
    ensures Extends(ss, es, RestartPendingRows, ss', es')
    ensures OneJob(Last(ss'), T.FillsQueue, T.JobStarted) && OneRow(Last(ss'), T.RowCreated)
    ensures Last(ss').workers == Last(ss).workers
  {
    ss', es' := Play(ss, es, RestartPendingRows);
  }

  /** A row that is pending for longer than the limit is handed out to a second worker. */
  lemma HandedOutTwice(s0: System) returns (ss: seq<System>, es: seq<Event>)
    requires Init(s0)
    ensures IsRun(ss, es) && ss[0] == s0
    ensures es == [CreateJob("c", T.FillsQueue), PickJob(1, "c"), ClearRows(1), Insert(1, TILE),
                   FinishGeneration(1, false), HandOut(1, "c", 1), Tick(s0.maxPending + 1), RestartPendingRows,
                   HandOut(1, "c", 2)]
    ensures OneRow(Last(ss), T.RowPending)
    ensures Last(ss).workers == map[1 := Worker(1, C.Start(1)), 2 := Worker(1, C.Start(1))]
  {
    ss, es := Generation(s0, false);
    ss, es := GivenOut(ss, es, 1);
    LimitKept(ss, es, |es|);
    ss, es := Waited(ss, es, s0.maxPending + 1);
    ss, es := PutBack(ss, es);
    ss, es := GivenOut(ss, es, 2);
  }

  lemma {:induction false} LimitKept(ss: seq<System>, es: seq<Event>, i: nat)
    requires IsRun(ss, es) && i < |ss|
    ensures ss[i].maxPending == ss[0].maxPending
  {
    if i > 0 {
      LimitKept(ss, es, i - 1);
      LimitKeptAt(ss, es, i - 1);
    }
  }

  lemma LimitKeptAt(ss: seq<System>, es: seq<Event>, i: nat)
    requires IsRun(ss, es) && i < |es|
    ensures ss[i + 1].maxPending == ss[i].maxPending
  {
    assert StepAt(ss, es, i);
    LimitStep(ss[i], es[i]);
  }

  lemma LimitStep(s: System, e: Event)
    requires Enabled(s, e)
    ensures Step(s, e).maxPending == s.maxPending
  {
  }

  /** A job whose queue generation stopped is given up, and picked again. */
  lemma PickedTwice(s0: System) returns (ss: seq<System>, es: seq<Event>)
    requires Init(s0)
    ensures IsRun(ss, es) && ss[0] == s0
    ensures es == [CreateJob("c", T.FillsQueue), PickJob(1, "c"), StopGeneration(1), Tick(s0.maxPending + 1),
                   RestartPendingJobs, PickJob(1, "c")]
    ensures OneJob(Last(ss), T.FillsQueue, T.JobPending) && Generating(Last(ss), 1, Starting)
  {
    ss, es := [s0], [];
    ss, es := Created(ss, es, T.FillsQueue);
    ss, es := Picked(ss, es, T.FillsQueue);
    ss, es := StoppedStarting(ss, es);
    LimitKept(ss, es, |es|);
    ss, es := Waited(ss, es, s0.maxPending + 1);
    ss, es := GivenUp(ss, es);
    ss, es := Picked(ss, es, T.FillsQueue);
  }

  lemma StoppedStarting(ss: seq<System>, es: seq<Event>) returns (ss': seq<System>, es': seq<Event>)
    requires IsRun(ss, es) && Last(ss).generations == map[1 := Starting]
    ensures Extends(ss, es, StopGeneration(1), ss', es')
    ensures Last(ss') == Last(ss).(generations := map[])
  {
    ss', es' := Play(ss, es, StopGeneration(1));
  }

  lemma GivenUp(ss: seq<System>, es: seq<Event>) returns (ss': seq<System>, es': seq<Event>)
    requires IsRun(ss, es) && Last(ss).generations == map[]
    requires OneJob(Last(ss), T.FillsQueue, T.JobPending) && NoRow(Last(ss))
    requires T.Overdue(Last(ss).tables.jobs[1].startedAt, Last(ss).now, Last(ss).maxPending)
    ensures Extends(ss, es, RestartPendingJobs, ss', es')
    ensures OneJob(Last(ss'), T.FillsQueue, T.JobCreated) && NoRow(Last(ss')) && Last(ss').generations == map[]
  {
    ss', es' := Play(ss, es, RestartPendingJobs);
  }
}
