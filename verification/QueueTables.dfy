/** The `job` and `queue` tables, and what each transaction on them computes.

    Every function is one `session ... commit()` block of the PostgreSQL store,
    as a function from the tables before it to the tables after it. */
module QueueTables {
  import opened Common

  datatype JobStatus = JobCreated | JobPending | JobStarted | JobError | JobDone | JobCancelled

  datatype RowStatus = RowCreated | RowPending | RowError

  /** What starting the job will do with its command text: refuse it, fill the
      queue, or run it as a subprocess. */
  datatype Command = NotAllowed | FillsQueue | Subprocess

  datatype Job = Job(
    configFilename: string,
    command: Command,
    status: JobStatus,
    createdAt: int,
    startedAt: Option<int>,
    tilesStartedAt: Option<int>,
    metaTilesTotal: nat)

  /** What the queue keeps of a metatile: its coordinate and its metadata, with the
      layer, the grid and the dimensions. */
  datatype Message = Message(coord: TileCoord, metadata: map<string, string>)

  datatype Row = Row(jobId: nat, metaTile: Message, status: RowStatus, error: string, startedAt: Option<int>)

  /** A row waiting to be inserted. */
  datatype NewRow = NewRow(jobId: nat, metaTile: Message)

  datatype Tables = Tables(jobs: map<nat, Job>, queue: map<nat, Row>, nextJobId: nat, nextRowId: nat)

  const EMPTY_TABLES := Tables(map[], map[], 1, 1)

  function RowsOf(t: Tables, j: nat): set<nat> {
    set r | r in t.queue && t.queue[r].jobId == j
  }

  function RowsWith(t: Tables, j: nat, status: RowStatus): set<nat> {
    set r | r in t.queue && t.queue[r].jobId == j && t.queue[r].status == status
  }

  predicate Overdue(startedAt: Option<int>, now: int, maxPending: nat) {
    startedAt.Some? && startedAt.value < now - maxPending
  }

  function CreateJob(t: Tables, configFilename: string, command: Command, status: JobStatus, now: int): Tables {
    t.(jobs := t.jobs[t.nextJobId := Job(configFilename, command, status, now, None, None, 0)],
       nextJobId := t.nextJobId + 1)
  }

  /** Close the queue generation of a job created by a master process. */
  function StartJob(t: Tables, j: nat, now: int): Tables {
    if j in t.jobs && t.jobs[j].status.JobPending? then
      t.(jobs := t.jobs[j := t.jobs[j].(status := JobStarted, startedAt := Some(now),
                                        metaTilesTotal := |RowsOf(t, j)|)])
    else t
  }

  predicate CanRetry(t: Tables, j: nat, configFilename: string) {
    j in t.jobs && t.jobs[j].status.JobError? && t.jobs[j].configFilename == configFilename
  }

  function Retry(t: Tables, j: nat): Tables
    requires j in t.jobs
  {
    var queue := map r | r in t.queue ::
      if t.queue[r].jobId == j && t.queue[r].status.RowError?
      then t.queue[r].(status := RowCreated, error := "") else t.queue[r];
    t.(queue := queue,
       jobs := t.jobs[j := t.jobs[j].(status := JobStarted, tilesStartedAt := None,
                                      metaTilesTotal := |RowsOf(t, j)|)])
  }

  predicate CanCancel(t: Tables, j: nat, configFilename: string) {
    j in t.jobs && t.jobs[j].status.JobStarted? && t.jobs[j].configFilename == configFilename
  }

  function Cancel(t: Tables, j: nat): Tables
    requires j in t.jobs
  {
    t.(queue := t.queue - RowsWith(t, j, RowCreated), jobs := t.jobs[j := t.jobs[j].(status := JobCancelled)])
  }

  /** Give up the queue generations that have been pending for too long. */
  function RestartPendingJobs(t: Tables, now: int, maxPending: nat): Tables {
    t.(jobs := map j | j in t.jobs ::
         if t.jobs[j].status.JobPending? && Overdue(t.jobs[j].startedAt, now, maxPending)
         then t.jobs[j].(status := JobCreated) else t.jobs[j])
  }

  predicate Waiting(t: Tables, j: nat, configFilename: string) {
    j in t.jobs && t.jobs[j].status.JobCreated? && t.jobs[j].configFilename == configFilename
  }

  /** `j` is an oldest job of the config file that waits for its queue generation. */
  predicate OldestWaiting(t: Tables, j: nat, configFilename: string) {
    Waiting(t, j, configFilename)
    && forall k | k in t.jobs && Waiting(t, k, configFilename) :: t.jobs[j].createdAt <= t.jobs[k].createdAt
  }

  function PickJob(t: Tables, j: nat, now: int): Tables
    requires j in t.jobs
  {
    t.(jobs := t.jobs[j := t.jobs[j].(status := JobPending, startedAt := Some(now),
                                      tilesStartedAt := None, metaTilesTotal := 0)])
  }

  function SetStatus(t: Tables, j: nat, status: JobStatus): Tables
    requires j in t.jobs
  {
    t.(jobs := t.jobs[j := t.jobs[j].(status := status)])
  }

  function ClearRows(t: Tables, j: nat): Tables {
    t.(queue := t.queue - RowsOf(t, j))
  }

  function Insert(t: Tables, row: NewRow): Tables {
    t.(queue := t.queue[t.nextRowId := Row(row.jobId, row.metaTile, RowCreated, "", None)],
       nextRowId := t.nextRowId + 1)
  }

  function InsertAll(t: Tables, rows: seq<NewRow>): Tables
    decreases |rows|
  {
    if rows == [] then t else InsertAll(Insert(t, rows[0]), rows[1..])
  }

  /** Close the queue generation of a job picked by the maintenance. */
  function FinishGeneration(t: Tables, j: nat, failed: bool): Tables {
    if j !in t.jobs then t
    else
      var job := t.jobs[j].(metaTilesTotal := |RowsOf(t, j)|, status := if failed then JobError else JobStarted);
      t.(jobs := t.jobs[j := if failed then job.(tilesStartedAt := None) else job])
  }

  function NewRows(j: nat, tiles: seq<Message>): seq<NewRow> {
    seq(|tiles|, i requires 0 <= i < |tiles| => NewRow(j, tiles[i]))
  }

  /** What the command of a job does in the end: the metatiles it puts in the queue,
      if it fills the queue, and whether it fails. */
  datatype Work = Work(tiles: seq<Message>, failed: bool)

  /** Run the command of a job that was picked. */
  function RunCommand(t: Tables, j: nat, work: Work): Tables
    requires j in t.jobs
  {
    match t.jobs[j].command
    case NotAllowed => SetStatus(t, j, JobError)
    case Subprocess => SetStatus(t, j, if work.failed then JobError else JobDone)
    case FillsQueue => FinishGeneration(InsertAll(ClearRows(t, j), NewRows(j, work.tiles)), j, work.failed)
  }

  lemma {:induction false} InsertAllKeeps(t: Tables, rows: seq<NewRow>)
    ensures InsertAll(t, rows).jobs == t.jobs && InsertAll(t, rows).nextRowId == t.nextRowId + |rows|
    ensures InsertAll(t, rows).nextJobId == t.nextJobId
    decreases |rows|
  {
    if rows == [] {
    } else {
      InsertAllKeeps(Insert(t, rows[0]), rows[1..]);
    }
  }

  /** The rows get the next ids in their order, and every other row stays as it is. */
  lemma {:induction false} InsertAllExact(t: Tables, rows: seq<NewRow>)
    ensures InsertAll(t, rows).jobs == t.jobs && InsertAll(t, rows).nextJobId == t.nextJobId
    ensures InsertAll(t, rows).nextRowId == t.nextRowId + |rows|
    ensures forall id: nat | t.nextRowId <= id < t.nextRowId + |rows| ::
              id in InsertAll(t, rows).queue
              && InsertAll(t, rows).queue[id]
                 == Row(rows[id - t.nextRowId].jobId, rows[id - t.nextRowId].metaTile, RowCreated, "", None)
    ensures forall id: nat | !(t.nextRowId <= id < t.nextRowId + |rows|) ::
              (id in InsertAll(t, rows).queue <==> id in t.queue)
              && (id in t.queue ==> InsertAll(t, rows).queue[id] == t.queue[id])
    decreases |rows|
  {
    if rows == [] {
    } else {
      InsertAllExact(Insert(t, rows[0]), rows[1..]);
    }
  }

  /** Run the commands of jobs that are picked one after the other. */
  function RunAll(t: Tables, picked: seq<nat>, now: int, work: nat -> Work): Tables
    requires forall j | j in picked :: j in t.jobs
    decreases |picked|, 0
  {
    if picked == [] then t
    else
      var init, j := picked[..|picked| - 1], picked[|picked| - 1];
      var before := RunAll(t, init, now, work);
      RunAllKeeps(t, init, now, work);
      RunCommand(PickJob(before, j, now), j, work(j))
  }

  /** A job whose command was run is neither waiting nor pending. */
  predicate CommandEnded(job: Job) { !job.status.JobCreated? && !job.status.JobPending? }

  lemma RunCommandEnds(t: Tables, j: nat, work: Work)
    requires j in t.jobs
    ensures j in RunCommand(t, j, work).jobs && CommandEnded(RunCommand(t, j, work).jobs[j])
  {
    InsertAllKeeps(ClearRows(t, j), NewRows(j, work.tiles));
  }

  lemma {:induction false} RunAllEnds(t: Tables, picked: seq<nat>, now: int, work: nat -> Work)
    requires forall j | j in picked :: j in t.jobs
    ensures forall j | j in picked ::
              j in RunAll(t, picked, now, work).jobs && CommandEnded(RunAll(t, picked, now, work).jobs[j])
  {
    if picked == [] {
    } else {
      var init, j := picked[..|picked| - 1], picked[|picked| - 1];
      assert picked == init + [j];
      RunAllEnds(t, init, now, work);
      RunAllKeeps(t, init, now, work);
      var before := PickJob(RunAll(t, init, now, work), j, now);
      RunCommandEnds(before, j, work(j));
      RunCommandKeeps(before, j, work(j));
    }
  }

  /** Running jobs does not touch other jobs. */
  lemma {:induction false} RunAllKeeps(t: Tables, picked: seq<nat>, now: int, work: nat -> Work)
    requires forall j | j in picked :: j in t.jobs
    ensures RunAll(t, picked, now, work).jobs.Keys == t.jobs.Keys
    ensures forall j | j in t.jobs && j !in picked :: RunAll(t, picked, now, work).jobs[j] == t.jobs[j]
    ensures forall j | j in t.jobs :: RunAll(t, picked, now, work).jobs[j].configFilename == t.jobs[j].configFilename
    decreases |picked|, 1
  {
    if picked == [] {
    } else {
      var init, j := picked[..|picked| - 1], picked[|picked| - 1];
      assert picked == init + [j];
      RunAllKeeps(t, init, now, work);
      var before := RunAll(t, init, now, work);
      RunCommandKeeps(PickJob(before, j, now), j, work(j));
    }
  }

  lemma RunCommandKeeps(t: Tables, j: nat, work: Work)
    requires j in t.jobs
    ensures RunCommand(t, j, work).jobs.Keys == t.jobs.Keys
    ensures forall k | k in t.jobs && k != j :: RunCommand(t, j, work).jobs[k] == t.jobs[k]
    ensures RunCommand(t, j, work).jobs[j].configFilename == t.jobs[j].configFilename
  {
    InsertAllKeeps(ClearRows(t, j), NewRows(j, work.tiles));
  }

  /** The status the maintenance gives to a started job. */
  function Verdict(t: Tables, j: nat): JobStatus {
    if RowsWith(t, j, RowCreated) == {} && RowsWith(t, j, RowPending) == {} then
      if RowsWith(t, j, RowError) != {} then JobError else JobDone
    else JobStarted
  }

  function Verdicts(t: Tables): Tables {
    t.(jobs := map j | j in t.jobs ::
         if t.jobs[j].status.JobStarted? then t.jobs[j].(status := Verdict(t, j)) else t.jobs[j])
  }

  /** The maintenance ends a started job exactly when no row is waiting or being
      processed: done if no row is left, in error if all that is left is in error. */
  lemma VerdictExact(t: Tables, j: nat)
    requires j in t.jobs && t.jobs[j].status.JobStarted?
    ensures var status := Verdicts(t).jobs[j].status;
      && (status.JobDone? <==> RowsOf(t, j) == {})
      && (status.JobError? <==> RowsOf(t, j) != {}
                                && forall r | r in RowsOf(t, j) :: t.queue[r].status.RowError?)
      && (status.JobStarted? <==> exists r :: r in RowsOf(t, j) && !t.queue[r].status.RowError?)
  {
    forall r | r in RowsOf(t, j) ensures r in RowsWith(t, j, t.queue[r].status) {}
    forall r, status | r in RowsWith(t, j, status) ensures r in RowsOf(t, j) {}
    var a, b, c := RowsWith(t, j, RowCreated), RowsWith(t, j, RowPending), RowsWith(t, j, RowError);
    assert RowsOf(t, j) == a + b + c;
    if a != {} { var r :| r in a; assert r in RowsOf(t, j); }
    if b != {} { var r :| r in b; assert r in RowsOf(t, j); }
  }

  /** `t'` is `t` with the started jobs but `todo` judged. */
  ghost predicate Judged(t: Tables, t': Tables, todo: set<nat>) {
    && t'.queue == t.queue && t'.nextJobId == t.nextJobId && t'.nextRowId == t.nextRowId
    && t'.jobs.Keys == t.jobs.Keys
    && (forall j | j in todo :: j in t.jobs && t.jobs[j].status.JobStarted?)
    && forall j | j in t.jobs :: t'.jobs[j] == if j in todo then t.jobs[j] else Verdicts(t).jobs[j]
  }

  /** Judging a job by the rows of now is judging it by the rows of before. */
  lemma JudgedMore(t: Tables, t': Tables, todo: set<nat>, j: nat)
    requires Judged(t, t', todo) && j in todo
    ensures t'.jobs[j].status.JobStarted?
    ensures Judged(t, t'.(jobs := t'.jobs[j := t'.jobs[j].(status := Verdict(t', j))]), todo - {j})
  {
    SameVerdict(t', t, j);
  }

  lemma SameVerdict(t: Tables, t': Tables, j: nat)
    requires t.queue == t'.queue
    ensures Verdict(t, j) == Verdict(t', j)
  {
    forall status ensures RowsWith(t, j, status) == RowsWith(t', j, status) {}
  }

  lemma AllJudged(t: Tables, t': Tables)
    requires Judged(t, t', {})
    ensures t' == Verdicts(t)
  {
    assert t'.jobs == Verdicts(t).jobs;
  }

  /** Put the metatiles that have been pending for too long back in the queue. */
  function RestartPendingRows(t: Tables, now: int, maxPending: nat): Tables {
    t.(queue := map r | r in t.queue ::
         if t.queue[r].status.RowPending? && Overdue(t.queue[r].startedAt, now, maxPending)
         then t.queue[r].(status := RowCreated) else t.queue[r])
  }

  predicate Available(t: Tables, r: nat, configFilename: string) {
    r in t.queue && t.queue[r].status.RowCreated? && t.queue[r].jobId in t.jobs
    && var job := t.jobs[t.queue[r].jobId];
       job.status.JobStarted? && job.configFilename == configFilename
  }

  /** Row `r` comes no later than row `q` in the order of hand-outs. */
  predicate Before(t: Tables, r: nat, q: nat)
    requires r in t.queue && t.queue[r].jobId in t.jobs
    requires q in t.queue && t.queue[q].jobId in t.jobs
  {
    var a, b := t.jobs[t.queue[r].jobId].createdAt, t.jobs[t.queue[q].jobId].createdAt;
    a < b || (a == b && r <= q)
  }

  /** `r` is the row that the next hand-out for the config file takes. */
  predicate NextRow(t: Tables, r: nat, configFilename: string) {
    Available(t, r, configFilename)
    && forall q | q in t.queue && Available(t, q, configFilename) :: Before(t, r, q)
  }

  function HandOut(t: Tables, r: nat, now: int): Tables
    requires r in t.queue
  {
    var j := t.queue[r].jobId;
    var t' := t.(queue := t.queue[r := t.queue[r].(status := RowPending, startedAt := Some(now))]);
    if j in t.jobs && t.jobs[j].status.JobStarted? && t.jobs[j].tilesStartedAt.None?
    then t'.(jobs := t.jobs[j := t.jobs[j].(tilesStartedAt := Some(now))])
    else t'
  }

  /** Settle a metatile: only a pending row is affected. */
  function DeleteOne(t: Tables, r: nat, error: Option<string>): Tables {
    if r !in t.queue || !t.queue[r].status.RowPending? then t
    else if error.Some? then t.(queue := t.queue[r := t.queue[r].(status := RowError, error := error.value)])
    else t.(queue := t.queue - {r})
  }

  /** The config files that have waiting jobs and no started one. */
  predicate ToPick(t: Tables, configFilename: string) {
    (exists j :: j in t.jobs && Waiting(t, j, configFilename))
    && forall j | j in t.jobs && t.jobs[j].configFilename == configFilename :: !t.jobs[j].status.JobStarted?
  }

  /** `picked` has one oldest waiting job of each config file to pick for. */
  ghost predicate PickedJobs(t: Tables, picked: seq<nat>) {
    && (forall j | j in picked :: j in t.jobs && OldestWaiting(t, j, t.jobs[j].configFilename)
                                  && ToPick(t, t.jobs[j].configFilename))
    && (forall c | ToPick(t, c) :: exists j :: j in picked && t.jobs[j].configFilename == c)
    && (forall i, k | 0 <= i < k < |picked| :: t.jobs[picked[i]].configFilename != t.jobs[picked[k]].configFilename)
  }

  /** The jobs picked so far, when the config files `todo` are still to come. */
  ghost predicate Remaining(t: Tables, picked: seq<nat>, todo: set<string>) {
    && (forall c | c in todo :: ToPick(t, c))
    && (forall j | j in picked :: j in t.jobs && OldestWaiting(t, j, t.jobs[j].configFilename)
                                  && ToPick(t, t.jobs[j].configFilename) && t.jobs[j].configFilename !in todo)
    && (forall c | ToPick(t, c) :: c in todo || exists j :: j in picked && t.jobs[j].configFilename == c)
    && (forall i, k | 0 <= i < k < |picked| :: t.jobs[picked[i]].configFilename != t.jobs[picked[k]].configFilename)
  }

  /** `t'` is what running the jobs picked so far makes of `t`. */
  ghost predicate PickedSoFar(t: Tables, t': Tables, picked: seq<nat>, todo: set<string>, now: int, work: nat -> Work) {
    Remaining(t, picked, todo) && t' == RunAll(t, picked, now, work)
  }

  /** The jobs of the next config file have not been touched. */
  lemma StillWaiting(t: Tables, t': Tables, picked: seq<nat>, todo: set<string>, c: string, now: int, work: nat -> Work)
    requires PickedSoFar(t, t', picked, todo, now, work) && c in todo
    ensures exists j :: Waiting(t', j, c)
    ensures forall j :: OldestWaiting(t', j, c) <==> OldestWaiting(t, j, c)
  {
    RunAllKeeps(t, picked, now, work);
    SameWaiting(t, t', c);
  }

  lemma PickStep(t: Tables, t': Tables, picked: seq<nat>, todo: set<string>, c: string, now: int,
                 work: nat -> Work, j: nat)
    requires PickedSoFar(t, t', picked, todo, now, work) && c in todo && OldestWaiting(t', j, c)
    ensures PickedSoFar(t, RunCommand(PickJob(t', j, now), j, work(j)), picked + [j], todo - {c}, now, work)
  {
    StillWaiting(t, t', picked, todo, c, now, work);
    PickOne(t, picked, todo, c, j);
    RunAllMore(t, picked, j, now, work);
  }

  /** Waiting jobs of a config file whose jobs were not touched. */
  lemma SameWaiting(t: Tables, t': Tables, c: string)
    requires ToPick(t, c) && t'.jobs.Keys == t.jobs.Keys
    requires forall j | j in t.jobs :: t'.jobs[j].configFilename == t.jobs[j].configFilename
    requires forall j | j in t.jobs && t.jobs[j].configFilename == c :: t'.jobs[j] == t.jobs[j]
    ensures exists j :: Waiting(t', j, c)
    ensures forall j :: OldestWaiting(t', j, c) <==> OldestWaiting(t, j, c)
  {
    var j :| j in t.jobs && Waiting(t, j, c);
    assert Waiting(t', j, c);
    forall j ensures Waiting(t', j, c) <==> Waiting(t, j, c) {}
  }

  lemma PickOne(t: Tables, picked: seq<nat>, todo: set<string>, c: string, j: nat)
    requires Remaining(t, picked, todo) && c in todo && OldestWaiting(t, j, c)
    ensures Remaining(t, picked + [j], todo - {c})
  {
    var more := picked + [j];
    assert more[|picked|] == j;
    forall d | ToPick(t, d) ensures d in todo - {c} || exists k :: k in more && t.jobs[k].configFilename == d {
      if d != c && d !in todo {
        var k :| k in picked && t.jobs[k].configFilename == d;
        assert k in more;
      }
    }
    forall i, k | 0 <= i < k < |more| ensures t.jobs[more[i]].configFilename != t.jobs[more[k]].configFilename {
      assert more[i] in picked;
    }
  }

  /** The config files that have a started job. */
  function StartedFiles(t: Tables): set<string> {
    set j | j in t.jobs && t.jobs[j].status.JobStarted? :: t.jobs[j].configFilename
  }

  /** The config files that have a waiting job. */
  function CreatedFiles(t: Tables): set<string> {
    set j | j in t.jobs && t.jobs[j].status.JobCreated? :: t.jobs[j].configFilename
  }

  lemma NonePicked(t: Tables)
    ensures Remaining(t, [], CreatedFiles(t) - StartedFiles(t))
  {
    var todo := CreatedFiles(t) - StartedFiles(t);
    forall c ensures c in todo <==> ToPick(t, c) { FileToPick(t, c); }
  }

  lemma FileToPick(t: Tables, c: string)
    ensures c in CreatedFiles(t) && c !in StartedFiles(t) <==> ToPick(t, c)
  {
    if c in CreatedFiles(t) {
      var j :| j in t.jobs && t.jobs[j].status.JobCreated? && t.jobs[j].configFilename == c;
      assert Waiting(t, j, c);
    }
    if c !in StartedFiles(t) {
      forall j | j in t.jobs && t.jobs[j].configFilename == c ensures !t.jobs[j].status.JobStarted? {
        assert t.jobs[j].status.JobStarted? ==> c in StartedFiles(t);
      }
    }
  }

  lemma RunAllMore(t: Tables, picked: seq<nat>, j: nat, now: int, work: nat -> Work)
    requires j in t.jobs && forall k | k in picked :: k in t.jobs
    ensures forall k | k in picked + [j] :: k in t.jobs
    ensures j in RunAll(t, picked, now, work).jobs
    ensures RunAll(t, picked + [j], now, work) == RunCommand(PickJob(RunAll(t, picked, now, work), j, now), j, work(j))
  {
    RunAllKeeps(t, picked, now, work);
    assert (picked + [j])[..|picked|] == picked;
  }

  /** What the maintenance makes of the tables. */
  function Maintained(t: Tables, now: int, maxPending: nat, picked: seq<nat>, work: nat -> Work): Tables
    requires forall j | j in picked :: j in t.jobs
  {
    var restarted := RestartPendingJobs(t, now, maxPending);
    RestartPendingRows(Verdicts(RunAll(restarted, picked, now, work)), now, maxPending)
  }

  /** What the maintenance does to the started jobs: one that is started afterwards has
      a row that waits or is processed, a done one has no row, and of one in error
      every row is in error. */
  lemma MaintainedStarted(t: Tables, now: int, maxPending: nat, picked: seq<nat>, work: nat -> Work, j: nat)
    requires (forall k | k in picked :: k in t.jobs) && j in Maintained(t, now, maxPending, picked, work).jobs
    ensures var t' := Maintained(t, now, maxPending, picked, work);
      t'.jobs[j].status.JobStarted? ==>
        exists r :: r in t'.queue && t'.queue[r].jobId == j && !t'.queue[r].status.RowError?
    ensures var t' := Maintained(t, now, maxPending, picked, work);
      j in t.jobs && j !in picked && t.jobs[j].status.JobStarted? ==>
        && (t'.jobs[j].status.JobStarted? || t'.jobs[j].status.JobDone? || t'.jobs[j].status.JobError?)
        && (t'.jobs[j].status.JobDone? ==> forall r | r in t'.queue :: t'.queue[r].jobId != j)
        && (t'.jobs[j].status.JobError? ==>
              (exists r :: r in t'.queue && t'.queue[r].jobId == j)
              && forall r | r in t'.queue && t'.queue[r].jobId == j :: t'.queue[r].status.RowError?)
  {
    var restarted := RestartPendingJobs(t, now, maxPending);
    RunAllKeeps(restarted, picked, now, work);
    var run := RunAll(restarted, picked, now, work);
    var judged := Verdicts(run);
    JudgedRows(run, j);
    RestartKeepsErrors(judged, now, maxPending, j);
  }

  /** The verdict on one job, in terms of the rows. */
  lemma JudgedRows(t: Tables, j: nat)
    requires j in t.jobs
    ensures Verdicts(t).queue == t.queue && j in Verdicts(t).jobs
    ensures !t.jobs[j].status.JobStarted? ==> Verdicts(t).jobs[j] == t.jobs[j]
    ensures t.jobs[j].status.JobStarted? ==>
      var status := Verdicts(t).jobs[j].status;
      && (status.JobStarted? || status.JobDone? || status.JobError?)
      && (status.JobDone? ==> forall r | r in t.queue :: t.queue[r].jobId != j)
      && (status.JobStarted? ==> exists r :: r in t.queue && t.queue[r].jobId == j && !t.queue[r].status.RowError?)
      && (status.JobError? ==>
            (exists r :: r in t.queue && t.queue[r].jobId == j)
            && forall r | r in t.queue && t.queue[r].jobId == j :: t.queue[r].status.RowError?)
  {
    if t.jobs[j].status.JobStarted? {
      VerdictExact(t, j);
      forall r | r in t.queue && t.queue[r].jobId == j ensures r in RowsOf(t, j) {}
      if RowsOf(t, j) != {} {
        var r :| r in RowsOf(t, j);
        assert r in t.queue && t.queue[r].jobId == j;
      }
    }
  }

  /** The same as an exact condition. */
  lemma JudgedExactly(t: Tables, j: nat)
    requires j in t.jobs && t.jobs[j].status.JobStarted?
    ensures j in Verdicts(t).jobs
    ensures var status := Verdicts(t).jobs[j].status;
      && (status.JobDone? <==> forall r | r in t.queue :: t.queue[r].jobId != j)
      && (status.JobStarted? <==> exists r :: r in t.queue && t.queue[r].jobId == j && !t.queue[r].status.RowError?)
      && (!status.JobDone? && !status.JobStarted? ==> status.JobError?)
  {
    VerdictExact(t, j);
    forall r | r in t.queue && t.queue[r].jobId == j ensures r in RowsOf(t, j) {}
  }

  /** Putting overdue rows back does not change whose they are, or which are in error. */
  lemma RestartKeepsErrors(t: Tables, now: int, maxPending: nat, j: nat)
    ensures var t' := RestartPendingRows(t, now, maxPending);
      t'.jobs == t.jobs && t'.queue.Keys == t.queue.Keys
      && forall r | r in t.queue ::
           t'.queue[r].jobId == t.queue[r].jobId && (t'.queue[r].status.RowError? <==> t.queue[r].status.RowError?)
  {
  }

  /** The maintenance leaves no row that has been pending for too long. */
  lemma MaintainedRows(t: Tables, now: int, maxPending: nat, picked: seq<nat>, work: nat -> Work)
    requires forall k | k in picked :: k in t.jobs
    ensures var t' := Maintained(t, now, maxPending, picked, work);
      forall r | r in t'.queue && t'.queue[r].status.RowPending? && t'.queue[r].startedAt.Some? ::
        t'.queue[r].startedAt.value >= now - maxPending
  {
  }

  /** What the maintenance does to a job that is not started: its command was run, or it
      is put back in the queue if it has been pending for too long. */
  lemma MaintainedJob(t: Tables, now: int, maxPending: nat, picked: seq<nat>, work: nat -> Work, j: nat)
    requires (forall k | k in picked :: k in t.jobs) && j in t.jobs
    ensures var t' := Maintained(t, now, maxPending, picked, work);
      && t'.jobs.Keys == t.jobs.Keys
      && (j in picked ==> CommandEnded(t'.jobs[j]))
      && (j !in picked && !t.jobs[j].status.JobStarted? ==>
            t'.jobs[j] == if t.jobs[j].status.JobPending? && t.jobs[j].startedAt.Some?
                             && t.jobs[j].startedAt.value < now - maxPending
                          then t.jobs[j].(status := JobCreated) else t.jobs[j])
  {
    var restarted := RestartPendingJobs(t, now, maxPending);
    RunAllKeeps(restarted, picked, now, work);
    RunAllEnds(restarted, picked, now, work);
    JudgedRows(RunAll(restarted, picked, now, work), j);
  }

  /** Job `j` is picked only if it is an oldest waiting job of a config file without a
      started job, and if it is such a job, one of its config file is picked. */
  ghost predicate PickedAt(t: Tables, now: int, maxPending: nat, picked: seq<nat>, j: nat)
    requires j in t.jobs
  {
    && (j in picked ==>
          && WaitsAt(t.jobs[j], now, maxPending)
          && forall k | k in t.jobs && t.jobs[k].configFilename == t.jobs[j].configFilename ::
               !t.jobs[k].status.JobStarted?
               && (WaitsAt(t.jobs[k], now, maxPending) ==> t.jobs[j].createdAt <= t.jobs[k].createdAt))
    && (WaitsAt(t.jobs[j], now, maxPending)
        && (forall k | k in t.jobs && t.jobs[k].configFilename == t.jobs[j].configFilename ::
              !t.jobs[k].status.JobStarted?)
        ==> exists k :: k in picked && k in t.jobs && t.jobs[k].configFilename == t.jobs[j].configFilename)
  }

  /** Whom the maintenance picks: a waiting job, or one given up, whose config file has
      no started job, and for every such config file an oldest one. */
  lemma PickedExact(t: Tables, now: int, maxPending: nat, picked: seq<nat>, j: nat)
    requires PickedJobs(RestartPendingJobs(t, now, maxPending), picked) && j in t.jobs
    ensures PickedAt(t, now, maxPending, picked, j)
  {
    var t' := RestartPendingJobs(t, now, maxPending);
    var c := t.jobs[j].configFilename;
    forall k | k in t.jobs
      ensures Waiting(t', k, c) <==> t.jobs[k].configFilename == c && WaitsAt(t.jobs[k], now, maxPending) {}
    forall k | k in t.jobs ensures t'.jobs[k].configFilename == t.jobs[k].configFilename
                                   && (t'.jobs[k].status.JobStarted? <==> t.jobs[k].status.JobStarted?) {}
    if WaitsAt(t.jobs[j], now, maxPending)
       && forall k | k in t.jobs && t.jobs[k].configFilename == c :: !t.jobs[k].status.JobStarted? {
      assert j in t'.jobs && Waiting(t', j, c);
      assert ToPick(t', c);
      var k :| k in picked && t'.jobs[k].configFilename == c;
      assert k in t.jobs;
    }
  }

  /** The job waits for its queue generation, or its queue generation is overdue. */
  predicate WaitsAt(job: Job, now: int, maxPending: nat) {
    job.status.JobCreated?
    || (job.status.JobPending? && job.startedAt.Some? && job.startedAt.value < now - maxPending)
  }

  lemma RunCommandRow(t: Tables, j: nat, work: Work, r: nat)
    requires j in t.jobs && r in t.queue && r < t.nextRowId && t.queue[r].jobId != j
    ensures var t' := RunCommand(t, j, work);
      r in t'.queue && t'.queue[r] == t.queue[r] && r < t'.nextRowId
  {
    InsertAllExact(ClearRows(t, j), NewRows(j, work.tiles));
  }

  lemma {:induction false} RunAllRow(t: Tables, picked: seq<nat>, now: int, work: nat -> Work, r: nat)
    requires (forall j | j in picked :: j in t.jobs) && r in t.queue && r < t.nextRowId && t.queue[r].jobId !in picked
    ensures var t' := RunAll(t, picked, now, work);
      r in t'.queue && t'.queue[r] == t.queue[r] && r < t'.nextRowId
  {
    if picked == [] {
    } else {
      var init, j := picked[..|picked| - 1], picked[|picked| - 1];
      assert picked == init + [j];
      RunAllRow(t, init, now, work, r);
      RunAllKeeps(t, init, now, work);
      RunCommandRow(PickJob(RunAll(t, init, now, work), j, now), j, work(j), r);
    }
  }

  /** The maintenance keeps every row of a job that it does not run; it only puts it back
      if it has been pending for too long. */
  lemma MaintainedRow(t: Tables, now: int, maxPending: nat, picked: seq<nat>, work: nat -> Work, r: nat)
    requires (forall j | j in picked :: j in t.jobs) && r in t.queue && r < t.nextRowId && t.queue[r].jobId !in picked
    ensures var t' := Maintained(t, now, maxPending, picked, work);
      r in t'.queue
      && t'.queue[r] == if t.queue[r].status.RowPending? && t.queue[r].startedAt.Some?
                           && t.queue[r].startedAt.value < now - maxPending
                        then t.queue[r].(status := RowCreated) else t.queue[r]
  {
    RunAllRow(RestartPendingJobs(t, now, maxPending), picked, now, work, r);
  }

  /** What the maintenance promises of started jobs: afterwards each started job has a row
      that waits or is processed; one that was started before and is done has no row,
      and of one in error every row is in error. */
  ghost predicate StartedAreJudged(t: Tables, t': Tables, picked: seq<nat>) {
    && (forall j | j in t'.jobs && t'.jobs[j].status.JobStarted? ::
          exists r :: r in t'.queue && t'.queue[r].jobId == j && !t'.queue[r].status.RowError?)
    && forall j | j in t.jobs && t.jobs[j].status.JobStarted? ::
         && j !in picked && j in t'.jobs
         && (t'.jobs[j].status.JobStarted? || t'.jobs[j].status.JobDone? || t'.jobs[j].status.JobError?)
         && (t'.jobs[j].status.JobDone? ==> forall r | r in t'.queue :: t'.queue[r].jobId != j)
         && (t'.jobs[j].status.JobError? ==>
               (exists r :: r in t'.queue && t'.queue[r].jobId == j)
               && forall r | r in t'.queue && t'.queue[r].jobId == j :: t'.queue[r].status.RowError?)
  }

  /** No row and no job has been pending for too long. */
  ghost predicate NothingOverdue(t: Tables, now: int, maxPending: nat) {
    && (forall r | r in t.queue && t.queue[r].status.RowPending? && t.queue[r].startedAt.Some? ::
          t.queue[r].startedAt.value >= now - maxPending)
    && forall j | j in t.jobs && t.jobs[j].status.JobPending? && t.jobs[j].startedAt.Some? ::
         t.jobs[j].startedAt.value >= now - maxPending
  }

  /** The command of an oldest waiting job was run for every config file that has waiting
      jobs and no started one, and of no other job. */
  ghost predicate WaitingWereRun(t: Tables, t': Tables, now: int, maxPending: nat, picked: seq<nat>) {
    && (forall j | j in picked ::
          && j in t.jobs && WaitsAt(t.jobs[j], now, maxPending)
          && j in t'.jobs && !t'.jobs[j].status.JobCreated? && !t'.jobs[j].status.JobPending?
          && forall k | k in t.jobs && t.jobs[k].configFilename == t.jobs[j].configFilename ::
               !t.jobs[k].status.JobStarted?
               && (WaitsAt(t.jobs[k], now, maxPending) ==> t.jobs[j].createdAt <= t.jobs[k].createdAt))
    && forall j | j in t.jobs && WaitsAt(t.jobs[j], now, maxPending) ::
         (forall k | k in t.jobs && t.jobs[k].configFilename == t.jobs[j].configFilename ::
            !t.jobs[k].status.JobStarted?)
         ==> exists k :: k in picked && k in t.jobs && t.jobs[k].configFilename == t.jobs[j].configFilename
  }

  /** Every other job, and every row of a job whose command was not run, is as it was,
      except that overdue work waits again. */
  ghost predicate OthersUntouched(t: Tables, t': Tables, now: int, maxPending: nat, picked: seq<nat>) {
    && (forall j | j in t.jobs && j !in picked && !t.jobs[j].status.JobStarted? ::
          && j in t'.jobs
          && t'.jobs[j] == if t.jobs[j].status.JobPending? && t.jobs[j].startedAt.Some?
                              && t.jobs[j].startedAt.value < now - maxPending
                           then t.jobs[j].(status := JobCreated) else t.jobs[j])
    && forall r: nat | r in t.queue && r < t.nextRowId && t.queue[r].jobId !in picked ::
         && r in t'.queue
         && t'.queue[r] == if t.queue[r].status.RowPending? && t.queue[r].startedAt.Some?
                              && t.queue[r].startedAt.value < now - maxPending
                           then t.queue[r].(status := RowCreated) else t.queue[r]
  }

  lemma MaintainedStartedFacts(t: Tables, now: int, maxPending: nat, picked: seq<nat>, work: nat -> Work)
    requires PickedJobs(RestartPendingJobs(t, now, maxPending), picked)
    ensures StartedAreJudged(t, Maintained(t, now, maxPending, picked, work), picked)
  {
    var t' := Maintained(t, now, maxPending, picked, work);
    forall j | j in t'.jobs && t'.jobs[j].status.JobStarted?
      ensures exists r :: r in t'.queue && t'.queue[r].jobId == j && !t'.queue[r].status.RowError?
    {
      MaintainedStarted(t, now, maxPending, picked, work, j);
    }
    forall j | j in t.jobs && t.jobs[j].status.JobStarted?
      ensures j !in picked && j in t'.jobs
      ensures t'.jobs[j].status.JobStarted? || t'.jobs[j].status.JobDone? || t'.jobs[j].status.JobError?
      ensures t'.jobs[j].status.JobDone? ==> forall r | r in t'.queue :: t'.queue[r].jobId != j
      ensures t'.jobs[j].status.JobError? ==>
                (exists r :: r in t'.queue && t'.queue[r].jobId == j)
                && forall r | r in t'.queue && t'.queue[r].jobId == j :: t'.queue[r].status.RowError?
    {
      PickedExact(t, now, maxPending, picked, j);
      MaintainedJob(t, now, maxPending, picked, work, j);
      MaintainedStarted(t, now, maxPending, picked, work, j);
    }
  }

  lemma MaintainedOverdueFacts(t: Tables, now: int, maxPending: nat, picked: seq<nat>, work: nat -> Work)
    requires PickedJobs(RestartPendingJobs(t, now, maxPending), picked)
    ensures NothingOverdue(Maintained(t, now, maxPending, picked, work), now, maxPending)
  {
    var t' := Maintained(t, now, maxPending, picked, work);
    MaintainedRows(t, now, maxPending, picked, work);
    forall j | j in t'.jobs && t'.jobs[j].status.JobPending? && t'.jobs[j].startedAt.Some?
      ensures t'.jobs[j].startedAt.value >= now - maxPending
    {
      MaintainedPending(t, now, maxPending, picked, work, j);
    }
  }

  lemma MaintainedPending(t: Tables, now: int, maxPending: nat, picked: seq<nat>, work: nat -> Work, j: nat)
    requires PickedJobs(RestartPendingJobs(t, now, maxPending), picked)
    requires j in Maintained(t, now, maxPending, picked, work).jobs
    ensures var job := Maintained(t, now, maxPending, picked, work).jobs[j];
      job.status.JobPending? && job.startedAt.Some? ==> job.startedAt.value >= now - maxPending
  {
    RunAllKeeps(RestartPendingJobs(t, now, maxPending), picked, now, work);
    assert j in t.jobs;
    MaintainedJob(t, now, maxPending, picked, work, j);
    MaintainedStarted(t, now, maxPending, picked, work, j);
    PickedExact(t, now, maxPending, picked, j);
  }

  lemma MaintainedPickedFacts(t: Tables, now: int, maxPending: nat, picked: seq<nat>, work: nat -> Work)
    requires PickedJobs(RestartPendingJobs(t, now, maxPending), picked)
    ensures WaitingWereRun(t, Maintained(t, now, maxPending, picked, work), now, maxPending, picked)
  {
    forall j | j in t.jobs ensures PickedAt(t, now, maxPending, picked, j) {
      PickedExact(t, now, maxPending, picked, j);
    }
    var t' := Maintained(t, now, maxPending, picked, work);
    forall j | j in picked ensures j in t.jobs && j in t'.jobs && CommandEnded(t'.jobs[j]) {
      MaintainedJob(t, now, maxPending, picked, work, j);
    }
    FromPicked(t, t', now, maxPending, picked);
  }

  lemma FromPicked(t: Tables, t': Tables, now: int, maxPending: nat, picked: seq<nat>)
    requires forall j | j in t.jobs :: PickedAt(t, now, maxPending, picked, j)
    requires forall j | j in picked :: j in t.jobs && j in t'.jobs && CommandEnded(t'.jobs[j])
    ensures WaitingWereRun(t, t', now, maxPending, picked)
  {
  }

  lemma MaintainedOtherFacts(t: Tables, now: int, maxPending: nat, picked: seq<nat>, work: nat -> Work)
    requires PickedJobs(RestartPendingJobs(t, now, maxPending), picked)
    ensures OthersUntouched(t, Maintained(t, now, maxPending, picked, work), now, maxPending, picked)
  {
    var t' := Maintained(t, now, maxPending, picked, work);
    forall j | j in t.jobs && j !in picked && !t.jobs[j].status.JobStarted?
      ensures j in t'.jobs
      ensures t'.jobs[j] == if t.jobs[j].status.JobPending? && t.jobs[j].startedAt.Some?
                               && t.jobs[j].startedAt.value < now - maxPending
                            then t.jobs[j].(status := JobCreated) else t.jobs[j]
    {
      MaintainedJob(t, now, maxPending, picked, work, j);
    }
    forall r: nat | r in t.queue && r < t.nextRowId && t.queue[r].jobId !in picked
      ensures r in t'.queue
      ensures t'.queue[r] == if t.queue[r].status.RowPending? && t.queue[r].startedAt.Some?
                                && t.queue[r].startedAt.value < now - maxPending
                             then t.queue[r].(status := RowCreated) else t.queue[r]
    {
      MaintainedRow(t, now, maxPending, picked, work, r);
    }
  }

  // ----- What the commands that the maintenance runs leave -----

  /** The rows of job `j` are these metatiles, waiting, under consecutive ids in their order. */
  ghost predicate FilledWith(t: Tables, j: nat, tiles: seq<Message>, first: nat) {
    && first + |tiles| <= t.nextRowId
    && (forall id: nat | first <= id < first + |tiles| ::
          id in t.queue && t.queue[id] == Row(j, tiles[id - first], RowCreated, "", None))
    && forall id: nat | id in t.queue && t.queue[id].jobId == j :: first <= id < first + |tiles|
  }

  /** The command of job `j` of `t` was run: a refused one is in error, a subprocess ended,
      and one that fills the queue left its metatiles. With `judged`, a job whose command
      had no metatile is done. */
  ghost predicate CommandRan(t: Tables, t': Tables, j: nat, now: int, work: Work, judged: bool) {
    && j in t.jobs && j in t'.jobs
    && t'.jobs[j]
       == t.jobs[j].(status := if t.jobs[j].command.NotAllowed? || work.failed then JobError
                               else if t.jobs[j].command.Subprocess? || (judged && work.tiles == []) then JobDone
                               else JobStarted,
                     startedAt := Some(now), tilesStartedAt := None,
                     metaTilesTotal := if t.jobs[j].command.FillsQueue? then |work.tiles| else 0)
    && (t.jobs[j].command.FillsQueue? ==> exists first: nat :: FilledWith(t', j, work.tiles, first))
  }

  /** The commands of these jobs were run. */
  ghost predicate CommandsRan(t: Tables, t': Tables, picked: seq<nat>, now: int, work: nat -> Work, judged: bool) {
    forall j | j in picked :: CommandRan(t, t', j, now, work(j), judged)
  }

  lemma {:induction false} IntervalSize(s: set<nat>, first: nat, n: nat)
    requires forall id: nat :: id in s <==> first <= id < first + n
    ensures |s| == n
  {
    if n == 0 {
      assert s == {};
    } else {
      var last := first + n - 1;
      IntervalSize(s - {last}, first, n - 1);
      assert s == (s - {last}) + {last};
    }
  }

  lemma FillRows(t: Tables, j: nat, tiles: seq<Message>)
    ensures var t' := InsertAll(ClearRows(t, j), NewRows(j, tiles));
      t'.jobs == t.jobs && FilledWith(t', j, tiles, t.nextRowId) && |RowsOf(t', j)| == |tiles|
  {
    var t' := InsertAll(ClearRows(t, j), NewRows(j, tiles));
    InsertAllExact(ClearRows(t, j), NewRows(j, tiles));
    IntervalSize(RowsOf(t', j), t.nextRowId, |tiles|);
  }

  lemma RunCommandRan(t: Tables, j: nat, now: int, work: Work)
    requires j in t.jobs
    ensures CommandRan(t, RunCommand(PickJob(t, j, now), j, work), j, now, work, false)
  {
    var before := PickJob(t, j, now);
    FillRows(before, j, work.tiles);
    if t.jobs[j].command.FillsQueue? {
      assert FilledWith(RunCommand(before, j, work), j, work.tiles, t.nextRowId);
    }
  }

  /** Running another job leaves the rows that this one got. */
  lemma FilledKept(t: Tables, k: nat, work: Work, j: nat, tiles: seq<Message>, first: nat)
    requires k in t.jobs && k != j && FilledWith(t, j, tiles, first)
    ensures FilledWith(RunCommand(t, k, work), j, tiles, first)
  {
    InsertAllExact(ClearRows(t, k), NewRows(k, work.tiles));
  }

  lemma RanKept(t: Tables, t': Tables, k: nat, now: int, other: Work, j: nat, work: Work)
    requires k in t'.jobs && k != j && CommandRan(t, t', j, now, work, false)
    ensures CommandRan(t, RunCommand(PickJob(t', k, now), k, other), j, now, work, false)
  {
    var before := PickJob(t', k, now);
    RunCommandKeeps(before, k, other);
    if t.jobs[j].command.FillsQueue? {
      var first: nat :| FilledWith(t', j, work.tiles, first);
      assert FilledWith(before, j, work.tiles, first);
      FilledKept(before, k, other, j, work.tiles, first);
    }
  }

  lemma {:induction false} RunAllRan(t: Tables, picked: seq<nat>, now: int, work: nat -> Work, j: nat)
    requires (forall k | k in picked :: k in t.jobs) && j in picked
    requires forall i, k | 0 <= i < k < |picked| :: picked[i] != picked[k]
    ensures CommandRan(t, RunAll(t, picked, now, work), j, now, work(j), false)
    decreases |picked|
  {
    var init, k := picked[..|picked| - 1], picked[|picked| - 1];
    assert picked == init + [k];
    RunAllKeeps(t, init, now, work);
    var before := RunAll(t, init, now, work);
    if j == k {
      RunCommandRan(before, j, now, work(j));
    } else {
      RunAllRan(t, init, now, work, j);
      RanKept(t, before, k, now, work(k), j, work(j));
    }
  }

  lemma PickedOnce(t: Tables, picked: seq<nat>)
    requires PickedJobs(t, picked)
    ensures forall i, k | 0 <= i < k < |picked| :: picked[i] != picked[k]
  {
  }

  /** The verdict and the restart of overdue rows keep what the command left. */
  lemma JudgedRan(t: Tables, t': Tables, j: nat, now: int, maxPending: nat, work: Work)
    requires CommandRan(t, t', j, now, work, false)
    ensures CommandRan(t, RestartPendingRows(Verdicts(t'), now, maxPending), j, now, work, true)
  {
    var after := RestartPendingRows(Verdicts(t'), now, maxPending);
    if t.jobs[j].command.FillsQueue? {
      var first: nat :| FilledWith(t', j, work.tiles, first);
      assert FilledWith(after, j, work.tiles, first);
      if t'.jobs[j].status.JobStarted? {
        JudgedExactly(t', j);
        assert work.tiles != [] ==> first in t'.queue && t'.queue[first].jobId == j;
      }
    }
  }

  lemma MaintainedRan(t: Tables, now: int, maxPending: nat, picked: seq<nat>, work: nat -> Work)
    requires PickedJobs(RestartPendingJobs(t, now, maxPending), picked)
    ensures CommandsRan(t, Maintained(t, now, maxPending, picked, work), picked, now, work, true)
  {
    var restarted := RestartPendingJobs(t, now, maxPending);
    PickedOnce(restarted, picked);
    forall j | j in picked
      ensures CommandRan(t, Maintained(t, now, maxPending, picked, work), j, now, work(j), true)
    {
      RunAllRan(restarted, picked, now, work, j);
      JudgedRan(restarted, RunAll(restarted, picked, now, work), j, now, maxPending, work(j));
    }
  }

  /** What a successful maintenance promises. */
  ghost predicate MaintenanceDone(t: Tables, t': Tables, now: int, maxPending: nat, picked: seq<nat>,
                                  work: nat -> Work) {
    && StartedAreJudged(t, t', picked) && NothingOverdue(t', now, maxPending)
    && WaitingWereRun(t, t', now, maxPending, picked) && OthersUntouched(t, t', now, maxPending, picked)
    && CommandsRan(t, t', picked, now, work, true)
  }

  /** The maintenance keeps its promises, from before its flush. */
  lemma MaintainedFacts(t: Tables, rows: seq<NewRow>, now: int, maxPending: nat, picked: seq<nat>, work: nat -> Work)
    requires PickedJobs(RestartPendingJobs(InsertAll(t, rows), now, maxPending), picked)
    ensures var t' := Maintained(InsertAll(t, rows), now, maxPending, picked, work);
      MaintenanceDone(t, t', now, maxPending, picked, work)
  {
    InsertAllExact(t, rows);
    MaintainedAll(InsertAll(t, rows), now, maxPending, picked, work);
    FromBeforeFlush(t, InsertAll(t, rows), Maintained(InsertAll(t, rows), now, maxPending, picked, work),
                    now, maxPending, picked, work);
  }

  lemma MaintainedAll(t: Tables, now: int, maxPending: nat, picked: seq<nat>, work: nat -> Work)
    requires PickedJobs(RestartPendingJobs(t, now, maxPending), picked)
    ensures MaintenanceDone(t, Maintained(t, now, maxPending, picked, work), now, maxPending, picked, work)
  {
    MaintainedStartedFacts(t, now, maxPending, picked, work);
    MaintainedOverdueFacts(t, now, maxPending, picked, work);
    MaintainedPickedFacts(t, now, maxPending, picked, work);
    MaintainedOtherFacts(t, now, maxPending, picked, work);
    MaintainedRan(t, now, maxPending, picked, work);
  }

  lemma FromBeforeFlush(t: Tables, flushed: Tables, t': Tables, now: int, maxPending: nat, picked: seq<nat>,
                        work: nat -> Work)
    requires flushed.jobs == t.jobs && flushed.nextRowId >= t.nextRowId
    requires forall r: nat | r < t.nextRowId && r in t.queue :: r in flushed.queue && flushed.queue[r] == t.queue[r]
    requires MaintenanceDone(flushed, t', now, maxPending, picked, work)
    ensures MaintenanceDone(t, t', now, maxPending, picked, work)
  {
    SameStarted(t, flushed, t', picked);
    SameWaitingRun(t, flushed, t', now, maxPending, picked);
    SameOthers(t, flushed, t', now, maxPending, picked);
    SameCommands(t, flushed, t', now, picked, work);
  }

  lemma SameStarted(t: Tables, flushed: Tables, t': Tables, picked: seq<nat>)
    requires flushed.jobs == t.jobs && StartedAreJudged(flushed, t', picked)
    ensures StartedAreJudged(t, t', picked)
  {
  }

  lemma SameWaitingRun(t: Tables, flushed: Tables, t': Tables, now: int, maxPending: nat, picked: seq<nat>)
    requires flushed.jobs == t.jobs && WaitingWereRun(flushed, t', now, maxPending, picked)
    ensures WaitingWereRun(t, t', now, maxPending, picked)
  {
  }

  lemma SameOthers(t: Tables, flushed: Tables, t': Tables, now: int, maxPending: nat, picked: seq<nat>)
    requires flushed.jobs == t.jobs && flushed.nextRowId >= t.nextRowId
    requires forall r: nat | r < t.nextRowId && r in t.queue :: r in flushed.queue && flushed.queue[r] == t.queue[r]
    requires OthersUntouched(flushed, t', now, maxPending, picked)
    ensures OthersUntouched(t, t', now, maxPending, picked)
  {
  }

  lemma SameCommands(t: Tables, flushed: Tables, t': Tables, now: int, picked: seq<nat>, work: nat -> Work)
    requires flushed.jobs == t.jobs && CommandsRan(flushed, t', picked, now, work, true)
    ensures CommandsRan(t, t', picked, now, work, true)
  {
    forall j | j in picked ensures CommandRan(t, t', j, now, work(j), true) {
      assert CommandRan(flushed, t', j, now, work(j), true);
    }
  }

  // ----- What a transaction leaves alone -----

  /** Row `r` belongs to job `j` before or after, and then it is the same row in both. */
  predicate SameRow(t: Tables, t': Tables, j: nat, r: nat) {
    (r in t.queue && t.queue[r].jobId == j) || (r in t'.queue && t'.queue[r].jobId == j)
    ==> r in t.queue && r in t'.queue && t'.queue[r] == t.queue[r]
  }

  /** Two states have the same job `j` and the same rows of it. */
  ghost predicate SameJob(t: Tables, t': Tables, j: nat) {
    j in t.jobs && j in t'.jobs && t'.jobs[j] == t.jobs[j] && forall r: nat :: SameRow(t, t', j, r)
  }

  /** No job but `j`, and no row of another job, is touched. */
  ghost predicate OthersKept(t: Tables, t': Tables, j: nat) {
    forall k | k != j && (k in t.jobs || k in t'.jobs) :: SameJob(t, t', k)
  }

  /** Clearing the rows of a job touches no other job. */
  lemma ClearsOwnRows(t: Tables, j: nat)
    ensures OthersKept(t, ClearRows(t, j), j) && RowsOf(ClearRows(t, j), j) == {}
  {
  }

  /** The other transactions on one job touch no other job either. */
  lemma EndsOwnGeneration(t: Tables, j: nat, now: int, failed: bool)
    ensures OthersKept(t, FinishGeneration(t, j, failed), j)
    ensures OthersKept(t, StartJob(t, j, now), j)
  {
  }

  lemma RetriesOwnRows(t: Tables, j: nat)
    requires j in t.jobs
    ensures OthersKept(t, Retry(t, j), j)
  {
  }

  lemma CancelsOwnRows(t: Tables, j: nat)
    requires j in t.jobs
    ensures OthersKept(t, Cancel(t, j), j)
  {
  }

  /** Cancelling a job leaves its rows that are pending or in error, and no other. */
  lemma CancelledRows(t: Tables, j: nat)
    requires j in t.jobs
    ensures RowsOf(Cancel(t, j), j) == RowsWith(t, j, RowPending) + RowsWith(t, j, RowError)
    ensures forall r | r in RowsOf(Cancel(t, j), j) :: Cancel(t, j).queue[r] == t.queue[r]
  {
  }

  /** Retrying a job keeps its rows and their metatiles; none is in error any more. */
  lemma RetriedRows(t: Tables, j: nat)
    requires j in t.jobs
    ensures RowsOf(Retry(t, j), j) == RowsOf(t, j) && RowsWith(Retry(t, j), j, RowError) == {}
    ensures RowsWith(Retry(t, j), j, RowPending) == RowsWith(t, j, RowPending)
    ensures forall r | r in RowsOf(t, j) :: Retry(t, j).queue[r].metaTile == t.queue[r].metaTile
  {
  }

  /** Settling a row touches no job and no other row; the row is then not pending. */
  lemma SettlesOneRow(t: Tables, r: nat, error: Option<string>)
    ensures DeleteOne(t, r, error).jobs == t.jobs
    ensures r in DeleteOne(t, r, error).queue ==> !DeleteOne(t, r, error).queue[r].status.RowPending?
    ensures forall q | q != r ::
              (q in DeleteOne(t, r, error).queue <==> q in t.queue)
              && (q in t.queue ==> DeleteOne(t, r, error).queue[q] == t.queue[q])
  {
  }

  /** Restarting overdue work leaves no overdue pending job or row, and touches no
      other; no job and no row is added or removed. */
  lemma RestartsOverdue(t: Tables, now: int, maxPending: nat)
    ensures var t' := RestartPendingJobs(t, now, maxPending);
      t'.queue == t.queue && t'.jobs.Keys == t.jobs.Keys
      && forall j | j in t.jobs ::
           !(t'.jobs[j].status.JobPending? && Overdue(t'.jobs[j].startedAt, now, maxPending))
           && (t'.jobs[j] != t.jobs[j] ==>
                 t.jobs[j].status.JobPending? && t.jobs[j].startedAt.Some?
                 && t.jobs[j].startedAt.value < now - maxPending && t'.jobs[j] == t.jobs[j].(status := JobCreated))
    ensures var t' := RestartPendingRows(t, now, maxPending);
      t'.jobs == t.jobs && t'.queue.Keys == t.queue.Keys
      && forall r | r in t.queue ::
           !(t'.queue[r].status.RowPending? && Overdue(t'.queue[r].startedAt, now, maxPending))
           && (t'.queue[r] != t.queue[r] ==>
                 t.queue[r].status.RowPending? && t.queue[r].startedAt.Some?
                 && t.queue[r].startedAt.value < now - maxPending && t'.queue[r] == t.queue[r].(status := RowCreated))
  {
  }

  /** Whenever a config file has available rows, one of them comes next. */
  lemma NextRowExists(t: Tables, configFilename: string)
    requires exists q :: Available(t, q, configFilename)
    ensures exists r :: NextRow(t, r, configFilename)
  {
    var rows := set q | q in t.queue && Available(t, q, configFilename);
    var q :| Available(t, q, configFilename);
    assert q in rows;
    var r := LeastRow(t, rows, configFilename);
    assert NextRow(t, r, configFilename);
  }

  lemma LeastRow(t: Tables, rows: set<nat>, configFilename: string) returns (r: nat)
    requires rows != {} && forall q | q in rows :: Available(t, q, configFilename)
    ensures r in rows && Available(t, r, configFilename)
    ensures forall q | q in rows :: Available(t, q, configFilename) && Before(t, r, q)
  {
    r :| r in rows;
    if rows != {r} {
      assert rows == {r} + (rows - {r});
      var m := LeastRow(t, rows - {r}, configFilename);
      if !Before(t, r, m) { r := m; }
    }
  }

  /** Whenever a config file has waiting jobs, one of them is an oldest one. */
  lemma OldestWaitingExists(t: Tables, configFilename: string)
    requires exists k :: Waiting(t, k, configFilename)
    ensures exists j :: OldestWaiting(t, j, configFilename)
  {
    var jobs := set k | k in t.jobs && Waiting(t, k, configFilename);
    var k :| Waiting(t, k, configFilename);
    assert k in jobs;
    var j := OldestJob(t, jobs);
    assert OldestWaiting(t, j, configFilename);
  }

  lemma OldestJob(t: Tables, jobs: set<nat>) returns (j: nat)
    requires jobs != {} && jobs <= t.jobs.Keys
    ensures j in jobs && forall k | k in jobs :: t.jobs[j].createdAt <= t.jobs[k].createdAt
  {
    j :| j in jobs;
    if jobs != {j} {
      assert jobs == {j} + (jobs - {j});
      var m := OldestJob(t, jobs - {j});
      if t.jobs[m].createdAt < t.jobs[j].createdAt { j := m; }
    }
  }
}
