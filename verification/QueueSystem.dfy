/** The whole queue protocol: the tables, the queue generations that fill them,
    the workers that empty them, and a clock.

    One event is one transaction, or one uninterruptible step of a worker, and
    events of all processes interleave freely. `put`, `completed`, `base` and
    `firstHandOut` are history: no event depends on them. */
module QueueSystem {
  import opened Common
  import T = QueueTables
  import C = Countdown

  /** What the process that is generating a job's queue is doing: about to start
      the job's command, filling the queue, or filling it as a master process
      that created the job itself. */
  datatype Generation = Starting | Filling | FillingAsMaster

  /** A slave process that was handed row `row`. */
  datatype Worker = Worker(row: nat, metatile: C.Metatile)

  /** `put`          the rows of each job's last queue generation
      `completed`    the rows removed by an error-free `delete_one`, and whose it was
      `base`         the rows a job had at its last activation or retry
      `firstHandOut` when the first row was handed out since then */
  datatype System = System(
    tables: T.Tables,
    now: int,
    maxPending: nat,
    generations: map<nat, Generation>,
    workers: map<nat, Worker>,
    put: map<nat, T.NewRow>,
    completed: map<nat, nat>,
    base: map<nat, set<nat>>,
    firstHandOut: map<nat, Option<int>>)

  datatype Event =
    | Tick(seconds: nat)
    | CreateJob(configFilename: string, command: T.Command)
    | CreateMasterJob(configFilename: string)
    | RestartPendingJobs
    | PickJob(job: nat, configFilename: string)
    | Reject(job: nat)
    | FinishSubprocess(job: nat, failed: bool)
    | ClearRows(job: nat)
    | Insert(job: nat, metaTile: T.Message)
    | FinishGeneration(job: nat, failed: bool)
    | StartJob(job: nat, failed: bool)
    | StopGeneration(job: nat)
    | Retry(job: nat, configFilename: string)
    | Cancel(job: nat, configFilename: string)
    | Verdicts
    | RestartPendingRows
    | HandOut(row: nat, configFilename: string, worker: nat)
    | Work(worker: nat, what: C.Event)
    | Deliver(worker: nat, message: string)

  predicate Generating(s: System, j: nat, g: Generation) {
    j in s.generations && s.generations[j] == g
  }

  ghost predicate Init(s: System) {
    s.tables == T.EMPTY_TABLES && s.generations == map[] && s.workers == map[] && s.put == map[]
    && s.completed == map[] && s.base == map[] && s.firstHandOut == map[]
  }

  // ----- Who does what -----

  /** The events of users and of the clock. */
  predicate ByUser(e: Event) { e.Tick? || e.CreateJob? || e.CreateMasterJob? || e.Retry? || e.Cancel? }

  /** The events of the periodic maintenance. */
  predicate ByMaintenance(e: Event) { e.RestartPendingJobs? || e.PickJob? || e.Verdicts? || e.RestartPendingRows? }

  /** The events of the workers. */
  predicate ByWorker(e: Event) { e.HandOut? || e.Work? || e.Deliver? }

  ghost predicate UserEnabled(s: System, e: Event) {
    match e
    case Retry(j, c) => T.CanRetry(s.tables, j, c)
    case Cancel(j, c) => T.CanCancel(s.tables, j, c)
    case _ => ByUser(e)
  }

  ghost predicate MaintenanceEnabled(s: System, e: Event) {
    match e
    // A running queue generation finishes before its job is given up.
    case RestartPendingJobs =>
      forall j | j in s.generations && j in s.tables.jobs ::
        !T.Overdue(s.tables.jobs[j].startedAt, s.now, s.maxPending)
    case PickJob(j, c) => T.OldestWaiting(s.tables, j, c)
    case _ => ByMaintenance(e)
  }

  ghost predicate GenerationEnabled(s: System, e: Event) {
    match e
    case Reject(j) =>
      Generating(s, j, Starting) && j in s.tables.jobs && s.tables.jobs[j].command.NotAllowed?
    case FinishSubprocess(j, _) =>
      Generating(s, j, Starting) && j in s.tables.jobs && s.tables.jobs[j].command.Subprocess?
    case ClearRows(j) =>
      Generating(s, j, Starting) && j in s.tables.jobs && s.tables.jobs[j].command.FillsQueue?
    case Insert(j, _) => Generating(s, j, Filling) || Generating(s, j, FillingAsMaster)
    case FinishGeneration(j, _) => Generating(s, j, Filling) && j in s.tables.jobs
    case StartJob(j, _) => Generating(s, j, FillingAsMaster)
    case StopGeneration(j) => j in s.generations
    case _ => false
  }

  ghost predicate WorkerEnabled(s: System, e: Event) {
    match e
    case HandOut(r, c, w) => T.NextRow(s.tables, r, c) && w !in s.workers
    case Work(w, c) => w in s.workers && !c.Delivered? && C.Enabled(s.workers[w].metatile, c)
    case Deliver(w, _) => w in s.workers && C.Enabled(s.workers[w].metatile, C.Delivered)
    case _ => false
  }

  ghost predicate Enabled(s: System, e: Event) {
    if ByUser(e) then UserEnabled(s, e)
    else if ByMaintenance(e) then MaintenanceEnabled(s, e)
    else if ByWorker(e) then WorkerEnabled(s, e)
    else GenerationEnabled(s, e)
  }

  /** A job becomes started: its rows at this moment are what it has to complete. */
  function Activate(s: System, tables: T.Tables, j: nat): System {
    s.(tables := tables, generations := s.generations - {j},
       base := s.base[j := T.RowsOf(tables, j)], firstHandOut := s.firstHandOut[j := None])
  }

  function UserStep(s: System, e: Event): System
    requires UserEnabled(s, e)
  {
    match e
    case Tick(seconds) => s.(now := s.now + seconds)
    case CreateJob(c, command) => s.(tables := T.CreateJob(s.tables, c, command, T.JobCreated, s.now))
    case CreateMasterJob(c) =>
      s.(tables := T.CreateJob(s.tables, c, T.FillsQueue, T.JobPending, s.now),
         generations := s.generations[s.tables.nextJobId := FillingAsMaster])
    case Retry(j, _) => Activate(s, T.Retry(s.tables, j), j)
    case Cancel(j, _) => s.(tables := T.Cancel(s.tables, j))
  }

  function MaintenanceStep(s: System, e: Event): System
    requires MaintenanceEnabled(s, e)
  {
    match e
    case RestartPendingJobs => s.(tables := T.RestartPendingJobs(s.tables, s.now, s.maxPending))
    case PickJob(j, _) => s.(tables := T.PickJob(s.tables, j, s.now), generations := s.generations[j := Starting])
    case Verdicts => s.(tables := T.Verdicts(s.tables))
    case RestartPendingRows => s.(tables := T.RestartPendingRows(s.tables, s.now, s.maxPending))
  }

  function GenerationStep(s: System, e: Event): System
    requires GenerationEnabled(s, e)
  {
    match e
    case Reject(j) => s.(tables := T.SetStatus(s.tables, j, T.JobError), generations := s.generations - {j})
    case FinishSubprocess(j, failed) =>
      s.(tables := T.SetStatus(s.tables, j, if failed then T.JobError else T.JobDone),
         generations := s.generations - {j})
    case ClearRows(j) =>
      s.(tables := T.ClearRows(s.tables, j), generations := s.generations[j := Filling],
         put := map r | r in s.put && s.put[r].jobId != j :: s.put[r])
    case Insert(j, m) =>
      s.(tables := T.Insert(s.tables, T.NewRow(j, m)), put := s.put[s.tables.nextRowId := T.NewRow(j, m)])
    case FinishGeneration(j, failed) => Activate(s, T.FinishGeneration(s.tables, j, failed), j)
    // A master process starts its job even when its command will exit with an error.
    case StartJob(j, _) => Activate(s, T.StartJob(s.tables, j, s.now), j)
    case StopGeneration(j) => s.(generations := s.generations - {j})
  }

  function WorkerStep(s: System, e: Event): System
    requires WorkerEnabled(s, e)
  {
    match e
    case HandOut(r, _, w) =>
      var j := s.tables.queue[r].jobId;
      var first := if j in s.firstHandOut && s.firstHandOut[j].Some? then s.firstHandOut[j] else Some(s.now);
      s.(tables := T.HandOut(s.tables, r, s.now),
         workers := s.workers[w := Worker(r, C.Start(s.tables.queue[r].metaTile.coord.n))],
         firstHandOut := s.firstHandOut[j := first])
    case Work(w, c) =>
      s.(workers := s.workers[w := s.workers[w].(metatile := C.Step(s.workers[w].metatile, c))])
    case Deliver(w, message) =>
      var r, error := s.workers[w].row, s.workers[w].metatile.outbox[0];
      s.(tables := T.DeleteOne(s.tables, r, if error then Some(message) else None),
         workers := s.workers[w := s.workers[w].(metatile := C.Step(s.workers[w].metatile, C.Delivered))],
         completed := if !error && r in s.tables.queue && s.tables.queue[r].status.RowPending?
                      then s.completed[r := w] else s.completed)
  }

  function Step(s: System, e: Event): System
    requires Enabled(s, e)
  {
    if ByUser(e) then UserStep(s, e)
    else if ByMaintenance(e) then MaintenanceStep(s, e)
    else if ByWorker(e) then WorkerStep(s, e)
    else GenerationStep(s, e)
  }

  // ----- Invariants -----

  predicate HandedOutJob(status: T.JobStatus) { !status.JobCreated? && !status.JobPending? }

  /** A job that was not started yet has no first hand-out. A started job has a
      base as large as its total, and the time of its first hand-out. */
  ghost predicate JobOk(s: System, j: nat)
    requires j in s.tables.jobs
  {
    var job := s.tables.jobs[j];
    && j < s.tables.nextJobId
    && (!HandedOutJob(job.status) ==> job.tilesStartedAt.None?)
    && (job.status.JobStarted? ==>
          && j in s.base && |s.base[j]| == job.metaTilesTotal
          && j in s.firstHandOut && job.tilesStartedAt == s.firstHandOut[j])
  }

  /** A queue generation runs for a pending job. */
  ghost predicate GenerationOk(s: System, j: nat)
    requires j in s.generations
  {
    j in s.tables.jobs && s.tables.jobs[j].status.JobPending?
    && (!s.generations[j].Starting? ==> s.tables.jobs[j].command.FillsQueue?)
  }

  /** A row belongs to a job that fills the queue and is not done; it was put, it
      is not completed, and it is part of what its job has to complete. Only
      started and cancelled jobs have pending rows. */
  ghost predicate RowOk(s: System, r: nat)
    requires r in s.tables.queue
  {
    var row := s.tables.queue[r];
    && r in s.put && s.put[r] == T.NewRow(row.jobId, row.metaTile) && r !in s.completed
    && row.jobId in s.tables.jobs
    && var job := s.tables.jobs[row.jobId];
       && job.command.FillsQueue?
       && !job.status.JobDone?
       && (row.status.RowPending? ==> job.status.JobStarted? || job.status.JobCancelled?)
       && (job.status.JobStarted? ==> row.jobId in s.base && r in s.base[row.jobId])
  }

  /** A row of a job's last queue generation is in the queue or completed, unless
      the job was cancelled. */
  ghost predicate PutOk(s: System, r: nat)
    requires r in s.put
  {
    && r < s.tables.nextRowId
    && s.put[r].jobId in s.tables.jobs
    && (s.tables.jobs[s.put[r].jobId].status.JobCancelled? || r in s.tables.queue || r in s.completed)
  }

  /** A completed row was completed by a worker all of whose tiles were stored or
      dropped as empty. */
  ghost predicate CompletedOk(s: System, r: nat)
    requires r in s.completed
  {
    && r in s.put
    && s.completed[r] in s.workers
    && s.workers[s.completed[r]].row == r
    && C.Clean(s.workers[s.completed[r]].metatile)
  }

  ghost predicate WorkerOk(s: System, w: nat)
    requires w in s.workers
  {
    var worker := s.workers[w];
    && C.Inv(worker.metatile)
    && worker.row in s.put
    && worker.metatile.n == s.put[worker.row].metaTile.coord.n
    && s.put[worker.row].jobId in s.tables.jobs
    && HandedOutJob(s.tables.jobs[s.put[worker.row].jobId].status)
  }

  /** What a started job has to complete is in the queue or completed. */
  ghost predicate BaseOk(s: System, j: nat, r: nat) {
    j in s.tables.jobs && s.tables.jobs[j].status.JobStarted? && j in s.base && r in s.base[j] ==>
      r in s.put && s.put[r].jobId == j
  }

  ghost predicate Inv(s: System) {
    && (forall j | j in s.tables.jobs :: JobOk(s, j))
    && (forall j | j in s.generations :: GenerationOk(s, j))
    && (forall r | r in s.tables.queue :: RowOk(s, r))
    && (forall r | r in s.put :: PutOk(s, r))
    && (forall r | r in s.completed :: CompletedOk(s, r))
    && (forall w | w in s.workers :: WorkerOk(s, w))
    && (forall j: nat, r: nat :: BaseOk(s, j, r))
  }

  lemma InitInv(s: System)
    requires Init(s)
    ensures Inv(s)
  {
  }

  lemma VerdictFacts(t: T.Tables, r: nat)
    requires r in t.queue
    ensures t.queue[r].status.RowPending? ==> T.Verdict(t, t.queue[r].jobId).JobStarted?
    ensures !T.Verdict(t, t.queue[r].jobId).JobDone?
  {
    assert r in T.RowsWith(t, t.queue[r].jobId, t.queue[r].status);
  }

  /** Every queue generation runs for a pending job, and the next ids are new. */
  ghost predicate Ready(s: System) {
    && (forall j | j in s.generations :: GenerationOk(s, j))
    && s.tables.nextJobId !in s.tables.jobs
    && s.tables.nextRowId !in s.put
    && s.tables.nextRowId !in s.completed
  }

  /** What is kept of job `j`. */
  ghost predicate JobKept(s: System, j: nat) {
    (j in s.tables.jobs ==> JobOk(s, j)) && (j in s.generations ==> GenerationOk(s, j))
  }

  /** What is kept of row `r`. */
  ghost predicate RowKept(s: System, r: nat) {
    (r in s.tables.queue ==> RowOk(s, r)) && (r in s.put ==> PutOk(s, r))
  }

  /** What is kept of a completed row. */
  ghost predicate CompletionKept(s: System, r: nat) { r in s.completed ==> CompletedOk(s, r) }

  ghost predicate WorkerKept(s: System, w: nat) { w in s.workers ==> WorkerOk(s, w) }

  lemma ReadyFromInv(s: System)
    requires Inv(s)
    ensures Ready(s)
  {
    assert s.tables.nextJobId in s.tables.jobs ==> JobOk(s, s.tables.nextJobId);
    assert s.tables.nextRowId in s.put ==> PutOk(s, s.tables.nextRowId);
    assert s.tables.nextRowId in s.completed ==> CompletedOk(s, s.tables.nextRowId);
  }

  // Users.

  lemma UserKeepsJob(s: System, e: Event, j: nat)
    requires UserEnabled(s, e) && Ready(s) && JobKept(s, j)
    ensures JobKept(UserStep(s, e), j)
  {
    if e.Retry? {
      assert T.RowsOf(T.Retry(s.tables, e.job), e.job) == T.RowsOf(s.tables, e.job);
    }
  }

  lemma UserKeepsRow(s: System, e: Event, r: nat)
    requires UserEnabled(s, e) && Ready(s) && RowKept(s, r)
    ensures RowKept(UserStep(s, e), r)
  {
  }

  lemma UserKeepsCompletion(s: System, e: Event, r: nat)
    requires UserEnabled(s, e) && CompletionKept(s, r)
    ensures CompletionKept(UserStep(s, e), r)
  {
  }

  lemma UserKeepsWorker(s: System, e: Event, w: nat)
    requires UserEnabled(s, e) && Ready(s) && WorkerKept(s, w)
    ensures WorkerKept(UserStep(s, e), w)
  {
  }

  lemma UserKeepsBase(s: System, e: Event, j: nat, r: nat)
    requires UserEnabled(s, e) && Ready(s) && BaseOk(s, j, r) && RowKept(s, r)
    ensures BaseOk(UserStep(s, e), j, r)
  {
  }

  lemma UserKeeps(s: System, e: Event)
    requires Inv(s) && UserEnabled(s, e)
    ensures Inv(UserStep(s, e))
  {
    ReadyFromInv(s);
    forall j: nat ensures JobKept(UserStep(s, e), j) { UserKeepsJob(s, e, j); }
    forall r: nat ensures RowKept(UserStep(s, e), r) { UserKeepsRow(s, e, r); }
    forall r: nat ensures CompletionKept(UserStep(s, e), r) { UserKeepsCompletion(s, e, r); }
    forall w: nat ensures WorkerKept(UserStep(s, e), w) { UserKeepsWorker(s, e, w); }
    forall j: nat, r: nat ensures BaseOk(UserStep(s, e), j, r) { UserKeepsBase(s, e, j, r); }
    InvFromKept(UserStep(s, e));
  }

  lemma InvFromKept(s: System)
    requires forall j :: JobKept(s, j)
    requires forall r :: RowKept(s, r)
    requires forall r :: CompletionKept(s, r)
    requires forall w :: WorkerKept(s, w)
    requires forall j: nat, r: nat :: BaseOk(s, j, r)
    ensures Inv(s)
  {
    forall j | j in s.tables.jobs ensures JobOk(s, j) { assert JobKept(s, j); }
    forall j | j in s.generations ensures GenerationOk(s, j) { assert JobKept(s, j); }
    forall r | r in s.tables.queue ensures RowOk(s, r) { assert RowKept(s, r); }
    forall r | r in s.put ensures PutOk(s, r) { assert RowKept(s, r); }
    forall r | r in s.completed ensures CompletedOk(s, r) { assert CompletionKept(s, r); }
    forall w | w in s.workers ensures WorkerOk(s, w) { assert WorkerKept(s, w); }
  }

  // Maintenance.

  lemma MaintenanceKeepsJob(s: System, e: Event, j: nat)
    requires MaintenanceEnabled(s, e) && JobKept(s, j)
    ensures JobKept(MaintenanceStep(s, e), j)
  {
  }

  lemma MaintenanceKeepsRow(s: System, e: Event, r: nat)
    requires MaintenanceEnabled(s, e) && RowKept(s, r)
    ensures RowKept(MaintenanceStep(s, e), r)
  {
    if r in s.tables.queue {
      VerdictFacts(s.tables, r);
    }
  }

  lemma MaintenanceKeepsCompletion(s: System, e: Event, r: nat)
    requires MaintenanceEnabled(s, e) && CompletionKept(s, r)
    ensures CompletionKept(MaintenanceStep(s, e), r)
  {
  }

  lemma MaintenanceKeepsWorker(s: System, e: Event, w: nat)
    requires MaintenanceEnabled(s, e) && WorkerKept(s, w)
    ensures WorkerKept(MaintenanceStep(s, e), w)
  {
  }

  lemma MaintenanceKeepsBase(s: System, e: Event, j: nat, r: nat)
    requires MaintenanceEnabled(s, e) && BaseOk(s, j, r)
    ensures BaseOk(MaintenanceStep(s, e), j, r)
  {
  }

  lemma MaintenanceKeeps(s: System, e: Event)
    requires Inv(s) && MaintenanceEnabled(s, e)
    ensures Inv(MaintenanceStep(s, e))
  {
    forall j: nat ensures JobKept(MaintenanceStep(s, e), j) { MaintenanceKeepsJob(s, e, j); }
    forall r: nat ensures RowKept(MaintenanceStep(s, e), r) { MaintenanceKeepsRow(s, e, r); }
    forall r: nat ensures CompletionKept(MaintenanceStep(s, e), r) { MaintenanceKeepsCompletion(s, e, r); }
    forall w: nat ensures WorkerKept(MaintenanceStep(s, e), w) { MaintenanceKeepsWorker(s, e, w); }
    forall j: nat, r: nat ensures BaseOk(MaintenanceStep(s, e), j, r) { MaintenanceKeepsBase(s, e, j, r); }
    InvFromKept(MaintenanceStep(s, e));
  }

  // Queue generations.

  lemma GenerationKeepsJob(s: System, e: Event, j: nat)
    requires GenerationEnabled(s, e) && Ready(s) && JobKept(s, j)
    ensures JobKept(GenerationStep(s, e), j)
  {
    if e.FinishGeneration? || e.StartJob? {
      assert T.RowsOf(GenerationStep(s, e).tables, e.job) == T.RowsOf(s.tables, e.job);
    }
  }

  lemma GenerationKeepsRow(s: System, e: Event, r: nat)
    requires GenerationEnabled(s, e) && Ready(s) && RowKept(s, r)
    ensures RowKept(GenerationStep(s, e), r)
  {
    if e.ClearRows? || e.Insert? {
      FillingKeepsRow(s, e, r);
    } else {
      EndingKeepsRow(s, e, r);
    }
  }

  lemma FillingKeepsRow(s: System, e: Event, r: nat)
    requires GenerationEnabled(s, e) && Ready(s) && RowKept(s, r) && (e.ClearRows? || e.Insert?)
    ensures RowKept(GenerationStep(s, e), r)
  {
  }

  lemma EndingKeepsRow(s: System, e: Event, r: nat)
    requires GenerationEnabled(s, e) && Ready(s) && RowKept(s, r) && !e.ClearRows? && !e.Insert?
    ensures RowKept(GenerationStep(s, e), r)
  {
  }

  lemma GenerationKeepsCompletion(s: System, e: Event, r: nat)
    requires GenerationEnabled(s, e) && Ready(s) && CompletionKept(s, r)
    requires r in s.completed ==> WorkerKept(s, s.completed[r])
    ensures CompletionKept(GenerationStep(s, e), r)
  {
  }

  lemma GenerationKeepsWorker(s: System, e: Event, w: nat)
    requires GenerationEnabled(s, e) && Ready(s) && WorkerKept(s, w)
    ensures WorkerKept(GenerationStep(s, e), w)
  {
  }

  lemma GenerationKeepsBase(s: System, e: Event, j: nat, r: nat)
    requires GenerationEnabled(s, e) && Ready(s) && BaseOk(s, j, r) && RowKept(s, r)
    ensures BaseOk(GenerationStep(s, e), j, r)
  {
  }

  lemma GenerationKeeps(s: System, e: Event)
    requires Inv(s) && GenerationEnabled(s, e)
    ensures Inv(GenerationStep(s, e))
  {
    ReadyFromInv(s);
    forall j: nat ensures JobKept(GenerationStep(s, e), j) { GenerationKeepsJob(s, e, j); }
    forall r: nat ensures RowKept(GenerationStep(s, e), r) { GenerationKeepsRow(s, e, r); }
    forall r: nat ensures CompletionKept(GenerationStep(s, e), r) { GenerationKeepsCompletion(s, e, r); }
    forall w: nat ensures WorkerKept(GenerationStep(s, e), w) { GenerationKeepsWorker(s, e, w); }
    forall j: nat, r: nat ensures BaseOk(GenerationStep(s, e), j, r) { GenerationKeepsBase(s, e, j, r); }
    InvFromKept(GenerationStep(s, e));
  }

  // Workers.

  lemma WorkerKeepsJob(s: System, e: Event, j: nat)
    requires WorkerEnabled(s, e) && JobKept(s, j)
    ensures JobKept(WorkerStep(s, e), j)
  {
  }

  lemma WorkerKeepsRow(s: System, e: Event, r: nat)
    requires WorkerEnabled(s, e) && RowKept(s, r)
    ensures RowKept(WorkerStep(s, e), r)
  {
  }

  lemma WorkerKeepsCompletion(s: System, e: Event, r: nat)
    requires WorkerEnabled(s, e) && CompletionKept(s, r)
    requires !e.HandOut? ==> WorkerOk(s, e.worker) && RowKept(s, s.workers[e.worker].row)
    ensures CompletionKept(WorkerStep(s, e), r)
  {
    if e.Work? && r in s.completed && e.worker == s.completed[r] {
      C.CleanKept(s.workers[e.worker].metatile, e.what);
    }
  }

  lemma WorkerKeepsWorker(s: System, e: Event, w: nat)
    requires WorkerEnabled(s, e) && WorkerKept(s, w)
    requires e.HandOut? ==> RowOk(s, e.row)
    ensures WorkerKept(WorkerStep(s, e), w)
  {
    match e
    case HandOut(r, c, v) => HandOutKeepsWorker(s, r, c, v, w);
    case Work(v, what) => WorkKeepsWorker(s, v, what, w);
    case Deliver(v, message) => DeliverKeepsWorker(s, v, message, w);
  }

  lemma HandOutKeepsWorker(s: System, r: nat, c: string, v: nat, w: nat)
    requires WorkerEnabled(s, HandOut(r, c, v)) && WorkerKept(s, w) && RowOk(s, r)
    ensures WorkerKept(WorkerStep(s, HandOut(r, c, v)), w)
  {
    C.StartInv(s.tables.queue[r].metaTile.coord.n);
  }

  lemma WorkKeepsWorker(s: System, v: nat, what: C.Event, w: nat)
    requires WorkerEnabled(s, Work(v, what)) && WorkerKept(s, w)
    ensures WorkerKept(WorkerStep(s, Work(v, what)), w)
  {
    if v == w { C.StepInv(s.workers[w].metatile, what); }
  }

  lemma DeliverKeepsWorker(s: System, v: nat, message: string, w: nat)
    requires WorkerEnabled(s, Deliver(v, message)) && WorkerKept(s, w)
    ensures WorkerKept(WorkerStep(s, Deliver(v, message)), w)
  {
    if v == w { C.StepInv(s.workers[w].metatile, C.Delivered); }
  }

  lemma WorkerKeepsBase(s: System, e: Event, j: nat, r: nat)
    requires WorkerEnabled(s, e) && BaseOk(s, j, r)
    ensures BaseOk(WorkerStep(s, e), j, r)
  {
  }

  lemma WorkerKeeps(s: System, e: Event)
    requires Inv(s) && WorkerEnabled(s, e)
    ensures Inv(WorkerStep(s, e))
  {
    forall j: nat ensures JobKept(WorkerStep(s, e), j) { WorkerKeepsJob(s, e, j); }
    forall r: nat ensures RowKept(WorkerStep(s, e), r) { WorkerKeepsRow(s, e, r); }
    forall r: nat ensures CompletionKept(WorkerStep(s, e), r) { WorkerKeepsCompletion(s, e, r); }
    forall w: nat ensures WorkerKept(WorkerStep(s, e), w) { WorkerKeepsWorker(s, e, w); }
    forall j: nat, r: nat ensures BaseOk(WorkerStep(s, e), j, r) { WorkerKeepsBase(s, e, j, r); }
    InvFromKept(WorkerStep(s, e));
  }

  /** Every event of every process keeps the invariant. */
  lemma StepInv(s: System, e: Event)
    requires Inv(s) && Enabled(s, e)
    ensures Inv(Step(s, e))
  {
    if ByUser(e) {
      UserKeeps(s, e);
    } else if ByMaintenance(e) {
      MaintenanceKeeps(s, e);
    } else if ByWorker(e) {
      WorkerKeeps(s, e);
    } else {
      GenerationKeeps(s, e);
    }
  }
}
