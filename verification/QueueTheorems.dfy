/** What the queue protocol guarantees over every run. */
module QueueTheorems {
  import opened Common
  import T = QueueTables
  import C = Countdown
  import opened QueueSystem

  ghost predicate Next(s: System, e: Event, s': System) {
    Enabled(s, e) && s' == Step(s, e)
  }

  /** Event `es[i]` leads from `ss[i]` to the state behind it. */
  ghost predicate StepAt(ss: seq<System>, es: seq<Event>, i: nat)
    requires |ss| == |es| + 1 && i < |es|
  {
    Next(ss[i], es[i], ss[i + 1])
  }

  /** `ss` are the states of a run from an empty database, `es` its events. */
  ghost predicate IsRun(ss: seq<System>, es: seq<Event>) {
    |ss| == |es| + 1 && Init(ss[0]) && forall i | 0 <= i < |es| :: StepAt(ss, es, i)
  }

  lemma {:induction false} RunInv(ss: seq<System>, es: seq<Event>, i: nat)
    requires IsRun(ss, es) && i < |ss|
    ensures Inv(ss[i])
  {
    if i == 0 {
      InitInv(ss[0]);
    } else {
      RunInv(ss, es, i - 1);
      assert StepAt(ss, es, i - 1);
      StepInv(ss[i - 1], es[i - 1]);
    }
  }

  // ----- End to end -----

  /** When a job is done, its queue is empty, and every row of its last queue
      generation was removed by the error-free `delete_one` of a worker that was
      handed that very row and whose n*n tiles were all stored or dropped. */
  lemma DoneMeansGenerated(ss: seq<System>, es: seq<Event>, i: nat, j: nat)
    requires IsRun(ss, es) && i < |ss|
    requires j in ss[i].tables.jobs && ss[i].tables.jobs[j].status.JobDone?
    ensures T.RowsOf(ss[i].tables, j) == {}
    ensures forall r | r in ss[i].put && ss[i].put[r].jobId == j ::
      && r in ss[i].completed && ss[i].completed[r] in ss[i].workers
      && var worker := ss[i].workers[ss[i].completed[r]];
         && worker.row == r
         && worker.metatile.n == ss[i].put[r].metaTile.coord.n
         && (worker.metatile.empty
             || (|worker.metatile.children| == worker.metatile.n * worker.metatile.n
                 && forall c | c in worker.metatile.children :: c.Stored? || c.Dropped?))
  {
    RunInv(ss, es, i);
    var s := ss[i];
    forall r | r in s.put && s.put[r].jobId == j
      ensures r in s.completed && CompletedOk(s, r) && WorkerOk(s, s.completed[r])
    {
      assert PutOk(s, r);
      assert r in s.tables.queue ==> RowOk(s, r);
    }
    forall r | r in s.tables.queue ensures s.tables.queue[r].jobId != j { assert RowOk(s, r); }
  }

  /** Until a job is cancelled, no row of its last queue generation disappears
      other than by being completed. */
  lemma NoRowLost(ss: seq<System>, es: seq<Event>, i: nat, r: nat)
    requires IsRun(ss, es) && i < |ss| && r in ss[i].put
    ensures ss[i].put[r].jobId in ss[i].tables.jobs
    ensures !ss[i].tables.jobs[ss[i].put[r].jobId].status.JobCancelled? ==>
              (r in ss[i].tables.queue <==> r !in ss[i].completed)
  {
    RunInv(ss, es, i);
    assert PutOk(ss[i], r);
    if r in ss[i].tables.queue { assert RowOk(ss[i], r); }
  }

  // ----- Progress -----

  /** The rows of a job completed since its last activation or retry. */
  function CompletedSince(s: System, j: nat): set<nat>
    requires j in s.base
  {
    set r | r in s.base[j] && r in s.completed
  }

  lemma BaseRow(s: System, j: nat, r: nat)
    requires Inv(s) && j in s.tables.jobs && s.tables.jobs[j].status.JobStarted? && j in s.base
    ensures r in s.base[j] <==>
            (r in s.tables.queue && s.tables.queue[r].jobId == j) || r in CompletedSince(s, j)
    ensures r in s.tables.queue ==> r !in s.completed
  {
    assert BaseOk(s, j, r);
    assert r in s.put ==> PutOk(s, r);
    assert r in s.tables.queue ==> RowOk(s, r);
  }

  lemma CountBase(t: T.Tables, j: nat, base: set<nat>, completed: set<nat>)
    requires forall r :: r in base <==> (r in t.queue && t.queue[r].jobId == j) || r in completed
    requires forall r | r in t.queue && t.queue[r].jobId == j :: r !in completed
    ensures |base| == |T.RowsOf(t, j)| + |completed|
    ensures |T.RowsOf(t, j)|
         == |T.RowsWith(t, j, T.RowCreated)| + |T.RowsWith(t, j, T.RowPending)| + |T.RowsWith(t, j, T.RowError)|
  {
    var a, b, c := T.RowsWith(t, j, T.RowCreated), T.RowsWith(t, j, T.RowPending), T.RowsWith(t, j, T.RowError);
    assert T.RowsOf(t, j) == a + b + c && a !! b && (a + b) !! c;
    assert base == T.RowsOf(t, j) + completed && T.RowsOf(t, j) !! completed;
  }

  /** The total of a started job is the number of its queued rows plus the number
      of rows completed since its last activation or retry. */
  lemma ProgressConserved(s: System, j: nat)
    requires Inv(s) && j in s.tables.jobs && s.tables.jobs[j].status.JobStarted?
    ensures j in s.base && j in s.firstHandOut && s.tables.jobs[j].tilesStartedAt == s.firstHandOut[j]
    ensures s.tables.jobs[j].metaTilesTotal == |T.RowsOf(s.tables, j)| + |CompletedSince(s, j)|
    ensures |T.RowsOf(s.tables, j)|
      == |T.RowsWith(s.tables, j, T.RowCreated)| + |T.RowsWith(s.tables, j, T.RowPending)|
         + |T.RowsWith(s.tables, j, T.RowError)|
  {
    assert JobOk(s, j);
    forall r: nat
      ensures r in s.base[j] <==>
              (r in s.tables.queue && s.tables.queue[r].jobId == j) || r in CompletedSince(s, j)
      ensures r in s.tables.queue ==> r !in s.completed
    {
      BaseRow(s, j, r);
    }
    CountBase(s.tables, j, s.base[j], CompletedSince(s, j));
  }

  /** The estimated remaining seconds of a job with `queued` rows, as its status
      shows it: the two clamps guard against inconsistent counts. The quotient of
      two positive numbers is truncated, which is Dafny's integer division. */
  function EtaSeconds(job: T.Job, queued: nat, now: int): Option<int> {
    if job.status.JobStarted? && job.tilesStartedAt.Some? && job.metaTilesTotal > 0 then
      var remaining := Min(queued, job.metaTilesTotal);
      var processed := Max(job.metaTilesTotal - remaining, 0);
      var elapsed := now - job.tilesStartedAt.value;
      if processed > 0 && elapsed > 0 then Some(remaining * elapsed / processed)
      else if remaining == 0 then Some(0)
      else None
    else None
  }

  /** `eta` is the floor of queued * elapsed / completed, counted from `start`. There is no
      estimate before the first hand-out, nor one for queued rows before the first
      completion. */
  predicate IsEta(eta: Option<int>, queued: nat, completed: nat, start: Option<int>, now: int) {
    if start.None? then eta.None?
    else if completed > 0 && now > start.value then
      eta.Some? && eta.value * completed <= queued * (now - start.value) < eta.value * completed + completed
    else eta == if queued == 0 then Some(0) else None
  }

  lemma EtaIsFloor(job: T.Job, queued: nat, completed: nat, now: int)
    requires job.status.JobStarted? && job.metaTilesTotal == queued + completed > 0
    ensures IsEta(EtaSeconds(job, queued, now), queued, completed, job.tilesStartedAt, now)
  {
    if job.tilesStartedAt.Some? && completed > 0 {
      var total := queued * (now - job.tilesStartedAt.value);
      assert total == total / completed * completed + total % completed;
    }
  }

  /** In every reachable state the clamps are inert: the estimate of a started job
      is the floor of queued * elapsed / completed, counted since the first
      hand-out after its last activation or retry. */
  lemma EtaExact(ss: seq<System>, es: seq<Event>, i: nat, j: nat)
    requires IsRun(ss, es) && i < |ss|
    requires j in ss[i].tables.jobs && ss[i].tables.jobs[j].status.JobStarted?
    requires ss[i].tables.jobs[j].metaTilesTotal > 0
    ensures j in ss[i].base && j in ss[i].firstHandOut
    ensures var s := ss[i];
      var queued, completed := |T.RowsOf(s.tables, j)|, |CompletedSince(s, j)|;
      IsEta(EtaSeconds(s.tables.jobs[j], queued, s.now), queued, completed, s.firstHandOut[j], s.now)
  {
    RunInv(ss, es, i);
    ProgressConserved(ss[i], j);
    EtaIsFloor(ss[i].tables.jobs[j], |T.RowsOf(ss[i].tables, j)|, |CompletedSince(ss[i], j)|, ss[i].now);
  }

  // ----- Verdicts -----

  predicate Retries(e: Event, j: nat) { e.Retry? && e.job == j }

  lemma UserKeepsVerdict(s: System, e: Event, j: nat)
    requires UserEnabled(s, e) && !Retries(e, j)
    requires j in s.tables.jobs && Ready(s) && (s.tables.jobs[j].status.JobDone? || s.tables.jobs[j].status.JobError?)
    ensures j in UserStep(s, e).tables.jobs && UserStep(s, e).tables.jobs[j] == s.tables.jobs[j]
  {
  }

  lemma MaintenanceKeepsVerdict(s: System, e: Event, j: nat)
    requires MaintenanceEnabled(s, e)
    requires j in s.tables.jobs && Ready(s) && (s.tables.jobs[j].status.JobDone? || s.tables.jobs[j].status.JobError?)
    ensures j in MaintenanceStep(s, e).tables.jobs && MaintenanceStep(s, e).tables.jobs[j] == s.tables.jobs[j]
  {
  }

  lemma GenerationKeepsVerdict(s: System, e: Event, j: nat)
    requires GenerationEnabled(s, e)
    requires j in s.tables.jobs && Ready(s) && (s.tables.jobs[j].status.JobDone? || s.tables.jobs[j].status.JobError?)
    ensures j in GenerationStep(s, e).tables.jobs && GenerationStep(s, e).tables.jobs[j] == s.tables.jobs[j]
  {
  }

  lemma WorkerKeepsVerdict(s: System, e: Event, j: nat)
    requires WorkerEnabled(s, e)
    requires j in s.tables.jobs && Ready(s) && (s.tables.jobs[j].status.JobDone? || s.tables.jobs[j].status.JobError?)
    ensures j in WorkerStep(s, e).tables.jobs && WorkerStep(s, e).tables.jobs[j] == s.tables.jobs[j]
  {
  }

  lemma UserKeepsEndedRow(s: System, e: Event, j: nat, r: nat)
    requires UserEnabled(s, e) && !Retries(e, j)
    requires j in s.tables.jobs && Ready(s) && (s.tables.jobs[j].status.JobDone? || s.tables.jobs[j].status.JobError?)
    requires (r in s.tables.queue ==> RowOk(s, r)) && s.tables.nextRowId !in s.tables.queue
    ensures T.SameRow(s.tables, UserStep(s, e).tables, j, r)
  {
  }

  lemma MaintenanceKeepsEndedRow(s: System, e: Event, j: nat, r: nat)
    requires MaintenanceEnabled(s, e)
    requires j in s.tables.jobs && Ready(s) && (s.tables.jobs[j].status.JobDone? || s.tables.jobs[j].status.JobError?)
    requires (r in s.tables.queue ==> RowOk(s, r)) && s.tables.nextRowId !in s.tables.queue
    ensures T.SameRow(s.tables, MaintenanceStep(s, e).tables, j, r)
  {
  }

  lemma GenerationKeepsEndedRow(s: System, e: Event, j: nat, r: nat)
    requires GenerationEnabled(s, e)
    requires j in s.tables.jobs && Ready(s) && (s.tables.jobs[j].status.JobDone? || s.tables.jobs[j].status.JobError?)
    requires (r in s.tables.queue ==> RowOk(s, r)) && s.tables.nextRowId !in s.tables.queue
    ensures T.SameRow(s.tables, GenerationStep(s, e).tables, j, r)
  {
  }

  lemma WorkerKeepsEndedRow(s: System, e: Event, j: nat, r: nat)
    requires WorkerEnabled(s, e)
    requires j in s.tables.jobs && Ready(s) && (s.tables.jobs[j].status.JobDone? || s.tables.jobs[j].status.JobError?)
    requires (r in s.tables.queue ==> RowOk(s, r)) && s.tables.nextRowId !in s.tables.queue
    ensures T.SameRow(s.tables, WorkerStep(s, e).tables, j, r)
  {
  }

  lemma JobStable(s: System, e: Event, j: nat)
    requires Enabled(s, e) && Ready(s) && j in s.tables.jobs && !Retries(e, j)
    requires s.tables.jobs[j].status.JobDone? || s.tables.jobs[j].status.JobError?
    ensures j in Step(s, e).tables.jobs && Step(s, e).tables.jobs[j] == s.tables.jobs[j]
  {
    if ByUser(e) {
      UserKeepsVerdict(s, e, j);
    } else if ByMaintenance(e) {
      MaintenanceKeepsVerdict(s, e, j);
    } else if ByWorker(e) {
      WorkerKeepsVerdict(s, e, j);
    } else {
      GenerationKeepsVerdict(s, e, j);
    }
  }

  lemma RowStable(s: System, e: Event, j: nat, r: nat)
    requires Enabled(s, e) && Ready(s) && j in s.tables.jobs && !Retries(e, j)
    requires s.tables.jobs[j].status.JobDone? || s.tables.jobs[j].status.JobError?
    requires (r in s.tables.queue ==> RowOk(s, r)) && s.tables.nextRowId !in s.tables.queue
    ensures T.SameRow(s.tables, Step(s, e).tables, j, r)
  {
    if ByUser(e) {
      UserKeepsEndedRow(s, e, j, r);
    } else if ByMaintenance(e) {
      MaintenanceKeepsEndedRow(s, e, j, r);
    } else if ByWorker(e) {
      WorkerKeepsEndedRow(s, e, j, r);
    } else {
      GenerationKeepsEndedRow(s, e, j, r);
    }
  }

  lemma NextRowIdIsNew(s: System)
    requires Inv(s)
    ensures s.tables.nextRowId !in s.tables.queue
  {
    forall r | r in s.tables.queue ensures r != s.tables.nextRowId { assert RowOk(s, r) && PutOk(s, r); }
  }

  /** Once a job is done or in error, no event but its retry changes it or any of its rows. */
  lemma VerdictStable(s: System, e: Event, j: nat)
    requires Inv(s) && Enabled(s, e) && j in s.tables.jobs && !Retries(e, j)
    requires s.tables.jobs[j].status.JobDone? || s.tables.jobs[j].status.JobError?
    ensures T.SameJob(s.tables, Step(s, e).tables, j)
  {
    ReadyFromInv(s);
    NextRowIdIsNew(s);
    JobStable(s, e, j);
    forall r: nat ensures T.SameRow(s.tables, Step(s, e).tables, j, r) {
      RowStable(s, e, j, r);
    }
  }

  lemma SameJobTransitive(a: T.Tables, b: T.Tables, c: T.Tables, j: nat)
    requires T.SameJob(a, b, j) && T.SameJob(b, c, j)
    ensures T.SameJob(a, c, j)
  {
    forall r: nat ensures T.SameRow(a, c, j, r) {
      assert T.SameRow(a, b, j, r) && T.SameRow(b, c, j, r);
    }
  }

  /** The same over any stretch of a run without a retry of the job. A done job
      cannot be retried, so it never changes again. */
  lemma {:induction false} VerdictKept(ss: seq<System>, es: seq<Event>, i: nat, k: nat, j: nat)
    requires IsRun(ss, es) && i <= k < |ss| && j in ss[i].tables.jobs
    requires ss[i].tables.jobs[j].status.JobDone?
             || (ss[i].tables.jobs[j].status.JobError? && forall m | i <= m < k :: !Retries(es[m], j))
    ensures T.SameJob(ss[i].tables, ss[k].tables, j)
  {
    if i >= k {
    } else {
      VerdictKept(ss, es, i, k - 1, j);
      OneMoreStep(ss, es, i, k - 1, j);
    }
  }

  lemma OneMoreStep(ss: seq<System>, es: seq<Event>, i: nat, k: nat, j: nat)
    requires IsRun(ss, es) && i <= k < |es| && j in ss[i].tables.jobs && T.SameJob(ss[i].tables, ss[k].tables, j)
    requires ss[i].tables.jobs[j].status.JobDone? || (ss[i].tables.jobs[j].status.JobError? && !Retries(es[k], j))
    ensures T.SameJob(ss[i].tables, ss[k + 1].tables, j)
  {
    RunStep(ss, es, k, j);
    SameJobTransitive(ss[i].tables, ss[k].tables, ss[k + 1].tables, j);
  }

  lemma RunStep(ss: seq<System>, es: seq<Event>, i: nat, j: nat)
    requires IsRun(ss, es) && i < |es| && j in ss[i].tables.jobs
    requires ss[i].tables.jobs[j].status.JobDone?
             || (ss[i].tables.jobs[j].status.JobError? && !Retries(es[i], j))
    ensures T.SameJob(ss[i].tables, ss[i + 1].tables, j)
  {
    RunInv(ss, es, i);
    assert StepAt(ss, es, i);
    VerdictStable(ss[i], es[i], j);
  }

  /** Retrying a job in error that has no row left makes the next maintenance
      declare it done, whatever its queue generation did. */
  lemma RetriedWithoutRows(t: T.Tables, j: nat)
    requires j in t.jobs && t.jobs[j].status.JobError?
    ensures T.Verdicts(T.Retry(t, j)).jobs[j].status.JobDone? <==> T.RowsOf(t, j) == {}
  {
    assert T.RowsOf(T.Retry(t, j), j) == T.RowsOf(t, j);
    T.VerdictExact(T.Retry(t, j), j);
  }

  // ----- Leases -----

  /** A pending row belongs to a started or a cancelled job. */
  lemma PendingRowOwner(ss: seq<System>, es: seq<Event>, i: nat, r: nat)
    requires IsRun(ss, es) && i < |ss|
    requires r in ss[i].tables.queue && ss[i].tables.queue[r].status.RowPending?
    ensures ss[i].tables.queue[r].jobId in ss[i].tables.jobs
    ensures var status := ss[i].tables.jobs[ss[i].tables.queue[r].jobId].status;
      status.JobStarted? || status.JobCancelled?
  {
    RunInv(ss, es, i);
    assert RowOk(ss[i], r);
  }

  /** `e` puts row `r`, handed out at time `at`, back in the queue: a retry of its
      job, or a timeout more than the pending time after the hand-out. */
  predicate Releases(s: System, e: Event, r: nat, at: int) {
    r in s.tables.queue
    && (Retries(e, s.tables.queue[r].jobId)
        || (e.RestartPendingRows? && s.tables.queue[r].status.RowPending? && s.now > at + s.maxPending))
  }

  ghost predicate Leased(s: System, r: nat, at: int) {
    r < s.tables.nextRowId
    && (r in s.tables.queue ==>
          !s.tables.queue[r].status.RowCreated?
          && (s.tables.queue[r].status.RowPending? ==> s.tables.queue[r].startedAt == Some(at)))
  }

  lemma UserKeepsLease(s: System, e: Event, r: nat, at: int)
    requires UserEnabled(s, e)
    requires Leased(s, r, at)
    ensures Releases(s, e, r, at) || Leased(UserStep(s, e), r, at)
  {
  }

  lemma MaintenanceKeepsLease(s: System, e: Event, r: nat, at: int)
    requires MaintenanceEnabled(s, e)
    requires Leased(s, r, at)
    ensures Releases(s, e, r, at) || Leased(MaintenanceStep(s, e), r, at)
  {
  }

  lemma GenerationKeepsLease(s: System, e: Event, r: nat, at: int)
    requires GenerationEnabled(s, e)
    requires Leased(s, r, at)
    ensures Releases(s, e, r, at) || Leased(GenerationStep(s, e), r, at)
  {
  }

  lemma WorkerKeepsLease(s: System, e: Event, r: nat, at: int)
    requires WorkerEnabled(s, e)
    requires Leased(s, r, at)
    ensures Releases(s, e, r, at) || Leased(WorkerStep(s, e), r, at)
  {
  }

  lemma LeaseStep(s: System, e: Event, r: nat, at: int)
    requires Enabled(s, e) && Leased(s, r, at)
    ensures Releases(s, e, r, at) || Leased(Step(s, e), r, at)
  {
    if ByUser(e) {
      UserKeepsLease(s, e, r, at);
    } else if ByMaintenance(e) {
      MaintenanceKeepsLease(s, e, r, at);
    } else if ByWorker(e) {
      WorkerKeepsLease(s, e, r, at);
    } else {
      GenerationKeepsLease(s, e, r, at);
    }
  }

  lemma LeaseStepOfRun(ss: seq<System>, es: seq<Event>, i: nat, r: nat, at: int)
    requires IsRun(ss, es) && i < |es| && Leased(ss[i], r, at)
    ensures Releases(ss[i], es[i], r, at) || Leased(ss[i + 1], r, at)
  {
    assert StepAt(ss, es, i);
    LeaseStep(ss[i], es[i], r, at);
  }

  lemma {:induction false} LeaseEnds(ss: seq<System>, es: seq<Event>, i: nat, k: nat, r: nat, at: int)
    requires IsRun(ss, es) && i <= k < |ss| && Leased(ss[i], r, at) && !Leased(ss[k], r, at)
    ensures exists m :: i <= m < k && Releases(ss[m], es[m], r, at)
  {
    assert i < k;
    if Leased(ss[k - 1], r, at) {
      LeaseStepOfRun(ss, es, k - 1, r, at);
    } else {
      LeaseEnds(ss, es, i, k - 1, r, at);
    }
  }

  lemma LeaseStarts(s: System, e: Event)
    requires Inv(s) && Enabled(s, e) && e.HandOut?
    ensures Leased(Step(s, e), e.row, s.now) && forall at :: !Leased(s, e.row, at)
  {
    assert RowOk(s, e.row) && PutOk(s, e.row);
  }

  lemma LeaseStartsInRun(ss: seq<System>, es: seq<Event>, i: nat)
    requires IsRun(ss, es) && i < |es| && es[i].HandOut?
    ensures Leased(ss[i + 1], es[i].row, ss[i].now) && forall at :: !Leased(ss[i], es[i].row, at)
  {
    RunInv(ss, es, i);
    assert StepAt(ss, es, i);
    LeaseStarts(ss[i], es[i]);
  }

  /** Between two hand-outs of the same row there is a retry of its job, or a
      timeout more than the pending time after the first hand-out. */
  lemma ExclusiveLease(ss: seq<System>, es: seq<Event>, i: nat, k: nat, r: nat)
    requires IsRun(ss, es) && i < k < |es|
    requires es[i].HandOut? && es[i].row == r && es[k].HandOut? && es[k].row == r
    ensures exists m :: i < m < k && Releases(ss[m], es[m], r, ss[i].now)
  {
    LeaseStartsInRun(ss, es, i);
    LeaseStartsInRun(ss, es, k);
    LeaseEnds(ss, es, i + 1, k, r, ss[i].now);
  }

  /** The first settled outcome wins: a delivered `delete_one` changes the tables exactly
      when the row is pending. A call with an error then puts the row in error with
      its message, one without removes it; nothing else changes. */
  lemma DeliverExact(s: System, w: nat, message: string)
    requires Enabled(s, Deliver(w, message))
    ensures var r, t' := s.workers[w].row, Step(s, Deliver(w, message)).tables;
      if r in s.tables.queue && s.tables.queue[r].status.RowPending? then
        && t'.jobs == s.tables.jobs
        && (s.workers[w].metatile.outbox[0] ==>
              t'.queue.Keys == s.tables.queue.Keys && t'.queue[r].status.RowError? && t'.queue[r].error == message
              && t'.queue[r].jobId == s.tables.queue[r].jobId && t'.queue[r].metaTile == s.tables.queue[r].metaTile)
        && (!s.workers[w].metatile.outbox[0] ==> t'.queue.Keys == s.tables.queue.Keys - {r})
        && forall q | q in t'.queue && q != r :: t'.queue[q] == s.tables.queue[q]
      else t' == s.tables
  {
  }

  // ----- Failures reach the queue -----

  /** Event `k` delivers a call of worker `w`. */
  ghost predicate DeliversAt(ss: seq<System>, es: seq<Event>, k: nat, w: nat, error: bool)
    requires IsRun(ss, es)
  {
    k < |es| && es[k].Deliver? && es[k].worker == w && w in ss[k].workers
    && ss[k].workers[w].metatile.outbox != [] && ss[k].workers[w].metatile.outbox[0] == error
  }

  /** What an event adds to the delivered calls of a worker. */
  lemma DeliveredStep(s: System, e: Event, w: nat)
    requires Enabled(s, e) && w in Step(s, e).workers
    ensures w !in s.workers ==> Step(s, e).workers[w].metatile.delivered == []
    ensures w in s.workers ==>
      var m, m' := s.workers[w].metatile, Step(s, e).workers[w].metatile;
      if e.Deliver? && e.worker == w then m.outbox != [] && m'.delivered == m.delivered + [m.outbox[0]]
      else m'.delivered == m.delivered
  {
    if ByUser(e) {
      UserWorkers(s, e);
    } else if ByMaintenance(e) {
      MaintenanceWorkers(s, e);
    } else if ByWorker(e) {
      WorkerDelivers(s, e, w);
    } else {
      GenerationWorkers(s, e);
    }
  }

  lemma UserWorkers(s: System, e: Event)
    requires UserEnabled(s, e)
    ensures UserStep(s, e).workers == s.workers
  {
  }

  lemma MaintenanceWorkers(s: System, e: Event)
    requires MaintenanceEnabled(s, e)
    ensures MaintenanceStep(s, e).workers == s.workers
  {
  }

  lemma GenerationWorkers(s: System, e: Event)
    requires GenerationEnabled(s, e)
    ensures GenerationStep(s, e).workers == s.workers
  {
  }

  lemma WorkerDelivers(s: System, e: Event, w: nat)
    requires WorkerEnabled(s, e) && w in WorkerStep(s, e).workers
    ensures w !in s.workers ==> WorkerStep(s, e).workers[w].metatile.delivered == []
    ensures w in s.workers ==>
      var m, m' := s.workers[w].metatile, WorkerStep(s, e).workers[w].metatile;
      if e.Deliver? && e.worker == w then m.outbox != [] && m'.delivered == m.delivered + [m.outbox[0]]
      else m'.delivered == m.delivered
  {
  }

  /** Every delivered call was delivered by some event. */
  lemma {:induction false} DeliveredBefore(ss: seq<System>, es: seq<Event>, i: nat, w: nat, error: bool)
    requires IsRun(ss, es) && i < |ss| && w in ss[i].workers && error in ss[i].workers[w].metatile.delivered
    ensures exists k | 0 <= k < i :: DeliversAt(ss, es, k, w, error)
  {
    if i == 0 {
    } else {
      DeliveredStepOfRun(ss, es, i - 1, w);
      if w in ss[i - 1].workers && error in ss[i - 1].workers[w].metatile.delivered {
        DeliveredBefore(ss, es, i - 1, w, error);
      } else {
        assert DeliversAt(ss, es, i - 1, w, error);
      }
    }
  }

  lemma DeliveredStepOfRun(ss: seq<System>, es: seq<Event>, i: nat, w: nat)
    requires IsRun(ss, es) && i < |es| && w in ss[i + 1].workers
    ensures w !in ss[i].workers ==> ss[i + 1].workers[w].metatile.delivered == []
    ensures w in ss[i].workers ==>
      var m, m' := ss[i].workers[w].metatile, ss[i + 1].workers[w].metatile;
      if es[i].Deliver? && es[i].worker == w then m.outbox != [] && m'.delivered == m.delivered + [m.outbox[0]]
      else m'.delivered == m.delivered
  {
    assert StepAt(ss, es, i);
    DeliveredStep(ss[i], es[i], w);
  }

  /** A metatile that failed: its fetch did, or one of its tiles, or one of them raised. */
  predicate FailedMetatile(m: C.Metatile) {
    (m.stage.Over? && !m.empty) || (m.stage.Joined? && (C.Failed in m.children || C.Raised in m.children))
  }

  /** A worker whose metatile failed has a call with an error among its calls. Once all
      its calls are delivered, one of them was delivered with an error, and if the row
      was still pending then, it was put in error. */
  lemma FailureReported(ss: seq<System>, es: seq<Event>, i: nat, w: nat)
    requires IsRun(ss, es) && i < |ss| && w in ss[i].workers && FailedMetatile(ss[i].workers[w].metatile)
    ensures true in ss[i].workers[w].metatile.delivered + ss[i].workers[w].metatile.outbox
    ensures ss[i].workers[w].metatile.outbox == [] ==>
      exists k | 0 <= k < i :: DeliversAt(ss, es, k, w, true) && ErrorRecorded(ss[k], ss[k + 1], ss[k].workers[w].row)
  {
    RunInv(ss, es, i);
    assert WorkerOk(ss[i], w);
    var m := ss[i].workers[w].metatile;
    ErrorAmongCalls(m);
    if m.outbox == [] {
      assert m.delivered + [] == m.delivered;
      DeliveredBefore(ss, es, i, w, true);
      var k :| 0 <= k < i && DeliversAt(ss, es, k, w, true);
      ErrorRecordedAt(ss, es, k, w);
    }
  }

  lemma ErrorAmongCalls(m: C.Metatile)
    requires C.Inv(m) && FailedMetatile(m)
    ensures true in m.delivered + m.outbox
  {
    C.UnsettledZero(m.children);
    assert C.Calls(m) == m.delivered + m.outbox;
    if m.stage.Over? {
      assert C.Calls(m)[0] == true;
    } else {
      assert C.Calls(m)[|C.Calls(m)| - 1] == true;
    }
  }

  /** If row `r` was pending before, it is in error after. */
  predicate ErrorRecorded(s: System, s': System, r: nat) {
    r in s.tables.queue && s.tables.queue[r].status.RowPending? ==>
      r in s'.tables.queue && s'.tables.queue[r].status.RowError?
  }

  lemma ErrorRecordedAt(ss: seq<System>, es: seq<Event>, k: nat, w: nat)
    requires IsRun(ss, es) && k < |es| && DeliversAt(ss, es, k, w, true)
    ensures ErrorRecorded(ss[k], ss[k + 1], ss[k].workers[w].row)
  {
    assert StepAt(ss, es, k);
    DeliverExact(ss[k], w, es[k].message);
  }

  /** Row `r` of job `j` was settled: it is gone, or it is in error. */
  ghost predicate SettledRow(s: System, r: nat, j: nat) {
    && r < s.tables.nextRowId
    && j in s.tables.jobs && HandedOutJob(s.tables.jobs[j].status)
    && (r in s.tables.queue ==> s.tables.queue[r].jobId == j && s.tables.queue[r].status.RowError?)
  }

  lemma UserKeepsSettled(s: System, e: Event, r: nat, j: nat)
    requires UserEnabled(s, e) && !Retries(e, j)
    requires Ready(s) && SettledRow(s, r, j)
    ensures SettledRow(UserStep(s, e), r, j)
  {
  }

  lemma MaintenanceKeepsSettled(s: System, e: Event, r: nat, j: nat)
    requires MaintenanceEnabled(s, e)
    requires Ready(s) && SettledRow(s, r, j)
    ensures SettledRow(MaintenanceStep(s, e), r, j)
  {
  }

  lemma GenerationKeepsSettled(s: System, e: Event, r: nat, j: nat)
    requires GenerationEnabled(s, e)
    requires Ready(s) && SettledRow(s, r, j)
    ensures SettledRow(GenerationStep(s, e), r, j)
  {
  }

  lemma WorkerKeepsSettled(s: System, e: Event, r: nat, j: nat)
    requires WorkerEnabled(s, e)
    requires Ready(s) && SettledRow(s, r, j)
    ensures SettledRow(WorkerStep(s, e), r, j)
  {
  }

  lemma SettledStep(s: System, e: Event, r: nat, j: nat)
    requires Enabled(s, e) && Ready(s) && SettledRow(s, r, j) && !Retries(e, j)
    ensures SettledRow(Step(s, e), r, j)
  {
    if ByUser(e) {
      UserKeepsSettled(s, e, r, j);
    } else if ByMaintenance(e) {
      MaintenanceKeepsSettled(s, e, r, j);
    } else if ByWorker(e) {
      WorkerKeepsSettled(s, e, r, j);
    } else {
      GenerationKeepsSettled(s, e, r, j);
    }
  }

  lemma {:induction false} SettledKept(ss: seq<System>, es: seq<Event>, i: nat, k: nat, r: nat, j: nat)
    requires IsRun(ss, es) && i <= k < |ss| && SettledRow(ss[i], r, j)
    requires forall m | i <= m < k :: !Retries(es[m], j)
    ensures SettledRow(ss[k], r, j)
  {
    if i >= k {
    } else {
      SettledKept(ss, es, i, k - 1, r, j);
      SettledStepOfRun(ss, es, k - 1, r, j);
    }
  }

  lemma SettledStepOfRun(ss: seq<System>, es: seq<Event>, i: nat, r: nat, j: nat)
    requires IsRun(ss, es) && i < |es| && SettledRow(ss[i], r, j) && !Retries(es[i], j)
    ensures SettledRow(ss[i + 1], r, j)
  {
    RunInv(ss, es, i);
    ReadyFromInv(ss[i]);
    assert StepAt(ss, es, i);
    SettledStep(ss[i], es[i], r, j);
  }

  lemma DeliverSettles(s: System, w: nat, message: string)
    requires Inv(s) && Enabled(s, Deliver(w, message))
    requires var r := s.workers[w].row; r in s.tables.queue && s.tables.queue[r].status.RowPending?
    ensures SettledRow(Step(s, Deliver(w, message)), s.workers[w].row, s.tables.queue[s.workers[w].row].jobId)
  {
    assert RowOk(s, s.workers[w].row) && PutOk(s, s.workers[w].row);
    WorkerSettles(s, w, message);
  }

  lemma WorkerSettles(s: System, w: nat, message: string)
    requires WorkerEnabled(s, Deliver(w, message))
    requires var r := s.workers[w].row;
      r in s.tables.queue && s.tables.queue[r].status.RowPending? && RowOk(s, r) && PutOk(s, r)
    ensures SettledRow(WorkerStep(s, Deliver(w, message)), s.workers[w].row, s.tables.queue[s.workers[w].row].jobId)
  {
  }

  /** Once a `delete_one` settled a row, every later `delete_one` on it, such as
      the one the outer pipeline repeats after a failed tile, changes no table
      until the job is retried. */
  lemma FirstOutcomeWins(ss: seq<System>, es: seq<Event>, i: nat, k: nat, r: nat)
    requires IsRun(ss, es) && i < k < |es|
    requires es[i].Deliver? && es[i].worker in ss[i].workers && ss[i].workers[es[i].worker].row == r
    requires r in ss[i].tables.queue && ss[i].tables.queue[r].status.RowPending?
    requires forall m | i < m < k :: !Retries(es[m], ss[i].tables.queue[r].jobId)
    requires es[k].Deliver? && es[k].worker in ss[k].workers && ss[k].workers[es[k].worker].row == r
    ensures ss[k + 1].tables == ss[k].tables
  {
    DeliverSettlesInRun(ss, es, i);
    SettledKept(ss, es, i + 1, k, r, ss[i].tables.queue[r].jobId);
    DeliverInRun(ss, es, k);
  }

  lemma DeliverSettlesInRun(ss: seq<System>, es: seq<Event>, i: nat)
    requires IsRun(ss, es) && i < |es| && es[i].Deliver? && es[i].worker in ss[i].workers
    requires var r := ss[i].workers[es[i].worker].row;
      r in ss[i].tables.queue && ss[i].tables.queue[r].status.RowPending?
    ensures var r := ss[i].workers[es[i].worker].row; SettledRow(ss[i + 1], r, ss[i].tables.queue[r].jobId)
  {
    RunInv(ss, es, i);
    assert StepAt(ss, es, i);
    DeliverSettles(ss[i], es[i].worker, es[i].message);
  }

  lemma DeliverInRun(ss: seq<System>, es: seq<Event>, k: nat)
    requires IsRun(ss, es) && k < |es| && es[k].Deliver? && es[k].worker in ss[k].workers
    requires var r := ss[k].workers[es[k].worker].row;
      !(r in ss[k].tables.queue && ss[k].tables.queue[r].status.RowPending?)
    ensures ss[k + 1].tables == ss[k].tables
  {
    assert StepAt(ss, es, k);
    DeliverExact(ss[k], es[k].worker, es[k].message);
  }
}
