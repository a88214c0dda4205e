/** How the command of a job ends, and what a done job says about it. */
module QueueEndings {
  import opened Common
  import T = QueueTables
  import opened QueueSystem
  import opened QueueTheorems

  /** The command of job `j` ends: it is refused, its subprocess exits, or its
      queue generation is closed. */
  predicate Ends(e: Event, j: nat) {
    match e
    case Reject(k) => k == j
    case FinishSubprocess(k, _) => k == j
    case FinishGeneration(k, _) => k == j
    case StartJob(k, _) => k == j
    case _ => false
  }

  /** The command of a picked job `j` ends badly: refused, or with an error. The job
      is then in error. */
  predicate FailsPicked(e: Event, j: nat) {
    match e
    case Reject(k) => k == j
    case FinishSubprocess(k, failed) => k == j && failed
    case FinishGeneration(k, failed) => k == j && failed
    case _ => false
  }

  /** The command of job `j` ends badly. A master process whose command fails starts
      its job all the same, and exits with an error afterwards. */
  predicate Fails(e: Event, j: nat) { FailsPicked(e, j) || e == StartJob(j, true) }

  /** The command of job `j` was ended. */
  predicate HandedOut(s: System, j: nat) { j in s.tables.jobs && HandedOutJob(s.tables.jobs[j].status) }

  /** What one event does to the ending of a job. */
  ghost predicate EndingStep(s: System, e: Event, s': System, j: nat) {
    && (HandedOut(s', j) <==> HandedOut(s, j) || Ends(e, j))
    && (Ends(e, j) ==> !HandedOut(s, j))
    && (FailsPicked(e, j) ==> j in s'.tables.jobs && s'.tables.jobs[j].status.JobError?)
  }

  lemma UserEnding(s: System, e: Event, j: nat)
    requires UserEnabled(s, e) && Ready(s)
    ensures EndingStep(s, e, UserStep(s, e), j)
  {
  }

  lemma MaintenanceEnding(s: System, e: Event, j: nat)
    requires MaintenanceEnabled(s, e) && Ready(s)
    ensures EndingStep(s, e, MaintenanceStep(s, e), j)
  {
  }

  lemma GenerationEnding(s: System, e: Event, j: nat)
    requires GenerationEnabled(s, e) && Ready(s)
    ensures EndingStep(s, e, GenerationStep(s, e), j)
  {
    if e.ClearRows? || e.Insert? || e.StopGeneration? {
      FillingEnding(s, e, j);
    } else {
      CommandEnding(s, e, j);
    }
  }

  lemma FillingEnding(s: System, e: Event, j: nat)
    requires GenerationEnabled(s, e) && Ready(s) && (e.ClearRows? || e.Insert? || e.StopGeneration?)
    ensures EndingStep(s, e, GenerationStep(s, e), j)
  {
  }

  lemma CommandEnding(s: System, e: Event, j: nat)
    requires GenerationEnabled(s, e) && Ready(s) && !e.ClearRows? && !e.Insert? && !e.StopGeneration?
    ensures EndingStep(s, e, GenerationStep(s, e), j)
  {
  }

  lemma WorkerEnding(s: System, e: Event, j: nat)
    requires WorkerEnabled(s, e) && Ready(s)
    ensures EndingStep(s, e, WorkerStep(s, e), j)
  {
  }

  lemma EndingOfRun(ss: seq<System>, es: seq<Event>, i: nat, j: nat)
    requires IsRun(ss, es) && i < |es|
    ensures EndingStep(ss[i], es[i], ss[i + 1], j)
  {
    RunInv(ss, es, i);
    ReadyFromInv(ss[i]);
    assert StepAt(ss, es, i);
    var s, e := ss[i], es[i];
    if ByUser(e) {
      UserEnding(s, e, j);
    } else if ByMaintenance(e) {
      MaintenanceEnding(s, e, j);
    } else if ByWorker(e) {
      WorkerEnding(s, e, j);
    } else {
      GenerationEnding(s, e, j);
    }
  }

  ghost predicate EndedBefore(es: seq<Event>, i: nat, j: nat)
    requires i <= |es|
  {
    exists m | 0 <= m < i :: Ends(es[m], j)
  }

  lemma {:induction false} EndedExact(ss: seq<System>, es: seq<Event>, i: nat, j: nat)
    requires IsRun(ss, es) && i <= |es|
    ensures HandedOut(ss[i], j) <==> EndedBefore(es, i, j)
  {
    if i == 0 {
    } else {
      EndedExact(ss, es, i - 1, j);
      EndingOfRun(ss, es, i - 1, j);
      EndedMore(es, i - 1, j);
    }
  }

  lemma EndedMore(es: seq<Event>, i: nat, j: nat)
    requires i < |es|
    ensures EndedBefore(es, i + 1, j) <==> EndedBefore(es, i, j) || Ends(es[i], j)
  {
  }

  /** The command of a job ends at most once, retries included. */
  lemma EndsOnce(ss: seq<System>, es: seq<Event>, a: nat, b: nat, j: nat)
    requires IsRun(ss, es) && a < |es| && b < |es| && Ends(es[a], j) && Ends(es[b], j)
    ensures a == b
  {
    EndedExact(ss, es, a, j);
    EndedExact(ss, es, b, j);
    EndingOfRun(ss, es, a, j);
    EndingOfRun(ss, es, b, j);
  }

  /** The command of job `j` ended without error before `i`. */
  ghost predicate EndedWell(es: seq<Event>, i: nat, j: nat)
    requires i <= |es|
  {
    exists m | 0 <= m < i :: Ends(es[m], j) && !Fails(es[m], j)
  }

  /** Job `j` was retried after its command was refused or failed. */
  ghost predicate RetriedAfterFailure(es: seq<Event>, i: nat, j: nat)
    requires i <= |es|
  {
    exists a, b | 0 <= a < b < i :: Fails(es[a], j) && Retries(es[b], j)
  }

  /** A picked job whose command failed stays in error until it is retried. */
  lemma FailureLasts(ss: seq<System>, es: seq<Event>, m: nat, i: nat, j: nat)
    requires IsRun(ss, es) && m < i < |ss| && FailsPicked(es[m], j)
    requires forall b | m < b < i :: !Retries(es[b], j)
    ensures j in ss[i].tables.jobs && ss[i].tables.jobs[j].status.JobError?
  {
    EndingOfRun(ss, es, m, j);
    VerdictKept(ss, es, m + 1, i, j);
  }

  /** Job `j` was started by a master process whose command failed. */
  ghost predicate StartedByFailure(es: seq<Event>, i: nat, j: nat)
    requires i <= |es|
  {
    exists m | 0 <= m < i :: es[m] == StartJob(j, true)
  }

  /** The command of a done job ended without error exactly when the job was not
      retried after its command was refused or failed, and was not started by a
      master process whose command failed: neither `retry` nor `start_job` looks at
      how the command ended. */
  lemma DoneEndedWellExact(ss: seq<System>, es: seq<Event>, i: nat, j: nat)
    requires IsRun(ss, es) && i < |ss|
    requires j in ss[i].tables.jobs && ss[i].tables.jobs[j].status.JobDone?
    ensures EndedWell(es, i, j) <==> !RetriedAfterFailure(es, i, j) && !StartedByFailure(es, i, j)
  {
    EndedExact(ss, es, i, j);
    var m :| 0 <= m < i && Ends(es[m], j);
    if FailsPicked(es[m], j) && forall b | m < b < i :: !Retries(es[b], j) {
      FailureLasts(ss, es, m, i, j);
    }
    forall a | 0 <= a < i && Ends(es[a], j) ensures a == m { EndsOnce(ss, es, a, m, j); }
    forall a | 0 <= a < i && Fails(es[a], j) ensures Ends(es[a], j) {}
  }

  // ----- Jobs whose queue generation stopped -----

  /** Job `j` is pending, was never given a start time, and no process fills its queue:
      a master process created it and stopped before it started it. */
  predicate Stuck(s: System, j: nat) {
    j in s.tables.jobs && s.tables.jobs[j].status.JobPending? && s.tables.jobs[j].startedAt.None?
    && j !in s.generations
  }

  lemma UserKeepsStuck(s: System, e: Event, j: nat, r: nat)
    requires UserEnabled(s, e) && Ready(s) && Stuck(s, j)
    ensures Stuck(UserStep(s, e), j) && UserStep(s, e).tables.jobs[j] == s.tables.jobs[j]
    ensures T.SameRow(s.tables, UserStep(s, e).tables, j, r)
  {
  }

  lemma MaintenanceKeepsStuck(s: System, e: Event, j: nat, r: nat)
    requires MaintenanceEnabled(s, e) && Stuck(s, j) && RowKept(s, r)
    ensures Stuck(MaintenanceStep(s, e), j) && MaintenanceStep(s, e).tables.jobs[j] == s.tables.jobs[j]
    ensures T.SameRow(s.tables, MaintenanceStep(s, e).tables, j, r)
  {
  }

  lemma GenerationKeepsStuck(s: System, e: Event, j: nat, r: nat)
    requires GenerationEnabled(s, e) && Stuck(s, j) && s.tables.nextRowId !in s.tables.queue
    ensures Stuck(GenerationStep(s, e), j) && GenerationStep(s, e).tables.jobs[j] == s.tables.jobs[j]
    ensures T.SameRow(s.tables, GenerationStep(s, e).tables, j, r)
  {
  }

  lemma WorkerKeepsStuck(s: System, e: Event, j: nat, r: nat)
    requires WorkerEnabled(s, e) && Stuck(s, j) && RowKept(s, r)
    ensures Stuck(WorkerStep(s, e), j) && WorkerStep(s, e).tables.jobs[j] == s.tables.jobs[j]
    ensures T.SameRow(s.tables, WorkerStep(s, e).tables, j, r)
  {
  }

  lemma StuckStep(s: System, e: Event, j: nat, r: nat)
    requires Inv(s) && Enabled(s, e) && Stuck(s, j)
    ensures Stuck(Step(s, e), j) && Step(s, e).tables.jobs[j] == s.tables.jobs[j]
    ensures T.SameRow(s.tables, Step(s, e).tables, j, r)
  {
    ReadyFromInv(s);
    NextRowIdIsNew(s);
    assert RowKept(s, r);
    if ByUser(e) {
      UserKeepsStuck(s, e, j, r);
    } else if ByMaintenance(e) {
      MaintenanceKeepsStuck(s, e, j, r);
    } else if ByWorker(e) {
      WorkerKeepsStuck(s, e, j, r);
    } else {
      GenerationKeepsStuck(s, e, j, r);
    }
  }

  lemma StuckStepOfRun(ss: seq<System>, es: seq<Event>, i: nat, j: nat)
    requires IsRun(ss, es) && i < |es| && Stuck(ss[i], j)
    ensures Stuck(ss[i + 1], j) && T.SameJob(ss[i].tables, ss[i + 1].tables, j)
  {
    RunInv(ss, es, i);
    assert StepAt(ss, es, i);
    var t, t' := ss[i].tables, ss[i + 1].tables;
    forall r: nat ensures T.SameRow(t, t', j, r) {
      StuckStep(ss[i], es[i], j, r);
    }
    StuckStep(ss[i], es[i], j, 0);
  }

  /** A stuck job stays pending in every later state, and neither it nor any of its
      rows ever changes: a time that is not set is never overdue, and retry, cancel
      and hand-out ask for another status. */
  lemma {:induction false} StuckForever(ss: seq<System>, es: seq<Event>, i: nat, k: nat, j: nat)
    requires IsRun(ss, es) && i <= k < |ss| && Stuck(ss[i], j)
    ensures Stuck(ss[k], j) && T.SameJob(ss[i].tables, ss[k].tables, j)
  {
    if i == k {
    } else {
      StuckForever(ss, es, i, k - 1, j);
      StuckStepOfRun(ss, es, k - 1, j);
      SameJobTransitive(ss[i].tables, ss[k - 1].tables, ss[k].tables, j);
    }
  }

  /** A pending job is given up at some later time exactly when it has a start time. */
  lemma GivenUpExact(t: T.Tables, now: int, maxPending: nat, j: nat)
    requires j in t.jobs && t.jobs[j].status.JobPending?
    ensures (exists later: int :: later >= now && T.RestartPendingJobs(t, later, maxPending).jobs[j].status.JobCreated?)
            <==> t.jobs[j].startedAt.Some?
  {
    if t.jobs[j].startedAt.Some? {
      var later := Max(now, t.jobs[j].startedAt.value + maxPending + 1);
      assert T.RestartPendingJobs(t, later, maxPending).jobs[j].status.JobCreated?;
    }
  }
}
