/** What each event of the queue protocol does to the tables, to the queue generations
    and to the workers, in their fields alone. */
module QueueEffects {
  import opened Common
  import T = QueueTables
  import C = Countdown
  import opened QueueSystem

  /** Only job `j` may differ, and no row does. */
  ghost predicate OnlyJob(t: T.Tables, t': T.Tables, j: nat) {
    && t'.queue == t.queue && t'.nextRowId == t.nextRowId
    && j in t'.jobs && t'.jobs.Keys == t.jobs.Keys + {j}
    && forall k | k in t.jobs && k != j :: t'.jobs[k] == t.jobs[k]
  }

  /** The number of rows of job `j`. */
  ghost function Count(t: T.Tables, j: nat): nat { |set r | r in t.queue && t.queue[r].jobId == j| }

  /** A user creates a waiting job, a master process a pending one that it fills. */
  lemma CreateEffect(s: System, e: Event)
    requires Enabled(s, e) && (e.CreateJob? || e.CreateMasterJob?)
    ensures var s', j := Step(s, e), s.tables.nextJobId;
      && OnlyJob(s.tables, s'.tables, j) && s'.tables.nextJobId == j + 1
      && s'.tables.jobs[j].configFilename == e.configFilename && s'.tables.jobs[j].createdAt == s.now
      && s'.tables.jobs[j].startedAt.None? && s'.tables.jobs[j].tilesStartedAt.None?
      && (e.CreateJob? ==>
            s'.tables.jobs[j].status.JobCreated? && s'.tables.jobs[j].command == e.command
            && s'.generations == s.generations)
      && (e.CreateMasterJob? ==>
            s'.tables.jobs[j].status.JobPending? && s'.tables.jobs[j].command.FillsQueue?
            && s'.generations == s.generations[j := FillingAsMaster])
      && s'.workers == s.workers && s'.now == s.now
  {
  }

  /** Time passes, and nothing else happens. */
  lemma TickEffect(s: System, seconds: nat)
    ensures Enabled(s, Tick(seconds))
    ensures var s' := Step(s, Tick(seconds));
      s'.now == s.now + seconds && s'.tables == s.tables && s'.generations == s.generations && s'.workers == s.workers
  {
  }

  /** A retry is possible exactly for a job in error; its rows in error then wait again,
      and it counts its rows anew. */
  lemma RetryEffect(s: System, j: nat, c: string)
    ensures Enabled(s, Retry(j, c))
       <==> j in s.tables.jobs && s.tables.jobs[j].status.JobError? && s.tables.jobs[j].configFilename == c
    ensures Enabled(s, Retry(j, c)) ==>
      var t, t' := s.tables, Step(s, Retry(j, c)).tables;
      && t'.jobs[j := t.jobs[j]] == t.jobs && t'.queue.Keys == t.queue.Keys
      && t'.jobs[j] == t.jobs[j].(status := T.JobStarted, tilesStartedAt := None, metaTilesTotal := Count(t, j))
      && forall r | r in t.queue ::
           t'.queue[r] == if t.queue[r].jobId == j && t.queue[r].status.RowError?
                          then t.queue[r].(status := T.RowCreated, error := "") else t.queue[r]
  {
    assert (set r | r in s.tables.queue && s.tables.queue[r].jobId == j) == T.RowsOf(s.tables, j);
  }

  /** A cancellation is possible exactly for a started job; its waiting rows disappear. */
  lemma CancelEffect(s: System, j: nat, c: string)
    ensures Enabled(s, Cancel(j, c))
       <==> j in s.tables.jobs && s.tables.jobs[j].status.JobStarted? && s.tables.jobs[j].configFilename == c
    ensures Enabled(s, Cancel(j, c)) ==>
      var t, t' := s.tables, Step(s, Cancel(j, c)).tables;
      && t'.jobs == t.jobs[j := t.jobs[j].(status := T.JobCancelled)]
      && (forall r :: r in t'.queue <==> r in t.queue && !(t.queue[r].jobId == j && t.queue[r].status.RowCreated?))
      && forall r | r in t'.queue :: t'.queue[r] == t.queue[r]
  {
  }

  /** The maintenance picks a job that no older one of its config file waits with, and
      the queue generation of the job starts. */
  lemma PickEffect(s: System, j: nat, c: string)
    ensures Enabled(s, PickJob(j, c))
       <==> j in s.tables.jobs && s.tables.jobs[j].status.JobCreated? && s.tables.jobs[j].configFilename == c
            && forall k | k in s.tables.jobs && s.tables.jobs[k].status.JobCreated?
                          && s.tables.jobs[k].configFilename == c ::
                 s.tables.jobs[j].createdAt <= s.tables.jobs[k].createdAt
    ensures Enabled(s, PickJob(j, c)) ==>
      var s' := Step(s, PickJob(j, c));
      && OnlyJob(s.tables, s'.tables, j) && s'.generations == s.generations[j := Starting]
      && s'.tables.jobs[j] == s.tables.jobs[j].(status := T.JobPending, startedAt := Some(s.now),
                                                tilesStartedAt := None, metaTilesTotal := 0)
  {
  }

  /** Work that has been pending for too long waits again, and no other. */
  lemma RestartEffect(s: System, e: Event)
    requires Enabled(s, e)
    ensures e.RestartPendingJobs? ==>
      var t, t' := s.tables, Step(s, e).tables;
      && t'.queue == t.queue && t'.jobs.Keys == t.jobs.Keys
      && forall j | j in t.jobs ::
           t'.jobs[j] == if t.jobs[j].status.JobPending? && t.jobs[j].startedAt.Some?
                            && t.jobs[j].startedAt.value < s.now - s.maxPending
                         then t.jobs[j].(status := T.JobCreated) else t.jobs[j]
    ensures e.RestartPendingRows? ==>
      var t, t' := s.tables, Step(s, e).tables;
      && t'.jobs == t.jobs && t'.queue.Keys == t.queue.Keys
      && forall r | r in t.queue ::
           t'.queue[r] == if t.queue[r].status.RowPending? && t.queue[r].startedAt.Some?
                             && t.queue[r].startedAt.value < s.now - s.maxPending
                          then t.queue[r].(status := T.RowCreated) else t.queue[r]
  {
  }

  /** The verdict on job `j`: nothing for one that is not started, else what its rows say. */
  ghost predicate JudgedByRows(t: T.Tables, t': T.Tables, j: nat)
    requires j in t.jobs && j in t'.jobs
  {
    if !t.jobs[j].status.JobStarted? then t'.jobs[j] == t.jobs[j]
    else
      && t'.jobs[j] == t.jobs[j].(status := t'.jobs[j].status)
      && (t'.jobs[j].status.JobDone? <==> forall r | r in t.queue :: t.queue[r].jobId != j)
      && (t'.jobs[j].status.JobStarted? <==>
            exists r :: r in t.queue && t.queue[r].jobId == j && !t.queue[r].status.RowError?)
      && (!t'.jobs[j].status.JobDone? && !t'.jobs[j].status.JobStarted? ==> t'.jobs[j].status.JobError?)
  }

  lemma VerdictsJudge(t: T.Tables, t': T.Tables, j: nat)
    requires j in t.jobs && t' == T.Verdicts(t)
    ensures t'.jobs.Keys == t.jobs.Keys && t'.queue == t.queue && JudgedByRows(t, t', j)
  {
    if t.jobs[j].status.JobStarted? {
      T.JudgedExactly(t, j);
    }
  }

  /** The verdict ends a started job without rows, or whose rows are all in error. */
  lemma VerdictEffect(s: System, j: nat)
    requires j in s.tables.jobs
    ensures Enabled(s, Verdicts)
    ensures j in Step(s, Verdicts).tables.jobs && Step(s, Verdicts).tables.queue == s.tables.queue
    ensures JudgedByRows(s.tables, Step(s, Verdicts).tables, j)
  {
    VerdictsJudge(s.tables, Step(s, Verdicts).tables, j);
  }

  /** A command that does not fill the queue ends its job at once. */
  lemma CommandEffect(s: System, e: Event)
    requires Enabled(s, e) && (e.Reject? || e.FinishSubprocess?)
    ensures var s' := Step(s, e);
      && OnlyJob(s.tables, s'.tables, e.job) && s'.generations == s.generations - {e.job}
      && (e.Reject? ==> s.tables.jobs[e.job].command.NotAllowed? && s'.tables.jobs[e.job].status.JobError?)
      && (e.FinishSubprocess? ==>
            s.tables.jobs[e.job].command.Subprocess?
            && s'.tables.jobs[e.job].status == if e.failed then T.JobError else T.JobDone)
  {
  }

  /** A queue generation first removes the rows of its job, then adds one row for each put. */
  lemma FillEffect(s: System, e: Event)
    requires Enabled(s, e)
    ensures e.ClearRows? ==>
      var s' := Step(s, e);
      && s'.tables.jobs == s.tables.jobs && s'.generations == s.generations[e.job := Filling]
      && (forall r :: r in s'.tables.queue <==> r in s.tables.queue && s.tables.queue[r].jobId != e.job)
      && forall r | r in s'.tables.queue :: s'.tables.queue[r] == s.tables.queue[r]
    ensures e.Insert? ==>
      var s', r := Step(s, e), s.tables.nextRowId;
      && s'.tables.jobs == s.tables.jobs && s'.generations == s.generations && s'.tables.nextRowId == r + 1
      && s'.tables.queue == s.tables.queue[r := T.Row(e.job, e.metaTile, T.RowCreated, "", None)]
  {
  }

  /** The end of a queue generation counts the rows of its job and starts it, or puts it in
      error; a master process starts it even after errors. */
  lemma FinishEffect(s: System, e: Event)
    requires Enabled(s, e)
    ensures e.FinishGeneration? ==>
      var t, s' := s.tables, Step(s, e);
      && OnlyJob(t, s'.tables, e.job) && s'.generations == s.generations - {e.job}
      && s'.tables.jobs[e.job].status == (if e.failed then T.JobError else T.JobStarted)
      && s'.tables.jobs[e.job].metaTilesTotal == Count(t, e.job)
    ensures e.StartJob? ==>
      var t, s' := s.tables, Step(s, e);
      && s'.generations == s.generations - {e.job} && s'.tables.queue == t.queue
      && (e.job in t.jobs && t.jobs[e.job].status.JobPending? ==>
            && OnlyJob(t, s'.tables, e.job) && s'.tables.jobs[e.job].status.JobStarted?
            && s'.tables.jobs[e.job].startedAt == Some(s.now)
            && s'.tables.jobs[e.job].metaTilesTotal == Count(t, e.job))
    ensures e.StopGeneration? ==>
      Step(s, e).tables == s.tables && Step(s, e).generations == s.generations - {e.job}
  {
    if e.FinishGeneration? || e.StartJob? {
      assert (set r | r in s.tables.queue && s.tables.queue[r].jobId == e.job) == T.RowsOf(s.tables, e.job);
    }
  }

  /** A row is handed out when it waits, its job is started, and no other such row of the
      config file has an older job, or the same age and a lower id. It is then pending,
      and its worker starts with nothing done. */
  lemma HandOutEffect(s: System, r: nat, c: string, w: nat)
    requires Enabled(s, HandOut(r, c, w))
    ensures var t, s' := s.tables, Step(s, HandOut(r, c, w));
      && r in t.queue && t.queue[r].status.RowCreated? && t.queue[r].jobId in t.jobs && w !in s.workers
      && t.jobs[t.queue[r].jobId].status.JobStarted? && t.jobs[t.queue[r].jobId].configFilename == c
      && s'.tables.queue == t.queue[r := t.queue[r].(status := T.RowPending, startedAt := Some(s.now))]
      && s'.workers == s.workers[w := Worker(r, C.Start(t.queue[r].metaTile.coord.n))]
      && s'.tables.jobs.Keys == t.jobs.Keys
      && s'.tables.jobs[t.queue[r].jobId].tilesStartedAt
         == (if t.jobs[t.queue[r].jobId].tilesStartedAt.None? then Some(s.now)
             else t.jobs[t.queue[r].jobId].tilesStartedAt)
    ensures forall q | q in s.tables.queue && s.tables.queue[q].status.RowCreated?
                       && s.tables.queue[q].jobId in s.tables.jobs
                       && s.tables.jobs[s.tables.queue[q].jobId].status.JobStarted?
                       && s.tables.jobs[s.tables.queue[q].jobId].configFilename == c ::
      var a, b := s.tables.jobs[s.tables.queue[r].jobId].createdAt, s.tables.jobs[s.tables.queue[q].jobId].createdAt;
      a < b || (a == b && r <= q)
  {
    forall q | q in s.tables.queue && s.tables.queue[q].status.RowCreated?
               && s.tables.queue[q].jobId in s.tables.jobs
               && s.tables.jobs[s.tables.queue[q].jobId].status.JobStarted?
               && s.tables.jobs[s.tables.queue[q].jobId].configFilename == c
      ensures T.Before(s.tables, r, q)
    {
      assert T.Available(s.tables, q, c);
    }
  }

  /** A step of a worker changes its own metatile, and no table. */
  lemma WorkEffect(s: System, w: nat, what: C.Event)
    requires Enabled(s, Work(w, what))
    ensures var s' := Step(s, Work(w, what));
      && s'.tables == s.tables && s'.generations == s.generations && s'.workers.Keys == s.workers.Keys
      && s'.workers[w] == Worker(s.workers[w].row, C.Step(s.workers[w].metatile, what))
      && forall v | v in s.workers && v != w :: s'.workers[v] == s.workers[v]
  {
  }
}
