/** The insert buffer of a queue generation at work among the events of the queue:
    what its transactions commit is what is inserted for its job. */
module GenerationBuffer {
  import opened Common
  import T = QueueTables
  import C = Countdown
  import opened QueueSystem
  import opened QueueTheorems
  import opened QueueEndings
  import opened JobStream
  import Buffer = InsertBuffer

  /** The rows of the last queue generation of job `j`, with their metatiles. */
  function RowsPut(s: System, j: nat): map<nat, T.Message> {
    map r | r in s.put && s.put[r].jobId == j :: s.put[r].metaTile
  }

  /** What an event makes of them. */
  function Refilled(rows: map<nat, T.Message>, nextRowId: nat, e: Event, j: nat): map<nat, T.Message> {
    match e
    case ClearRows(k) => if k == j then map[] else rows
    case Insert(k, m) => if k == j then rows[nextRowId := m] else rows
    case _ => rows
  }

  lemma RefilledByStep(s: System, e: Event, j: nat)
    requires Enabled(s, e) && Ready(s)
    ensures RowsPut(Step(s, e), j) == Refilled(RowsPut(s, j), s.tables.nextRowId, e, j)
  {
    if ByUser(e) {
      UserPuts(s, e);
    } else if ByMaintenance(e) {
      MaintenancePuts(s, e);
    } else if ByWorker(e) {
      WorkerPuts(s, e);
    } else {
      RefilledByGeneration(s, e, j);
    }
  }

  lemma UserPuts(s: System, e: Event)
    requires UserEnabled(s, e)
    ensures UserStep(s, e).put == s.put
  {
  }

  lemma MaintenancePuts(s: System, e: Event)
    requires MaintenanceEnabled(s, e)
    ensures MaintenanceStep(s, e).put == s.put
  {
  }

  lemma WorkerPuts(s: System, e: Event)
    requires WorkerEnabled(s, e)
    ensures WorkerStep(s, e).put == s.put
  {
  }

  lemma RefilledByGeneration(s: System, e: Event, j: nat)
    requires GenerationEnabled(s, e) && Ready(s)
    ensures RowsPut(GenerationStep(s, e), j) == Refilled(RowsPut(s, j), s.tables.nextRowId, e, j)
  {
    match e {
      case Insert(k, m) => RefilledByInsert(s, k, m, j);
      case ClearRows(k) => RefilledByClear(s, k, j);
      case _ => GenerationPuts(s, e);
    }
  }

  lemma RefilledByInsert(s: System, k: nat, m: T.Message, j: nat)
    requires GenerationEnabled(s, Insert(k, m)) && Ready(s)
    ensures RowsPut(GenerationStep(s, Insert(k, m)), j)
         == Refilled(RowsPut(s, j), s.tables.nextRowId, Insert(k, m), j)
  {
  }

  lemma RefilledByClear(s: System, k: nat, j: nat)
    requires GenerationEnabled(s, ClearRows(k))
    ensures RowsPut(GenerationStep(s, ClearRows(k)), j)
         == Refilled(RowsPut(s, j), s.tables.nextRowId, ClearRows(k), j)
  {
  }

  lemma GenerationPuts(s: System, e: Event)
    requires GenerationEnabled(s, e) && !e.Insert? && !e.ClearRows?
    ensures GenerationStep(s, e).put == s.put
  {
  }

  /** The metatiles inserted for job `j` since its queue was last cleared, in order. */
  function Inserted(es: seq<Event>, j: nat): seq<T.Message> {
    if es == [] then []
    else AfterEvent(Inserted(es[..|es| - 1], j), es[|es| - 1], j)
  }

  function AfterEvent(inserted: seq<T.Message>, e: Event, j: nat): seq<T.Message> {
    match e
    case ClearRows(k) => if k == j then [] else inserted
    case Insert(k, m) => if k == j then inserted + [m] else inserted
    case _ => inserted
  }

  lemma InsertedMore(es: seq<Event>, i: nat, j: nat)
    requires i < |es|
    ensures Inserted(es[..i + 1], j) == AfterEvent(Inserted(es[..i], j), es[i], j)
  {
    assert es[..i + 1][..i] == es[..i];
  }

  /** `ids` numbers the inserted metatiles: one row for each, in order, and no other. */
  ghost predicate Numbers(ids: seq<nat>, rows: map<nat, T.Message>, tiles: seq<T.Message>) {
    && |ids| == |tiles| && NoTwins(ids)
    && (forall x | 0 <= x < |ids| :: ids[x] in rows && rows[ids[x]] == tiles[x])
    && (forall r | r in rows :: r in ids)
  }

  lemma NumbersMore(ids: seq<nat>, rows: map<nat, T.Message>, tiles: seq<T.Message>, r: nat, m: T.Message)
    requires Numbers(ids, rows, tiles) && r !in rows
    ensures Numbers(ids + [r], rows[r := m], tiles + [m])
  {
    forall x | 0 <= x < |ids| ensures ids[x] != r { assert ids[x] in rows; }
    assert (ids + [r])[|ids|] == r;
    forall q | q in ids ensures q in ids + [r] {}
  }

  lemma NoRowsAtStart(s: System, j: nat)
    requires Init(s)
    ensures RowsPut(s, j) == map[]
  {
  }

  lemma {:induction false} RowsNumbered(ss: seq<System>, es: seq<Event>, i: nat, j: nat) returns (ids: seq<nat>)
    requires IsRun(ss, es) && i <= |es|
    ensures Numbers(ids, RowsPut(ss[i], j), Inserted(es[..i], j))
  {
    if i == 0 {
      ids := [];
      NoRowsAtStart(ss[0], j);
    } else {
      ids := RowsNumbered(ss, es, i - 1, j);
      RefilledOfRun(ss, es, i - 1, j);
      InsertedMore(es, i - 1, j);
      ids := NumbersRefilled(ids, RowsPut(ss[i - 1], j), RowsPut(ss[i], j), Inserted(es[..i - 1], j), es[i - 1], j,
                             ss[i - 1].tables.nextRowId);
    }
  }

  lemma NumbersRefilled(ids: seq<nat>, rows: map<nat, T.Message>, rows': map<nat, T.Message>, tiles: seq<T.Message>,
                        e: Event, j: nat, r: nat) returns (ids': seq<nat>)
    requires Numbers(ids, rows, tiles) && r !in rows && rows' == Refilled(rows, r, e, j)
    ensures Numbers(ids', rows', AfterEvent(tiles, e, j))
  {
    if e.ClearRows? && e.job == j {
      ids' := [];
    } else if e.Insert? && e.job == j {
      NumbersMore(ids, rows, tiles, r, e.metaTile);
      ids' := ids + [r];
    } else {
      ids' := ids;
    }
  }

  lemma RefilledOfRun(ss: seq<System>, es: seq<Event>, i: nat, j: nat)
    requires IsRun(ss, es) && i < |es|
    ensures RowsPut(ss[i + 1], j) == Refilled(RowsPut(ss[i], j), ss[i].tables.nextRowId, es[i], j)
    ensures ss[i].tables.nextRowId !in RowsPut(ss[i], j)
  {
    RunInv(ss, es, i);
    ReadyFromInv(ss[i]);
    assert StepAt(ss, es, i);
    RefilledByStep(ss[i], es[i], j);
  }

  lemma FillsBeforeEnd(s: System, e: Event, j: nat)
    requires Enabled(s, e) && Ready(s) && HandedOut(s, j)
    ensures !(e.ClearRows? && e.job == j) && !(e.Insert? && e.job == j)
  {
  }

  lemma FillsBeforeEndOfRun(ss: seq<System>, es: seq<Event>, i: nat, j: nat)
    requires IsRun(ss, es) && i < |es| && HandedOut(ss[i], j)
    ensures !(es[i].ClearRows? && es[i].job == j) && !(es[i].Insert? && es[i].job == j)
  {
    RunInv(ss, es, i);
    ReadyFromInv(ss[i]);
    assert StepAt(ss, es, i);
    FillsBeforeEnd(ss[i], es[i], j);
  }

  /** Nothing is inserted for a job once its command ended. */
  lemma {:induction false} InsertedKept(ss: seq<System>, es: seq<Event>, m: nat, i: nat, j: nat)
    requires IsRun(ss, es) && m < i <= |es| && Ends(es[m], j)
    ensures Inserted(es[..i], j) == Inserted(es[..m], j)
    decreases i
  {
    InsertedMore(es, i - 1, j);
    if i == m + 1 {
    } else {
      InsertedKept(ss, es, m, i - 1, j);
      EndedExact(ss, es, i - 1, j);
      FillsBeforeEndOfRun(ss, es, i - 1, j);
    }
  }

  // ----- The buffer of a queue generation -----

  /** What happens while a queue generation runs: an event of its insert buffer, or an
      event of the rest of the system. */
  datatype Act = OfQueue(event: Event) | OfBuffer(change: Buffer.Event)

  /** The rows that reach the table with an event of the buffer: those whose
      transaction it commits. */
  function Emitted(b: Buffer.State, e: Buffer.Event): seq<T.NewRow> {
    match e
    case Inserted => if b.flush.Some? && b.flush.value.ownSession then b.flush.value.rows else []
    case Commit(i) => if i < |b.batches| then b.batches[i].rows else []
    case _ => []
  }

  function InsertEvents(rows: seq<T.NewRow>): seq<Event> {
    seq(|rows|, i requires 0 <= i < |rows| => Insert(rows[i].jobId, rows[i].metaTile))
  }

  /** The events of the queue that an act is. */
  function QueueEventsOf(b: Buffer.State, act: Act): seq<Event> {
    match act
    case OfQueue(e) => [e]
    case OfBuffer(e) => InsertEvents(Emitted(b, e))
  }

  /** Only the buffer inserts rows of job `j`, and only rows of job `j`. */
  ghost predicate ActAt(acts: seq<Act>, bs: seq<Buffer.State>, j: nat, k: nat)
    requires |bs| == |acts| + 1 && k < |acts|
  {
    match acts[k]
    case OfQueue(e) => bs[k + 1] == bs[k] && !(e.Insert? && e.job == j) && !(e.ClearRows? && e.job == j)
    case OfBuffer(e) =>
      Buffer.Enabled(bs[k], e) && bs[k + 1] == Buffer.Step(bs[k], e) && (e.Put? ==> e.row.jobId == j)
  }

  /** `bs` are the states of the buffer while `acts` happen. */
  ghost predicate Woven(acts: seq<Act>, bs: seq<Buffer.State>, j: nat) {
    |bs| == |acts| + 1 && bs[0] == Buffer.START && forall k | 0 <= k < |acts| :: ActAt(acts, bs, j, k)
  }

  /** The events of the queue that the acts are. */
  function QueueEvents(acts: seq<Act>, bs: seq<Buffer.State>): seq<Event>
    requires |bs| == |acts| + 1
  {
    if acts == [] then []
    else
      var n := |acts| - 1;
      QueueEvents(acts[..n], bs[..n + 1]) + QueueEventsOf(bs[n], acts[n])
  }

  /** The rows of committed transactions. */
  function Committed(batches: seq<Buffer.Batch>): multiset<T.NewRow> {
    if batches == [] then multiset{}
    else
      var n := |batches| - 1;
      Committed(batches[..n]) + if batches[n].commit.Committed? then multiset(batches[n].rows) else multiset{}
  }

  lemma CommittedMore(batches: seq<Buffer.Batch>, batch: Buffer.Batch)
    ensures Committed(batches + [batch])
         == Committed(batches) + if batch.commit.Committed? then multiset(batch.rows) else multiset{}
  {
    assert (batches + [batch])[..|batches|] == batches;
  }

  lemma {:induction false} CommittedUpdate(batches: seq<Buffer.Batch>, i: nat, commit: Buffer.Commit)
    requires i < |batches| && batches[i].commit.Open?
    ensures Committed(batches[i := batches[i].(commit := commit)])
         == Committed(batches) + if commit.Committed? then multiset(batches[i].rows) else multiset{}
  {
    var n := |batches| - 1;
    var batch := batches[i].(commit := commit);
    var batches' := batches[i := batch];
    if i == n {
      assert batches'[..n] == batches[..n];
    } else {
      CommittedUpdate(batches[..n], i, commit);
      assert batches'[..n] == batches[..n][i := batch];
    }
  }

  lemma CommittedByEvent(b: Buffer.State, e: Buffer.Event)
    requires Buffer.Enabled(b, e)
    ensures Committed(Buffer.Step(b, e).batches) == Committed(b.batches) + multiset(Emitted(b, e))
  {
    match e {
      case Inserted =>
        var f := b.flush.value;
        CommittedMore(b.batches, Buffer.Batch(f.rows, if f.ownSession then Buffer.Committed else Buffer.Open));
      case Commit(i) => CommittedUpdate(b.batches, i, Buffer.Committed);
      case Rollback(i) => CommittedUpdate(b.batches, i, Buffer.RolledBack);
      case _ =>
    }
  }

  predicate AllOf(rows: seq<T.NewRow>, j: nat) { forall i | 0 <= i < |rows| :: rows[i].jobId == j }

  /** Every row in the buffer belongs to job `j`. */
  ghost predicate OwnRows(b: Buffer.State, j: nat) {
    && AllOf(b.buffer, j) && (b.flush.Some? ==> AllOf(b.flush.value.rows, j))
    && forall i | 0 <= i < |b.batches| :: AllOf(b.batches[i].rows, j)
  }

  lemma OwnRowsKept(b: Buffer.State, e: Buffer.Event, j: nat)
    requires Buffer.Enabled(b, e) && OwnRows(b, j) && (e.Put? ==> e.row.jobId == j)
    ensures OwnRows(Buffer.Step(b, e), j) && AllOf(Emitted(b, e), j)
  {
  }

  lemma InsertEventsMore(rows: seq<T.NewRow>, row: T.NewRow)
    ensures InsertEvents(rows + [row]) == InsertEvents(rows) + [Insert(row.jobId, row.metaTile)]
  {
  }

  lemma {:induction false} InsertedByEvents(es: seq<Event>, rows: seq<T.NewRow>, j: nat)
    requires AllOf(rows, j)
    ensures T.NewRows(j, Inserted(es + InsertEvents(rows), j)) == T.NewRows(j, Inserted(es, j)) + rows
    decreases |rows|
  {
    if rows == [] {
      assert es + InsertEvents(rows) == es;
    } else {
      var n := |rows| - 1;
      var init, row := rows[..n], rows[n];
      assert rows == init + [row];
      InsertedByEvents(es, init, j);
      InsertEventsMore(init, row);
      EventsAssociate(es, InsertEvents(init), [Insert(j, row.metaTile)]);
      InsertedLast(es + InsertEvents(init), Insert(j, row.metaTile), j);
      NewRowsMore(j, Inserted(es + InsertEvents(init), j), row.metaTile);
      RowsAssociate(T.NewRows(j, Inserted(es, j)), init, [row]);
    }
  }

  lemma RowsAssociate(a: seq<T.NewRow>, b: seq<T.NewRow>, c: seq<T.NewRow>)
    ensures a + (b + c) == (a + b) + c
  {
  }

  lemma InsertedLast(es: seq<Event>, e: Event, j: nat)
    ensures Inserted(es + [e], j) == AfterEvent(Inserted(es, j), e, j)
  {
    assert (es + [e])[..|es|] == es;
  }

  lemma NewRowsMore(j: nat, tiles: seq<T.Message>, m: T.Message)
    ensures T.NewRows(j, tiles + [m]) == T.NewRows(j, tiles) + [T.NewRow(j, m)]
  {
  }

  /** The rows inserted for a job since its queue generation began are those that its
      buffer has committed, whatever happens in between. */
  lemma {:induction false} WovenRows(before: seq<Event>, acts: seq<Act>, bs: seq<Buffer.State>, j: nat)
    requires Inserted(before, j) == [] && Woven(acts, bs, j)
    ensures OwnRows(bs[|acts|], j)
    ensures multiset(T.NewRows(j, Inserted(before + QueueEvents(acts, bs), j))) == Committed(bs[|acts|].batches)
    decreases |acts|
  {
    if acts == [] {
      assert before + QueueEvents(acts, bs) == before;
    } else {
      var n := |acts| - 1;
      var init := bs[..n + 1];
      WovenPrefix(acts, bs, j);
      WovenRows(before, acts[..n], init, j);
      var es, more := QueueEvents(acts[..n], init), QueueEventsOf(bs[n], acts[n]);
      EventsAssociate(before, es, more);
      WovenAct(before + es, acts, bs, j);
    }
  }

  lemma EventsAssociate(a: seq<Event>, b: seq<Event>, c: seq<Event>)
    ensures a + (b + c) == (a + b) + c
  {
  }

  lemma WovenPrefix(acts: seq<Act>, bs: seq<Buffer.State>, j: nat)
    requires Woven(acts, bs, j) && acts != []
    ensures Woven(acts[..|acts| - 1], bs[..|acts|], j)
  {
    var init, states := acts[..|acts| - 1], bs[..|acts|];
    forall k | 0 <= k < |init| ensures ActAt(init, states, j, k) {
      assert ActAt(acts, bs, j, k);
    }
  }

  lemma WovenAct(es: seq<Event>, acts: seq<Act>, bs: seq<Buffer.State>, j: nat)
    requires Woven(acts, bs, j) && acts != [] && OwnRows(bs[|acts| - 1], j)
    requires multiset(T.NewRows(j, Inserted(es, j))) == Committed(bs[|acts| - 1].batches)
    ensures OwnRows(bs[|acts|], j)
    ensures multiset(T.NewRows(j, Inserted(es + QueueEventsOf(bs[|acts| - 1], acts[|acts| - 1]), j)))
         == Committed(bs[|acts|].batches)
  {
    var n := |acts| - 1;
    assert ActAt(acts, bs, j, n);
    match acts[n] {
      case OfQueue(e) => InsertedLast(es, e, j);
      case OfBuffer(e) =>
        OwnRowsKept(bs[n], e, j);
        CommittedByEvent(bs[n], e);
        InsertedByEvents(es, Emitted(bs[n], e), j);
    }
  }

  lemma {:induction false} WovenRuns(acts: seq<Act>, bs: seq<Buffer.State>, j: nat)
    requires Woven(acts, bs, j)
    ensures Buffer.Inv(bs[|acts|])
    decreases |acts|
  {
    if acts == [] {
    } else {
      var n := |acts| - 1;
      WovenPrefix(acts, bs, j);
      WovenRuns(acts[..n], bs[..n + 1], j);
      assert ActAt(acts, bs, j, n);
      if acts[n].OfBuffer? {
        Buffer.StepInv(bs[n], acts[n].change);
      }
    }
  }

  /** All the puts of a queue generation have reached the table: no insert failed,
      every transaction was committed, nothing waits. */
  ghost predicate AllInserted(b: Buffer.State) {
    b.readded == [] && Buffer.Waiting(b) == [] && forall i | 0 <= i < |b.batches| :: b.batches[i].commit.Committed?
  }

  lemma {:induction false} AllCommitted(batches: seq<Buffer.Batch>)
    requires forall i | 0 <= i < |batches| :: batches[i].commit.Committed?
    ensures Committed(batches) == multiset(Buffer.Rows(batches))
  {
    if batches == [] {
    } else {
      AllCommitted(batches[..|batches| - 1]);
    }
  }

  lemma AllPutsInserted(b: Buffer.State)
    requires Buffer.Inv(b) && AllInserted(b)
    ensures Committed(b.batches) == multiset(b.puts)
  {
    AllCommitted(b.batches);
    assert Buffer.Rows(b.batches) + Buffer.Waiting(b) == Buffer.Rows(b.batches);
  }

  /** The queue generation of job `j` begins: its queue is cleared, or a master process
      creates the job. */
  predicate Begins(s: System, e: Event, j: nat) {
    e == ClearRows(j) || (e.CreateMasterJob? && s.tables.nextJobId == j)
  }

  /** A queue generation of job `j`, from its beginning at `a` to its end at `m`: its
      buffer acts among the events of the others. */
  ghost predicate Generated(ss: seq<System>, es: seq<Event>, j: nat, a: nat, m: nat,
                            acts: seq<Act>, bs: seq<Buffer.State>)
    requires IsRun(ss, es)
  {
    && a < m < |es| && Begins(ss[a], es[a], j) && Ends(es[m], j)
    && Woven(acts, bs, j) && es[a + 1..m] == QueueEvents(acts, bs)
  }

  lemma NothingInsertedAtBeginning(ss: seq<System>, es: seq<Event>, a: nat, j: nat)
    requires IsRun(ss, es) && a < |es| && Begins(ss[a], es[a], j)
    ensures Inserted(es[..a + 1], j) == []
  {
    InsertedMore(es, a, j);
    if es[a].CreateMasterJob? {
      var ids := RowsNumbered(ss, es, a, j);
      RunInv(ss, es, a);
      ReadyFromInv(ss[a]);
      NoRowsYet(ss[a], j);
      if Inserted(es[..a], j) != [] {
        SomeRow(ids, RowsPut(ss[a], j), Inserted(es[..a], j));
      }
    }
  }

  lemma SomeRow(ids: seq<nat>, rows: map<nat, T.Message>, tiles: seq<T.Message>)
    requires Numbers(ids, rows, tiles) && tiles != []
    ensures exists r :: r in rows
  {
    assert ids[0] in rows;
  }

  lemma NoRowsYet(s: System, j: nat)
    requires Inv(s) && j !in s.tables.jobs
    ensures RowsPut(s, j) == map[]
  {
    forall r | r in s.put ensures s.put[r].jobId != j { assert PutOk(s, r); }
  }

  /** At the end of a queue generation the rows inserted are those that the buffer has
      committed. */
  lemma InsertedAtEnd(ss: seq<System>, es: seq<Event>, j: nat, a: nat, m: nat, acts: seq<Act>, bs: seq<Buffer.State>)
    requires IsRun(ss, es) && Generated(ss, es, j, a, m, acts, bs)
    ensures multiset(T.NewRows(j, Inserted(es[..m], j))) == Committed(bs[|acts|].batches)
  {
    NothingInsertedAtBeginning(ss, es, a, j);
    WovenRows(es[..a + 1], acts, bs, j);
    assert es[..m] == es[..a + 1] + es[a + 1..m];
  }
}
