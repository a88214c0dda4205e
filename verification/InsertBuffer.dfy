/** The buffer in front of the queue table, shared by concurrent tasks.

    `put_one` appends under one lock, a flush runs under another: it copies the
    buffer, inserts the copy, and removes it from the front of the buffer. Rows
    are appended while a flush is on its way. A flush from `put_one` uses the
    session of its caller, which commits after the flush has removed the rows. */
module InsertBuffer {
  import opened Common
  import opened QueueTables

  datatype Commit = Open | Committed | RolledBack

  /** Rows inserted by one flush, and what became of their transaction. */
  datatype Batch = Batch(rows: seq<NewRow>, commit: Commit)

  /** The flush that holds the flush lock. */
  datatype Flush = Flush(rows: seq<NewRow>, ownSession: bool, inserted: bool)

  /** `puts` are the rows put so far and `readded` the rows put back in front of the
      buffer by failed flushes; both are history. */
  datatype State = State(
    buffer: seq<NewRow>,
    flush: Option<Flush>,
    batches: seq<Batch>,
    puts: seq<NewRow>,
    readded: seq<NewRow>)

  datatype Event =
    | Put(row: NewRow)
    | Begin(ownSession: bool)
    | Fail
    | Inserted
    | Remove
    | Commit(batch: nat)
    | Rollback(batch: nat)

  const START := State([], None, [], [], [])

  predicate Enabled(s: State, e: Event) {
    match e
    case Put(_) => true
    case Begin(_) => s.flush.None? && s.buffer != []
    case Fail => s.flush.Some? && !s.flush.value.inserted
    case Inserted => s.flush.Some? && !s.flush.value.inserted
    case Remove => s.flush.Some? && s.flush.value.inserted
    case Commit(i) => i < |s.batches| && s.batches[i].commit.Open?
    case Rollback(i) => i < |s.batches| && s.batches[i].commit.Open?
  }

  /** The copied rows are still the front of the buffer. */
  predicate PrefixTest(s: State)
    requires s.flush.Some?
  {
    |s.flush.value.rows| <= |s.buffer| && s.buffer[..|s.flush.value.rows|] == s.flush.value.rows
  }

  function Step(s: State, e: Event): State
    requires Enabled(s, e)
  {
    match e
    case Put(row) => s.(buffer := s.buffer + [row], puts := s.puts + [row])
    case Begin(own) => s.(flush := Some(Flush(s.buffer, own, false)))
    case Fail =>
      s.(flush := None, buffer := s.flush.value.rows + s.buffer, readded := s.readded + s.flush.value.rows)
    case Inserted =>
      var f := s.flush.value;
      s.(flush := Some(f.(inserted := true)),
         batches := s.batches + [Batch(f.rows, if f.ownSession then Committed else Open)])
    case Remove =>
      s.(flush := None, buffer := if PrefixTest(s) then s.buffer[|s.flush.value.rows|..] else s.buffer)
    case Commit(i) => s.(batches := s.batches[i := s.batches[i].(commit := Committed)])
    case Rollback(i) => s.(batches := s.batches[i := s.batches[i].(commit := RolledBack)])
  }

  ghost predicate Runs(s: State, es: seq<Event>, s': State)
    decreases |es|
  {
    if es == [] then s == s' else Enabled(s, es[0]) && Runs(Step(s, es[0]), es[1..], s')
  }

  function Rows(bs: seq<Batch>): seq<NewRow> {
    if bs == [] then [] else Rows(bs[..|bs| - 1]) + bs[|bs| - 1].rows
  }

  /** The rows of the batches whose transaction was, or was not, rolled back. */
  function RowsLost(bs: seq<Batch>, lost: bool): multiset<NewRow> {
    if bs == [] then multiset{}
    else RowsLost(bs[..|bs| - 1], lost)
         + if bs[|bs| - 1].commit.RolledBack? == lost then multiset(bs[|bs| - 1].rows) else multiset{}
  }

  /** The buffered rows that no flush has inserted. */
  function Waiting(s: State): seq<NewRow> {
    if s.flush.Some? && s.flush.value.inserted && PrefixTest(s) then s.buffer[|s.flush.value.rows|..] else s.buffer
  }

  ghost predicate Inv(s: State) {
    && (s.flush.Some? ==> PrefixTest(s) && s.flush.value.rows != [])
    && (forall b | b in s.batches :: b.rows != [])
    && multiset(Rows(s.batches)) + multiset(Waiting(s)) == multiset(s.puts) + multiset(s.readded)
    && (s.readded == [] ==> Rows(s.batches) + Waiting(s) == s.puts)
  }

  lemma {:induction false} RowsUpdate(bs: seq<Batch>, i: nat, b: Batch)
    requires i < |bs| && b.rows == bs[i].rows
    ensures Rows(bs[i := b]) == Rows(bs)
  {
    var n := |bs| - 1;
    if i < n {
      assert bs[i := b][..n] == bs[..n][i := b];
      RowsUpdate(bs[..n], i, b);
    } else {
      assert bs[i := b][..n] == bs[..n];
    }
  }

  lemma AddToBoth(a: multiset<NewRow>, w: multiset<NewRow>, p: multiset<NewRow>, r: multiset<NewRow>,
                  x: multiset<NewRow>)
    requires a + w == p + r
    ensures a + (w + x) == (p + x) + r == p + (r + x)
  {
    assert a + (w + x) == (a + w) + x;
    assert (p + x) + r == (p + r) + x;
    assert p + (r + x) == (p + r) + x;
  }

  lemma PutInv(s: State, row: NewRow)
    requires Inv(s)
    ensures Inv(Step(s, Put(row)))
  {
    var s' := Step(s, Put(row));
    if s.flush.Some? {
      assert s'.buffer[..|s.flush.value.rows|] == s.buffer[..|s.flush.value.rows|];
    }
    assert Waiting(s') == Waiting(s) + [row];
    assert Rows(s.batches) + Waiting(s') == (Rows(s.batches) + Waiting(s)) + [row];
    assert multiset(Waiting(s')) == multiset(Waiting(s)) + multiset([row]);
    assert multiset(s'.puts) == multiset(s.puts) + multiset([row]);
    AddToBoth(multiset(Rows(s.batches)), multiset(Waiting(s)), multiset(s.puts), multiset(s.readded), multiset([row]));
  }

  lemma FailInv(s: State)
    requires Inv(s) && Enabled(s, Fail)
    ensures Inv(Step(s, Fail))
  {
    var s', rows := Step(s, Fail), s.flush.value.rows;
    assert multiset(Waiting(s')) == multiset(Waiting(s)) + multiset(rows);
    AddToBoth(multiset(Rows(s.batches)), multiset(Waiting(s)), multiset(s.puts), multiset(s.readded), multiset(rows));
    assert multiset(s'.readded) == multiset(s.readded) + multiset(rows);
    assert rows[0] == s'.readded[|s.readded|];
  }

  lemma StepInv(s: State, e: Event)
    requires Inv(s) && Enabled(s, e)
    ensures Inv(Step(s, e))
  {
    match e {
      case Put(row) => PutInv(s, row);
      case Begin(ownSession) => BeginInv(s, ownSession);
      case Fail => FailInv(s);
      case Inserted => InsertedInv(s);
      case Remove => RemoveInv(s);
      case Commit(i) => CommitInv(s, i, Committed);
      case Rollback(i) => CommitInv(s, i, RolledBack);
    }
  }

  lemma BeginInv(s: State, ownSession: bool)
    requires Inv(s) && Enabled(s, Begin(ownSession))
    ensures Inv(Step(s, Begin(ownSession)))
  {
    assert s.buffer[..|s.buffer|] == s.buffer;
  }

  lemma InsertedInv(s: State)
    requires Inv(s) && Enabled(s, Inserted)
    ensures Inv(Step(s, Inserted))
  {
    var s', rows := Step(s, Inserted), s.flush.value.rows;
    assert s'.batches[..|s.batches|] == s.batches;
    assert Waiting(s) == rows + Waiting(s');
    assert Rows(s'.batches) == Rows(s.batches) + rows;
    assert Rows(s'.batches) + Waiting(s') == Rows(s.batches) + Waiting(s);
    assert multiset(Rows(s'.batches) + Waiting(s')) == multiset(Rows(s'.batches)) + multiset(Waiting(s'));
  }

  lemma RemoveInv(s: State)
    requires Inv(s) && Enabled(s, Remove)
    ensures Inv(Step(s, Remove))
  {
    assert Waiting(Step(s, Remove)) == Waiting(s);
  }

  lemma CommitInv(s: State, i: nat, commit: Commit)
    requires Inv(s) && i < |s.batches|
    ensures Inv(s.(batches := s.batches[i := s.batches[i].(commit := commit)]))
  {
    RowsUpdate(s.batches, i, s.batches[i].(commit := commit));
  }

  lemma {:induction false} RunInv(s: State, es: seq<Event>, s': State)
    requires Inv(s) && Runs(s, es, s')
    ensures Inv(s')
    decreases |es|
  {
    if es == [] {
    } else {
      StepInv(s, es[0]);
      RunInv(Step(s, es[0]), es[1..], s');
    }
  }

  /** However puts and flushes interleave, and whichever fail, the test before the
      removal always succeeds. */
  lemma PrefixTestSucceeds(es: seq<Event>, s: State)
    requires Runs(START, es, s) && s.flush.Some?
    ensures PrefixTest(s)
  {
    RunInv(START, es, s);
  }

  /** Exactly once and in order when no insert failed; in any case every put row
      was inserted or still waits. A failed insert duplicates its rows, because
      it puts them back although they were never removed. */
  lemma PutsConserved(es: seq<Event>, s: State)
    requires Runs(START, es, s)
    ensures s.readded == [] ==> Rows(s.batches) + Waiting(s) == s.puts
    ensures multiset(Rows(s.batches)) + multiset(Waiting(s)) == multiset(s.puts) + multiset(s.readded)
    ensures multiset(Rows(s.batches)) + multiset(Waiting(s)) == multiset(s.puts) <==> s.readded == []
  {
    RunInv(START, es, s);
    if s.readded != [] {
      assert s.readded[0] in multiset(s.readded);
      assert (multiset(s.puts) + multiset(s.readded))[s.readded[0]] > multiset(s.puts)[s.readded[0]];
    }
  }

  lemma {:induction false} RowsSplit(bs: seq<Batch>)
    requires forall b | b in bs :: b.rows != []
    ensures multiset(Rows(bs)) == RowsLost(bs, false) + RowsLost(bs, true)
    ensures RowsLost(bs, true) == multiset{} <==> forall b | b in bs :: !b.commit.RolledBack?
  {
    if bs == [] {
    } else {
      var n := |bs| - 1;
      assert bs == bs[..n] + [bs[n]];
      RowsSplit(bs[..n]);
      assert bs[n].rows[0] in multiset(bs[n].rows);
    }
  }

  /** When no insert failed, the rows put are those kept and those waiting exactly
      when no transaction was rolled back: rows already removed from the buffer
      are lost if the commit of `put_one` fails. */
  lemma LostByRollback(es: seq<Event>, s: State)
    requires Runs(START, es, s) && s.readded == []
    ensures RowsLost(s.batches, false) + RowsLost(s.batches, true) + multiset(Waiting(s)) == multiset(s.puts)
    ensures RowsLost(s.batches, false) + multiset(Waiting(s)) == multiset(s.puts)
            <==> forall b | b in s.batches :: !b.commit.RolledBack?
  {
    RunInv(START, es, s);
    RowsSplit(s.batches);
    var kept, lost := RowsLost(s.batches, false) + multiset(Waiting(s)), RowsLost(s.batches, true);
    assert kept + lost == multiset(s.puts);
    if lost != multiset{} {
      var r :| r in lost;
      assert kept[r] < multiset(s.puts)[r];
    }
  }

  /** A run of one put whose flush removes the row and whose commit then fails: the
      row is neither in the table nor in the buffer. */
  lemma RowIsLost(row: NewRow) returns (es: seq<Event>, s: State)
    ensures es == [Put(row), Begin(false), Inserted, Remove, Rollback(0)] && Runs(START, es, s)
    ensures s.puts == [row] && s.readded == []
    ensures RowsLost(s.batches, false) == multiset{} && Waiting(s) == []
  {
    var flush := Flush([row], false, false);
    var batch := Batch([row], Open);
    var s1 := State([row], None, [], [row], []);
    var s2 := State([row], Some(flush), [], [row], []);
    var s3 := State([row], Some(flush.(inserted := true)), [batch], [row], []);
    var s4 := State([], None, [batch], [row], []);
    s := State([], None, [batch.(commit := RolledBack)], [row], []);
    es := [];
    assert Runs(START, es, START);
    es := Play(START, es, START, Put(row), s1);
    es := Play(START, es, s1, Begin(false), s2);
    es := Play(START, es, s2, Inserted, s3);
    es := Play(START, es, s3, Remove, s4);
    es := Play(START, es, s4, Rollback(0), s);
  }

  lemma Play(s0: State, es: seq<Event>, s: State, e: Event, s': State) returns (es': seq<Event>)
    requires Runs(s0, es, s) && Enabled(s, e) && s' == Step(s, e)
    ensures es' == es + [e] && Runs(s0, es', s')
  {
    es' := es + [e];
    RunsOn(s0, es, s, e);
  }

  lemma {:induction false} RunsOn(s0: State, es: seq<Event>, s: State, e: Event)
    requires Runs(s0, es, s) && Enabled(s, e)
    ensures Runs(s0, es + [e], Step(s, e))
    decreases |es|
  {
    if es == [] {
      assert ([] + [e])[1..] == [];
    } else {
      RunsOn(Step(s0, es[0]), es[1..], s, e);
      assert (es + [e])[1..] == es[1..] + [e];
    }
  }

  /** A flush that nothing else interleaves with: it takes the whole buffer, leaves it
      empty when the insert works, and twice as long when it fails. */
  lemma FlushAlone(s: State, ownSession: bool)
    requires s.flush.None? && s.buffer != []
    ensures Enabled(s, Begin(ownSession))
    ensures var began := Step(s, Begin(ownSession));
      && Enabled(began, Inserted) && Enabled(Step(began, Inserted), Remove)
      && Step(Step(began, Inserted), Remove)
         == s.(buffer := [], batches := s.batches + [Batch(s.buffer, if ownSession then Committed else Open)])
      && Enabled(began, Fail)
      && Step(began, Fail) == s.(buffer := s.buffer + s.buffer, readded := s.readded + s.buffer)
  {
    assert s.buffer[..|s.buffer|] == s.buffer;
  }

  /** The end of a transaction is recorded for its own batch only. */
  lemma CommitExact(s: State, i: nat)
    requires i < |s.batches| && s.batches[i].commit.Open?
    ensures Enabled(s, Commit(i)) && Enabled(s, Rollback(i))
    ensures var t, u := Step(s, Commit(i)), Step(s, Rollback(i));
      && t == s.(batches := t.batches) && u == s.(batches := u.batches)
      && |t.batches| == |u.batches| == |s.batches|
      && t.batches[i] == Batch(s.batches[i].rows, Committed) && u.batches[i] == Batch(s.batches[i].rows, RolledBack)
      && forall k | 0 <= k < |s.batches| && k != i :: t.batches[k] == u.batches[k] == s.batches[k]
  {
  }
}
