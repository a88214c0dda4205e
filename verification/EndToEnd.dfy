/** From the seeded metatiles, through the insert buffer and the queue, to a done job. */
module EndToEnd {
  import opened Common
  import T = QueueTables
  import C = Countdown
  import opened QueueSystem
  import opened QueueTheorems
  import opened QueueEndings
  import opened JobStream
  import opened GenerationBuffer
  import Buffer = InsertBuffer

  /** Row `r` of job `j` holds metatile `m`, and was removed by the error-free call of
      a worker that was handed it and stored or dropped all its tiles. */
  ghost predicate Completed(s: System, r: nat, j: nat, m: T.Message) {
    && r in s.put && s.put[r] == T.NewRow(j, m)
    && r in s.completed && s.completed[r] in s.workers
    && var worker := s.workers[s.completed[r]];
       worker.row == r && worker.metatile.n == m.coord.n && C.Clean(worker.metatile)
  }

  lemma SameMembers(a: seq<T.Message>, b: seq<T.Message>)
    requires multiset(a) == multiset(b) && NoTwins(b)
    ensures (forall m :: m in a <==> m in b) && NoTwins(a)
  {
    forall m ensures m in a <==> m in b { assert m in multiset(a) <==> m in multiset(b); }
    forall x, y | 0 <= x < y < |a| ensures a[x] != a[y] {
      AtMostOnce(b, a[x]);
      if a[x] == a[y] { Twice(a, x, y); }
    }
  }

  lemma {:induction false} AtMostOnce(s: seq<T.Message>, m: T.Message)
    requires NoTwins(s)
    ensures multiset(s)[m] <= 1
  {
    if s == [] {
    } else {
      assert s == [s[0]] + s[1..];
      AtMostOnce(s[1..], m);
      if s[0] == m { assert m !in s[1..]; }
    }
  }

  lemma Twice(s: seq<T.Message>, x: nat, y: nat)
    requires x < y < |s| && s[x] == s[y]
    ensures multiset(s)[s[x]] >= 2
  {
    assert s == s[..y] + s[y..];
    assert s[y..] == [s[y]] + s[y + 1..];
    assert s[x] in s[..y] by { assert s[..y][x] == s[x]; }
  }

  lemma {:induction false} CountNewRows(j: nat, s: seq<T.Message>, m: T.Message)
    ensures multiset(T.NewRows(j, s))[T.NewRow(j, m)] == multiset(s)[m]
  {
    if s == [] {
    } else {
      assert s == [s[0]] + s[1..];
      assert T.NewRows(j, s) == [T.NewRow(j, s[0])] + T.NewRows(j, s[1..]);
      CountNewRows(j, s[1..], m);
    }
  }

  lemma SameTiles(j: nat, a: seq<T.Message>, b: seq<T.Message>)
    requires multiset(T.NewRows(j, a)) == multiset(T.NewRows(j, b))
    ensures multiset(a) == multiset(b)
  {
    forall m ensures multiset(a)[m] == multiset(b)[m] {
      CountNewRows(j, a, m);
      CountNewRows(j, b, m);
    }
  }

  lemma RowOfDoneJob(ss: seq<System>, es: seq<Event>, i: nat, j: nat, r: nat)
    requires IsRun(ss, es) && i < |ss|
    requires j in ss[i].tables.jobs && ss[i].tables.jobs[j].status.JobDone? && r in RowsPut(ss[i], j)
    ensures Completed(ss[i], r, j, RowsPut(ss[i], j)[r])
  {
    RunInv(ss, es, i);
    DoneMeansGenerated(ss, es, i, j);
    assert CompletedOk(ss[i], r);
  }

  /** Every wanted metatile has one row of job `j`, and it is completed; every row of
      the job is of a wanted metatile. */
  ghost predicate SeedingCompleted(s: System, j: nat, sources: seq<Source>, kept: T.Message -> bool)
    requires ValidSources(sources)
  {
    && (forall m | Wanted(sources, kept, m) :: exists r :: Completed(s, r, j, m))
    && (forall r | r in RowsPut(s, j) :: Wanted(sources, kept, RowsPut(s, j)[r]))
    && (forall r, q | r in RowsPut(s, j) && q in RowsPut(s, j) && r != q :: RowsPut(s, j)[r] != RowsPut(s, j)[q])
  }

  /** From the geometry to the last tile: let the queue generation of a job put the
      metatiles that are seeded for its layers, grids and dimensions. When the job is
      done, every one of them has been handed to a worker that stored or dropped all
      its tiles, in exactly one row, if and only if the insert buffer committed
      exactly the rows that were put. */
  lemma DoneMeansSeededExact(ss: seq<System>, es: seq<Event>, i: nat, j: nat,
                             sources: seq<Source>, kept: T.Message -> bool, tiles: seq<T.Message>,
                             a: nat, m: nat, acts: seq<Act>, bs: seq<Buffer.State>)
    requires IsRun(ss, es) && m < i < |ss|
    requires j in ss[i].tables.jobs && ss[i].tables.jobs[j].status.JobDone?
    requires ValidSources(sources) && AreSeeded(sources, kept, tiles)
    requires Generated(ss, es, j, a, m, acts, bs) && bs[|acts|].puts == T.NewRows(j, tiles)
    ensures SeedingCompleted(ss[i], j, sources, kept)
            <==> GenerationBuffer.Committed(bs[|acts|].batches) == multiset(bs[|acts|].puts)
  {
    InsertedAtEnd(ss, es, j, a, m, acts, bs);
    InsertedKept(ss, es, m, i, j);
    var inserted := Inserted(es[..i], j);
    var ids := RowsNumbered(ss, es, i, j);
    if GenerationBuffer.Committed(bs[|acts|].batches) == multiset(bs[|acts|].puts) {
      SameTiles(j, inserted, tiles);
      SameMembers(inserted, tiles);
      NumberedCompleted(ss, es, i, j, ids);
      NumberedSeeding(ss[i], j, sources, kept, ids, inserted);
    }
    if SeedingCompleted(ss[i], j, sources, kept) {
      InsertedAreSeeded(ss[i], j, sources, kept, ids, inserted);
      SameCounts(inserted, tiles);
      SameRows(j, inserted, tiles);
    }
  }

  /** In particular when no insert failed and every transaction was committed. */
  lemma DoneMeansSeeded(ss: seq<System>, es: seq<Event>, i: nat, j: nat,
                        sources: seq<Source>, kept: T.Message -> bool, tiles: seq<T.Message>,
                        a: nat, m: nat, acts: seq<Act>, bs: seq<Buffer.State>)
    requires IsRun(ss, es) && m < i < |ss|
    requires j in ss[i].tables.jobs && ss[i].tables.jobs[j].status.JobDone?
    requires ValidSources(sources) && AreSeeded(sources, kept, tiles)
    requires Generated(ss, es, j, a, m, acts, bs) && bs[|acts|].puts == T.NewRows(j, tiles)
    requires AllInserted(bs[|acts|])
    ensures SeedingCompleted(ss[i], j, sources, kept)
  {
    WovenRuns(acts, bs, j);
    AllPutsInserted(bs[|acts|]);
    DoneMeansSeededExact(ss, es, i, j, sources, kept, tiles, a, m, acts, bs);
  }

  lemma InsertedAreSeeded(s: System, j: nat, sources: seq<Source>, kept: T.Message -> bool,
                          ids: seq<nat>, inserted: seq<T.Message>)
    requires ValidSources(sources) && SeedingCompleted(s, j, sources, kept)
    requires Numbers(ids, RowsPut(s, j), inserted)
    ensures AreSeeded(sources, kept, inserted)
  {
    forall x | 0 <= x < |inserted| ensures Wanted(sources, kept, inserted[x]) {
      assert ids[x] in RowsPut(s, j);
    }
    forall m | Wanted(sources, kept, m) ensures m in inserted {
      var r :| Completed(s, r, j, m);
      assert r in RowsPut(s, j);
      var x :| 0 <= x < |ids| && ids[x] == r;
      assert inserted[x] == m;
    }
    forall x, y | 0 <= x < y < |inserted| ensures inserted[x] != inserted[y] {
      assert ids[x] in RowsPut(s, j) && ids[y] in RowsPut(s, j) && ids[x] != ids[y];
    }
  }

  lemma SameCounts(a: seq<T.Message>, b: seq<T.Message>)
    requires NoTwins(a) && NoTwins(b) && forall m :: m in a <==> m in b
    ensures multiset(a) == multiset(b)
  {
    forall m ensures multiset(a)[m] == multiset(b)[m] {
      AtMostOnce(a, m);
      AtMostOnce(b, m);
      assert (m in multiset(a) <==> m in a) && (m in multiset(b) <==> m in b);
    }
  }

  lemma SameRows(j: nat, a: seq<T.Message>, b: seq<T.Message>)
    requires multiset(a) == multiset(b)
    ensures multiset(T.NewRows(j, a)) == multiset(T.NewRows(j, b))
  {
    forall row ensures multiset(T.NewRows(j, a))[row] == multiset(T.NewRows(j, b))[row] {
      CountNewRows(j, a, row.metaTile);
      CountNewRows(j, b, row.metaTile);
      OwnJobRows(j, a, row);
      OwnJobRows(j, b, row);
    }
  }

  lemma OwnJobRows(j: nat, s: seq<T.Message>, row: T.NewRow)
    ensures row.jobId != j ==> multiset(T.NewRows(j, s))[row] == 0
  {
    assert row in multiset(T.NewRows(j, s)) <==> row in T.NewRows(j, s);
  }

  lemma NumberedCompleted(ss: seq<System>, es: seq<Event>, i: nat, j: nat, ids: seq<nat>)
    requires IsRun(ss, es) && i < |ss| && Numbers(ids, RowsPut(ss[i], j), Inserted(es[..i], j))
    requires j in ss[i].tables.jobs && ss[i].tables.jobs[j].status.JobDone?
    ensures forall x | 0 <= x < |ids| :: Completed(ss[i], ids[x], j, Inserted(es[..i], j)[x])
  {
    forall x | 0 <= x < |ids| ensures Completed(ss[i], ids[x], j, Inserted(es[..i], j)[x]) {
      RowOfDoneJob(ss, es, i, j, ids[x]);
    }
  }

  lemma NumberedSeeding(s: System, j: nat, sources: seq<Source>, kept: T.Message -> bool,
                        ids: seq<nat>, tiles: seq<T.Message>)
    requires ValidSources(sources) && AreSeeded(sources, kept, tiles)
    requires Numbers(ids, RowsPut(s, j), tiles)
    requires forall x | 0 <= x < |ids| :: Completed(s, ids[x], j, tiles[x])
    ensures SeedingCompleted(s, j, sources, kept)
  {
    RowsOfTiles(ids, RowsPut(s, j), tiles);
    forall m | m in tiles ensures exists r :: Completed(s, r, j, m) {
      var x :| 0 <= x < |tiles| && tiles[x] == m;
      assert Completed(s, ids[x], j, m);
    }
  }

  lemma RowsOfTiles(ids: seq<nat>, rows: map<nat, T.Message>, tiles: seq<T.Message>)
    requires Numbers(ids, rows, tiles) && NoTwins(tiles)
    ensures forall r | r in rows :: rows[r] in tiles
    ensures forall r, q | r in rows && q in rows && r != q :: rows[r] != rows[q]
  {
    forall r | r in rows ensures rows[r] in tiles {
      var x :| 0 <= x < |ids| && ids[x] == r;
      assert tiles[x] in tiles;
    }
    forall r, q | r in rows && q in rows && r != q ensures rows[r] != rows[q] {
      var x :| 0 <= x < |ids| && ids[x] == r;
      var y :| 0 <= y < |ids| && ids[y] == q;
      assert tiles[if x < y then x else y] != tiles[if x < y then y else x];
    }
  }
}
