/** Generation of the tiles of one metatile by a tile server, and the cache that
    concurrent requests share. One layer, grid and set of dimensions: a cache key is
    a tile's zoom, column and row. Entries do not expire and neither does a lock. */
module MapCache {
  import opened Common
  import opened Divisibility

  /** The key of a tile. The side of a metatile is not part of it. */
  datatype Key = Key(z: int, x: int, y: int)

  function KeyOf(c: TileCoord): Key { Key(c.z, c.x, c.y) }

  /** The data of a tile or metatile, made by one attempt. */
  datatype Image = Image(of: TileCoord, attempt: nat)

  type Cache = map<Key, Image>

  /** What an attempt made of a tile. */
  datatype Outcome = Data | NoData | Error

  /** An attempt: the outcome of the metatile, then those of its tiles in order. */
  type Outcomes = seq<Outcome>

  /** Attempts after the first. */
  const RETRIES: nat := 5

  type MetaTile = c: TileCoord | c.n > 0 witness TileCoord(0, 0, 0, 1)

  /** The metatile that holds a tile. */
  function MetaTileCoord(c: TileCoord, n: nat): MetaTile
    requires n > 0
  {
    TileCoord(c.z, n * (c.x / n), n * (c.y / n), n)
  }

  /** The tiles of a metatile, column by column. */
  function Child(m: MetaTile, i: nat): TileCoord {
    TileCoord(m.z, m.x + i / m.n, m.y + i % m.n, 1)
  }

  /** A metatile as `MetaTileCoord` gives it. */
  predicate Aligned(m: MetaTile) { m.x % m.n == 0 && m.y % m.n == 0 }

  /** The number of a tile is unique in its column and row. */
  lemma NumberUnique(n: nat, dx: int, dy: int)
    requires 0 <= dx < n && 0 <= dy < n
    ensures 0 <= dx * n + dy < n * n && (dx * n + dy) / n == dx && (dx * n + dy) % n == dy
  {
    DivUnique(dx * n + dy, n, dx, dy);
    MulOrder(0, dx, n);
    MulOrder(dx + 1, n, n);
  }

  lemma NumberOf(n: nat, i: nat)
    requires i < n * n
    ensures n > 0 && 0 <= i / n < n && i == i / n * n + i % n
  {
    DivExact(i, n, 0);
    DivExact(i, n, n);
  }

  /** The multiple of n at or before x + d, for x a multiple of n and d < n. */
  lemma BlockStart(x: int, d: int, n: nat)
    requires 0 <= d < n && x % n == 0
    ensures n * ((x + d) / n) == x
  {
    DivUnique(x + d, n, x / n, d);
  }

  /** The metatile of a tile of an aligned metatile is that metatile. */
  lemma MetaTileOfChild(m: MetaTile, i: nat)
    requires Aligned(m) && i < m.n * m.n
    ensures MetaTileCoord(Child(m, i), m.n) == m
  {
    NumberOf(m.n, i);
    BlockStart(m.x, i / m.n, m.n);
    BlockStart(m.y, i % m.n, m.n);
  }

  /** The metatile of a tile is aligned, and the tile is exactly one of its tiles. */
  lemma TileOfMetaTile(c: TileCoord, n: nat) returns (i: nat)
    requires n > 0 && c.n == 1
    ensures Aligned(MetaTileCoord(c, n)) && i < n * n && Child(MetaTileCoord(c, n), i) == c
    ensures forall k: nat | k < n * n && Child(MetaTileCoord(c, n), k) == c :: k == i
  {
    var m := MetaTileCoord(c, n);
    DivUnique(m.x, n, c.x / n, 0);
    DivUnique(m.y, n, c.y / n, 0);
    NumberUnique(n, c.x % n, c.y % n);
    i := c.x % n * n + c.y % n;
    forall k: nat | k < n * n && Child(m, k) == c ensures k == i { KeysDiffer(m, k, i); }
  }

  /** The dictionary of a metatile's tiles: itself first, then its children. */
  function Entry(m: MetaTile, i: nat): TileCoord {
    if i == 0 then m else Child(m, i - 1)
  }

  predicate AllData(a: Outcomes) { forall i | 0 <= i < |a| :: a[i].Data? }

  /** The cache once the entries before `i` have been visited and the good ones written. */
  function Visited(cache: Cache, m: MetaTile, a: Outcomes, attempt: nat, i: nat): Cache
    requires i <= |a|
  {
    if i == 0 then cache
    else
      var before := Visited(cache, m, a, attempt, i - 1);
      if a[i - 1].Data? then before[KeyOf(Entry(m, i - 1)) := Image(Entry(m, i - 1), attempt)] else before
  }

  function FirstBad(a: Outcomes): (i: nat)
    ensures i <= |a|
    ensures forall j | 0 <= j < i :: a[j].Data?
    ensures i < |a| ==> !a[i].Data?
  {
    if a == [] || !a[0].Data? then 0 else 1 + FirstBad(a[1..])
  }

  /** Where an attempt stops visiting: an error of the metatile stops it at once, and
      any bad entry does while there are tries left. */
  function StopAt(a: Outcomes, tries: nat): (i: nat)
    ensures i <= |a|
  {
    if a != [] && a[0].Error? then 0 else if tries > 0 then FirstBad(a) else |a|
  }

  ghost predicate Sized(m: MetaTile, attempts: seq<Outcomes>) {
    forall i | 0 <= i < |attempts| :: |attempts[i]| == m.n * m.n + 1
  }

  /** The cache after these attempts, the first one having `tries` more to go. */
  ghost function After(cache: Cache, m: MetaTile, attempts: seq<Outcomes>, first: nat, tries: nat): Cache
    requires |attempts| <= tries + 1
  {
    if attempts == [] then cache
    else
      var k := |attempts| - 1;
      var a := attempts[k];
      Visited(After(cache, m, attempts[..k], first, tries), m, a, first + k, StopAt(a, tries - k))
  }

  lemma AfterLast(cache: Cache, m: MetaTile, init: seq<Outcomes>, a: Outcomes, first: nat, tries: nat)
    requires |init| <= tries
    ensures After(cache, m, init + [a], first, tries)
         == Visited(After(cache, m, init, first, tries), m, a, first + |init|, StopAt(a, tries - |init|))
  {
    assert (init + [a])[..|init|] == init;
  }

  lemma {:induction false} AfterFirst(cache: Cache, m: MetaTile, a: Outcomes, rest: seq<Outcomes>,
                                      first: nat, tries: nat)
    requires |rest| <= tries && tries > 0
    ensures After(cache, m, [a] + rest, first, tries)
         == After(Visited(cache, m, a, first, StopAt(a, tries)), m, rest, first + 1, tries - 1)
    decreases |rest|
  {
    if rest == [] {
      AfterLast(cache, m, [], a, first, tries);
      assert [a] + rest == [] + [a];
    } else {
      var k := |rest| - 1;
      var init, last := rest[..k], rest[k];
      AfterFirst(cache, m, a, init, first, tries);
      AfterLast(cache, m, [a] + init, last, first, tries);
      assert rest == init + [last];
      assert [a] + rest == ([a] + init) + [last];
      AfterLast(Visited(cache, m, a, first, StopAt(a, tries)), m, init, last, first + 1, tries - 1);
    }
  }

  /** Different tiles of a metatile have different keys; the metatile shares the
      key of its top-left tile. */
  lemma KeysDiffer(m: MetaTile, i: nat, j: nat)
    requires i < m.n * m.n && j < m.n * m.n
    ensures KeyOf(Child(m, i)) == KeyOf(Child(m, j)) <==> i == j
    ensures KeyOf(Child(m, i)) == KeyOf(m) <==> i == 0
  {
    NumberOf(m.n, i);
    NumberOf(m.n, j);
    DivUnique(0, m.n, 0, 0);
  }

  /** What visiting does to one tile's key. */
  lemma {:induction false} VisitedAt(cache: Cache, m: MetaTile, a: Outcomes, attempt: nat, i: nat, child: nat)
    requires |a| == m.n * m.n + 1 && i <= |a| && child < m.n * m.n
    ensures var k, v := KeyOf(Child(m, child)), Visited(cache, m, a, attempt, i);
            if child + 1 < i && a[child + 1].Data? then k in v && v[k] == Image(Child(m, child), attempt)
            else if child == 0 && i > 0 && a[0].Data? then k in v && v[k] == Image(m, attempt)
            else (k in v <==> k in cache) && (k in v ==> v[k] == cache[k])
  {
    if i == 0 {
    } else {
      VisitedAt(cache, m, a, attempt, i - 1, child);
      KeysDiffer(m, child, if i > 1 then i - 2 else 0);
    }
  }

  /** Entry `i` is reached and written: it is good, and nothing before it stopped the attempt. */
  predicate Written(a: Outcomes, tries: nat, i: nat)
    requires i < |a|
  {
    a[i].Data? && (tries == 0 || forall k | 0 <= k < i :: a[k].Data?)
  }

  /** What an attempt whose metatile is not in error leaves under the key of one tile: its
      own data, or the metatile for the top-left one, or what was there. */
  lemma PutAt(cache: Cache, m: MetaTile, a: Outcomes, attempt: nat, tries: nat, child: nat)
    requires |a| == m.n * m.n + 1 && !a[0].Error? && child < m.n * m.n
    ensures var k, v := KeyOf(Child(m, child)), Visited(cache, m, a, attempt, StopAt(a, tries));
            if Written(a, tries, child + 1) then k in v && v[k] == Image(Child(m, child), attempt)
            else if child == 0 && a[0].Data? then k in v && v[k] == Image(m, attempt)
            else (k in v <==> k in cache) && (k in v ==> v[k] == cache[k])
  {
    VisitedAt(cache, m, a, attempt, StopAt(a, tries), child);
    StopExact(a, tries, child + 1);
    StopExact(a, tries, 0);
  }

  lemma StopExact(a: Outcomes, tries: nat, i: nat)
    requires i < |a| && !a[0].Error?
    ensures Written(a, tries, i) <==> i < StopAt(a, tries) && a[i].Data?
  {
    if tries > 0 {
      assert i < FirstBad(a) ==> forall k | 0 <= k <= i :: a[k].Data?;
      assert (forall k | 0 <= k <= i :: a[k].Data?) ==> i < FirstBad(a);
    }
  }

  ghost predicate Holds(cache: Cache, c: TileCoord, image: Image) {
    KeyOf(c) in cache && cache[KeyOf(c)] == image
  }

  /** An attempt of which everything succeeded writes each tile's own data last. */
  lemma AllWritten(cache: Cache, m: MetaTile, a: Outcomes, attempt: nat)
    requires |a| == m.n * m.n + 1 && AllData(a)
    ensures forall child: nat | child < m.n * m.n ::
              Holds(Visited(cache, m, a, attempt, |a|), Child(m, child), Image(Child(m, child), attempt))
  {
    forall child: nat | child < m.n * m.n
      ensures Holds(Visited(cache, m, a, attempt, |a|), Child(m, child), Image(Child(m, child), attempt))
    {
      VisitedAt(cache, m, a, attempt, |a|, child);
    }
  }

  lemma AllStop(a: Outcomes, tries: nat)
    requires AllData(a)
    ensures StopAt(a, tries) == |a|
  {
  }

  // ----- What the top-left key keeps -----

  /** The attempt writes the metatile and not its top-left tile. */
  predicate LeavesWhole(a: Outcomes) { |a| > 1 && a[0].Data? && !a[1].Data? }

  /** The attempt does not touch the key of the top-left tile. */
  predicate Untouching(a: Outcomes, tries: nat) {
    |a| > 1 && (a[0].Error? || (a[0].NoData? && (tries > 0 || !a[1].Data?)))
  }

  ghost predicate Whole(cache: Cache, m: MetaTile) {
    KeyOf(m) in cache && cache[KeyOf(m)].of == m
  }

  lemma WholeAfterOne(cache: Cache, m: MetaTile, a: Outcomes, attempt: nat, tries: nat)
    requires m.n > 1 && |a| == m.n * m.n + 1
    ensures Whole(Visited(cache, m, a, attempt, StopAt(a, tries)), m)
       <==> if Untouching(a, tries) then Whole(cache, m) else LeavesWhole(a)
  {
    assert m.n * m.n > 0;
    VisitedAt(cache, m, a, attempt, StopAt(a, tries), 0);
    KeysDiffer(m, 0, 0);
    assert tries > 0 && a[0].Data? && a[1].Data? && !a[0].Error? ==> FirstBad(a) >= 2 by {
      assert FirstBad(a) < |a| ==> !a[FirstBad(a)].Data?;
    }
  }

  ghost predicate WholeWritten(attempts: seq<Outcomes>, tries: nat)
    requires |attempts| <= tries + 1
  {
    exists k | 0 <= k < |attempts| :: LeavesWhole(attempts[k]) && UntouchedFrom(attempts, k + 1, tries)
  }

  lemma UntouchedMore(init: seq<Outcomes>, a: Outcomes, j: nat, tries: nat)
    requires |init| <= tries && j <= |init|
    ensures UntouchedFrom(init + [a], j, tries) <==> UntouchedFrom(init, j, tries) && Untouching(a, tries - |init|)
  {
    var all := init + [a];
    assert all[|init|] == a;
    assert forall i | 0 <= i < |init| :: all[i] == init[i];
  }

  lemma WholeWrittenMore(init: seq<Outcomes>, a: Outcomes, tries: nat)
    requires |init| <= tries
    ensures WholeWritten(init + [a], tries)
       <==> LeavesWhole(a) || (WholeWritten(init, tries) && Untouching(a, tries - |init|))
  {
    var all := init + [a];
    if LeavesWhole(a) {
      assert all[|init|] == a && UntouchedFrom(all, |init| + 1, tries);
    }
    if k :| 0 <= k < |init| && LeavesWhole(init[k]) && UntouchedFrom(init, k + 1, tries) {
      UntouchedMore(init, a, k + 1, tries);
      assert all[k] == init[k];
    }
    if k :| 0 <= k < |all| && LeavesWhole(all[k]) && UntouchedFrom(all, k + 1, tries) {
      if k < |init| {
        UntouchedMore(init, a, k + 1, tries);
        assert all[k] == init[k];
      }
    }
  }

  /** After a generation the top-left key holds the whole metatile exactly when the
      last attempt that touched that key wrote the metatile and not its top-left
      tile, or no attempt touched it and it already held it. */
  lemma {:induction false} WholeLeftExact(cache: Cache, m: MetaTile, attempts: seq<Outcomes>, first: nat, tries: nat)
    requires m.n > 1 && Sized(m, attempts) && |attempts| <= tries + 1
    ensures Whole(After(cache, m, attempts, first, tries), m)
       <==> WholeWritten(attempts, tries) || (UntouchedFrom(attempts, 0, tries) && Whole(cache, m))
    decreases |attempts|
  {
    if attempts == [] {
    } else {
      var k := |attempts| - 1;
      var init, a := attempts[..k], attempts[k];
      assert attempts == init + [a];
      WholeLeftExact(cache, m, init, first, tries);
      WholeLeftStep(cache, m, init, a, first, tries);
    }
  }

  lemma WholeLeftStep(cache: Cache, m: MetaTile, init: seq<Outcomes>, a: Outcomes, first: nat, tries: nat)
    requires m.n > 1 && |a| == m.n * m.n + 1 && |init| <= tries
    requires Whole(After(cache, m, init, first, tries), m)
        <==> WholeWritten(init, tries) || (UntouchedFrom(init, 0, tries) && Whole(cache, m))
    ensures Whole(After(cache, m, init + [a], first, tries), m)
       <==> WholeWritten(init + [a], tries) || (UntouchedFrom(init + [a], 0, tries) && Whole(cache, m))
  {
    AfterLast(cache, m, init, a, first, tries);
    WholeAfterOne(After(cache, m, init, first, tries), m, a, first + |init|, tries - |init|);
    WholeWrittenMore(init, a, tries);
    UntouchedMore(init, a, 0, tries);
    assert LeavesWhole(a) ==> !Untouching(a, tries - |init|);
  }

  predicate UntouchedFrom(attempts: seq<Outcomes>, k: nat, tries: nat)
    requires |attempts| <= tries + 1
  {
    forall i | k <= i < |attempts| :: Untouching(attempts[i], tries - i)
  }

  // ----- The sequential form -----

  /** What `compute_tile` does with the outcomes of the attempts it makes: it makes
      them one after the other until one succeeds or none is left, and caches their
      tiles. */
  ghost predicate Computes(before: Cache, first: nat, m: MetaTile, tries: nat, made: seq<Outcomes>,
                           success: bool, after: Cache)
  {
    && 1 <= |made| <= tries + 1
    && after == After(before, m, made, first, tries)
    && (success <==> AllData(made[|made| - 1]))
    && (forall k | 0 <= k < |made| - 1 :: !AllData(made[k]))
    && (success || |made| == tries + 1)
  }

  lemma ComputesOnce(before: Cache, first: nat, m: MetaTile, tries: nat, a: Outcomes, success: bool, after: Cache)
    requires (success <==> AllData(a)) && (success || tries == 0)
    requires after == Visited(before, m, a, first, StopAt(a, tries))
    ensures Computes(before, first, m, tries, [a], success, after)
  {
    AfterLast(before, m, [], a, first, tries);
    assert [a] == [] + [a];
  }

  lemma ComputesMore(before: Cache, first: nat, m: MetaTile, tries: nat, a: Outcomes, made: seq<Outcomes>,
                     success: bool, after: Cache)
    requires tries > 0 && !AllData(a)
    requires Computes(Visited(before, m, a, first, StopAt(a, tries)), first + 1, m, tries - 1, made, success, after)
    ensures Computes(before, first, m, tries, [a] + made, success, after)
  {
    AfterFirst(before, m, a, made, first, tries);
    assert forall k | 1 <= k <= |made| :: ([a] + made)[k] == made[k - 1];
  }

  /** A generation that succeeds leaves each tile's own data, made by the last
      attempt, under each tile's key, although the metatile is written first under
      one of them. */
  lemma SuccessIsOwnData(before: Cache, first: nat, m: MetaTile, tries: nat, made: seq<Outcomes>, after: Cache)
    requires Sized(m, made) && Computes(before, first, m, tries, made, true, after)
    ensures forall child: nat | child < m.n * m.n ::
              Holds(after, Child(m, child), Image(Child(m, child), first + |made| - 1))
  {
    var k := |made| - 1;
    var a := made[k];
    AllStop(a, tries - k);
    AllWritten(After(before, m, made[..k], first, tries), m, a, first + k);
  }

  /** A server worker, alone with the cache. */
  class Generator {
    var cache: Cache
    /** Attempts made so far, by anyone. */
    var attempts: nat

    constructor ()
      ensures cache == map[] && attempts == 0
    {
      cache, attempts := map[], 0;
    }

    /** Visit the tiles of an attempt and cache the good ones, up to the first bad
        one when there are tries left (`again`). */
    method PutTiles(m: MetaTile, a: Outcomes, attempt: nat, tries: nat) returns (again: bool, success: bool)
      requires |a| == m.n * m.n + 1 && !a[0].Error?
      modifies this`cache
      ensures cache == Visited(old(cache), m, a, attempt, StopAt(a, tries))
      ensures again <==> tries > 0 && !AllData(a)
      ensures !again ==> (success <==> AllData(a))
      ensures forall child: nat | child < m.n * m.n ::
        var k := KeyOf(Child(m, child));
        if Written(a, tries, child + 1) then k in cache && cache[k] == Image(Child(m, child), attempt)
        else if child == 0 && a[0].Data? then k in cache && cache[k] == Image(m, attempt)
        else (k in cache <==> k in old(cache)) && (k in cache ==> cache[k] == old(cache)[k])
    {
      forall child: nat | child < m.n * m.n
        ensures var k, v := KeyOf(Child(m, child)), Visited(cache, m, a, attempt, StopAt(a, tries));
                if Written(a, tries, child + 1) then k in v && v[k] == Image(Child(m, child), attempt)
                else if child == 0 && a[0].Data? then k in v && v[k] == Image(m, attempt)
                else (k in v <==> k in cache) && (k in v ==> v[k] == cache[k])
      {
        PutAt(cache, m, a, attempt, tries, child);
      }
      success, again := true, false;
      var i := 0;
      while i < |a|
        invariant 0 <= i <= |a|
        invariant cache == Visited(old(cache), m, a, attempt, i)
        invariant success <==> forall j | 0 <= j < i :: a[j].Data?
        invariant tries > 0 ==> success
      {
        if a[i].Data? {
          cache := cache[KeyOf(Entry(m, i)) := Image(Entry(m, i), attempt)];
        } else if tries > 0 {
          assert i == FirstBad(a) by { assert FirstBad(a) >= i; }
          return true, success;
        } else {
          success := false;
        }
        i := i + 1;
      }
    }

    /** Generate a metatile and cache its tiles; what the attempts produce is given.
        `made` is the number of attempts used. */
    method ComputeTile(m: MetaTile, tries: nat, outcomes: seq<Outcomes>) returns (success: bool, made: nat)
      requires Sized(m, outcomes) && |outcomes| == tries + 1
      modifies this
      ensures 1 <= made <= tries + 1 && attempts == old(attempts) + made
      ensures Computes(old(cache), old(attempts), m, tries, outcomes[..made], success, cache)
      ensures (success <==> AllData(outcomes[made - 1])) && (success || made == tries + 1)
      ensures forall k | 0 <= k < made - 1 :: !AllData(outcomes[k])
      decreases tries
    {
      var a := outcomes[0];
      SizedParts(m, outcomes);
      var attempt := attempts;
      attempts := attempts + 1;
      var again;
      if a[0].Error? {
        ErrorIsBad(a);
        again, success := tries > 0, false;
      } else {
        again, success := PutTiles(m, a, attempt, tries);
      }
      if again {
        success, made := ComputeTile(m, tries - 1, outcomes[1..]);
        ComputesMore(old(cache), attempt, m, tries, a, outcomes[1..][..made], success, cache);
        FirstAndRest(outcomes, made);
        made := made + 1;
      } else {
        made := 1;
        ComputesOnce(old(cache), attempt, m, tries, a, success, cache);
        assert outcomes[..1] == [a];
      }
      MadeExact(old(cache), old(attempts), m, tries, outcomes, made, success, cache);
    }
  }

  lemma MadeExact(before: Cache, first: nat, m: MetaTile, tries: nat, outcomes: seq<Outcomes>, made: nat,
                  success: bool, after: Cache)
    requires 1 <= made <= |outcomes| && Computes(before, first, m, tries, outcomes[..made], success, after)
    ensures (success <==> AllData(outcomes[made - 1])) && (success || made == tries + 1)
    ensures forall k | 0 <= k < made - 1 :: !AllData(outcomes[k])
  {
    forall k | 0 <= k < made ensures outcomes[..made][k] == outcomes[k] {}
  }

  lemma SizedParts(m: MetaTile, s: seq<Outcomes>)
    requires Sized(m, s) && s != []
    ensures |s[0]| == m.n * m.n + 1 && Sized(m, s[1..])
  {
  }

  lemma ErrorIsBad(a: Outcomes)
    requires a != [] && !a[0].Data?
    ensures !AllData(a)
  {
  }

  lemma FirstAndRest(s: seq<Outcomes>, k: nat)
    requires k < |s|
    ensures s[..k + 1] == [s[0]] + s[1..][..k]
  {
  }
}
