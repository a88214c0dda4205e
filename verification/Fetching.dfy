/** Concurrent requests for the tiles of one metatile. A request reads the cache,
    and on a miss takes the metatile's lock, reads the cache again, and on a second
    miss generates the metatile. Every read, every write and every attempt is a step
    of its own, so the steps of different requests interleave freely. */
module Fetching {
  import opened Common
  import opened MapCache

  /** Where a request is.
      `Generating`  it made these attempts, each of which ended in a retry
      `Visiting`    it is caching the tiles of the last of these attempts
      `before`, `first`  the cache and the number of attempts when it took over */
  datatype Phase =
    | Fresh
    | Waiting
    | Locked
    | Generating(made: seq<Outcomes>, before: Cache, first: nat)
    | Visiting(made: seq<Outcomes>, before: Cache, first: nat, next: nat)
    | Served(image: Image)
    | Refused

  datatype Request = Request(tile: TileCoord, phase: Phase)

  datatype State = State(
    m: MetaTile,
    cache: Cache,
    requests: seq<Request>,
    holder: Option<nat>,
    attempts: nat,
    successes: seq<nat>)

  datatype Event =
    | Read(r: nat)
    | Acquire(r: nat)
    | ReadAgain(r: nat)
    | Attempt(r: nat, outcomes: Outcomes)
    | Visit(r: nat)
    | Finish(r: nat)

  /** Requests for the tiles with these numbers, on an empty cache. */
  function Init(m: MetaTile, children: seq<nat>): State
    requires forall c | c in children :: c < m.n * m.n
  {
    State(m, map[], seq(|children|, i requires 0 <= i < |children| => Request(Child(m, children[i]), Fresh)),
          None, 0, [])
  }

  /** The last attempt ended with an error of the metatile itself. */
  predicate LastFailed(made: seq<Outcomes>) {
    made != [] && var a := made[|made| - 1]; a != [] && a[0].Error?
  }

  /** The request has made fewer than all its attempts; an error of the metatile is
      never cleared, so it comes again. */
  predicate AttemptEnabled(s: State, r: nat, a: Outcomes) {
    r < |s.requests|
    && var p := s.requests[r].phase;
       p.Generating? && |a| == s.m.n * s.m.n + 1 && |p.made| <= RETRIES
       && (LastFailed(p.made) ==> a[0].Error?)
  }

  predicate VisitEnabled(s: State, r: nat) {
    r < |s.requests|
    && var p := s.requests[r].phase;
       p.Visiting? && p.made != [] && p.next < |p.made[|p.made| - 1]|
  }

  predicate FinishEnabled(s: State, r: nat) {
    r < |s.requests|
    && var p := s.requests[r].phase;
       p.Visiting? && p.made != [] && p.next == |p.made[|p.made| - 1]|
  }

  predicate Enabled(s: State, e: Event) {
    e.r < |s.requests|
    && match e
       case Read(r) => s.requests[r].phase.Fresh?
       case Acquire(r) => s.requests[r].phase.Waiting? && s.holder.None?
       case ReadAgain(r) => s.requests[r].phase.Locked?
       case Attempt(r, a) => AttemptEnabled(s, r, a)
       case Visit(r) => VisitEnabled(s, r)
       case Finish(r) => FinishEnabled(s, r)
  }

  /** The number of the last attempt of a generation. */
  function Current(p: Phase): nat
    requires p.Visiting? && p.made != []
  {
    p.first + |p.made| - 1
  }

  function Goto(s: State, r: nat, p: Phase): State
    requires r < |s.requests|
  {
    s.(requests := s.requests[r := s.requests[r].(phase := p)])
  }

  function AttemptStep(s: State, r: nat, a: Outcomes): State
    requires AttemptEnabled(s, r, a)
  {
    var p := s.requests[r].phase;
    var made := p.made + [a];
    var s' := s.(attempts := s.attempts + 1);
    if !a[0].Error? then Goto(s', r, Visiting(made, p.before, p.first, 0))
    else if |p.made| < RETRIES then Goto(s', r, Generating(made, p.before, p.first))
    else Goto(s', r, Refused).(holder := None)
  }

  function VisitStep(s: State, r: nat): State
    requires VisitEnabled(s, r)
  {
    var p := s.requests[r].phase;
    var a := p.made[|p.made| - 1];
    var forward := Goto(s, r, p.(next := p.next + 1));
    if a[p.next].Data? then
      forward.(cache := s.cache[KeyOf(Entry(s.m, p.next)) := Image(Entry(s.m, p.next), Current(p))])
    else if |p.made| <= RETRIES then Goto(s, r, Generating(p.made, p.before, p.first))
    else forward
  }

  function FinishStep(s: State, r: nat): State
    requires FinishEnabled(s, r)
  {
    var tile, p := s.requests[r].tile, s.requests[r].phase;
    if AllData(p.made[|p.made| - 1]) then
      Goto(s, r, Served(Image(tile, Current(p)))).(holder := None, successes := s.successes + [Current(p)])
    else Goto(s, r, Refused).(holder := None)
  }

  function Step(s: State, e: Event): State
    requires Enabled(s, e)
  {
    var key := KeyOf(s.requests[e.r].tile);
    match e
    case Read(r) => Goto(s, r, if key in s.cache then Served(s.cache[key]) else Waiting)
    case Acquire(r) => Goto(s, r, Locked).(holder := Some(r))
    case ReadAgain(r) =>
      if key in s.cache then Goto(s, r, Served(s.cache[key])).(holder := None)
      else Goto(s, r, Generating([], s.cache, s.attempts))
    case Attempt(r, a) => AttemptStep(s, r, a)
    case Visit(r) => VisitStep(s, r)
    case Finish(r) => FinishStep(s, r)
  }

  /** A request whose key is cached is answered from the cache, whether it reads before or
      after it took the lock, and makes no attempt; one whose key is not goes on to take
      the lock, and then to generate. */
  lemma ReadsExact(s: State, r: nat)
    requires r < |s.requests|
    ensures var p, key := s.requests[r].phase, KeyOf(s.requests[r].tile);
      && (p.Fresh? ==>
            && Enabled(s, Read(r))
            && var s' := Step(s, Read(r));
               && s' == s.(requests := s'.requests) && |s'.requests| == |s.requests|
               && (forall q | 0 <= q < |s.requests| && q != r :: s'.requests[q] == s.requests[q])
               && s'.requests[r].tile == s.requests[r].tile
               && s'.requests[r].phase == if key in s.cache then Served(s.cache[key]) else Waiting)
      && (p.Locked? ==>
            && Enabled(s, ReadAgain(r))
            && var s' := Step(s, ReadAgain(r));
               && s'.cache == s.cache && s'.attempts == s.attempts && s'.successes == s.successes
               && s'.requests[r].tile == s.requests[r].tile
               && (key in s.cache ==> s'.requests[r].phase == Served(s.cache[key]) && s'.holder.None?)
               && (key !in s.cache ==>
                     s'.requests[r].phase == Generating([], s.cache, s.attempts) && s'.holder == s.holder))
      && (p.Waiting? && s.holder.None? ==>
            Enabled(s, Acquire(r)) && Step(s, Acquire(r)).requests[r].phase.Locked?
            && Step(s, Acquire(r)).holder == Some(r))
  {
  }

  // ----- What every step keeps -----

  predicate Holding(p: Phase) { p.Locked? || p.Generating? || p.Visiting? }

  ghost predicate IsChild(m: MetaTile, c: TileCoord) { exists i: nat :: i < m.n * m.n && c == Child(m, i) }

  /** A request or a key got its own tile's data, or the metatile's under the key they share. */
  predicate OwnOrWhole(m: MetaTile, k: Key, image: Image) {
    image.of == TileCoord(k.z, k.x, k.y, 1) || (image.of == m && k == KeyOf(m))
  }

  ghost predicate NoneSucceeded(made: seq<Outcomes>) {
    forall i | 0 <= i < |made| :: !AllData(made[i])
  }

  ghost predicate GeneratingOk(m: MetaTile, cache: Cache, attempts: nat, p: Phase)
    requires p.Generating?
  {
    && Sized(m, p.made) && |p.made| <= RETRIES && NoneSucceeded(p.made)
    && attempts == p.first + |p.made|
    && cache == After(p.before, m, p.made, p.first, RETRIES)
  }

  ghost predicate VisitingOk(m: MetaTile, cache: Cache, attempts: nat, p: Phase)
    requires p.Visiting?
  {
    && 1 <= |p.made| <= RETRIES + 1 && Sized(m, p.made)
    && var k := |p.made| - 1;
       var init, a := p.made[..k], p.made[k];
       && NoneSucceeded(init)
       && |a| == m.n * m.n + 1 && !a[0].Error? && p.next <= |a|
       && (k < RETRIES ==> p.next <= FirstBad(a))
       && attempts == p.first + |p.made|
       && cache == Visited(After(p.before, m, init, p.first, RETRIES), m, a, Current(p), p.next)
  }

  ghost predicate RequestOk(s: State, r: nat) {
    r < |s.requests| ==>
      var tile, p := s.requests[r].tile, s.requests[r].phase;
      && IsChild(s.m, tile)
      && (Holding(p) <==> s.holder == Some(r))
      && (p.Generating? || p.Visiting? ==> s.successes == [] && KeyOf(tile) !in p.before)
      && (p.Generating? ==> GeneratingOk(s.m, s.cache, s.attempts, p))
      && (p.Visiting? ==> VisitingOk(s.m, s.cache, s.attempts, p))
      && (p.Served? ==> OwnOrWhole(s.m, KeyOf(tile), p.image))
  }

  ghost predicate CacheOk(s: State) {
    forall k | k in s.cache :: OwnOrWhole(s.m, k, s.cache[k])
  }

  /** At most one generation succeeded, and each tile's key holds what it made. */
  ghost predicate SuccessOk(s: State) {
    |s.successes| <= 1
    && (s.successes != [] ==>
          forall i: nat | i < s.m.n * s.m.n :: Holds(s.cache, Child(s.m, i), Image(Child(s.m, i), s.successes[0])))
  }

  ghost predicate Inv(s: State) {
    CacheOk(s) && SuccessOk(s) && (s.holder.Some? ==> s.holder.value < |s.requests|) && forall r :: RequestOk(s, r)
  }

  lemma InitInv(m: MetaTile, children: seq<nat>)
    requires forall c | c in children :: c < m.n * m.n
    ensures Inv(Init(m, children))
  {
    forall r: nat ensures RequestOk(Init(m, children), r) {
      if r < |children| {
        assert children[r] in children;
      }
    }
  }

  lemma CacheKept(s: State, e: Event)
    requires Inv(s) && Enabled(s, e)
    ensures CacheOk(Step(s, e))
  {
    assert RequestOk(s, e.r);
    if e.Visit? {
      assert IsChild(s.m, s.requests[e.r].tile);
    }
  }

  /** The steps of one request do not disturb another. */
  lemma OtherKept(s: State, e: Event, r: nat)
    requires RequestOk(s, r) && RequestOk(s, e.r) && Enabled(s, e) && r != e.r
    ensures RequestOk(Step(s, e), r)
  {
    if r < |s.requests| {
      assert Step(s, e).requests[r] == s.requests[r];
    }
  }

  /** A request that holds the lock goes on holding it. */
  lemma MovedOk(s: State, s': State, r: nat, p: Phase)
    requires RequestOk(s, r) && r < |s.requests| && Holding(s.requests[r].phase) && s.successes == []
    requires s'.m == s.m && s'.holder == s.holder && s'.successes == []
    requires s'.requests == s.requests[r := s.requests[r].(phase := p)]
    requires (p.Generating? && GeneratingOk(s'.m, s'.cache, s'.attempts, p))
             || (p.Visiting? && VisitingOk(s'.m, s'.cache, s'.attempts, p))
    requires KeyOf(s.requests[r].tile) !in p.before
    ensures RequestOk(s', r)
  {
  }

  /** An attempt whose metatile is in error leaves the cache as it is. */
  lemma FailedAttempt(m: MetaTile, cache: Cache, attempts: nat, p: Phase, a: Outcomes)
    requires p.Generating? && GeneratingOk(m, cache, attempts, p) && |a| == m.n * m.n + 1
    requires a[0].Error? && |p.made| < RETRIES
    ensures GeneratingOk(m, cache, attempts + 1, Generating(p.made + [a], p.before, p.first))
  {
    AfterLast(p.before, m, p.made, a, p.first, RETRIES);
    ErrorIsBad(a);
  }

  /** An attempt that gives the metatile goes on to visit its tiles. */
  lemma GoodAttempt(m: MetaTile, cache: Cache, attempts: nat, p: Phase, a: Outcomes)
    requires p.Generating? && GeneratingOk(m, cache, attempts, p) && |a| == m.n * m.n + 1 && !a[0].Error?
    ensures VisitingOk(m, cache, attempts + 1, Visiting(p.made + [a], p.before, p.first, 0))
  {
    assert (p.made + [a])[..|p.made|] == p.made;
  }

  lemma AttemptKept(s: State, r: nat, a: Outcomes)
    requires RequestOk(s, r) && AttemptEnabled(s, r, a)
    ensures RequestOk(AttemptStep(s, r, a), r)
  {
    var p, s' := s.requests[r].phase, AttemptStep(s, r, a);
    if !a[0].Error? {
      GoodAttempt(s.m, s.cache, s.attempts, p, a);
      MovedOk(s, s', r, Visiting(p.made + [a], p.before, p.first, 0));
    } else if |p.made| < RETRIES {
      FailedAttempt(s.m, s.cache, s.attempts, p, a);
      MovedOk(s, s', r, Generating(p.made + [a], p.before, p.first));
    }
  }

  lemma RetryKept(m: MetaTile, cache: Cache, attempts: nat, p: Phase)
    requires p.Visiting? && VisitingOk(m, cache, attempts, p) && |p.made| <= RETRIES
    requires p.next < |p.made[|p.made| - 1]| && !p.made[|p.made| - 1][p.next].Data?
    ensures GeneratingOk(m, cache, attempts, Generating(p.made, p.before, p.first))
  {
    var k := |p.made| - 1;
    var init, a := p.made[..k], p.made[k];
    assert p.next == FirstBad(a);
    assert p.made == init + [a];
  }

  lemma ForwardKept(m: MetaTile, cache: Cache, attempts: nat, p: Phase, cache': Cache)
    requires p.Visiting? && VisitingOk(m, cache, attempts, p) && p.next < |p.made[|p.made| - 1]|
    requires var a := p.made[|p.made| - 1];
             cache' == (if a[p.next].Data?
                        then cache[KeyOf(Entry(m, p.next)) := Image(Entry(m, p.next), Current(p))]
                        else cache)
             && (a[p.next].Data? || |p.made| > RETRIES)
    ensures VisitingOk(m, cache', attempts, p.(next := p.next + 1))
  {
    var a := p.made[|p.made| - 1];
    if a[p.next].Data? && |p.made| <= RETRIES {
      FirstBadLater(a, p.next);
    }
  }

  lemma FirstBadLater(a: Outcomes, i: nat)
    requires i < |a| && i <= FirstBad(a) && a[i].Data?
    ensures i + 1 <= FirstBad(a)
  {
  }

  lemma VisitKept(s: State, r: nat)
    requires RequestOk(s, r) && VisitEnabled(s, r)
    ensures RequestOk(VisitStep(s, r), r)
  {
    var p, s' := s.requests[r].phase, VisitStep(s, r);
    if !p.made[|p.made| - 1][p.next].Data? && |p.made| <= RETRIES {
      RetryKept(s.m, s.cache, s.attempts, p);
    } else {
      ForwardKept(s.m, s.cache, s.attempts, p, s'.cache);
    }
    MovedOk(s, s', r, s'.requests[r].phase);
  }

  lemma OwnKept(s: State, e: Event)
    requires Inv(s) && Enabled(s, e)
    ensures RequestOk(Step(s, e), e.r)
  {
    assert RequestOk(s, e.r);
    match e {
      case Attempt(r, a) => AttemptKept(s, r, a);
      case Visit(r) => VisitKept(s, r);
      case _ =>
    }
  }

  lemma SuccessKept(s: State, e: Event)
    requires Inv(s) && Enabled(s, e)
    ensures SuccessOk(Step(s, e))
  {
    assert RequestOk(s, e.r);
    if e.Finish? {
      var p := s.requests[e.r].phase;
      var a := p.made[|p.made| - 1];
      if AllData(a) {
        AllWritten(After(p.before, s.m, p.made[..|p.made| - 1], p.first, RETRIES), s.m, a, Current(p));
      }
    }
  }

  lemma StepInv(s: State, e: Event)
    requires Inv(s) && Enabled(s, e)
    ensures Inv(Step(s, e))
  {
    assert RequestOk(s, e.r);
    CacheKept(s, e);
    SuccessKept(s, e);
    OwnKept(s, e);
    forall r: nat ensures RequestOk(Step(s, e), r) {
      assert RequestOk(s, r);
      if r != e.r {
        OtherKept(s, e, r);
      }
    }
  }

  /** `es` is a possible history leading from `s` to `s'`. */
  ghost predicate Runs(s: State, es: seq<Event>, s': State)
    decreases |es|
  {
    if es == [] then s == s' else Enabled(s, es[0]) && Runs(Step(s, es[0]), es[1..], s')
  }

  lemma {:induction false} RunInv(s: State, es: seq<Event>, s': State)
    requires Inv(s) && Runs(s, es, s')
    ensures Inv(s') && s'.m == s.m
    decreases |es|
  {
    if es == [] {
    } else {
      StepInv(s, es[0]);
      RunInv(Step(s, es[0]), es[1..], s');
    }
  }

  // ----- What holds of every history -----

  /** Whatever the interleaving, at most one generation of the metatile succeeds.
      From then on no attempt is made, and every tile's key holds that tile's own
      data, made by that generation. */
  lemma OneGeneration(m: MetaTile, children: seq<nat>, es: seq<Event>, s: State)
    requires (forall c | c in children :: c < m.n * m.n) && Runs(Init(m, children), es, s)
    ensures |s.successes| <= 1
    ensures s.successes != [] ==>
              (forall child: nat | child < m.n * m.n ::
                 Holds(s.cache, Child(m, child), Image(Child(m, child), s.successes[0])))
              && (forall r, a :: !Enabled(s, Attempt(r, a)))
  {
    InitInv(m, children);
    RunInv(Init(m, children), es, s);
    forall r: nat, a ensures s.successes != [] ==> !Enabled(s, Attempt(r, a)) {
      assert RequestOk(s, r);
    }
  }

  /** A request that is answered got its own tile's data; or, if it asked for the
      top-left tile, perhaps the image of the whole metatile. */
  lemma AnswerIsOwn(m: MetaTile, children: seq<nat>, es: seq<Event>, s: State, r: nat)
    requires (forall c | c in children :: c < m.n * m.n) && Runs(Init(m, children), es, s)
    requires r < |s.requests| && s.requests[r].phase.Served?
    ensures s.requests[r].phase.image.of == s.requests[r].tile
            || (s.requests[r].phase.image.of == m && s.requests[r].tile == Child(m, 0))
  {
    InitInv(m, children);
    RunInv(Init(m, children), es, s);
    assert RequestOk(s, r);
    var i: nat :| i < m.n * m.n && s.requests[r].tile == Child(m, i);
    KeysDiffer(m, i, 0);
  }

  /** The steps that end a request's generation. */
  predicate Ends(s: State, e: Event) {
    Enabled(s, e)
    && var p, p' := s.requests[e.r].phase, Step(s, e).requests[e.r].phase;
       (p.Generating? || p.Visiting?) && (p'.Served? || p'.Refused?)
  }

  lemma HowItEnds(s: State, e: Event)
    requires Ends(s, e)
    ensures Step(s, e).cache == s.cache && Step(s, e).m == s.m
    ensures var p, p' := s.requests[e.r].phase, Step(s, e).requests[e.r].phase;
            (e.Attempt? && p.Generating? && |p.made| == RETRIES && e.outcomes[0].Error? && p'.Refused?)
            || (e.Finish? && p.Visiting? && (p'.Served? <==> AllData(p.made[|p.made| - 1])))
  {
  }

  /** A generation in the middle of other requests ends with the same answer and the
      same cache as `compute_tile` alone, started on the cache of when it took over. */
  lemma EndsLikeAlone(m: MetaTile, children: seq<nat>, es: seq<Event>, s: State, e: Event)
    requires (forall c | c in children :: c < m.n * m.n) && Runs(Init(m, children), es, s)
    requires Ends(s, e)
    ensures LikeAlone(s, e, Step(s, e))
  {
    InitInv(m, children);
    RunInv(Init(m, children), es, s);
    assert RequestOk(s, e.r);
    var p := s.requests[e.r].phase;
    HowItEnds(s, e);
    if e.Attempt? {
      EndOfAttempt(s, p, e.outcomes);
    } else {
      EndOfVisit(s, p);
      assert p.made + [] == p.made;
    }
  }

  /** When a generation is over, the key of the top-left tile holds the image of the
      whole metatile exactly when, of its attempts that wrote this key, the last one
      wrote the metatile and not the tile, or none did and it was there before. */
  lemma WholeAtEndExact(m: MetaTile, children: seq<nat>, es: seq<Event>, s: State, e: Event)
    requires m.n > 1 && (forall c | c in children :: c < m.n * m.n) && Runs(Init(m, children), es, s)
    requires Ends(s, e)
    ensures var p := s.requests[e.r].phase;
            var made := p.made + if e.Attempt? then [e.outcomes] else [];
            |made| <= RETRIES + 1
            && (Whole(Step(s, e).cache, m)
                <==> WholeWritten(made, RETRIES) || (UntouchedFrom(made, 0, RETRIES) && Whole(p.before, m)))
  {
    EndsLikeAlone(m, children, es, s, e);
    InitInv(m, children);
    RunInv(Init(m, children), es, s);
    assert RequestOk(s, e.r);
    var p := s.requests[e.r].phase;
    var made := p.made + if e.Attempt? then [e.outcomes] else [];
    HowItEnds(s, e);
    assert Sized(m, made);
    WholeLeftExact(p.before, m, made, p.first, RETRIES);
  }

  ghost predicate LikeAlone(s: State, e: Event, s': State) {
    e.r < |s.requests| && e.r < |s'.requests|
    && var p := s.requests[e.r].phase;
       (p.Generating? || p.Visiting?)
       && var made := p.made + if e.Attempt? then [e.outcomes] else [];
          Computes(p.before, p.first, s.m, RETRIES, made, s'.requests[e.r].phase.Served?, s'.cache)
  }

  lemma EndOfAttempt(s: State, p: Phase, a: Outcomes)
    requires p.Generating? && GeneratingOk(s.m, s.cache, s.attempts, p) && |p.made| == RETRIES && a != [] && a[0].Error?
    ensures Computes(p.before, p.first, s.m, RETRIES, p.made + [a], false, s.cache)
  {
    AfterLast(p.before, s.m, p.made, a, p.first, RETRIES);
    ErrorIsBad(a);
    forall i | 0 <= i < |p.made| ensures !AllData((p.made + [a])[i]) {
    }
  }

  lemma EndOfVisit(s: State, p: Phase)
    requires p.Visiting? && VisitingOk(s.m, s.cache, s.attempts, p) && p.next == |p.made[|p.made| - 1]|
    ensures Computes(p.before, p.first, s.m, RETRIES, p.made, AllData(p.made[|p.made| - 1]), s.cache)
  {
    var k := |p.made| - 1;
    var init, a := p.made[..k], p.made[k];
    assert p.made == init + [a];
    if k < RETRIES {
      AllStop(a, RETRIES - k) by { assert AllData(a) by { assert FirstBad(a) == |a|; } }
    }
    forall i | 0 <= i < k ensures !AllData(p.made[i]) {
      assert p.made[i] == init[i];
    }
  }

  // ----- The whole metatile under a tile's key -----

  lemma {:induction false} RunsOn(s: State, es: seq<Event>, s': State, e: Event)
    requires Runs(s, es, s') && Enabled(s', e)
    ensures Runs(s, es + [e], Step(s', e))
    decreases |es|
  {
    if es == [] {
      assert Runs(Step(s, e), [], Step(s, e));
      assert [] + [e] == [e];
    } else {
      RunsOn(Step(s, es[0]), es[1..], s', e);
      assert (es + [e])[1..] == es[1..] + [e];
    }
  }

  ghost predicate Leads(s: State, s': State) {
    exists es :: Runs(s, es, s')
  }

  lemma Play(s0: State, s: State, e: Event, s': State)
    requires Leads(s0, s) && Enabled(s, e) && Step(s, e) == s'
    ensures Leads(s0, s')
  {
    var es :| Runs(s0, es, s);
    RunsOn(s0, es, s, e);
  }

  /** The first of two requests for the top-left tile is at `p`, the second has not begun. */
  function Shot(m: MetaTile, p: Phase, cache: Cache, holder: Option<nat>, attempts: nat): State {
    State(m, cache, [Request(Child(m, 0), p), Request(Child(m, 0), Fresh)], holder, attempts, [])
  }

  lemma FirstMiss(m: MetaTile) returns (s0: State, s: State)
    ensures s0 == Shot(m, Fresh, map[], None, 0) && s == Shot(m, Generating([], map[], 0), map[], Some(0), 0)
    ensures Leads(s0, s)
  {
    s0 := Shot(m, Fresh, map[], None, 0);
    assert Runs(s0, [], s0);
    var s1, s2 := Shot(m, Waiting, map[], None, 0), Shot(m, Locked, map[], Some(0), 0);
    Play(s0, s0, Read(0), s1);
    Play(s0, s1, Acquire(0), s2);
    s := Shot(m, Generating([], map[], 0), map[], Some(0), 0);
    Play(s0, s2, ReadAgain(0), s);
  }

  /** The cache once the metatile has been written. */
  function WholeCached(m: MetaTile): Cache { map[][KeyOf(m) := Image(m, 0)] }

  lemma FirstWrite(m: MetaTile, a: Outcomes) returns (s0: State, s: State)
    requires |a| == m.n * m.n + 1 && a[0].Data?
    ensures s0 == Shot(m, Fresh, map[], None, 0)
    ensures s == Shot(m, Visiting([a], map[], 0, 1), WholeCached(m), Some(0), 1)
    ensures Leads(s0, s)
  {
    var s1;
    s0, s1 := FirstAttempt(m, a);
    s := Shot(m, Visiting([a], map[], 0, 1), WholeCached(m), Some(0), 1);
    Play(s0, s1, Visit(0), s);
  }

  lemma FirstAttempt(m: MetaTile, a: Outcomes) returns (s0: State, s: State)
    requires |a| == m.n * m.n + 1 && a[0].Data?
    ensures s0 == Shot(m, Fresh, map[], None, 0) && s == Shot(m, Visiting([a], map[], 0, 0), map[], Some(0), 1)
    ensures Leads(s0, s)
  {
    var s1;
    s0, s1 := FirstMiss(m);
    s := Shot(m, Visiting([a], map[], 0, 0), map[], Some(0), 1);
    assert [] + [a] == [a];
    Play(s0, s1, Attempt(0, a), s);
  }

  /** For every metatile of more than one tile: a request for the top-left tile that reads while another
      one caches the tiles can be answered with the image of the whole metatile,
      whatever the rest of that attempt gives. */
  lemma WholeIsServed(m: MetaTile, a: Outcomes) returns (s: State)
    requires m.n > 1 && |a| == m.n * m.n + 1 && a[0].Data?
    ensures Leads(Init(m, [0, 0]), s) && |s.requests| == 2
    ensures s.requests[1] == Request(Child(m, 0), Served(Image(m, 0)))
  {
    var s0, s1 := FirstWrite(m, a);
    s := LaterRead(m, s0, s1);
  }

  /** The second request reads the cache. */
  lemma LaterRead(m: MetaTile, s0: State, s1: State) returns (s: State)
    requires s0 == Shot(m, Fresh, map[], None, 0) && Leads(s0, s1)
    requires |s1.requests| == 2 && s1.requests[1] == Request(Child(m, 0), Fresh) && s1.cache == WholeCached(m)
    ensures Leads(Init(m, [0, 0]), s) && s == Step(s1, Read(1))
    ensures |s.requests| == 2 && s.requests[1] == Request(Child(m, 0), Served(Image(m, 0)))
  {
    assert s0 == Init(m, [0, 0]);
    s := Step(s1, Read(1));
    KeysDiffer(m, 0, 0);
    Play(s0, s1, Read(1), s);
  }

  /** After an attempt that gave the metatile and not its top-left tile, further
      attempts that fail altogether change nothing in the cache. */
  lemma {:induction false} MoreAttempts(m: MetaTile, a: Outcomes, b: Outcomes, s0: State, k: nat) returns (s: State)
    requires |a| == |b| == m.n * m.n + 1 && LeavesWhole(a) && b[0].Error? && k < RETRIES
    requires s0 == Shot(m, Fresh, map[], None, 0)
    ensures s == Shot(m, Generating([a] + seq(k, _ => b), map[], 0), WholeCached(m), Some(0), k + 1)
    ensures Leads(s0, s)
  {
    if k == 0 {
      var s0', s1 := FirstWrite(m, a);
      s := Shot(m, Generating([a] + seq(0, _ => b), map[], 0), WholeCached(m), Some(0), 1);
      assert [a] + seq(0, _ => b) == [a];
      Play(s0, s1, Visit(0), s);
    } else {
      var s1 := MoreAttempts(m, a, b, s0, k - 1);
      var made, made' := [a] + seq(k - 1, _ => b), [a] + seq(k, _ => b);
      assert made' == made + [b];
      s := Shot(m, Generating(made', map[], 0), WholeCached(m), Some(0), k + 1);
      Play(s0, s1, Attempt(0, b), s);
    }
  }

  lemma LastAttempt(m: MetaTile, made: seq<Outcomes>, s0: State, s1: State, b: Outcomes) returns (s: State)
    requires |made| == RETRIES && |b| == m.n * m.n + 1 && b[0].Error?
    requires s1 == Shot(m, Generating(made, map[], 0), WholeCached(m), Some(0), RETRIES) && Leads(s0, s1)
    ensures s == Shot(m, Refused, WholeCached(m), None, RETRIES + 1) && Leads(s0, s)
  {
    s := Shot(m, Refused, WholeCached(m), None, RETRIES + 1);
    Play(s0, s1, Attempt(0, b), s);
  }

  /** For every metatile of more than one tile: when the first attempt gives the metatile and not its
      top-left tile, and the others fail, the generation is refused and leaves the
      image of the whole metatile, with which a later request for the top-left tile
      is answered. */
  lemma WholeIsKept(m: MetaTile, a: Outcomes, b: Outcomes) returns (s: State, s': State)
    requires m.n > 1 && |a| == |b| == m.n * m.n + 1 && LeavesWhole(a) && b[0].Error?
    ensures Leads(Init(m, [0, 0]), s) && |s.requests| == 2
    ensures s.requests[0].phase.Refused? && s.holder.None? && s.successes == [] && Whole(s.cache, m)
    ensures s.attempts == 6
    ensures Enabled(s, Read(1)) && s' == Step(s, Read(1)) && Leads(Init(m, [0, 0]), s')
    ensures |s'.requests| == 2 && s'.requests[1] == Request(Child(m, 0), Served(Image(m, 0)))
  {
    var s0 := Shot(m, Fresh, map[], None, 0);
    var s1 := MoreAttempts(m, a, b, s0, RETRIES - 1);
    s := LastAttempt(m, [a] + seq(RETRIES - 1, _ => b), s0, s1, b);
    assert s0 == Init(m, [0, 0]);
    s' := LaterRead(m, s0, s);
  }

  // ----- A generation that succeeds -----

  lemma {:induction false} VisitsAll(m: MetaTile, a: Outcomes, k: nat) returns (s0: State, s: State)
    requires |a| == m.n * m.n + 1 && AllData(a) && k <= |a|
    ensures s0 == Shot(m, Fresh, map[], None, 0)
    ensures s == Shot(m, Visiting([a], map[], 0, k), Visited(map[], m, a, 0, k), Some(0), 1)
    ensures Leads(s0, s)
    decreases k
  {
    if k == 0 {
      s0, s := FirstAttempt(m, a);
    } else {
      var s1;
      s0, s1 := VisitsAll(m, a, k - 1);
      s := Shot(m, Visiting([a], map[], 0, k), Visited(map[], m, a, 0, k), Some(0), 1);
      Play(s0, s1, Visit(0), s);
    }
  }

  /** For every metatile: when the first attempt gives all its tiles, the request is
      answered with its own tile and the lock is free again. */
  lemma FirstAttemptServes(m: MetaTile, a: Outcomes) returns (s: State)
    requires |a| == m.n * m.n + 1 && AllData(a)
    ensures Leads(Init(m, [0, 0]), s) && |s.requests| == 2
    ensures s.requests[0].phase == Served(Image(Child(m, 0), 0)) && s.holder.None? && s.successes == [0]
  {
    var s0, s1 := VisitsAll(m, a, |a|);
    s := FinishServes(m, a, s1.cache);
    Play(s0, s1, Finish(0), s);
    assert s0 == Init(m, [0, 0]);
  }

  lemma FinishServes(m: MetaTile, a: Outcomes, cache: Cache) returns (s: State)
    requires |a| == m.n * m.n + 1 && AllData(a)
    ensures var before := Shot(m, Visiting([a], map[], 0, |a|), cache, Some(0), 1);
      Enabled(before, Finish(0)) && Step(before, Finish(0)) == s
    ensures |s.requests| == 2 && s.requests[0].phase == Served(Image(Child(m, 0), 0))
    ensures s.holder.None? && s.successes == [0]
  {
    s := Step(Shot(m, Visiting([a], map[], 0, |a|), cache, Some(0), 1), Finish(0));
    assert [] + [0] == [0];
  }
}
