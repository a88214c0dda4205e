/** The countdown that decides when a metatile taken from the queue is acknowledged.

    A slave fetches the metatile image, splits it into n*n tiles, and runs the
    rest of the pipeline on all of them concurrently. Every tile that settles
    decrements `elapsed_togenerate`; the one that brings it to zero calls the
    queue's `delete_one`. A decrement and its zero test have no suspension point
    between them, so they are one step here. */
module Countdown {

  /** What became of one tile of the metatile. `Raised` is a tile whose pipeline
      raised before its decrement (an error file or a "too many errors" failure). */
  datatype Child = Running | Stored | Dropped | Failed | Raised

  /** `Over` is a metatile that failed or was dropped before its tiles ran, `Unwanted`
      one that a filter of the pipeline ignored. */
  datatype Stage = Fetching | Splitting | Joined | Over | Unwanted

  /** A metatile being processed.
      `error`      whether `metatile.error` is set
      `empty`      the whole metatile was recognised as empty and dropped
      `childCalls` the `delete_one` calls made by its tiles, each with the error flag it saw
      `outbox`     the `delete_one` calls made so far that did not reach the database yet
      `delivered`  those that did, as history */
  datatype Metatile = Metatile(
    n: nat,
    stage: Stage,
    children: seq<Child>,
    elapsed: int,
    error: bool,
    empty: bool,
    childCalls: seq<bool>,
    outbox: seq<bool>,
    delivered: seq<bool>)

  /** All the `delete_one` calls made for a metatile, in order. */
  function Calls(m: Metatile): seq<bool> { m.delivered + m.outbox }

  /** `FetchFailed` is any failure before the tiles run: the fetch, a filter or the
      split. `Join` is the outer pipeline continuing after `asyncio.gather`. */
  datatype Event =
    | FetchFailed
    | Ignored
    | DroppedWhole
    | Split
    | Settle(child: nat, outcome: Child)
    | Raise(child: nat)
    | Join
    | Delivered

  predicate Settled(c: Child) { c.Stored? || c.Dropped? || c.Failed? }

  function Start(n: nat): Metatile {
    Metatile(n, Fetching, [], 0, false, false, [], [], [])
  }

  predicate Enabled(m: Metatile, e: Event) {
    match e
    case FetchFailed => m.stage.Fetching?
    case Ignored => m.stage.Fetching?
    case DroppedWhole => m.stage.Fetching?
    case Split => m.stage.Fetching?
    case Settle(i, o) => i < |m.children| && m.children[i].Running? && Settled(o)
    case Raise(i) => i < |m.children| && m.children[i].Running?
    // `asyncio.gather` returns once every child settled, or as soon as one raised.
    case Join => m.stage.Splitting?
                 && ((forall c | c in m.children :: Settled(c)) || Raised in m.children)
    case Delivered => m.outbox != []
  }

  function Step(m: Metatile, e: Event): Metatile
    requires Enabled(m, e)
  {
    match e
    case FetchFailed => m.(stage := Over, error := true, outbox := m.outbox + [true])
    case Ignored => m.(stage := Unwanted)
    case DroppedWhole => m.(stage := Over, empty := true, outbox := m.outbox + [false])
    case Split =>
      m.(stage := Splitting, children := seq(m.n * m.n, _ => Running), elapsed := m.n * m.n)
    case Settle(i, o) =>
      var error := m.error || o.Failed?;
      var elapsed := m.elapsed - 1;
      var call := if elapsed == 0 then [error] else [];
      m.(children := m.children[i := o], elapsed := elapsed, error := error,
         childCalls := m.childCalls + call, outbox := m.outbox + call)
    case Raise(i) => m.(children := m.children[i := Raised])
    case Join =>
      var error := m.error || Raised in m.children;
      m.(stage := Joined, error := error, outbox := m.outbox + if error then [true] else [])
    case Delivered => m.(outbox := m.outbox[1..], delivered := m.delivered + [m.outbox[0]])
  }

  /** How many children have not settled. */
  function Unsettled(cs: seq<Child>): nat {
    if cs == [] then 0 else Unsettled(cs[1..]) + if Settled(cs[0]) then 0 else 1
  }

  /** Every one of the n*n tiles was stored or dropped as empty. */
  predicate Clean(m: Metatile) {
    m.empty || (!m.stage.Fetching? && |m.children| == m.n * m.n
                && forall c | c in m.children :: c.Stored? || c.Dropped?)
  }

  /** The calls made: none while the image is fetched or when it is unwanted, one when
      the metatile ends there, and otherwise that of the last tile and, after the
      tiles, another one if there was an error. */
  ghost predicate CallsOk(m: Metatile) {
    match m.stage
    case Fetching => Calls(m) == []
    case Unwanted => Calls(m) == []
    case Over => Calls(m) == [m.error]
    case Splitting => Calls(m) == m.childCalls
    case Joined => Calls(m) == if Raised in m.children then [true] else m.childCalls + if m.error then [true] else []
  }

  ghost predicate Inv(m: Metatile) {
    && (m.stage.Fetching? || m.stage.Over? || m.stage.Unwanted? ==>
          m.children == [] && m.childCalls == [] && m.elapsed == 0)
    && (m.stage.Fetching? || m.stage.Unwanted? ==> !m.error && !m.empty)
    && (m.stage.Over? ==> m.error == !m.empty)
    && (m.stage.Splitting? || m.stage.Joined? ==> |m.children| == m.n * m.n && !m.empty)
    && m.elapsed == Unsettled(m.children)
    && (Failed in m.children ==> m.error)
    && (m.stage.Splitting? && m.error ==> Failed in m.children)
    && (m.stage.Joined? && m.error ==> Failed in m.children || Raised in m.children)
    && (m.stage.Joined? ==> Raised in m.children || forall c | c in m.children :: Settled(c))
    && (m.stage.Joined? && Raised in m.children ==> m.error)
    && (m.children != [] ==>
          if m.elapsed == 0 then m.childCalls == [Failed in m.children] else m.childCalls == [])
    && (m.children == [] ==> m.childCalls == [])
    && CallsOk(m)
    && (false in Calls(m) ==> Clean(m))
  }

  lemma {:induction false} UnsettledAll(k: nat)
    ensures Unsettled(seq(k, _ => Running)) == k
  {
    if k == 0 {
    } else {
      assert seq(k, _ => Running)[1..] == seq(k - 1, _ => Running);
      UnsettledAll(k - 1);
    }
  }

  lemma {:induction false} UnsettledUpdate(cs: seq<Child>, i: nat, c: Child)
    requires i < |cs| && !Settled(cs[i])
    ensures Unsettled(cs[i := c]) == Unsettled(cs) - if Settled(c) then 1 else 0
  {
    if i == 0 {
      assert cs[0 := c][1..] == cs[1..];
    } else {
      assert cs[i := c][1..] == cs[1..][i - 1 := c];
      UnsettledUpdate(cs[1..], i - 1, c);
    }
  }

  lemma {:induction false} UnsettledZero(cs: seq<Child>)
    ensures Unsettled(cs) == 0 <==> forall c | c in cs :: Settled(c)
  {
    if cs == [] {
    } else {
      UnsettledZero(cs[1..]);
      assert cs == [cs[0]] + cs[1..];
    }
  }

  lemma StartInv(n: nat)
    ensures Inv(Start(n))
  {
  }

  lemma SettleInv(m: Metatile, i: nat, o: Child)
    requires Inv(m) && Enabled(m, Settle(i, o))
    ensures Inv(Step(m, Settle(i, o)))
  {
    var m' := Step(m, Settle(i, o));
    UnsettledUpdate(m.children, i, o);
    UnsettledZero(m'.children);
    assert m'.children[i] == o;
    assert Failed in m.children ==> Failed in m'.children by {
      if Failed in m.children {
        var k :| 0 <= k < |m.children| && m.children[k] == Failed;
        assert m'.children[k] == Failed;
      }
    }
    assert m.elapsed > 0;
    assert m.childCalls == [];
    assert Raised in m.children ==> Raised in m'.children by {
      if Raised in m.children {
        var k :| 0 <= k < |m.children| && m.children[k] == Raised;
        assert m'.children[k] == Raised;
      }
    }
    // The running child shows that the metatile was not clean, so no clean call is waiting.
    assert m.children[i] in m.children;
    assert !Clean(m);
  }

  lemma RaiseInv(m: Metatile, i: nat)
    requires Inv(m) && Enabled(m, Raise(i))
    ensures Inv(Step(m, Raise(i)))
  {
    var m' := Step(m, Raise(i));
    UnsettledUpdate(m.children, i, Raised);
    assert m.children[i] in m.children;
    assert m'.children[i] == Raised;
    assert Failed in m.children <==> Failed in m'.children by {
      forall k | 0 <= k < |m.children| ensures m.children[k] == Failed <==> m'.children[k] == Failed {}
      if Failed in m.children {
        var k :| 0 <= k < |m.children| && m.children[k] == Failed;
        assert m'.children[k] == Failed;
      }
    }
  }

  lemma DeliveredInv(m: Metatile)
    requires Inv(m) && Enabled(m, Delivered)
    ensures Inv(Step(m, Delivered)) && Calls(Step(m, Delivered)) == Calls(m)
  {
    assert m.outbox == [m.outbox[0]] + m.outbox[1..];
    assert Calls(Step(m, Delivered)) == Calls(m);
  }

  lemma StepInv(m: Metatile, e: Event)
    requires Inv(m) && Enabled(m, e)
    ensures Inv(Step(m, e))
  {
    match e {
      case Settle(i, o) => SettleInv(m, i, o);
      case Split => UnsettledAll(m.n * m.n);
      case Raise(i) => RaiseInv(m, i);
      case Join => JoinInv(m);
      case Delivered => DeliveredInv(m);
      case _ =>
    }
  }

  lemma JoinInv(m: Metatile)
    requires Inv(m) && Enabled(m, Join)
    ensures Inv(Step(m, Join))
  {
    UnsettledZero(m.children);
  }

  /** `es` is a possible history leading from `m` to `m'`. */
  ghost predicate Runs(m: Metatile, es: seq<Event>, m': Metatile)
    decreases |es|
  {
    if es == [] then m == m' else Enabled(m, es[0]) && Runs(Step(m, es[0]), es[1..], m')
  }

  lemma {:induction false} RunInv(m: Metatile, es: seq<Event>, m': Metatile)
    requires Inv(m) && Runs(m, es, m')
    ensures Inv(m')
    decreases |es|
  {
    if es == [] {
    } else {
      StepInv(m, es[0]);
      RunInv(Step(m, es[0]), es[1..], m');
    }
  }

  /** After any interleaving of its tiles, a split metatile has a counter equal to
      the number of tiles that have not settled, and its tiles have called
      `delete_one` once if all have settled, else not at all. That one call carries
      an error exactly when some tile failed. */
  lemma CountdownExact(n: nat, es: seq<Event>, m: Metatile)
    requires Runs(Start(n), es, m) && m.children != []
    ensures m.elapsed == Unsettled(m.children) && |m.children| == n * n
    ensures (forall c | c in m.children :: Settled(c)) ==> m.childCalls == [Failed in m.children]
    ensures !(forall c | c in m.children :: Settled(c)) ==> m.childCalls == []
  {
    StartInv(n);
    RunInv(Start(n), es, m);
    SizeKept(Start(n), es, m);
    UnsettledZero(m.children);
  }

  /** A metatile that is over is so because its fetch failed, or because it was
      dropped as empty. */
  lemma {:induction false} FetchFailedExact(m: Metatile, es: seq<Event>, m': Metatile)
    requires Inv(m) && Runs(m, es, m')
    ensures (m'.stage.Over? && m'.error) <==> (m.stage.Over? && m.error) || FetchFailed in es
    decreases |es|
  {
    if es == [] {
    } else {
      StepInv(m, es[0]);
      FetchFailedExact(Step(m, es[0]), es[1..], m');
      assert es == [es[0]] + es[1..];
    }
  }

  /** Every `delete_one` call of a metatile, over any run, whether or not it has reached
      the database. A metatile that ends before its tiles run makes one call, with an
      error exactly when the fetch failed. Otherwise its last tile makes one when all
      have settled, and the pipeline behind the tiles another one if a tile failed;
      when a tile raised, only that second one is made. */
  lemma CallsExact(n: nat, es: seq<Event>, m: Metatile)
    requires Runs(Start(n), es, m)
    ensures m.stage.Fetching? || m.stage.Unwanted? ==> m.delivered + m.outbox == []
    ensures m.stage.Over? ==> m.delivered + m.outbox == [FetchFailed in es]
    ensures m.stage.Splitting? ==>
      m.delivered + m.outbox
      == if m.children != [] && forall c | c in m.children :: Settled(c) then [Failed in m.children] else []
    ensures m.stage.Joined? ==>
      m.delivered + m.outbox
      == if Raised in m.children then [true]
         else if m.children == [] then []
         else if Failed in m.children then [true, true]
         else [false]
  {
    StartInv(n);
    RunInv(Start(n), es, m);
    FetchFailedExact(Start(n), es, m);
    UnsettledZero(m.children);
  }

  lemma {:induction false} SizeKept(m: Metatile, es: seq<Event>, m': Metatile)
    requires Runs(m, es, m')
    ensures m'.n == m.n
    decreases |es|
  {
    if es == [] {
    } else {
      SizeKept(Step(m, es[0]), es[1..], m');
    }
  }

  /** A metatile whose tiles are all stored or dropped stays so. */
  lemma CleanKept(m: Metatile, e: Event)
    requires Enabled(m, e) && Clean(m)
    ensures Clean(Step(m, e))
  {
    if e.Settle? || e.Raise? {
      assert m.children[e.child] in m.children;
    }
  }
}
