/** The fields of a metatile that its tiles update: each way a tile can settle
    decrements the counter in its own place of the pipeline. */
module MetatileCounter {
  import opened Common
  import C = Countdown

  class Metatile {
    const n: nat
    var elapsedToGenerate: int
    var error: bool

    /** The metatile in the protocol of its tiles. */
    ghost var model: C.Metatile

    ghost predicate Valid()
      reads this
    {
      C.Inv(model) && model.n == n && model.elapsed == elapsedToGenerate && model.error == error
    }

    constructor (n: nat)
      ensures Valid() && model == C.Start(n) && this.n == n
    {
      this.n, elapsedToGenerate, error, model := n, 0, false, C.Start(n);
      new;
      C.StartInv(n);
    }

    /** Before the split: all the tiles are still to come. */
    method AddElapsedToGenerate()
      requires Valid() && C.Enabled(model, C.Split)
      modifies this
      ensures Valid() && model == C.Step(old(model), C.Split) && elapsedToGenerate == n * n
    {
      C.StepInv(model, C.Split);
      elapsedToGenerate := n * n;
      model := C.Step(model, C.Split);
    }

    /** A tile was stored. The result is the error flag of the `delete_one` call that
        this makes, if it makes one. */
    method DeleteFromStore(ghost child: nat) returns (deleted: Option<bool>)
      requires Valid() && C.Enabled(model, C.Settle(child, C.Stored))
      modifies this
      ensures Valid() && model == C.Step(old(model), C.Settle(child, C.Stored))
      ensures deleted == Called(old(model), model)
    {
      C.StepInv(model, C.Settle(child, C.Stored));
      deleted := None;
      elapsedToGenerate := elapsedToGenerate - 1;
      if elapsedToGenerate == 0 {
        deleted := Some(error);
      }
      model := C.Step(model, C.Settle(child, C.Stored));
    }

    /** A tile was recognised as empty and dropped. */
    method DropEmpty(ghost child: nat) returns (deleted: Option<bool>)
      requires Valid() && C.Enabled(model, C.Settle(child, C.Dropped))
      modifies this
      ensures Valid() && model == C.Step(old(model), C.Settle(child, C.Dropped))
      ensures deleted == Called(old(model), model)
    {
      C.StepInv(model, C.Settle(child, C.Dropped));
      deleted := None;
      elapsedToGenerate := elapsedToGenerate - 1;
      if elapsedToGenerate == 0 {
        deleted := Some(error);
      }
      model := C.Step(model, C.Settle(child, C.Dropped));
    }

    /** A tile is in error: the metatile takes the first error of its tiles. */
    method TileInError(ghost child: nat) returns (deleted: Option<bool>)
      requires Valid() && C.Enabled(model, C.Settle(child, C.Failed))
      modifies this
      ensures Valid() && model == C.Step(old(model), C.Settle(child, C.Failed))
      ensures deleted == Called(old(model), model)
    {
      C.StepInv(model, C.Settle(child, C.Failed));
      deleted := None;
      if !error {
        error := true;
      }
      elapsedToGenerate := elapsedToGenerate - 1;
      if elapsedToGenerate == 0 {
        deleted := Some(error);
      }
      model := C.Step(model, C.Settle(child, C.Failed));
    }
  }

  /** The call that a step of the protocol adds. */
  function Called(before: C.Metatile, after: C.Metatile): Option<bool> {
    if |after.childCalls| == |before.childCalls| + 1 then Some(after.childCalls[|before.childCalls|]) else None
  }

  /** The step that settles a tile makes a `delete_one` call exactly when no other
      tile is left, and the call tells whether some tile failed. */
  lemma CalledExact(m: C.Metatile, child: nat, outcome: C.Child)
    requires C.Inv(m) && C.Enabled(m, C.Settle(child, outcome))
    ensures var m' := C.Step(m, C.Settle(child, outcome));
            Called(m, m') == if forall c | c in m'.children :: C.Settled(c) then Some(C.Failed in m'.children) else None
  {
    var m' := C.Step(m, C.Settle(child, outcome));
    C.StepInv(m, C.Settle(child, outcome));
    C.UnsettledZero(m'.children);
    C.UnsettledZero(m.children);
    assert m.children[child] in m.children;
    assert m'.children[child] == outcome;
  }
}
