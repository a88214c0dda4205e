/** How the `generate-tiles` command tells that something failed: by its exit code,
    from an error count that every layer starts again. */
module CommandErrors {

  /** What generating one layer comes to: the tiles that `Run` counted as errors, and
      whether an exception ended the command there. */
  datatype LayerRun = LayerRun(errors: nat, raised: bool)

  /** How the command ends. `started` is whether it started the job it created. */
  datatype Ending = Ending(started: bool, exitCode: int)

  predicate AnyRaised(layers: seq<LayerRun>) { exists k | 0 <= k < |layers| :: layers[k].raised }

  /** The command exits with an error: an exception ended it, or its last layer had
      errors. */
  predicate Failed(layers: seq<LayerRun>) {
    AnyRaised(layers) || (layers != [] && layers[|layers| - 1].errors != 0)
  }

  class Generation {
    var error: nat

    constructor ()
      ensures error == 0
    {
      error := 0;
    }

    /** Generate one layer; the count of an earlier layer is forgotten. */
    method Gene(layer: LayerRun) returns (raised: bool)
      modifies this
      ensures raised == layer.raised && (!raised ==> error == layer.errors)
    {
      error := 0;
      if layer.raised {
        return true;
      }
      error := error + layer.errors;
      return false;
    }

    /** Generate the layers, and start the job if the command created one. Neither an
        error count nor a tile that was not put keeps the job from being started. */
    method GenerateLayers(layers: seq<LayerRun>, autoCreated: bool) returns (ending: Ending)
      requires error == 0
      modifies this
      ensures ending.started <==> autoCreated && !AnyRaised(layers)
      ensures ending.exitCode == if Failed(layers) then 1 else 0
    {
      for i := 0 to |layers|
        invariant !AnyRaised(layers[..i])
        invariant error == if i == 0 then 0 else layers[i - 1].errors
      {
        var raised := Gene(layers[i]);
        if raised {
          assert AnyRaised(layers);
          return Ending(false, 1);
        }
        assert layers[..i + 1] == layers[..i] + [layers[i]];
      }
      assert layers[..|layers|] == layers;
      return Ending(autoCreated, if error != 0 then 1 else 0);
    }
  }

  /** Some tile of some layer failed. */
  predicate AnyError(layers: seq<LayerRun>) {
    AnyRaised(layers) || exists k | 0 <= k < |layers| :: layers[k].errors != 0
  }

  /** The exit code tells whether anything failed, except when only layers before the
      last one had errors. */
  lemma ReportedExact(layers: seq<LayerRun>)
    ensures (Failed(layers) <==> AnyError(layers))
            <==> (layers == [] || AnyRaised(layers) || layers[|layers| - 1].errors != 0
                  || forall k | 0 <= k < |layers| - 1 :: layers[k].errors == 0)
  {
    if layers != [] {
      var last := layers[|layers| - 1];
      assert last.errors != 0 ==> AnyError(layers);
    }
  }

  /** A last layer without errors hides all that were counted before. */
  lemma LastLayerHides(layers: seq<LayerRun>)
    ensures Failed(layers + [LayerRun(0, false)]) <==> AnyRaised(layers)
  {
    var all := layers + [LayerRun(0, false)];
    assert forall k | 0 <= k < |layers| :: all[k] == layers[k];
    if AnyRaised(layers) {
      var k :| 0 <= k < |layers| && layers[k].raised;
      assert all[k].raised;
    }
  }
}
