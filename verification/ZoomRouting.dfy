/** Which zooms are seeded by the generator, and which the server generates on demand. */
module ZoomRouting {
  import opened Common

  /** The resolution of a zoom is coarse enough to be seeded. */
  predicate Seedable(resolutions: seq<real>, minResolutionSeed: Option<real>, z: nat)
    requires z < |resolutions|
  {
    minResolutionSeed.None? || resolutions[z] >= minResolutionSeed.value
  }

  function InGrid(zooms: seq<nat>, count: nat): (r: seq<nat>)
    ensures forall z :: z in r <==> z in zooms && z < count
  {
    if zooms == [] then []
    else
      assert zooms == [zooms[0]] + zooms[1..];
      (if zooms[0] < count then [zooms[0]] else []) + InGrid(zooms[1..], count)
  }

  function KeepSeedable(zooms: seq<nat>, resolutions: seq<real>, minResolutionSeed: Option<real>): (r: seq<nat>)
    requires forall z | z in zooms :: z < |resolutions|
    ensures forall z :: z in r <==> z in zooms && Seedable(resolutions, minResolutionSeed, z)
  {
    if zooms == [] then []
    else
      assert zooms[0] in zooms && forall z | z in zooms[1..] :: z in zooms;
      assert zooms == [zooms[0]] + zooms[1..];
      (if Seedable(resolutions, minResolutionSeed, zooms[0]) then [zooms[0]] else [])
      + KeepSeedable(zooms[1..], resolutions, minResolutionSeed)
  }

  function AllZooms(count: nat): seq<nat> { seq(count, z => z) }

  /** The zooms are in order, each once. */
  ghost predicate Ascending(zooms: seq<nat>) { forall i, j | 0 <= i < j < |zooms| :: zooms[i] < zooms[j] }

  lemma AscendingTail(zooms: seq<nat>)
    requires Ascending(zooms) && zooms != []
    ensures Ascending(zooms[1..]) && (forall z | z in zooms[1..] :: zooms[0] < z && z in zooms) && zooms[0] in zooms
  {
  }

  lemma AscendingFront(first: nat, rest: seq<nat>)
    requires Ascending(rest) && forall z | z in rest :: first < z
    ensures Ascending([first] + rest)
  {
    forall i | 0 <= i < |rest| ensures first < rest[i] { assert rest[i] in rest; }
  }

  /** Both filters keep the order. */
  lemma {:induction false} InGridAscending(zooms: seq<nat>, count: nat)
    requires Ascending(zooms)
    ensures Ascending(InGrid(zooms, count))
  {
    if zooms != [] {
      AscendingTail(zooms);
      InGridAscending(zooms[1..], count);
      AscendingFront(zooms[0], InGrid(zooms[1..], count));
    }
  }

  lemma {:induction false} KeepAscending(zooms: seq<nat>, resolutions: seq<real>, minResolutionSeed: Option<real>)
    requires Ascending(zooms) && forall z | z in zooms :: z < |resolutions|
    ensures Ascending(KeepSeedable(zooms, resolutions, minResolutionSeed))
  {
    if zooms != [] {
      AscendingTail(zooms);
      KeepAscending(zooms[1..], resolutions, minResolutionSeed);
      AscendingFront(zooms[0], KeepSeedable(zooms[1..], resolutions, minResolutionSeed));
    }
  }

  /** Which zooms are resolved, and that they stay in order. */
  lemma ResolveExact(zoom: Option<seq<nat>>, resolutions: seq<real>, minResolutionSeed: Option<real>)
    ensures forall z: nat ::
              z in Resolve(zoom, resolutions, minResolutionSeed)
              <==> z < |resolutions| && (zoom.Some? ==> z in zoom.value)
                   && (minResolutionSeed.Some? ==> resolutions[z] >= minResolutionSeed.value)
    ensures zoom.None? || Ascending(zoom.value) ==> Ascending(Resolve(zoom, resolutions, minResolutionSeed))
  {
    InAllZooms(|resolutions|);
    if zoom.None? {
      KeepAscending(AllZooms(|resolutions|), resolutions, minResolutionSeed);
    } else if Ascending(zoom.value) {
      InGridAscending(zoom.value, |resolutions|);
      KeepAscending(InGrid(zoom.value, |resolutions|), resolutions, minResolutionSeed);
    }
  }

  lemma InAllZooms(count: nat)
    ensures forall z: nat :: z in AllZooms(count) <==> z < count
  {
    forall z: nat | z < count ensures z in AllZooms(count) {
      assert AllZooms(count)[z] == z;
    }
  }

  /** The zooms seeded for a grid when the zoom option is `zoom`. */
  function Resolve(zoom: Option<seq<nat>>, resolutions: seq<real>, minResolutionSeed: Option<real>): seq<nat> {
    var candidates := if zoom.Some? then InGrid(zoom.value, |resolutions|) else AllZooms(|resolutions|);
    KeepSeedable(candidates, resolutions, minResolutionSeed)
  }

  /** The zoom option of a generation; resolving the zooms of a grid overwrites it. */
  class Options {
    var zoom: Option<seq<nat>>

    constructor (zoom: Option<seq<nat>>)
      ensures this.zoom == zoom
    {
      this.zoom := zoom;
    }

    method FilterZoomOutsideGrid(resolutions: seq<real>)
      modifies this
      ensures zoom == if old(zoom).None? then None else Some(InGrid(old(zoom).value, |resolutions|))
      ensures zoom.Some? <==> old(zoom).Some?
      ensures zoom.Some? ==> forall z: nat :: z in zoom.value <==> z in old(zoom).value && z < |resolutions|
      ensures zoom.Some? && Ascending(old(zoom).value) ==> Ascending(zoom.value)
    {
      if zoom.Some? {
        if Ascending(zoom.value) { InGridAscending(zoom.value, |resolutions|); }
        zoom := Some(InGrid(zoom.value, |resolutions|));
      }
    }

    method ApplyMinResolutionSeedFilter(resolutions: seq<real>, minResolutionSeed: Option<real>)
      requires zoom.Some? ==> forall z | z in zoom.value :: z < |resolutions|
      modifies this
      ensures minResolutionSeed.None? ==> zoom == old(zoom)
      ensures minResolutionSeed.Some? ==>
        zoom == Some(KeepSeedable(if old(zoom).Some? then old(zoom).value else AllZooms(|resolutions|),
                                  resolutions, minResolutionSeed))
      ensures minResolutionSeed.Some? ==>
        zoom.Some?
        && forall z: nat ::
             z in zoom.value
             <==> z < |resolutions| && (old(zoom).Some? ==> z in old(zoom).value)
                  && resolutions[z] >= minResolutionSeed.value
    {
      InAllZooms(|resolutions|);
      if minResolutionSeed.None? {
        return;
      }
      if zoom.None? {
        zoom := Some(KeepSeedable(AllZooms(|resolutions|), resolutions, minResolutionSeed));
        return;
      }
      zoom := Some(KeepSeedable(zoom.value, resolutions, minResolutionSeed));
    }

    method ResolveGridZooms(resolutions: seq<real>, minResolutionSeed: Option<real>) returns (zooms: seq<nat>)
      modifies this
      ensures zooms == Resolve(old(zoom), resolutions, minResolutionSeed) && zoom == Some(zooms)
      ensures forall z: nat ::
                z in zooms
                <==> z < |resolutions| && (old(zoom).Some? ==> z in old(zoom).value)
                     && (minResolutionSeed.Some? ==> resolutions[z] >= minResolutionSeed.value)
      ensures old(zoom).None? || Ascending(old(zoom).value) ==> Ascending(zooms)
    {
      ResolveExact(zoom, resolutions, minResolutionSeed);
      FilterZoomOutsideGrid(resolutions);
      ApplyMinResolutionSeedFilter(resolutions, minResolutionSeed);
      if minResolutionSeed.None? {
        KeepAll(if zoom.Some? then zoom.value else AllZooms(|resolutions|), resolutions);
      }
      if zoom.None? {
        zoom := Some(AllZooms(|resolutions|));
      }
      zooms := zoom.value;
    }
  }

  lemma {:induction false} KeepAll(zooms: seq<nat>, resolutions: seq<real>)
    requires forall z | z in zooms :: z < |resolutions|
    ensures KeepSeedable(zooms, resolutions, None) == zooms
  {
    if zooms == [] {
    } else {
      assert zooms[0] in zooms && forall z | z in zooms[1..] :: z in zooms;
      KeepAll(zooms[1..], resolutions);
      assert zooms == [zooms[0]] + zooms[1..];
    }
  }

  /** The last zoom that is in the stored cache, -1 if there is none. */
  method GetMaxZoomSeed(resolutions: seq<real>, minResolutionSeed: Option<real>) returns (maxZoomSeed: int)
    ensures maxZoomSeed == MaxZoomSeed(resolutions, minResolutionSeed)
    ensures minResolutionSeed.Some? ==>
      && -1 <= maxZoomSeed < |resolutions|
      && (maxZoomSeed >= 0 ==> Seedable(resolutions, minResolutionSeed, maxZoomSeed))
      && forall z | maxZoomSeed < z < |resolutions| :: !Seedable(resolutions, minResolutionSeed, z)
  {
    if minResolutionSeed.None? {
      return 999999;
    }
    maxZoomSeed := -1;
    for zoom := 0 to |resolutions|
      invariant -1 <= maxZoomSeed < zoom
      invariant maxZoomSeed == MaxZoomSeed(resolutions[..zoom], minResolutionSeed)
      invariant maxZoomSeed >= 0 ==> Seedable(resolutions, minResolutionSeed, maxZoomSeed)
      invariant forall z | maxZoomSeed < z < zoom :: !Seedable(resolutions, minResolutionSeed, z)
    {
      assert resolutions[..zoom + 1][..zoom] == resolutions[..zoom];
      if resolutions[zoom] >= minResolutionSeed.value {
        maxZoomSeed := zoom;
      }
    }
    assert resolutions[..|resolutions|] == resolutions;
  }

  function MaxZoomSeed(resolutions: seq<real>, minResolutionSeed: Option<real>): int {
    if minResolutionSeed.None? then 999999
    else if resolutions == [] then -1
    else if resolutions[|resolutions| - 1] >= minResolutionSeed.value then |resolutions| - 1
    else MaxZoomSeed(resolutions[..|resolutions| - 1], minResolutionSeed)
  }

  lemma {:induction false} MaxZoomSeedExact(resolutions: seq<real>, minResolutionSeed: Option<real>, z: nat)
    requires z < |resolutions| && minResolutionSeed.Some?
    ensures z <= MaxZoomSeed(resolutions, minResolutionSeed)
            <==> exists y :: z <= y < |resolutions| && Seedable(resolutions, minResolutionSeed, y)
    ensures MaxZoomSeed(resolutions, minResolutionSeed) < |resolutions|
  {
    var n := |resolutions| - 1;
    if resolutions[n] < minResolutionSeed.value && z < n {
      MaxZoomSeedExact(resolutions[..n], minResolutionSeed, z);
      forall y | z <= y < n
        ensures Seedable(resolutions[..n], minResolutionSeed, y) <==> Seedable(resolutions, minResolutionSeed, y) {}
      assert (exists y :: z <= y < n && Seedable(resolutions[..n], minResolutionSeed, y))
             <==> exists y :: z <= y < |resolutions| && Seedable(resolutions, minResolutionSeed, y);
    } else if resolutions[n] < minResolutionSeed.value {
      LastNotSeedable(resolutions, minResolutionSeed);
    } else {
      assert Seedable(resolutions, minResolutionSeed, n);
    }
  }

  lemma {:induction false} LastNotSeedable(resolutions: seq<real>, minResolutionSeed: Option<real>)
    requires resolutions != [] && minResolutionSeed.Some?
    requires resolutions[|resolutions| - 1] < minResolutionSeed.value
    ensures MaxZoomSeed(resolutions, minResolutionSeed) < |resolutions| - 1
  {
    var front := resolutions[..|resolutions| - 1];
    if front != [] && front[|front| - 1] < minResolutionSeed.value {
      LastNotSeedable(front, minResolutionSeed);
    }
  }

  /** The server sends a zoom of the grid to the dynamic cache. */
  predicate Dynamic(resolutions: seq<real>, minResolutionSeed: Option<real>, z: nat) {
    z > MaxZoomSeed(resolutions, minResolutionSeed)
  }

  /** For every zoom of the grid, the server generates on demand what is not seeded. */
  ghost predicate Agree(zooms: seq<nat>, resolutions: seq<real>, minResolutionSeed: Option<real>) {
    forall z: nat | z < |resolutions| :: Dynamic(resolutions, minResolutionSeed, z) <==> z !in zooms
  }

  /** No zoom is seedable below one that is not. */
  ghost predicate SeedableFirst(resolutions: seq<real>, minResolutionSeed: Option<real>) {
    forall y: nat, z: nat | y < z < |resolutions| ::
      Seedable(resolutions, minResolutionSeed, z) ==> Seedable(resolutions, minResolutionSeed, y)
  }

  lemma DecreasingSeedableFirst(resolutions: seq<real>, minResolutionSeed: Option<real>)
    requires forall y, z | 0 <= y < z < |resolutions| :: resolutions[y] >= resolutions[z]
    ensures SeedableFirst(resolutions, minResolutionSeed)
  {
  }

  /** When no zoom was requested, routing agrees with seeding exactly when the
      seedable zooms come first, as they do when resolutions never increase. Without
      a limit it agrees as long as the grid has at most a million zooms. */
  lemma RoutingExact(resolutions: seq<real>, minResolutionSeed: Option<real>)
    ensures minResolutionSeed.Some? ==>
      (Agree(Resolve(None, resolutions, minResolutionSeed), resolutions, minResolutionSeed)
       <==> SeedableFirst(resolutions, minResolutionSeed))
    ensures minResolutionSeed.None? ==>
      (Agree(Resolve(None, resolutions, minResolutionSeed), resolutions, minResolutionSeed)
       <==> |resolutions| <= 1000000)
  {
    var zooms := Resolve(None, resolutions, minResolutionSeed);
    forall z: nat | z < |resolutions| ensures z in zooms <==> Seedable(resolutions, minResolutionSeed, z) {
      assert AllZooms(|resolutions|)[z] == z;
    }
    if minResolutionSeed.Some? {
      forall z: nat | z < |resolutions|
        ensures !Dynamic(resolutions, minResolutionSeed, z)
                <==> exists y :: z <= y < |resolutions| && Seedable(resolutions, minResolutionSeed, y)
      {
        MaxZoomSeedExact(resolutions, minResolutionSeed, z);
      }
    } else if |resolutions| > 1000000 {
      assert Dynamic(resolutions, minResolutionSeed, 1000000);
    }
  }

  lemma LaterGrid(earlier: seq<nat>, second: seq<real>, secondMin: Option<real>, z: nat)
    requires z < |second|
    ensures z in Resolve(Some(earlier), second, secondMin) <==> Seedable(second, secondMin, z) && z in earlier
    ensures z in Resolve(None, second, secondMin) <==> Seedable(second, secondMin, z)
  {
    assert AllZooms(|second|)[z] == z;
  }

  /** The zooms of a later grid are also limited by the list of the earlier grid,
      because the option was overwritten. Routing then agrees exactly when the
      earlier list has every seedable zoom of the later grid. */
  lemma LaterGridExact(earlier: seq<nat>, second: seq<real>, secondMin: Option<real>)
    requires SeedableFirst(second, secondMin) && (secondMin.None? ==> |second| <= 1000000)
    ensures Agree(Resolve(Some(earlier), second, secondMin), second, secondMin)
            <==> forall z: nat | z < |second| && Seedable(second, secondMin, z) :: z in earlier
  {
    RoutingExact(second, secondMin);
    forall z: nat | z < |second|
      ensures z in Resolve(Some(earlier), second, secondMin) <==> Seedable(second, secondMin, z) && z in earlier
      ensures Dynamic(second, secondMin, z) <==> !Seedable(second, secondMin, z)
    {
      LaterGrid(earlier, second, secondMin, z);
    }
  }

  /** When no zoom was requested, routing agrees with seeding on the second of two
      grids, of one layer or of two layers of one command, exactly when every zoom
      seedable there is a seedable zoom of the first. */
  lemma SecondGridExact(first: seq<real>, firstMin: Option<real>, second: seq<real>, secondMin: Option<real>)
    requires SeedableFirst(second, secondMin) && (secondMin.None? ==> |second| <= 1000000)
    ensures Agree(Resolve(Some(Resolve(None, first, firstMin)), second, secondMin), second, secondMin)
            <==> forall z: nat | z < |second| && Seedable(second, secondMin, z) ::
                   z < |first| && Seedable(first, firstMin, z)
  {
    var earlier := Resolve(None, first, firstMin);
    LaterGridExact(earlier, second, secondMin);
    forall z: nat ensures z in earlier <==> z < |first| && Seedable(first, firstMin, z) {
      FirstGrid(first, firstMin, z);
    }
  }

  lemma FirstGrid(first: seq<real>, firstMin: Option<real>, z: nat)
    ensures z in Resolve(None, first, firstMin) <==> z < |first| && Seedable(first, firstMin, z)
  {
    if z < |first| {
      LaterGrid([], first, firstMin, z);
    }
  }

  /** With two grids, a zoom that only the second one has is neither seeded nor
      generated on demand. */
  lemma LaterGridMissesZoom()
    ensures !Agree(Resolve(Some(Resolve(None, [100.0], None)), [100.0, 50.0], None), [100.0, 50.0], None)
  {
    LaterGrid(Resolve(None, [100.0], None), [100.0, 50.0], None, 1);
    assert !Dynamic([100.0, 50.0], None, 1);
    forall z | z in AllZooms(1) ensures z == 0 {}
  }
}
