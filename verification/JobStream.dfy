/** The metatiles that a queue generation puts: every seeded one of every layer and
    grid, once for each combination of dimension values. */
module JobStream {
  import opened Common
  import T = QueueTables
  import Seeding = SparseSeeding

  ghost predicate NoTwins<A>(s: seq<A>) { forall x, y | 0 <= x < y < |s| :: s[x] != s[y] }

  type Metadata = map<string, string>

  /** What a job generates of one layer and grid: its seeding, and the metadata of each
      combination of dimension values. */
  datatype Source = Source(pyramid: Seeding.Pyramid, n: nat, metadatas: seq<Metadata>)

  ghost predicate ValidSource(source: Source) { Seeding.ValidPyramid(source.pyramid, source.n) }

  ghost predicate Gives(source: Source, m: T.Message)
    requires ValidSource(source)
  {
    Seeding.SeededTile(source.pyramid, source.n, m.coord) && m.metadata in source.metadatas
  }

  ghost predicate ValidSources(sources: seq<Source>) { forall k | 0 <= k < |sources| :: ValidSource(sources[k]) }

  /** Some source gives the metatile. */
  ghost predicate Given(sources: seq<Source>, m: T.Message)
    requires ValidSources(sources)
  {
    sources != []
    && (Given(sources[..|sources| - 1], m) || Gives(sources[|sources| - 1], m))
  }

  /** A source gives the metatile, and the filters of the pipeline keep it. */
  ghost predicate Wanted(sources: seq<Source>, kept: T.Message -> bool, m: T.Message)
    requires ValidSources(sources)
  {
    kept(m) && Given(sources, m)
  }

  /** `tiles` are the wanted metatiles, each once. */
  ghost predicate AreSeeded(sources: seq<Source>, kept: T.Message -> bool, tiles: seq<T.Message>)
    requires ValidSources(sources)
  {
    (forall m :: m in tiles <==> Wanted(sources, kept, m)) && NoTwins(tiles)
  }

  function WithMetadata(c: TileCoord, metadatas: seq<Metadata>): seq<T.Message> {
    seq(|metadatas|, i requires 0 <= i < |metadatas| => T.Message(c, metadatas[i]))
  }

  /** The stream of the metatiles of one layer and grid. */
  function Stream(coords: seq<TileCoord>, metadatas: seq<Metadata>): seq<T.Message> {
    if coords == [] then [] else WithMetadata(coords[0], metadatas) + Stream(coords[1..], metadatas)
  }

  function Keep(tiles: seq<T.Message>, kept: T.Message -> bool): seq<T.Message> {
    if tiles == [] then []
    else (if kept(tiles[0]) then [tiles[0]] else []) + Keep(tiles[1..], kept)
  }

  lemma NoTwinsConcat<A>(a: seq<A>, b: seq<A>)
    requires NoTwins(a) && NoTwins(b) && forall x | x in a :: x !in b
    ensures NoTwins(a + b)
  {
    forall x, y | 0 <= x < y < |a + b| ensures (a + b)[x] != (a + b)[y] {
      if x < |a| <= y {
        assert a[x] in a && b[y - |a|] in b;
      }
    }
  }

  lemma WithMetadataExact(c: TileCoord, metadatas: seq<Metadata>)
    ensures forall m :: m in WithMetadata(c, metadatas) <==> m.coord == c && m.metadata in metadatas
    ensures NoTwins(metadatas) ==> NoTwins(WithMetadata(c, metadatas))
  {
    forall m ensures m in WithMetadata(c, metadatas) <==> m.coord == c && m.metadata in metadatas {
      if m.coord == c && m.metadata in metadatas {
        var i :| 0 <= i < |metadatas| && metadatas[i] == m.metadata;
        assert WithMetadata(c, metadatas)[i] == m;
      }
    }
  }

  lemma {:induction false} StreamExact(coords: seq<TileCoord>, metadatas: seq<Metadata>)
    ensures forall m :: m in Stream(coords, metadatas) <==> m.coord in coords && m.metadata in metadatas
    ensures NoTwins(coords) && NoTwins(metadatas) ==> NoTwins(Stream(coords, metadatas))
  {
    if coords == [] {
    } else {
      var c, rest := coords[0], coords[1..];
      assert coords == [c] + rest;
      WithMetadataExact(c, metadatas);
      StreamExact(rest, metadatas);
      if NoTwins(coords) && NoTwins(metadatas) {
        forall d | d in rest ensures d != c {}
        NoTwinsConcat(WithMetadata(c, metadatas), Stream(rest, metadatas));
      }
    }
  }

  lemma {:induction false} KeepExact(tiles: seq<T.Message>, kept: T.Message -> bool)
    ensures forall m :: m in Keep(tiles, kept) <==> m in tiles && kept(m)
    ensures NoTwins(tiles) ==> NoTwins(Keep(tiles, kept))
  {
    if tiles == [] {
    } else {
      var first, rest := tiles[0], tiles[1..];
      assert tiles == [first] + rest;
      KeepExact(rest, kept);
      if NoTwins(tiles) && kept(first) {
        forall m | m in rest ensures m != first {}
        NoTwinsConcat([first], Keep(rest, kept));
      }
    }
  }

  /** The metatiles that a job puts, when seeding gives `coords` for its sources. */
  function JobStream(sources: seq<Source>, coords: seq<seq<TileCoord>>, kept: T.Message -> bool): seq<T.Message>
    requires |coords| == |sources|
  {
    if sources == [] then []
    else
      var n := |sources| - 1;
      JobStream(sources[..n], coords[..n], kept) + Keep(Stream(coords[n], sources[n].metadatas), kept)
  }

  /** `coords` is what `SparseSeeding.MetaTileCoords` finds for the source. */
  ghost predicate Found(source: Source, coords: seq<TileCoord>)
    requires ValidSource(source)
  {
    (forall c :: c in coords <==> Seeding.SeededTile(source.pyramid, source.n, c)) && NoTwins(coords)
  }

  /** No metadata is used twice: grid, layer or a dimension tells them apart. */
  ghost predicate DistinctMetadata(sources: seq<Source>) {
    && (forall k | 0 <= k < |sources| :: NoTwins(sources[k].metadatas))
    && forall k, l | 0 <= k < l < |sources| :: forall d | d in sources[k].metadatas :: d !in sources[l].metadatas
  }

  /** The stream of a job has each wanted metatile once. */
  lemma {:induction false} StreamIsSeeded(sources: seq<Source>, coords: seq<seq<TileCoord>>, kept: T.Message -> bool)
    requires |coords| == |sources| && DistinctMetadata(sources) && ValidSources(sources)
    requires forall k | 0 <= k < |sources| :: Found(sources[k], coords[k])
    ensures AreSeeded(sources, kept, JobStream(sources, coords, kept))
    decreases |sources|
  {
    if sources == [] {
    } else {
      var n := |sources| - 1;
      var front := JobStream(sources[..n], coords[..n], kept);
      var last := Keep(Stream(coords[n], sources[n].metadatas), kept);
      StreamIsSeeded(sources[..n], coords[..n], kept);
      SourceExact(sources[n], coords[n], kept);
      forall m | m in front ensures m !in last {
        MetadataOfGiven(sources[..n], m);
        var k :| 0 <= k < n && m.metadata in sources[..n][k].metadatas;
        assert m.metadata in sources[k].metadatas;
      }
      NoTwinsConcat(front, last);
    }
  }

  lemma {:induction false} MetadataOfGiven(sources: seq<Source>, m: T.Message)
    requires ValidSources(sources) && Given(sources, m)
    ensures exists k | 0 <= k < |sources| :: m.metadata in sources[k].metadatas
  {
    var n := |sources| - 1;
    if Gives(sources[n], m) {
      assert m.metadata in sources[n].metadatas;
    } else {
      MetadataOfGiven(sources[..n], m);
      var k :| 0 <= k < n && m.metadata in sources[..n][k].metadatas;
      assert m.metadata in sources[k].metadatas;
    }
  }

  lemma SourceExact(source: Source, coords: seq<TileCoord>, kept: T.Message -> bool)
    requires ValidSource(source) && Found(source, coords) && NoTwins(source.metadatas)
    ensures var tiles := Keep(Stream(coords, source.metadatas), kept);
            NoTwins(tiles) && forall m :: m in tiles <==> kept(m) && Gives(source, m)
  {
    StreamExact(coords, source.metadatas);
    KeepExact(Stream(coords, source.metadatas), kept);
  }
}
