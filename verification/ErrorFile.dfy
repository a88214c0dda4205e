/** The error file: one line for each tile that failed, written while generating and
    read again as the list of the tiles to generate. */
module ErrorFile {
  import opened Common
  import opened TextTools

  type Metadata = map<string, string>

  datatype Tile = Tile(coord: Coordinates, metadata: Metadata)

  // ----- Coordinates -----

  function PlainText(c: Coordinates): string {
    IntText(c.z) + ['/'] + (IntText(c.x) + ['/'] + IntText(c.y))
  }

  /** `z/x/y`, and `:+n/+n` behind it for a metatile. */
  function CoordText(c: Coordinates): string {
    if c.n == 1 then PlainText(c)
    else PlainText(c) + [':'] + (['+'] + IntText(c.n) + ['/'] + (['+'] + IntText(c.n)))
  }

  /** Three integers between slashes. */
  function ParsePlain(s: string): Result<Coordinates> {
    var coords := Split(s, '/');
    if exists i | 0 <= i < |coords| :: ParseInt(coords[i]).None? then Failure("not an integer")
    else if |coords| != 3 then Failure("Wrong number of coordinates")
    else Success(TileCoord(ParseInt(coords[0]).value, ParseInt(coords[1]).value, ParseInt(coords[2]).value, 1))
  }

  function ParseTileCoord(s: string): Result<Coordinates> {
    var parts := Split(s, ':');
    var plain := ParsePlain(parts[0]);
    if plain.Failure? || |parts| == 1 then plain
    else if |parts| == 2 then
      var meta := Split(parts[1], '/');
      if |meta| != 2 then Failure("No one '/' in meta coordinates")
      else if ParseInt(meta[0]).None? then Failure("not an integer")
      else Success(plain.value.(n := ParseInt(meta[0]).value))
    else Failure("More than on ':' in the tilecoord")
  }

  /** The characters of a coordinate. */
  predicate CoordChar(c: char) { '0' <= c <= '9' || c == '-' || c == '+' || c == '/' || c == ':' }

  predicate CoordChars(s: string) { forall i | 0 <= i < |s| :: CoordChar(s[i]) }

  predicate IntChars(s: string) { forall i | 0 <= i < |s| :: '0' <= s[i] <= '9' || s[i] == '-' }

  lemma IntTextChars(n: int)
    ensures IntChars(IntText(n)) && IntText(n) != ""
  {
    DigitsChars(if n < 0 then 0 - n else n);
  }

  lemma IntLacks(s: string, sep: char)
    requires IntChars(s) && (sep == '/' || sep == ':')
    ensures sep !in s && sep !in ['+'] + s
  {
  }

  lemma PlainSplit(c: Coordinates)
    ensures Split(PlainText(c), '/') == [IntText(c.z), IntText(c.x), IntText(c.y)]
    ensures ':' !in PlainText(c)
  {
    var z, x, y := IntText(c.z), IntText(c.x), IntText(c.y);
    IntTextChars(c.z);
    IntTextChars(c.x);
    IntTextChars(c.y);
    SplitThree(z, x, y);
    IntLacks(z, ':');
    IntLacks(x, ':');
    IntLacks(y, ':');
  }

  lemma SplitThree(a: string, b: string, c: string)
    requires IntChars(a) && IntChars(b) && IntChars(c)
    ensures Split(a + ['/'] + (b + ['/'] + c), '/') == [a, b, c]
  {
    IntLacks(a, '/');
    IntLacks(b, '/');
    IntLacks(c, '/');
    SplitAt(a, '/', b + ['/'] + c);
    SplitAt(b, '/', c);
    SplitNone(c, '/');
  }

  lemma PlainRoundTrip(c: Coordinates)
    ensures ParsePlain(PlainText(c)) == Success(c.(n := 1))
  {
    PlainSplit(c);
    IntRoundTrip(c.z);
    IntRoundTrip(c.x);
    IntRoundTrip(c.y);
    ThreeIntegers(PlainText(c), IntText(c.z), IntText(c.x), IntText(c.y));
  }

  lemma ThreeIntegers(s: string, a: string, b: string, c: string)
    requires Split(s, '/') == [a, b, c] && ParseInt(a).Some? && ParseInt(b).Some? && ParseInt(c).Some?
    ensures ParsePlain(s) == Success(TileCoord(ParseInt(a).value, ParseInt(b).value, ParseInt(c).value, 1))
  {
  }

  /** A printed coordinate is read back. */
  lemma CoordRoundTrip(c: Coordinates)
    requires c.n >= 0
    ensures ParseTileCoord(CoordText(c)) == Success(c)
  {
    PlainSplit(c);
    PlainRoundTrip(c);
    if c.n == 1 {
      SplitNone(PlainText(c), ':');
    } else {
      MetaSplit(PlainText(c), c.n);
      PlusRoundTrip(c.n);
    }
  }

  lemma MetaSplit(plain: string, n: nat)
    requires ':' !in plain
    ensures var text := ['+'] + IntText(n);
      Split(plain + [':'] + (text + ['/'] + text), ':') == [plain, text + ['/'] + text]
      && Split(text + ['/'] + text, '/') == [text, text]
  {
    var text := ['+'] + IntText(n);
    IntTextChars(n);
    IntLacks(IntText(n), ':');
    IntLacks(IntText(n), '/');
    SplitAt(plain, ':', text + ['/'] + text);
    SplitNone(text + ['/'] + text, ':');
    SplitAt(text, '/', text);
    SplitNone(text, '/');
  }

  /** A coordinate is read exactly from three integers between slashes, in the order z, x, y,
      and behind one ':' from two parts of which the first is an integer, the side; the
      second part is not looked at. */
  lemma ParseExact(s: string)
    ensures var parts := Split(s, ':');
            var coords, meta := Split(parts[0], '/'), if |parts| == 2 then Split(parts[1], '/') else [];
            && (ParseTileCoord(s).Success? <==>
                  && |coords| == 3 && (forall k | 0 <= k < 3 :: ParseInt(coords[k]).Some?)
                  && (|parts| == 1 || (|parts| == 2 && |meta| == 2 && ParseInt(meta[0]).Some?)))
            && (ParseTileCoord(s).Success? ==>
                  var c := ParseTileCoord(s).value;
                  && Some(c.z) == ParseInt(coords[0]) && Some(c.x) == ParseInt(coords[1])
                  && Some(c.y) == ParseInt(coords[2])
                  && Some(c.n) == if |parts| == 2 then ParseInt(meta[0]) else Some(1))
  {
  }

  /** How coordinates are written: z, x and y, and the side twice if it is not 1. */
  lemma CoordExamples()
    ensures CoordText(TileCoord(4, 1, 2, 1)) == "4/1/2"
    ensures CoordText(TileCoord(4, 1, 2, 8)) == "4/1/2:+8/+8"
  {
  }

  lemma CoordCharsConcat(a: string, b: string)
    requires CoordChars(a) && CoordChars(b)
    ensures CoordChars(a + b)
  {
  }

  lemma PlainChars(c: Coordinates)
    ensures PlainText(c) != "" && CoordChars(PlainText(c))
  {
    var z, x, y := IntText(c.z), IntText(c.x), IntText(c.y);
    IntTextChars(c.z);
    IntTextChars(c.x);
    IntTextChars(c.y);
    CoordCharsConcat(x, ['/']);
    CoordCharsConcat(x + ['/'], y);
    CoordCharsConcat(z, ['/']);
    CoordCharsConcat(z + ['/'], x + ['/'] + y);
  }

  lemma CoordTextChars(c: Coordinates)
    ensures CoordText(c) != "" && CoordChars(CoordText(c))
  {
    PlainChars(c);
    if c.n != 1 {
      var text := ['+'] + IntText(c.n);
      IntTextChars(c.n);
      CoordCharsConcat(['+'], IntText(c.n));
      CoordCharsConcat(text, ['/']);
      CoordCharsConcat(text + ['/'], text);
      CoordCharsConcat(PlainText(c), [':']);
      CoordCharsConcat(PlainText(c) + [':'], text + ['/'] + text);
    }
  }

  // ----- Metadata -----

  /** The order of strings by code point. */
  predicate Less(a: string, b: string) {
    b != "" && (a == "" || a[0] < b[0] || (a[0] == b[0] && Less(a[1..], b[1..])))
  }

  lemma {:induction false} LessTotal(a: string, b: string)
    ensures a == b || Less(a, b) || Less(b, a)
  {
    if a != "" && b != "" && a[0] == b[0] {
      LessTotal(a[1..], b[1..]);
      assert a == [a[0]] + a[1..] && b == [b[0]] + b[1..];
    }
  }

  lemma {:induction false} LessTransitive(a: string, b: string, c: string)
    requires Less(a, b) && Less(b, c)
    ensures Less(a, c)
  {
    if a != "" && a[0] == b[0] && b[0] == c[0] {
      LessTransitive(a[1..], b[1..], c[1..]);
    }
  }

  ghost predicate Least(k: string, keys: set<string>) {
    k in keys && forall o | o in keys && o != k :: Less(k, o)
  }

  lemma {:induction false} LeastExists(keys: set<string>)
    requires keys != {}
    ensures exists k :: Least(k, keys)
  {
    var a :| a in keys;
    var rest := keys - {a};
    assert keys == rest + {a};
    if rest == {} {
      assert Least(a, keys);
    } else {
      LeastExists(rest);
      var b :| Least(b, rest);
      LessTotal(a, b);
      if Less(a, b) {
        forall o | o in keys && o != a ensures Less(a, o) {
          if o != b { LessTransitive(a, b, o); }
        }
        assert Least(a, keys);
      } else {
        assert Least(b, keys);
      }
    }
  }

  ghost predicate Increasing(s: seq<string>) { forall i, j | 0 <= i < j < |s| :: Less(s[i], s[j]) }

  ghost function SortedKeys(keys: set<string>): (s: seq<string>)
    ensures forall k :: k in s <==> k in keys
    ensures Increasing(s)
  {
    if keys == {} then []
    else
      LeastExists(keys);
      var k :| Least(k, keys);
      [k] + SortedKeys(keys - {k})
  }

  function Token(k: string, v: string): string { k + ['='] + v }

  function Tokens(keys: seq<string>, m: Metadata): (tokens: seq<string>)
    requires forall k | k in keys :: k in m
    ensures |tokens| == |keys|
  {
    seq(|keys|, i requires 0 <= i < |keys| => Token(keys[i], m[keys[i]]))
  }

  function Join(parts: seq<string>): string {
    if parts == [] then "" else if |parts| == 1 then parts[0] else parts[0] + [' '] + Join(parts[1..])
  }

  ghost function MetadataText(m: Metadata): string { Join(Tokens(SortedKeys(m.Keys), m)) }

  /** `dict` of the tokens split at '='; `None` when one does not split in two. */
  function FromTokens(tokens: seq<string>): Option<Metadata> {
    if tokens == [] then Some(map[])
    else
      var init := FromTokens(tokens[..|tokens| - 1]);
      var kv := Split(tokens[|tokens| - 1], '=');
      if init.None? || |kv| != 2 then None else Some(init.value[kv[0] := kv[1]])
  }

  lemma {:induction false} SplitJoin(parts: seq<string>)
    requires parts != [] && forall p | p in parts :: ' ' !in p
    ensures Split(Join(parts), ' ') == parts
  {
    assert parts[0] in parts;
    if |parts| == 1 {
      SplitNone(parts[0], ' ');
    } else {
      assert parts == [parts[0]] + parts[1..];
      SplitJoin(parts[1..]);
      SplitAt(parts[0], ' ', Join(parts[1..]));
    }
  }

  /** What the last part ends with, the joined text ends with. */
  lemma {:induction false} JoinEnd(init: seq<string>, last: string, end: string)
    ensures Join(init + [last + end]) == Join(init + [last]) + end
  {
    if init == [] {
    } else {
      var a, b := init + [last + end], init + [last];
      assert a[1..] == init[1..] + [last + end] && b[1..] == init[1..] + [last];
      JoinEnd(init[1..], last, end);
      assert a[0] + [' '] + Join(a[1..]) == b[0] + [' '] + Join(b[1..]) + end;
    }
  }

  /** The entries of `m` for the first keys. */
  function Restrict(m: Metadata, keys: seq<string>): Metadata
    requires forall k | k in keys :: k in m
  {
    map k | k in keys :: m[k]
  }

  lemma {:induction false} FromTokensRoundTrip(keys: seq<string>, m: Metadata)
    requires forall k | k in keys :: k in m && '=' !in k && '=' !in m[k]
    ensures FromTokens(Tokens(keys, m)) == Some(Restrict(m, keys))
  {
    if keys == [] {
      assert Restrict(m, keys) == map[];
    } else {
      var i := |keys| - 1;
      var init, k := keys[..i], keys[i];
      assert k in keys && keys == init + [k];
      FromTokensRoundTrip(init, m);
      TokenSplit(k, m[k]);
      assert Tokens(keys, m)[..i] == Tokens(init, m);
      assert Restrict(m, keys) == Restrict(m, init)[k := m[k]];
    }
  }

  lemma TokenSplit(k: string, v: string)
    requires '=' !in k && '=' !in v
    ensures Split(Token(k, v), '=') == [k, v]
  {
    SplitAt(k, '=', v);
    SplitNone(v, '=');
  }

  // ----- The file -----

  /** What the tile generation writes: a line for a tile in error, one without a
      tile, or the one that starts a layer. */
  datatype Entry =
    | Logged(tile: Tile, time: string, message: Option<string>)
    | Unlocated(time: string, message: Option<string>)
    | Started(time: string, layer: string)

  function OneLined(s: string): (r: string)
    ensures |r| == |s| && '\n' !in r && forall i | 0 <= i < |s| && s[i] != '\n' :: r[i] == s[i]
  {
    seq(|s|, i requires 0 <= i < |s| => if s[i] == '\n' then ' ' else s[i])
  }

  function OutMessage(message: Option<string>): string {
    if message.None? then "" else OneLined([' '] + message.value)
  }

  /** The part of a line in front of its comment. */
  ghost function Head(t: Tile): string {
    CoordText(t.coord) + [' '] + (MetadataText(t.metadata) + [' '])
  }

  function Stamp(time: string): string { [' ', '['] + time + [']'] }

  /** The comment of a line, without its '#'. */
  function Comment(e: Entry): string {
    match e
    case Logged(_, time, message) => Stamp(time) + OutMessage(message)
    case Unlocated(time, message) => Stamp(time) + OutMessage(message)
    case Started(time, layer) => Stamp(time) + " Start the layer '" + layer + "' generation"
  }

  ghost function EntryText(e: Entry): string {
    (if e.Logged? then Head(e.tile) else "") + ['#'] + Comment(e) + ['\n']
  }

  ghost function FileText(entries: seq<Entry>): string {
    if entries == [] then "" else EntryText(entries[0]) + FileText(entries[1..])
  }

  /** The tiles of the entries, in order. */
  function TilesOf(entries: seq<Entry>): seq<Tile> {
    if entries == [] then []
    else (if entries[0].Logged? then [entries[0].tile] else []) + TilesOf(entries[1..])
  }

  /** What one line gives. A bad coordinate is logged and skipped; bad metadata
      raise and end the reading. */
  datatype LineResult = Nothing | BadCoordinate | Item(tile: Tile) | Raises

  function ReadBody(body: string): LineResult {
    if body == "" then Nothing
    else
      var words := Split(body, ' ');
      var coord := ParseTileCoord(words[0]);
      if coord.Failure? then BadCoordinate
      else
        var metadata := FromTokens(words[1..]);
        if metadata.None? then Raises else Item(Tile(coord.value, metadata.value))
  }

  function ReadLine(line: string): LineResult { ReadBody(Strip(Split(line, '#')[0])) }

  /** The tiles that were read, and whether reading then raised. */
  datatype Reading = Reading(tiles: seq<Tile>, raised: bool)

  function Prepend(tiles: seq<Tile>, r: Reading): Reading { Reading(tiles + r.tiles, r.raised) }

  function ReadLines(lines: seq<string>): Reading {
    if lines == [] then Reading([], false)
    else match ReadLine(lines[0])
      case Raises => Reading([], true)
      case Item(tile) => Prepend([tile], ReadLines(lines[1..]))
      case _ => ReadLines(lines[1..])
  }

  function ReadText(text: string): Reading { ReadLines(Lines(text)) }

  lemma PrependTwice(a: seq<Tile>, b: seq<Tile>, r: Reading)
    ensures Prepend(a, Prepend(b, r)) == Prepend(a + b, r)
  {
    assert a + (b + r.tiles) == (a + b) + r.tiles;
  }

  /** None of these lines gives an error of its metadata. */
  ghost predicate NoneRaises(lines: seq<string>, start: nat, end: nat)
    requires end <= |lines|
  {
    forall i | start <= i < end :: !ReadLine(lines[i]).Raises?
  }

  /** `tiles` are the tiles of the first `end` lines, in order, and `places` their lines. */
  ghost predicate TilesOfLines(tiles: seq<Tile>, places: seq<nat>, lines: seq<string>, end: nat)
    requires end <= |lines|
  {
    && |places| == |tiles|
    && (forall k, l | 0 <= k < l < |places| :: places[k] < places[l])
    && (forall k | 0 <= k < |places| :: places[k] < end && ReadLine(lines[places[k]]) == Item(tiles[k]))
    && forall i: nat | i < end && ReadLine(lines[i]).Item? :: i in places
  }

  lemma OneMorePlace(tiles: seq<Tile>, places: seq<nat>, lines: seq<string>, end: nat, tile: Tile)
    requires end < |lines| && TilesOfLines(tiles, places, lines, end) && ReadLine(lines[end]) == Item(tile)
    ensures TilesOfLines(tiles + [tile], places + [end], lines, end + 1)
  {
    var more, moreTiles := places + [end], tiles + [tile];
    assert more[|places|] == end;
    forall k | 0 <= k < |more| ensures more[k] < end + 1 && ReadLine(lines[more[k]]) == Item(moreTiles[k]) {
      if k < |places| { assert more[k] == places[k] && moreTiles[k] == tiles[k]; }
    }
    forall k, l | 0 <= k < l < |more| ensures more[k] < more[l] {
      assert more[k] == places[k];
    }
    forall i: nat | i < end + 1 && ReadLine(lines[i]).Item? ensures i in more {
      if i < end { assert i in places; }
    }
  }

  lemma NoMorePlace(tiles: seq<Tile>, places: seq<nat>, lines: seq<string>, end: nat)
    requires end < |lines| && TilesOfLines(tiles, places, lines, end) && !ReadLine(lines[end]).Item?
    ensures TilesOfLines(tiles, places, lines, end + 1)
  {
  }

  /** The tiles to generate, read line by line: those of all lines in front of the first
      one, if any, whose metadata raise. */
  method ListTiles(text: string) returns (tiles: seq<Tile>, raised: bool, ghost places: seq<nat>, ghost end: nat)
    ensures Reading(tiles, raised) == ReadText(text)
    ensures end <= |Lines(text)| && NoneRaises(Lines(text), 0, end) && TilesOfLines(tiles, places, Lines(text), end)
    ensures if raised then end < |Lines(text)| && ReadLine(Lines(text)[end]).Raises? else end == |Lines(text)|
  {
    var lines := Lines(text);
    tiles, raised, places, end := [], false, [], 0;
    var i := 0;
    while i < |lines|
      invariant 0 <= i <= |lines| && end == i
      invariant ReadLines(lines) == Prepend(tiles, ReadLines(lines[i..]))
      invariant NoneRaises(lines, 0, i) && TilesOfLines(tiles, places, lines, i)
    {
      var line := ReadLine(lines[i]);
      if line.Raises? {
        raised := true;
        return;
      }
      ghost var rest := ReadLines(lines[i + 1..]);
      assert lines[i..][1..] == lines[i + 1..];
      if line.Item? {
        OneMorePlace(tiles, places, lines, i, line.tile);
        PrependTwice(tiles, [line.tile], rest);
        tiles, places := tiles + [line.tile], places + [i];
      } else {
        NoMorePlace(tiles, places, lines, i);
      }
      i, end := i + 1, i + 1;
    }
  }

  // ----- What one line gives -----

  /** The tokens give metadata exactly when each has one '='. */
  lemma {:induction false} FromTokensExact(tokens: seq<string>)
    ensures FromTokens(tokens).Some? <==> forall t | t in tokens :: |Split(t, '=')| == 2
  {
    if tokens == [] {
    } else {
      var i := |tokens| - 1;
      FromTokensExact(tokens[..i]);
      assert tokens[i] in tokens && tokens == tokens[..i] + [tokens[i]];
      assert forall t :: t in tokens <==> t in tokens[..i] || t == tokens[i];
    }
  }

  /** A line is judged by its first word: if that is no coordinate the line is skipped,
      whatever follows; else every other word must have one '='. */
  lemma BodyExact(word: string, rest: string)
    requires word != "" && ' ' !in word
    ensures ReadBody(word) == if ParseTileCoord(word).Failure? then BadCoordinate
                              else Item(Tile(ParseTileCoord(word).value, map[]))
    ensures ReadBody(word + [' '] + rest).BadCoordinate? <==> ParseTileCoord(word).Failure?
    ensures ReadBody(word + [' '] + rest).Raises?
       <==> ParseTileCoord(word).Success? && exists t :: t in Split(rest, ' ') && |Split(t, '=')| != 2
    ensures ReadBody(word + [' '] + rest).Item? ==>
              ReadBody(word + [' '] + rest).tile.coord == ParseTileCoord(word).value
  {
    SplitNone(word, ' ');
    SplitAt(word, ' ', rest);
    FromTokensExact(Split(rest, ' '));
    assert ([word] + Split(rest, ' '))[1..] == Split(rest, ' ');
    assert [word][1..] == [];
  }

  /** A line of spaces in front of its comment gives nothing. */
  lemma BlankLine(spaces: string, comment: string)
    requires forall c | c in spaces :: IsSpace(c)
    ensures ReadLine(spaces) == Nothing && ReadLine(spaces + ['#'] + comment) == Nothing
  {
    assert '#' !in spaces;
    SplitNone(spaces, '#');
    SplitAt(spaces, '#', comment);
    StripSpaces(spaces);
  }

  lemma {:induction false} StripSpaces(spaces: string)
    requires forall c | c in spaces :: IsSpace(c)
    ensures Strip(spaces) == ""
  {
    if spaces != "" {
      assert spaces == [spaces[0]] + spaces[1..];
      StripSpaces(spaces[1..]);
      assert StripLeft(spaces) == StripLeft(spaces[1..]);
    }
  }
}
