/** What is written to the error file is what is read from it. */
module ErrorFileTheorems {
  import opened Common
  import opened TextTools
  import opened ErrorFile

  /** A key or value without any of the characters that structure the file. */
  predicate Bare(s: string) { ' ' !in s && '=' !in s && '#' !in s && OneLine(s) }

  ghost predicate AllBare(m: Metadata) { forall k | k in m :: Bare(k) && Bare(m[k]) }

  /** The metadata with the spaces that end the last value, in key order, removed. */
  ghost function Trimmed(m: Metadata): Metadata {
    var keys := SortedKeys(m.Keys);
    if keys == [] then m else m[keys[|keys| - 1] := StripRight(m[keys[|keys| - 1]])]
  }

  /** The last value, in key order, does not end with a space. */
  ghost predicate NoFinalSpace(m: Metadata) {
    var keys := SortedKeys(m.Keys);
    keys != [] ==> var v := m[keys[|keys| - 1]]; v == "" || !IsSpace(v[|v| - 1])
  }

  lemma TrimmedExact(m: Metadata)
    ensures Trimmed(m) == m <==> NoFinalSpace(m)
  {
    var keys := SortedKeys(m.Keys);
    if keys != [] {
      var v := m[keys[|keys| - 1]];
      StripRightChars(v);
      assert Trimmed(m)[keys[|keys| - 1]] == StripRight(v);
    }
  }

  /** A text without comment and line break. */
  predicate Uncommented(s: string) { '#' !in s && OneLine(s) }

  lemma UncommentedConcat(a: string, b: string)
    requires Uncommented(a) && Uncommented(b)
    ensures Uncommented(a + b)
  {
  }

  lemma TokensBare(keys: seq<string>, m: Metadata)
    requires AllBare(m) && forall k | k in keys :: k in m
    ensures forall t | t in Tokens(keys, m) :: ' ' !in t && Uncommented(t)
  {
    forall t | t in Tokens(keys, m) ensures ' ' !in t && Uncommented(t) {
      var i :| 0 <= i < |keys| && t == Token(keys[i], m[keys[i]]);
      assert keys[i] in keys;
      TokenBare(keys[i], m[keys[i]]);
    }
  }

  lemma TokenBare(k: string, v: string)
    requires Bare(k) && Bare(v)
    ensures ' ' !in Token(k, v) && Uncommented(Token(k, v))
  {
  }

  lemma {:induction false} JoinUncommented(parts: seq<string>)
    requires forall p | p in parts :: Uncommented(p)
    ensures Uncommented(Join(parts))
  {
    if parts == [] {
    } else if |parts| == 1 {
      assert parts[0] in parts;
    } else {
      assert parts[0] in parts;
      JoinUncommented(parts[1..]);
      UncommentedConcat(parts[0], [' ']);
      UncommentedConcat(parts[0] + [' '], Join(parts[1..]));
    }
  }

  lemma CoordUncommented(c: Coordinates)
    ensures Uncommented(CoordText(c))
  {
    CoordTextChars(c);
  }

  lemma HeadChars(t: Tile)
    requires AllBare(t.metadata)
    ensures Uncommented(Head(t))
  {
    var keys := SortedKeys(t.metadata.Keys);
    var coord, text := CoordText(t.coord), MetadataText(t.metadata);
    CoordUncommented(t.coord);
    TokensBare(keys, t.metadata);
    JoinUncommented(Tokens(keys, t.metadata));
    UncommentedConcat(text, [' ']);
    UncommentedConcat(coord, [' ']);
    UncommentedConcat(coord + [' '], text + [' ']);
  }

  lemma TrimmedBare(m: Metadata)
    requires AllBare(m)
    ensures AllBare(Trimmed(m)) && Trimmed(m).Keys == m.Keys
  {
    var keys := SortedKeys(m.Keys);
    if keys != [] {
      var v := m[keys[|keys| - 1]];
      StripRightChars(v);
    }
  }

  /** `core` is the text without the spaces around it. */
  predicate Core(core: string, text: string) {
    core != "" && !IsSpace(core[0]) && !IsSpace(core[|core| - 1])
    && core <= text && forall c | c in text[|core|..] :: IsSpace(c)
  }

  lemma StripCore(core: string, text: string)
    requires Core(core, text)
    ensures Strip(text) == core
  {
    StripRightSpaces(core, text[|core|..]);
    assert text == core + text[|core|..];
  }

  /** The words of a line, once it is stripped. */
  ghost function Words(t: Tile): seq<string> {
    var m := Trimmed(t.metadata);
    [CoordText(t.coord)] + Tokens(SortedKeys(m.Keys), m)
  }

  lemma {:induction false} JoinFirst(parts: seq<string>)
    requires parts != []
    ensures parts[0] <= Join(parts)
  {
  }

  lemma LastDiffers(keys: seq<string>)
    requires Increasing(keys) && keys != []
    ensures forall j | 0 <= j < |keys| - 1 :: keys[j] != keys[|keys| - 1]
  {
    LessIrreflexive(keys[|keys| - 1]);
  }

  /** A new value for the last key changes the last token. */
  lemma LastTokenOf(keys: seq<string>, m: Metadata, v: string)
    requires keys != [] && (forall k | k in keys :: k in m)
    requires forall j | 0 <= j < |keys| - 1 :: keys[j] != keys[|keys| - 1]
    ensures Tokens(keys, m[keys[|keys| - 1] := v])
         == Tokens(keys, m)[..|keys| - 1] + [Token(keys[|keys| - 1], v)]
  {
  }

  /** The tokens written are the words read, with the spaces behind the last value. */
  lemma LastToken(m: Metadata, keys: seq<string>) returns (init: seq<string>, last: string, end: string)
    requires keys == SortedKeys(m.Keys) && keys != []
    ensures Tokens(keys, m) == init + [last + end] && Tokens(keys, Trimmed(m)) == init + [last]
    ensures last != "" && !IsSpace(last[|last| - 1]) && forall c | c in end :: IsSpace(c)
  {
    var k := keys[|keys| - 1];
    var v := StripRight(m[k]);
    ValueEnd(k, m[k]);
    last, end := Token(k, v), m[k][|v|..];
    init := Tokens(keys, m)[..|keys| - 1];
    LastDiffers(keys);
    LastTokenOf(keys, m, v);
    LastTokenKept(keys, m);
  }

  lemma LastTokenKept(keys: seq<string>, m: Metadata)
    requires keys != [] && (forall k | k in keys :: k in m)
    ensures Tokens(keys, m) == Tokens(keys, m)[..|keys| - 1] + [Token(keys[|keys| - 1], m[keys[|keys| - 1]])]
  {
  }

  /** A token is the one of the trimmed value, and spaces. */
  lemma ValueEnd(k: string, value: string)
    ensures StripRight(value) <= value
    ensures var v := StripRight(value);
            var end := value[|v|..];
            Token(k, value) == Token(k, v) + end && (forall c | c in end :: IsSpace(c))
            && Token(k, v) != "" && !IsSpace(Token(k, v)[|Token(k, v)| - 1])
  {
    var v := StripRight(value);
    StripRightChars(value);
    StripRightRest(value);
    assert value == v + value[|v|..];
    TokenEnd(k, v, value[|v|..]);
    TokenNotSpace(k, v);
  }

  lemma TokenNotSpace(k: string, v: string)
    requires v != "" ==> !IsSpace(v[|v| - 1])
    ensures Token(k, v) != "" && !IsSpace(Token(k, v)[|Token(k, v)| - 1])
  {
  }

  lemma TokenEnd(k: string, v: string, end: string)
    ensures Token(k, v + end) == Token(k, v) + end
  {
  }

  lemma {:induction false} LessIrreflexive(a: string)
    ensures !Less(a, a)
  {
    if a == "" {
    } else {
      LessIrreflexive(a[1..]);
    }
  }

  lemma {:induction false} StripRightRest(s: string)
    ensures StripRight(s) <= s && forall c | c in s[|StripRight(s)|..] :: IsSpace(c)
  {
    if s != "" && IsSpace(s[|s| - 1]) {
      var t := s[..|s| - 1];
      StripRightRest(t);
      assert s[|StripRight(t)|..] == t[|StripRight(t)|..] + [s[|s| - 1]];
    }
  }

  lemma HeadJoin(t: Tile)
    requires t.metadata != map[]
    ensures Head(t) == Join([CoordText(t.coord)] + Tokens(SortedKeys(t.metadata.Keys), t.metadata)) + [' ']
  {
    var keys := SortedKeys(t.metadata.Keys);
    var coord, tokens := CoordText(t.coord), Tokens(keys, t.metadata);
    var k :| k in t.metadata;
    assert k in keys;
    assert ([coord] + tokens)[1..] == tokens;
    assert coord + [' '] + (Join(tokens) + [' ']) == coord + [' '] + Join(tokens) + [' '];
  }

  lemma FirstNotSpace(t: Tile)
    ensures Join(Words(t)) != "" && !IsSpace(Join(Words(t))[0])
    ensures !IsSpace(CoordText(t.coord)[|CoordText(t.coord)| - 1])
  {
    var coord := CoordText(t.coord);
    CoordTextChars(t.coord);
    assert coord[0] in coord && coord[|coord| - 1] in coord;
    JoinFirst(Words(t));
  }

  lemma JoinLast(init: seq<string>, last: string)
    ensures Join(init + [last]) == Join(init + [""]) + last
  {
    JoinEnd(init, "", last);
    assert "" + last == last;
  }

  lemma CoreOf(core: string, spaces: string)
    requires core != "" && !IsSpace(core[0]) && !IsSpace(core[|core| - 1]) && forall c | c in spaces :: IsSpace(c)
    ensures Core(core, core + spaces)
  {
    assert (core + spaces)[|core|..] == spaces;
  }

  lemma HeadWordsNone(t: Tile)
    requires t.metadata == map[]
    ensures Head(t) == Join(Words(t)) + [' ', ' '] && Words(t) == [CoordText(t.coord)]
  {
    var coord := CoordText(t.coord);
    assert coord + [' '] + ("" + [' ']) == coord + [' ', ' '];
  }

  lemma HeadWordsSome(t: Tile) returns (spaces: string)
    requires t.metadata != map[]
    ensures Head(t) == Join(Words(t)) + spaces && forall c | c in spaces :: IsSpace(c)
    ensures Join(Words(t)) != "" && !IsSpace(Join(Words(t))[|Join(Words(t))| - 1])
  {
    var m, coord := t.metadata, CoordText(t.coord);
    var k :| k in m;
    var keys := SortedKeys(m.Keys);
    assert k in keys;
    var init, last, end := LastToken(m, keys);
    HeadJoin(t);
    WordsJoin(coord, init, last, end);
    TrimmedKeys(m);
    spaces := end + [' '];
    var join := Join(Words(t));
    assert join + end + [' '] == join + spaces;
  }

  lemma TrimmedKeys(m: Metadata)
    ensures Trimmed(m).Keys == m.Keys
  {
  }

  lemma WordsJoin(coord: string, init: seq<string>, last: string, end: string)
    requires last != ""
    ensures var join := Join([coord] + (init + [last]));
            Join([coord] + (init + [last + end])) == join + end && join != "" && join[|join| - 1] == last[|last| - 1]
  {
    JoinEnd([coord] + init, last, end);
    JoinLast([coord] + init, last);
    assert [coord] + (init + [last + end]) == [coord] + init + [last + end];
    assert [coord] + (init + [last]) == [coord] + init + [last];
  }

  lemma HeadWords(t: Tile) returns (spaces: string)
    ensures Head(t) == Join(Words(t)) + spaces && forall c | c in spaces :: IsSpace(c)
    ensures Join(Words(t)) != "" && !IsSpace(Join(Words(t))[|Join(Words(t))| - 1])
  {
    FirstNotSpace(t);
    if t.metadata == map[] {
      HeadWordsNone(t);
      spaces := [' ', ' '];
    } else {
      spaces := HeadWordsSome(t);
    }
  }

  lemma HeadCore(t: Tile)
    requires AllBare(t.metadata)
    ensures Core(Join(Words(t)), Head(t))
  {
    var spaces := HeadWords(t);
    FirstNotSpace(t);
    CoreOf(Join(Words(t)), spaces);
  }

  lemma TokensRead(m: Metadata)
    requires AllBare(m)
    ensures FromTokens(Tokens(SortedKeys(m.Keys), m)) == Some(m)
  {
    var keys := SortedKeys(m.Keys);
    FromTokensRoundTrip(keys, m);
    assert Restrict(m, keys) == m;
  }

  lemma BodyOf(c: Coordinates, m: Metadata, tokens: seq<string>)
    requires c.n >= 0 && FromTokens(tokens) == Some(m)
    requires Join([CoordText(c)] + tokens) != "" && forall w | w in [CoordText(c)] + tokens :: ' ' !in w
    ensures ReadBody(Join([CoordText(c)] + tokens)) == Item(Tile(c, m))
  {
    var words := [CoordText(c)] + tokens;
    SplitJoin(words);
    CoordRoundTrip(c);
    assert words[1..] == tokens;
  }

  lemma ReadWords(t: Tile)
    requires t.coord.n >= 0 && AllBare(t.metadata)
    ensures ReadBody(Join(Words(t))) == Item(t.(metadata := Trimmed(t.metadata)))
  {
    var m := Trimmed(t.metadata);
    TrimmedBare(t.metadata);
    TokensRead(m);
    WordsPlain(t);
    FirstNotSpace(t);
    BodyOf(t.coord, m, Tokens(SortedKeys(m.Keys), m));
  }

  lemma WordsPlain(t: Tile)
    requires AllBare(t.metadata)
    ensures forall w | w in Words(t) :: ' ' !in w
  {
    var m := Trimmed(t.metadata);
    TrimmedBare(t.metadata);
    CoordTextChars(t.coord);
    TokensBare(SortedKeys(m.Keys), m);
  }

  /** A line gives the tile that was written, its last value without the spaces that
      end it, whatever the comment. */
  lemma LineRoundTrip(t: Tile, comment: string)
    requires t.coord.n >= 0 && AllBare(t.metadata)
    ensures ReadLine(Head(t) + ['#'] + comment) == Item(t.(metadata := Trimmed(t.metadata)))
  {
    HeadChars(t);
    SplitAt(Head(t), '#', comment);
    HeadCore(t);
    StripCore(Join(Words(t)), Head(t));
    ReadWords(t);
  }

  // ----- Whole files -----

  /** The metadata that survive: no structuring character, no space at the end. */
  ghost predicate Clean(m: Metadata) { AllBare(m) && NoFinalSpace(m) }

  predicate NoReturn(message: Option<string>) { message.Some? ==> '\r' !in message.value }

  predicate CommentOk(e: Entry) {
    match e
    case Logged(_, time, message) => OneLine(time) && NoReturn(message)
    case Unlocated(time, message) => OneLine(time) && NoReturn(message)
    case Started(time, layer) => OneLine(time) && OneLine(layer)
  }

  ghost predicate EntryOk(e: Entry) {
    CommentOk(e) && (e.Logged? ==> e.tile.coord.n >= 0 && Clean(e.tile.metadata))
  }

  lemma MessageOneLine(message: Option<string>)
    requires NoReturn(message)
    ensures OneLine(OutMessage(message))
  {
    if message.Some? {
      var s := [' '] + message.value;
      assert '\r' !in s;
      forall c | c in OneLined(s) ensures c != '\r' {
        var i :| 0 <= i < |s| && OneLined(s)[i] == c;
        assert s[i] in s;
      }
    }
  }

  lemma CommentOneLine(e: Entry)
    requires CommentOk(e)
    ensures OneLine(Comment(e))
  {
    match e {
      case Logged(_, _, message) => MessageOneLine(message);
      case Unlocated(_, message) => MessageOneLine(message);
      case Started(_, _) =>
    }
  }

  lemma CommentLine(comment: string)
    ensures ReadLine(['#'] + comment) == Nothing
  {
    SplitAt("", '#', comment);
    assert "" + ['#'] + comment == ['#'] + comment;
  }

  /** A line in front of others. */
  lemma ReadFirst(line: string, rest: string)
    requires OneLine(line)
    ensures ReadLines(Lines(line + ['\n'] + rest)) == ReadLines([line] + Lines(rest))
  {
    LinesStep(line, rest);
  }

  lemma ReadTile(t: Tile, comment: string, rest: string)
    requires t.coord.n >= 0 && AllBare(t.metadata) && OneLine(comment)
    ensures ReadText(Head(t) + ['#'] + comment + ['\n'] + rest)
         == Prepend([t.(metadata := Trimmed(t.metadata))], ReadText(rest))
  {
    var line := Head(t) + ['#'] + comment;
    HeadChars(t);
    LineRoundTrip(t, comment);
    ReadFirst(line, rest);
  }

  lemma EntryRead(e: Entry, rest: string)
    requires EntryOk(e)
    ensures ReadText(EntryText(e) + rest) == Prepend(if e.Logged? then [e.tile] else [], ReadText(rest))
  {
    CommentOneLine(e);
    if e.Logged? {
      ReadTile(e.tile, Comment(e), rest);
      TrimmedExact(e.tile.metadata);
    } else {
      var line := ['#'] + Comment(e);
      CommentLine(Comment(e));
      ReadFirst(line, rest);
      assert "" + ['#'] + Comment(e) == line;
    }
  }

  /** The tiles read from a file are those written to it, in order. */
  lemma {:induction false} FileRoundTrip(entries: seq<Entry>)
    requires forall e | e in entries :: EntryOk(e)
    ensures ReadText(FileText(entries)) == Reading(TilesOf(entries), false)
  {
    if entries == [] {
    } else {
      EntryRead(entries[0], FileText(entries[1..]));
      FileRoundTrip(entries[1..]);
    }
  }

  // ----- The condition is exact -----

  lemma {:induction false} TileLine(lines: seq<string>, t: Tile)
    requires t in ReadLines(lines).tiles
    ensures exists line :: line in lines && ReadLine(line) == Item(t)
  {
    if ReadLine(lines[0]) == Item(t) {
      assert lines[0] in lines;
    } else {
      TileLine(lines[1..], t);
      var line :| line in lines[1..] && ReadLine(line) == Item(t);
      assert line in lines;
    }
  }

  lemma {:induction false} TokensGiveBare(tokens: seq<string>)
    requires forall t | t in tokens :: ' ' !in t && '#' !in t && OneLine(t)
    ensures FromTokens(tokens).Some? ==> AllBare(FromTokens(tokens).value)
  {
    if tokens == [] {
    } else {
      var i := |tokens| - 1;
      var last := tokens[i];
      assert last in tokens;
      TokensGiveBare(tokens[..i]);
      forall part | part in Split(last, '=') ensures Bare(part) {
        SplitChars(last, '=', part);
      }
    }
  }

  lemma LineGivesBare(line: string, t: Tile)
    requires OneLine(line) && ReadLine(line) == Item(t)
    ensures AllBare(t.metadata)
  {
    var front := Split(line, '#')[0];
    SplitChars(line, '#', front);
    StripChars(front);
    var words := Split(Strip(front), ' ');
    forall w | w in words[1..] ensures ' ' !in w && '#' !in w && OneLine(w) {
      SplitChars(Strip(front), ' ', w);
    }
    TokensGiveBare(words[1..]);
  }

  /** A tile logged with a message free of carriage returns is read back, and nothing
      else is, exactly when its metadata are clean. */
  lemma ReadBackExact(t: Tile, time: string, message: Option<string>)
    requires t.coord.n >= 0 && OneLine(time) && NoReturn(message)
    ensures ReadText(EntryText(Logged(t, time, message))) == Reading([t], false) <==> Clean(t.metadata)
  {
    var e := Logged(t, time, message);
    var text := EntryText(e);
    CommentOneLine(e);
    assert text + "" == text;
    if t in ReadText(text).tiles {
      TileLine(Lines(text), t);
      var line :| line in Lines(text) && ReadLine(line) == Item(t);
      LinesChars(text, line);
      LineGivesBare(line, t);
    }
    if AllBare(t.metadata) {
      ReadTile(t, Comment(e), "");
      TrimmedExact(t.metadata);
    }
  }

  /** Whatever the message, the line gives its tile, and then what the lines of the
      message behind its carriage returns read as. */
  lemma MessageLeak(t: Tile, time: string, message: Option<string>)
    requires t.coord.n >= 0 && Clean(t.metadata) && OneLine(time)
    ensures var comment := Comment(Logged(t, time, message)) + ['\n'];
            Lines(comment) != []
            && ReadText(EntryText(Logged(t, time, message))) == Prepend([t], ReadLines(Lines(comment)[1..]))
  {
    var e := Logged(t, time, message);
    var comment := Comment(e) + ['\n'];
    LinesNotEmpty(comment);
    HeadChars(t);
    var first, more := Lines(comment)[0], Lines(comment)[1..];
    assert OneLine(Head(t) + ['#']);
    LinesFront(Head(t) + ['#'], comment, first, more);
    assert EntryText(e) == Head(t) + ['#'] + comment;
    LineRoundTrip(t, first);
    TrimmedExact(t.metadata);
  }

  lemma CoordinateAlone(c: Coordinates)
    requires c.n >= 0
    ensures ReadLine(CoordText(c)) == Item(Tile(c, map[])) && OneLine(CoordText(c))
  {
    var text := CoordText(c);
    CoordTextChars(c);
    PlainLine(text);
    assert [text] + [] == [text];
    BodyOf(c, map[], []);
  }

  lemma PlainLine(text: string)
    requires text != "" && CoordChars(text)
    ensures OneLine(text) && ' ' !in text && ReadLine(text) == ReadBody(text)
  {
    assert '#' !in text;
    SplitNone(text, '#');
    StripNothing(text);
  }

  lemma ReturnLines(front: string, text: string)
    requires text != "" && OneLine(text) && OneLine(front)
    ensures Lines(front + (['\r'] + text + ['\n'])) == [front + ""] + [text]
  {
    LinesStep(text, "");
    assert text + ['\n'] + "" == text + ['\n'];
    var s := ['\r'] + text + ['\n'];
    assert s[1..] == text + ['\n'] && s[1] == text[0] && text[0] in text;
    LinesFront(front, s, "", [text]);
  }

  lemma ReturnMessage(text: string)
    requires OneLine(text)
    ensures OutMessage(Some(['\r'] + text)) == [' '] + (['\r'] + text)
  {
    assert '\n' !in [' '] + (['\r'] + text);
  }

  lemma ReturnComment(stamp: string, text: string)
    requires text != "" && OneLine(text) && OneLine(stamp)
    ensures Lines(stamp + ([' '] + (['\r'] + text)) + ['\n']) == [stamp + [' ']] + [text]
  {
    var front := stamp + [' '];
    assert stamp + ([' '] + (['\r'] + text)) + ['\n'] == front + (['\r'] + text + ['\n']);
    ReturnLines(front, text);
    assert front + "" == front;
  }

  /** A caller that passes a message with a carriage return as it is can add a tile
      that was never logged. The callers in the tile generation do not. */
  lemma ReturnAddsTile(t: Tile, time: string, c: Coordinates)
    requires t.coord.n >= 0 && Clean(t.metadata) && OneLine(time) && c.n >= 0
    ensures ReadText(EntryText(Logged(t, time, Some(['\r'] + CoordText(c))))) == Reading([t, Tile(c, map[])], false)
  {
    var text := CoordText(c);
    MessageLeak(t, time, Some(['\r'] + text));
    CoordinateAlone(c);
    CoordTextChars(c);
    ReturnMessage(text);
    ReturnComment(Stamp(time), text);
    OneItem(text, Tile(c, map[]));
  }

  lemma OneItem(line: string, t: Tile)
    requires ReadLine(line) == Item(t)
    ensures ReadLines([line]) == Reading([t], false)
  {
  }
}
