/** The messages that the tile generation puts in the error file: `repr` of the error
    of a tile, or a constant. Strings in them are always one line, so a file written by
    the generation is read back whatever the messages were. */
module ErrorMessages {
  import opened Common
  import opened JsonText
  import opened TextTools
  import opened ErrorFile
  import opened ErrorFileTheorems

  /** Which characters beyond ASCII Python prints as they are. */
  type Printable = char -> bool

  /** A character of `repr` of a string, between quotes. */
  function ReprChar(c: char, quote: char, printable: Printable): string {
    var n := c as int;
    if c == quote || c == '\\' then ['\\', c]
    else if c == '\t' then ['\\', 't']
    else if c == '\n' then ['\\', 'n']
    else if c == '\r' then ['\\', 'r']
    else if 32 <= n < 127 then [c]
    else if n > 127 && printable(c) then [c]
    else if n < 0x100 then ['\\', 'x', HexDigit(n / 16), HexDigit(n % 16)]
    else if n < 0x10000 then ['\\', 'u'] + Hex4(n)
    else ['\\', 'U'] + (Hex4(n / 0x10000) + Hex4(n % 0x10000))
  }

  function ReprBody(s: string, quote: char, printable: Printable): string {
    if s == "" then "" else ReprChar(s[0], quote, printable) + ReprBody(s[1..], quote, printable)
  }

  /** `repr` of a string: in double quotes if it has single quotes and no double ones. */
  function Repr(s: string, printable: Printable): string {
    var quote := if '\'' in s && '"' !in s then '"' else '\'';
    [quote] + (ReprBody(s, quote, printable) + [quote])
  }

  /** An argument of an exception: a string, or a value with a `repr` of its own. */
  datatype Argument = Text(text: string) | Other(shown: string)

  /** The error of a tile: a message, an exception with its arguments, or an object of
      a class with a `repr` of its own. */
  datatype TileError = Message(text: string) | Raised(name: string, arguments: seq<Argument>) | Own(shown: string)

  function ArgumentRepr(a: Argument, printable: Printable): string {
    match a
    case Text(text) => Repr(text, printable)
    case Other(shown) => shown
  }

  function ArgumentsRepr(arguments: seq<Argument>, printable: Printable): string {
    if arguments == [] then ""
    else if |arguments| == 1 then ArgumentRepr(arguments[0], printable)
    else ArgumentRepr(arguments[0], printable) + ([',', ' '] + ArgumentsRepr(arguments[1..], printable))
  }

  function ErrorRepr(e: TileError, printable: Printable): string {
    match e
    case Message(text) => Repr(text, printable)
    case Raised(name, arguments) => name + (['('] + (ArgumentsRepr(arguments, printable) + [')']))
    case Own(shown) => shown
  }

  // ----- One line -----

  lemma OneLineConcat(a: string, b: string)
    requires OneLine(a) && OneLine(b)
    ensures OneLine(a + b)
  {
  }

  lemma DigitOneLine(d: int)
    requires 0 <= d < 16
    ensures HexDigit(d) != '\n' && HexDigit(d) != '\r'
  {
  }

  lemma Hex4OneLine(n: int)
    requires 0 <= n < 0x10000
    ensures OneLine(Hex4(n))
  {
    DigitOneLine(n / 16 / 16 / 16);
    DigitOneLine(n / 16 / 16 % 16);
    DigitOneLine(n / 16 % 16);
    DigitOneLine(n % 16);
  }

  lemma ReprCharOneLine(c: char, quote: char, printable: Printable)
    requires quote == '\'' || quote == '"'
    ensures OneLine(ReprChar(c, quote, printable))
  {
    var n := c as int;
    if n >= 0x10000 {
      Hex4OneLine(n / 0x10000);
      Hex4OneLine(n % 0x10000);
      OneLineConcat(Hex4(n / 0x10000), Hex4(n % 0x10000));
      OneLineConcat(['\\', 'U'], Hex4(n / 0x10000) + Hex4(n % 0x10000));
    } else if n >= 0x100 {
      Hex4OneLine(n);
      OneLineConcat(['\\', 'u'], Hex4(n));
    } else {
      DigitOneLine(n / 16);
      DigitOneLine(n % 16);
    }
  }

  lemma {:induction false} ReprBodyOneLine(s: string, quote: char, printable: Printable)
    requires quote == '\'' || quote == '"'
    ensures OneLine(ReprBody(s, quote, printable))
  {
    if s == "" {
    } else {
      ReprCharOneLine(s[0], quote, printable);
      ReprBodyOneLine(s[1..], quote, printable);
      OneLineConcat(ReprChar(s[0], quote, printable), ReprBody(s[1..], quote, printable));
    }
  }

  /** `repr` of any string is one line, whatever line breaks the string has. */
  lemma ReprOneLine(s: string, printable: Printable)
    ensures OneLine(Repr(s, printable))
  {
    var quote := if '\'' in s && '"' !in s then '"' else '\'';
    ReprBodyOneLine(s, quote, printable);
    OneLineConcat(ReprBody(s, quote, printable), [quote]);
    OneLineConcat([quote], ReprBody(s, quote, printable) + [quote]);
  }

  /** A text without carriage returns; a line feed is replaced when it is logged. */
  predicate ReturnFree(s: string) { '\r' !in s }

  lemma ReturnFreeConcat(a: string, b: string)
    ensures ReturnFree(a + b) <==> ReturnFree(a) && ReturnFree(b)
  {
  }

  predicate ArgumentFree(a: Argument) { a.Other? ==> ReturnFree(a.shown) }

  lemma ArgumentExact(a: Argument, printable: Printable)
    ensures ReturnFree(ArgumentRepr(a, printable)) <==> ArgumentFree(a)
  {
    if a.Text? {
      ReprOneLine(a.text, printable);
    }
  }

  lemma {:induction false} ArgumentsExact(arguments: seq<Argument>, printable: Printable)
    ensures ReturnFree(ArgumentsRepr(arguments, printable)) <==> forall a | a in arguments :: ArgumentFree(a)
  {
    if arguments == [] {
    } else if |arguments| == 1 {
      ArgumentExact(arguments[0], printable);
    } else {
      var first, rest := arguments[0], arguments[1..];
      assert arguments == [first] + rest;
      ArgumentExact(first, printable);
      ArgumentsExact(rest, printable);
      ReturnFreeConcat([',', ' '], ArgumentsRepr(rest, printable));
      ReturnFreeConcat(ArgumentRepr(first, printable), [',', ' '] + ArgumentsRepr(rest, printable));
    }
  }

  /** What the error file is not protected from: the name of a class, and the `repr` of
      an object that has its own. */
  predicate ErrorFree(e: TileError) {
    match e
    case Message(_) => true
    case Raised(name, arguments) => ReturnFree(name) && forall a | a in arguments :: ArgumentFree(a)
    case Own(shown) => ReturnFree(shown)
  }

  /** `repr` of an error has no carriage return exactly when no class name and no `repr`
      of an object's own has one; strings do not matter. */
  lemma ErrorExact(e: TileError, printable: Printable)
    ensures ReturnFree(ErrorRepr(e, printable)) <==> ErrorFree(e)
  {
    match e {
      case Message(text) => ReprOneLine(text, printable);
      case Raised(name, arguments) =>
        var inner := ArgumentsRepr(arguments, printable);
        ArgumentsExact(arguments, printable);
        ReturnFreeConcat(inner, [')']);
        ReturnFreeConcat(['('], inner + [')']);
        ReturnFreeConcat(name, ['('] + (inner + [')']));
      case Own(_) =>
    }
  }

  // ----- What the generation logs -----

  datatype Call =
    | LayerStarted(time: string, layer: string)
    | TileFailed(tile: Tile, time: string, error: TileError)
    | TileEmpty(tile: Tile, time: string)

  function EntryOf(call: Call, printable: Printable): Entry {
    match call
    case LayerStarted(time, layer) => Started(time, layer)
    case TileFailed(tile, time, error) => Logged(tile, time, Some(ErrorRepr(error, printable)))
    case TileEmpty(tile, time) => Logged(tile, time, Some("The tile is empty"))
  }

  /** What the generation passes to the log: times and layer names of one line, and
      errors whose own texts have no carriage return. */
  predicate CallOk(call: Call) {
    match call
    case LayerStarted(time, layer) => OneLine(time) && OneLine(layer)
    case TileFailed(tile, time, error) => OneLine(time) && tile.coord.n >= 0 && ErrorFree(error)
    case TileEmpty(tile, time) => OneLine(time) && tile.coord.n >= 0
  }

  lemma MessageHasNoReturn(call: Call, printable: Printable)
    requires CallOk(call)
    ensures CommentOk(EntryOf(call, printable))
  {
    if call.TileFailed? {
      ErrorExact(call.error, printable);
    }
  }

  /** A tile that the generation logs is read back, and nothing else is, exactly when
      its metadata are clean, whatever the strings in its error are. */
  lemma LoggedExact(call: Call, printable: Printable)
    requires CallOk(call) && !call.LayerStarted?
    ensures ReadText(EntryText(EntryOf(call, printable))) == Reading([call.tile], false) <==> Clean(call.tile.metadata)
  {
    MessageHasNoReturn(call, printable);
    var e := EntryOf(call, printable);
    ReadBackExact(call.tile, e.time, e.message);
  }

  function Entries(calls: seq<Call>, printable: Printable): seq<Entry> {
    seq(|calls|, i requires 0 <= i < |calls| => EntryOf(calls[i], printable))
  }

  /** The tiles read from a file that the generation wrote are those it logged, in
      order, whatever the strings in their errors are. */
  lemma LoggedFileRoundTrip(calls: seq<Call>, printable: Printable)
    requires forall i | 0 <= i < |calls| :: CallOk(calls[i])
    requires forall i | 0 <= i < |calls| :: calls[i].LayerStarted? || Clean(calls[i].tile.metadata)
    ensures ReadText(FileText(Entries(calls, printable))) == Reading(TilesOf(Entries(calls, printable)), false)
  {
    var entries := Entries(calls, printable);
    forall e | e in entries ensures EntryOk(e) {
      var i :| 0 <= i < |entries| && entries[i] == e;
      MessageHasNoReturn(calls[i], printable);
    }
    FileRoundTrip(entries);
  }
}
