/** The part of JSON that the tile cache writes: objects of strings and nulls,
    in ASCII, with every other character escaped. */
module JsonText {
  import opened Common

  const HEX := "0123456789abcdef"

  function HexDigit(d: int): char
    requires 0 <= d < 16
  {
    HEX[d]
  }

  function HexValue(c: char): Option<int> {
    if '0' <= c <= '9' then Some(c as int - '0' as int)
    else if 'a' <= c <= 'f' then Some(c as int - 'a' as int + 10)
    else if 'A' <= c <= 'F' then Some(c as int - 'A' as int + 10)
    else None
  }

  function Hex4(n: int): string
    requires 0 <= n < 0x10000
  {
    [HexDigit(n / 16 / 16 / 16), HexDigit(n / 16 / 16 % 16), HexDigit(n / 16 % 16), HexDigit(n % 16)]
  }

  /** `\u` and four hexadecimal digits. */
  function Unicode(n: int): string
    requires 0 <= n < 0x10000
  {
    ['\\', 'u'] + Hex4(n)
  }

  function High(c: char): int
    requires c as int >= 0x10000
  {
    0xD800 + (c as int - 0x10000) / 0x400
  }

  function Low(c: char): int
    requires c as int >= 0x10000
  {
    0xDC00 + (c as int - 0x10000) % 0x400
  }

  function EscapeChar(c: char): string {
    var n := c as int;
    if c == '"' then "\\\""
    else if c == '\\' then "\\\\"
    else if c == '\n' then "\\n"
    else if c == '\r' then "\\r"
    else if c == '\t' then "\\t"
    else if n == 8 then "\\b"
    else if n == 12 then "\\f"
    else if 32 <= n < 127 then [c]
    else if n < 0x10000 then Unicode(n)
    else Unicode(High(c)) + Unicode(Low(c))
  }

  function Escape(s: string): string {
    if s == "" then "" else EscapeChar(s[0]) + Escape(s[1..])
  }

  function Value(v: Option<string>): string {
    if v.None? then "null" else ['"'] + (Escape(v.value) + ['"'])
  }

  /** A member of an object, as `json.dumps` writes it. */
  function Member(key: string, v: Option<string>): string {
    ['"'] + (Escape(key) + (['"', ':', ' '] + Value(v)))
  }

  /** An object of two members, as `json.dumps` writes it. */
  function ObjectText(key1: string, v1: Option<string>, key2: string, v2: Option<string>): string {
    ['{'] + (Member(key1, v1) + ([',', ' '] + (Member(key2, v2) + ['}'])))
  }

  /** Printable ASCII text without quotes and backslashes is written as it is. */
  predicate IsPlain(s: string) { forall i | 0 <= i < |s| :: 32 <= s[i] as int < 127 && s[i] != '"' && s[i] != '\\' }

  lemma {:induction false} PlainEscape(s: string)
    requires IsPlain(s)
    ensures Escape(s) == s
  {
    if s == "" {
    } else {
      PlainEscape(s[1..]);
      assert EscapeChar(s[0]) == [s[0]] && s == [s[0]] + s[1..];
    }
  }

  /** How plain texts are written. */
  lemma ValueLayout(v: string)
    requires IsPlain(v)
    ensures Value(Some(v)) == ['"'] + (v + ['"']) && Value(None) == "null"
  {
    PlainEscape(v);
  }

  // ----- Reading -----

  /** A parsed value and the text behind it. */
  datatype Parsed<+T> = Parsed(value: T, rest: string)

  function FourHex(s: string): Option<int> {
    if |s| < 4 then None
    else
      var a, b, c, d := HexValue(s[0]), HexValue(s[1]), HexValue(s[2]), HexValue(s[3]);
      if a.None? || b.None? || c.None? || d.None? then None
      else Some(((a.value * 16 + b.value) * 16 + c.value) * 16 + d.value)
  }

  predicate HighSurrogate(n: int) { 0xD800 <= n < 0xDC00 }

  predicate LowSurrogate(n: int) { 0xDC00 <= n < 0xE000 }

  /** The character of an escape whose backslash was read. */
  function EscapedChar(s: string): (r: Option<Parsed<char>>)
    ensures r.Some? ==> |r.value.rest| < |s|
  {
    if s == "" then None
    else if s[0] == '"' || s[0] == '\\' || s[0] == '/' then Some(Parsed(s[0], s[1..]))
    else if s[0] == 'n' then Some(Parsed('\n', s[1..]))
    else if s[0] == 'r' then Some(Parsed('\r', s[1..]))
    else if s[0] == 't' then Some(Parsed('\t', s[1..]))
    else if s[0] == 'b' then Some(Parsed(8 as char, s[1..]))
    else if s[0] == 'f' then Some(Parsed(12 as char, s[1..]))
    else if s[0] == 'u' then UnicodeChar(s[1..])
    else None
  }

  function UnicodeChar(s: string): (r: Option<Parsed<char>>)
    ensures r.Some? ==> |r.value.rest| < |s|
  {
    var high := FourHex(s);
    if high.None? || high.value < 0 || high.value >= 0x10000 || LowSurrogate(high.value) then None
    else if !HighSurrogate(high.value) then Some(Parsed(high.value as char, s[4..]))
    else if |s| < 6 || s[4] != '\\' || s[5] != 'u' then None
    else
      var low := FourHex(s[6..]);
      if low.None? || !LowSurrogate(low.value) then None
      else Some(Parsed((0x10000 + (high.value - 0xD800) * 0x400 + (low.value - 0xDC00)) as char, s[10..]))
  }

  /** The rest of a string whose opening quote was read. */
  function StringBody(s: string): (r: Option<Parsed<string>>)
    ensures r.Some? ==> |r.value.rest| < |s|
    decreases |s|
  {
    if s == "" then None
    else if s[0] == '"' then Some(Parsed("", s[1..]))
    else
      var first := if s[0] == '\\' then EscapedChar(s[1..])
                   else if s[0] as int < 32 then None
                   else Some(Parsed(s[0], s[1..]));
      if first.None? then None
      else
        var tail := StringBody(first.value.rest);
        if tail.None? then None else Some(Parsed([first.value.value] + tail.value.value, tail.value.rest))
  }

  function SkipSpace(s: string): (r: string)
    ensures |r| <= |s|
  {
    if s != "" && (s[0] == ' ' || s[0] == '\t' || s[0] == '\n' || s[0] == '\r') then SkipSpace(s[1..]) else s
  }

  /** A string or null. */
  function ParseValue(s: string): (r: Option<Parsed<Option<string>>>)
    ensures r.Some? ==> |r.value.rest| < |s|
  {
    if "null" <= s then Some(Parsed(None, s[4..]))
    else if s != "" && s[0] == '"' then
      var body := StringBody(s[1..]);
      if body.None? then None else Some(Parsed(Some(body.value.value), body.value.rest))
    else None
  }

  /** One `key: value` of an object. */
  function ParseMember(s: string): (r: Option<Parsed<(string, Option<string>)>>)
    ensures r.Some? ==> |r.value.rest| < |s|
  {
    if s == "" || s[0] != '"' then None
    else
      var key := StringBody(s[1..]);
      if key.None? then None
      else
        var colon := SkipSpace(key.value.rest);
        if colon == "" || colon[0] != ':' then None
        else
          var v := ParseValue(SkipSpace(colon[1..]));
          if v.None? then None else Some(Parsed((key.value.value, v.value.value), v.value.rest))
  }

  /** The members of an object, up to its closing brace. A repeated key takes its last value. */
  function Members(s: string, found: map<string, Option<string>>): Option<Parsed<map<string, Option<string>>>>
    decreases |s|
  {
    var member := ParseMember(SkipSpace(s));
    if member.None? then None
    else
      var found' := found[member.value.value.0 := member.value.value.1];
      var next := SkipSpace(member.value.rest);
      if next == "" then None
      else if next[0] == '}' then Some(Parsed(found', next[1..]))
      else if next[0] == ',' then Members(next[1..], found')
      else None
  }

  function ParseObject(s: string): Option<map<string, Option<string>>> {
    var s1 := SkipSpace(s);
    if s1 == "" || s1[0] != '{' then None
    else
      var s2 := SkipSpace(s1[1..]);
      var r := if s2 != "" && s2[0] == '}' then Some(Parsed(map[], s2[1..])) else Members(s1[1..], map[]);
      if r.Some? && SkipSpace(r.value.rest) == "" then Some(r.value.value) else None
  }

  // ----- Round trip -----

  lemma HexRoundTrip(d: int)
    requires 0 <= d < 16
    ensures HexValue(HexDigit(d)) == Some(d)
  {
    assert HEX[0] == '0' && HEX[1] == '1' && HEX[2] == '2' && HEX[3] == '3' && HEX[4] == '4' && HEX[5] == '5'
        && HEX[6] == '6' && HEX[7] == '7' && HEX[8] == '8' && HEX[9] == '9' && HEX[10] == 'a' && HEX[11] == 'b'
        && HEX[12] == 'c' && HEX[13] == 'd' && HEX[14] == 'e' && HEX[15] == 'f';
  }

  lemma Assoc(a: string, b: string, c: string)
    ensures (a + b) + c == a + (b + c)
  {
  }

  lemma Cut(a: string, b: string)
    ensures (a + b)[|a|..] == b
    ensures forall i | 0 <= i < |a| :: (a + b)[i] == a[i]
  {
  }

  lemma FourHexRoundTrip(n: int, rest: string)
    requires 0 <= n < 0x10000
    ensures FourHex(Hex4(n) + rest) == Some(n) && (Hex4(n) + rest)[4..] == rest
  {
    HexRoundTrip(n / 16 / 16 / 16);
    HexRoundTrip(n / 16 / 16 % 16);
    HexRoundTrip(n / 16 % 16);
    HexRoundTrip(n % 16);
    Cut(Hex4(n), rest);
    assert |Hex4(n)| == 4;
  }

  lemma BmpRoundTrip(c: char, rest: string)
    requires c as int < 0x10000
    ensures UnicodeChar(Hex4(c as int) + rest) == Some(Parsed(c, rest))
  {
    FourHexRoundTrip(c as int, rest);
  }

  lemma SurrogatesRoundTrip(c: char, rest: string)
    requires c as int >= 0x10000
    ensures UnicodeChar(Hex4(High(c)) + (Unicode(Low(c)) + rest)) == Some(Parsed(c, rest))
  {
    FourHexRoundTrip(High(c), Unicode(Low(c)) + rest);
    FourHexRoundTrip(Low(c), rest);
    UnicodeParts(Hex4(High(c)), Low(c), rest);
    SurrogatesOf(c);
    SurrogatesRead(Hex4(High(c)) + (Unicode(Low(c)) + rest), High(c), Low(c), c, rest);
  }

  lemma SurrogatesOf(c: char)
    requires c as int >= 0x10000
    ensures HighSurrogate(High(c)) && LowSurrogate(Low(c))
    ensures 0x10000 + (High(c) - 0xD800) * 0x400 + (Low(c) - 0xDC00) == c as int
  {
  }

  lemma SurrogatesRead(s: string, high: int, low: int, c: char, rest: string)
    requires |s| >= 10 && FourHex(s) == Some(high) && s[4] == '\\' && s[5] == 'u' && FourHex(s[6..]) == Some(low)
    requires HighSurrogate(high) && LowSurrogate(low) && s[10..] == rest
    requires 0x10000 + (high - 0xD800) * 0x400 + (low - 0xDC00) == c as int
    ensures UnicodeChar(s) == Some(Parsed(c, rest))
  {
  }

  /** An escape behind four digits. */
  lemma UnicodeParts(digits: string, low: int, rest: string)
    requires |digits| == 4 && 0 <= low < 0x10000
    ensures var t := digits + (Unicode(low) + rest);
            |t| >= 10 && t[4] == '\\' && t[5] == 'u' && t[6..] == Hex4(low) + rest && t[10..] == rest
  {
    var u := Unicode(low) + rest;
    var t := digits + u;
    Cut(digits, u);
    Assoc(['\\', 'u'], Hex4(low), rest);
    Cut(['\\', 'u'], Hex4(low) + rest);
    Cut(Hex4(low), rest);
    DropTwice(t, 4, 2);
    DropTwice(t, 6, 4);
    assert t[4] == u[0] && t[5] == u[1];
  }

  lemma DropTwice(t: string, a: nat, b: nat)
    requires a + b <= |t|
    ensures t[a..][b..] == t[a + b..]
  {
  }

  /** Reading an escaped character: what `StringBody` does with its first characters. */
  ghost predicate ReadsAs(s: string, c: char, rest: string) {
    s != "" && s[0] != '"'
    && (if s[0] == '\\' then EscapedChar(s[1..]) == Some(Parsed(c, rest))
        else s[0] as int >= 32 && s[0] == c && s[1..] == rest)
  }

  predicate IsShort(c: char) {
    var n := c as int;
    c == '"' || c == '\\' || c == '\n' || c == '\r' || c == '\t' || n == 8 || n == 12 || 32 <= n < 127
  }

  lemma ShortRoundTrip(c: char, rest: string)
    requires IsShort(c)
    ensures ReadsAs(EscapeChar(c) + rest, c, rest)
  {
    var e, s := EscapeChar(c), EscapeChar(c) + rest;
    if |e| == 2 {
      assert s[1..] == [e[1]] + rest;
      assert ([e[1]] + rest)[1..] == rest;
    } else {
      assert s[1..] == rest;
    }
  }

  lemma UnicodeReadsAs(n: int, tail: string, c: char, rest: string)
    requires 0 <= n < 0x10000 && UnicodeChar(Hex4(n) + tail) == Some(Parsed(c, rest))
    ensures ReadsAs(Unicode(n) + tail, c, rest)
  {
    Assoc(['\\', 'u'], Hex4(n), tail);
    Cut(['\\'], ['u'] + (Hex4(n) + tail));
    Cut(['u'], Hex4(n) + tail);
    Assoc(['\\'], ['u'], Hex4(n) + tail);
    assert ['\\', 'u'] == ['\\'] + ['u'];
  }

  lemma CharRoundTrip(c: char, rest: string)
    ensures ReadsAs(EscapeChar(c) + rest, c, rest)
  {
    if c as int >= 0x10000 {
      SurrogatesRoundTrip(c, rest);
      UnicodeReadsAs(High(c), Unicode(Low(c)) + rest, c, rest);
      Assoc(Unicode(High(c)), Unicode(Low(c)), rest);
    } else if IsShort(c) {
      ShortRoundTrip(c, rest);
    } else {
      BmpRoundTrip(c, rest);
      UnicodeReadsAs(c as int, rest, c, rest);
    }
  }

  /** Reading one character, and then the rest of a string. */
  lemma StringStep(s: string, c: char, tail: string, t: string, rest: string)
    requires ReadsAs(s, c, tail) && StringBody(tail) == Some(Parsed(t, rest))
    ensures StringBody(s) == Some(Parsed([c] + t, rest))
  {
  }

  lemma StringEnd(rest: string)
    ensures StringBody(['"'] + rest) == Some(Parsed("", rest))
  {
    Cut(['"'], rest);
  }

  lemma {:induction false} StringRoundTrip(t: string, rest: string)
    ensures StringBody(Escape(t) + (['"'] + rest)) == Some(Parsed(t, rest))
  {
    if t == "" {
      StringEnd(rest);
      assert Escape(t) + (['"'] + rest) == ['"'] + rest;
    } else {
      var c, more := t[0], t[1..];
      var tail := Escape(more) + (['"'] + rest);
      Assoc(EscapeChar(c), Escape(more), ['"'] + rest);
      CharRoundTrip(c, tail);
      StringRoundTrip(more, rest);
      StringStep(EscapeChar(c) + tail, c, tail, more, rest);
      assert t == [c] + more;
    }
  }

  lemma QuotedRead(body: string, t: string, rest: string)
    requires StringBody(body) == Some(Parsed(t, rest))
    ensures ParseValue(['"'] + body) == Some(Parsed(Some(t), rest)) && SkipSpace(['"'] + body) == ['"'] + body
  {
    Cut(['"'], body);
  }

  lemma NullRead(rest: string)
    ensures ParseValue("null" + rest) == Some(Parsed(None, rest)) && SkipSpace("null" + rest) == "null" + rest
  {
    Cut("null", rest);
  }

  lemma ValueRoundTrip(v: Option<string>, rest: string)
    ensures ParseValue(Value(v) + rest) == Some(Parsed(v, rest))
    ensures SkipSpace(Value(v) + rest) == Value(v) + rest
  {
    if v.Some? {
      Assoc(['"'], Escape(v.value) + ['"'], rest);
      Assoc(Escape(v.value), ['"'], rest);
      StringRoundTrip(v.value, rest);
      QuotedRead(Escape(v.value) + (['"'] + rest), v.value, rest);
    } else {
      NullRead(rest);
    }
  }

  /** Reading what comes behind the key of a member. */
  lemma ColonRoundTrip(v: Option<string>, rest: string)
    ensures var after := [':', ' '] + (Value(v) + rest);
            SkipSpace(after) == after && after[0] == ':'
            && ParseValue(SkipSpace(after[1..])) == Some(Parsed(v, rest))
  {
    ValueRoundTrip(v, rest);
    ColonSkip(Value(v) + rest);
  }

  lemma ColonSkip(written: string)
    requires SkipSpace(written) == written
    ensures var after := [':', ' '] + written;
            SkipSpace(after) == after && after[0] == ':' && SkipSpace(after[1..]) == written
  {
    assert [':', ' '] + written == [':'] + ([' '] + written);
    Cut([':'], [' '] + written);
    Cut([' '], written);
  }

  lemma MemberParts(s: string, key: string, after: string, v: Option<string>, rest: string)
    requires s != "" && s[0] == '"' && StringBody(s[1..]) == Some(Parsed(key, after))
    requires after != "" && SkipSpace(after) == after && after[0] == ':'
    requires ParseValue(SkipSpace(after[1..])) == Some(Parsed(v, rest))
    ensures ParseMember(s) == Some(Parsed((key, v), rest)) && SkipSpace(s) == s
  {
  }

  lemma MemberRoundTrip(key: string, v: Option<string>, rest: string)
    ensures ParseMember(Member(key, v) + rest) == Some(Parsed((key, v), rest))
    ensures SkipSpace(Member(key, v) + rest) == Member(key, v) + rest
  {
    var after := [':', ' '] + (Value(v) + rest);
    var body := Escape(key) + (['"'] + after);
    MemberText(key, v, rest);
    Cut(['"'], body);
    StringRoundTrip(key, after);
    ColonRoundTrip(v, rest);
    MemberParts(['"'] + body, key, after, v, rest);
  }

  lemma MemberText(key: string, v: Option<string>, rest: string)
    ensures Member(key, v) + rest == ['"'] + (Escape(key) + (['"'] + ([':', ' '] + (Value(v) + rest))))
  {
    var a, b := ['"', ':', ' '], Value(v);
    Assoc(['"'], Escape(key) + (a + b), rest);
    Assoc(Escape(key), a + b, rest);
    Assoc(a, b, rest);
    Assoc(['"'], [':', ' '], b + rest);
    assert a == ['"'] + [':', ' '];
  }

  lemma MembersStep(key: string, v: Option<string>, rest: string, found: map<string, Option<string>>)
    requires rest != "" && (rest[0] == '}' || rest[0] == ',')
    ensures Members(Member(key, v) + rest, found)
         == if rest[0] == '}' then Some(Parsed(found[key := v], rest[1..])) else Members(rest[1..], found[key := v])
  {
    MemberRoundTrip(key, v, rest);
    assert SkipSpace(rest) == rest;
  }

  /** A space before the members is skipped. */
  lemma MembersSpace(s: string, found: map<string, Option<string>>)
    requires SkipSpace(s) == s
    ensures Members([' '] + s, found) == Members(s, found)
  {
    Cut([' '], s);
  }

  lemma MembersRoundTrip(key1: string, v1: Option<string>, key2: string, v2: Option<string>)
    ensures Members(Member(key1, v1) + ([',', ' '] + (Member(key2, v2) + ['}'])), map[])
         == Some(Parsed(map[key1 := v1][key2 := v2], ""))
  {
    var tail := [',', ' '] + (Member(key2, v2) + ['}']);
    MembersStep(key1, v1, tail, map[]);
    LastMember(key2, v2, map[][key1 := v1]);
  }

  lemma LastMember(key: string, v: Option<string>, found: map<string, Option<string>>)
    ensures Members(([',', ' '] + (Member(key, v) + ['}']))[1..], found) == Some(Parsed(found[key := v], ""))
  {
    var last := Member(key, v) + ['}'];
    AfterComma(last);
    MemberRoundTrip(key, v, ['}']);
    MembersSpace(last, found);
    BraceEnds(key, v, found);
  }

  lemma AfterComma(last: string)
    ensures ([',', ' '] + last)[1..] == [' '] + last
  {
  }

  lemma BraceEnds(key: string, v: Option<string>, found: map<string, Option<string>>)
    ensures Members(Member(key, v) + ['}'], found) == Some(Parsed(found[key := v], ""))
  {
    MembersStep(key, v, ['}'], found);
    assert ['}'][1..] == "";
  }

  /** A written object of two members is read back. */
  lemma ObjectRoundTrip(key1: string, v1: Option<string>, key2: string, v2: Option<string>)
    ensures ParseObject(ObjectText(key1, v1, key2, v2)) == Some(map[key1 := v1][key2 := v2])
  {
    var tail := [',', ' '] + (Member(key2, v2) + ['}']);
    Cut(['{'], Member(key1, v1) + tail);
    MembersRoundTrip(key1, v1, key2, v2);
    StartsWithQuote(key1, v1, tail);
  }

  lemma StartsWithQuote(key: string, v: Option<string>, rest: string)
    ensures Member(key, v) + rest != "" && (Member(key, v) + rest)[0] == '"'
  {
    MemberText(key, v, rest);
  }
}
