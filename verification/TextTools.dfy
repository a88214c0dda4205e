/** The Python text operations that the error file is written and read with. */
module TextTools {
  import opened Common

  // ----- split -----

  /** `s.split(sep)` */
  function Split(s: string, sep: char): (parts: seq<string>)
    ensures |parts| >= 1
  {
    if s == "" then [""]
    else
      var tail := Split(s[1..], sep);
      if s[0] == sep then [""] + tail else [[s[0]] + tail[0]] + tail[1..]
  }

  lemma {:induction false} SplitNone(a: string, sep: char)
    requires sep !in a
    ensures Split(a, sep) == [a]
  {
    if a == "" {
    } else {
      assert a == [a[0]] + a[1..];
      SplitNone(a[1..], sep);
    }
  }

  lemma {:induction false} SplitAt(a: string, sep: char, b: string)
    requires sep !in a
    ensures Split(a + [sep] + b, sep) == [a] + Split(b, sep)
  {
    var s := a + [sep] + b;
    if a == "" {
      assert s[1..] == b;
    } else {
      assert a == [a[0]] + a[1..];
      assert s[1..] == a[1..] + [sep] + b;
      SplitAt(a[1..], sep, b);
    }
  }

  /** The parts hold characters of the text, and not the separator. */
  lemma {:induction false} SplitChars(s: string, sep: char, part: string)
    requires part in Split(s, sep)
    ensures forall c | c in part :: c in s && c != sep
  {
    if s == "" {
    } else {
      var tail := Split(s[1..], sep);
      if s[0] == sep {
        if part != "" {
          SplitChars(s[1..], sep, part);
        }
      } else if part == [s[0]] + tail[0] {
        SplitChars(s[1..], sep, tail[0]);
      } else {
        SplitChars(s[1..], sep, part);
      }
    }
  }

  /** A text splits in two exactly when it has one separator. */
  lemma {:induction false} SplitInTwo(s: string, sep: char)
    ensures |Split(s, sep)| == 1 <==> sep !in s
    ensures |Split(s, sep)| == 2 <==> exists k :: 0 <= k < |s| && s[k] == sep && sep !in s[..k] && sep !in s[k + 1..]
  {
    if sep !in s {
      SplitNone(s, sep);
    } else {
      var k := FirstAt(s, sep);
      assert s == s[..k] + [sep] + s[k + 1..];
      SplitAt(s[..k], sep, s[k + 1..]);
      if sep !in s[k + 1..] {
        SplitNone(s[k + 1..], sep);
      } else {
        SplitInTwo(s[k + 1..], sep);
        forall l | 0 <= l < |s| && s[l] == sep && sep !in s[..l] ensures l == k {
          OneFirst(s, sep, k, l);
          OneFirst(s, sep, l, k);
        }
      }
    }
  }

  lemma OneFirst(s: string, c: char, k: nat, l: nat)
    requires k < |s| && l < |s| && s[k] == c && c !in s[..l]
    ensures l <= k
  {
    InFront(s, k, l);
  }

  lemma InFront(s: string, k: nat, l: nat)
    requires k < |s| && l < |s|
    ensures k < l ==> s[k] in s[..l]
  {
    if k < l {
      assert s[..l][k] == s[k];
    }
  }

  lemma {:induction false} FirstAt(s: string, c: char) returns (k: nat)
    requires c in s
    ensures k < |s| && s[k] == c && c !in s[..k]
  {
    if s[0] == c {
      k := 0;
    } else {
      assert s == [s[0]] + s[1..];
      k := FirstAt(s[1..], c);
      k := k + 1;
      assert s[..k] == [s[0]] + s[1..][..k - 1];
    }
  }

  // ----- strip -----

  /** The characters that `str.strip` removes. */
  predicate IsSpace(c: char) {
    var n := c as int;
    9 <= n <= 13 || 28 <= n <= 32 || n == 0x85 || n == 0xA0 || n == 0x1680 || 0x2000 <= n <= 0x200A
    || n == 0x2028 || n == 0x2029 || n == 0x202F || n == 0x205F || n == 0x3000
  }

  function StripLeft(s: string): string {
    if s != "" && IsSpace(s[0]) then StripLeft(s[1..]) else s
  }

  function StripRight(s: string): string {
    if s != "" && IsSpace(s[|s| - 1]) then StripRight(s[..|s| - 1]) else s
  }

  function Strip(s: string): string { StripRight(StripLeft(s)) }

  lemma {:induction false} StripLeftChars(s: string)
    ensures forall c | c in StripLeft(s) :: c in s
  {
    if s != "" && IsSpace(s[0]) {
      StripLeftChars(s[1..]);
    }
  }

  lemma {:induction false} StripRightChars(s: string)
    ensures forall c | c in StripRight(s) :: c in s
    ensures StripRight(s) <= s
    ensures StripRight(s) != "" ==> !IsSpace(StripRight(s)[|StripRight(s)| - 1])
  {
    if s != "" && IsSpace(s[|s| - 1]) {
      StripRightChars(s[..|s| - 1]);
    }
  }

  lemma StripChars(s: string)
    ensures forall c | c in Strip(s) :: c in s
  {
    StripLeftChars(s);
    StripRightChars(StripLeft(s));
  }

  /** Spaces behind a character that is not one are removed. */
  lemma {:induction false} StripRightSpaces(s: string, spaces: string)
    requires s != "" && !IsSpace(s[|s| - 1]) && forall c | c in spaces :: IsSpace(c)
    ensures StripRight(s + spaces) == s
    decreases |spaces|
  {
    if spaces != "" {
      var k := |spaces| - 1;
      assert (s + spaces)[..|s| + k] == s + spaces[..k];
      StripRightSpaces(s, spaces[..k]);
    } else {
      assert s + spaces == s;
    }
  }

  // ----- lines -----

  predicate IsBreak(c: char) { c == '\n' || c == '\r' }

  predicate OneLine(s: string) { '\n' !in s && '\r' !in s }

  /** The lines of a text file, without their ends: a line feed, a carriage return
      or both end one. */
  function Lines(s: string): (lines: seq<string>) {
    if s == "" then []
    else if s[0] == '\r' && |s| > 1 && s[1] == '\n' then [""] + Lines(s[2..])
    else if IsBreak(s[0]) then [""] + Lines(s[1..])
    else
      var tail := Lines(s[1..]);
      if tail == [] then [[s[0]]] else [[s[0]] + tail[0]] + tail[1..]
  }

  lemma {:induction false} LinesNotEmpty(s: string)
    ensures s != "" ==> Lines(s) != []
  {
  }

  lemma LinesCons(c: char, s: string, first: string, more: seq<string>)
    requires !IsBreak(c) && Lines(s) == [first] + more
    ensures Lines([c] + s) == [[c] + first] + more
  {
    assert ([c] + s)[1..] == s;
  }

  /** A text without a break in front of others extends their first line. */
  lemma {:induction false} LinesFront(a: string, b: string, first: string, more: seq<string>)
    requires OneLine(a) && Lines(b) == [first] + more
    ensures Lines(a + b) == [a + first] + more
  {
    if a == "" {
      assert a + b == b && a + first == first;
    } else {
      var c, t := a[0], a[1..];
      assert a == [c] + t;
      LinesFront(t, b, first, more);
      LinesCons(c, t + b, t + first, more);
      assert [c] + (t + b) == a + b && [c] + (t + first) == a + first;
    }
  }

  lemma LinesStep(line: string, rest: string)
    requires OneLine(line)
    ensures Lines(line + ['\n'] + rest) == [line] + Lines(rest)
  {
    var b := ['\n'] + rest;
    assert b[1..] == rest && line + ['\n'] + rest == line + b;
    assert Lines(b) == [""] + Lines(rest);
    LinesFront(line, b, "", Lines(rest));
    assert line + "" == line;
  }

  lemma {:induction false} LinesChars(s: string, line: string)
    requires line in Lines(s)
    ensures OneLine(line) && forall c | c in line :: c in s
    decreases |s|
  {
    if s == "" {
    } else {
      if s[0] == '\r' && |s| > 1 && s[1] == '\n' {
        if line != "" { LinesChars(s[2..], line); }
      } else if IsBreak(s[0]) {
        if line != "" { LinesChars(s[1..], line); }
      } else {
        var tail := Lines(s[1..]);
        if tail != [] {
          if line == [s[0]] + tail[0] { LinesChars(s[1..], tail[0]); } else { LinesChars(s[1..], line); }
        }
      }
    }
  }

  // ----- integers -----

  function Digit(d: int): char
    requires 0 <= d < 10
  {
    (d + '0' as int) as char
  }

  predicate AllDigits(s: string) { forall i | 0 <= i < |s| :: '0' <= s[i] <= '9' }

  function Digits(n: nat): string {
    if n < 10 then [Digit(n)] else Digits(n / 10) + [Digit(n % 10)]
  }

  lemma {:induction false} DigitsChars(n: nat)
    ensures Digits(n) != "" && AllDigits(Digits(n))
  {
    if n < 10 {
    } else {
      DigitsChars(n / 10);
    }
  }

  /** Numbers are written with the most significant digit first. */
  lemma DigitsExample()
    ensures Digits(1096) == "1096"
  {
    assert Digits(10) == Digits(1) + ['0'];
    assert Digits(109) == Digits(10) + ['9'];
    assert Digits(1096) == Digits(109) + ['6'];
  }

  function IntText(n: int): string { if n < 0 then ['-'] + Digits(0 - n) else Digits(n) }

  predicate IsDigit(c: char) { '0' <= c <= '9' }

  /** The value of the digits of a text between two positions; there must be one. */
  function Number(s: string, start: nat, end: nat): Option<nat>
    requires start <= end <= |s|
    decreases end
  {
    if start == end then None
    else if !IsDigit(s[end - 1]) then None
    else
      var digit := s[end - 1] as int - '0' as int;
      if start == end - 1 then Some(digit)
      else
        var front := Number(s, start, end - 1);
        if front.None? then None else Some(front.value * 10 + digit)
  }

  /** A number is read exactly from a text of digits. */
  lemma {:induction false} NumberExact(s: string, start: nat, end: nat)
    requires start <= end <= |s|
    ensures Number(s, start, end).Some? <==> start < end && forall i | start <= i < end :: IsDigit(s[i])
    decreases end
  {
    if start < end - 1 {
      NumberExact(s, start, end - 1);
    }
  }

  /** `int` succeeds exactly for digits, behind one sign or none, between spaces. */
  lemma ParseIntExact(text: string)
    ensures var s := Strip(text);
            var start := if s != "" && (s[0] == '-' || s[0] == '+') then 1 else 0;
            ParseInt(text).Some? <==> start < |s| && forall i | start <= i < |s| :: IsDigit(s[i])
  {
    var s := Strip(text);
    NumberExact(s, if s != "" && (s[0] == '-' || s[0] == '+') then 1 else 0, |s|);
  }

  function Negated(n: Option<nat>): Option<int> { if n.None? then None else Some(0 - n.value) }

  /** `int(s)` of a text without spaces around it: digits behind an optional sign. */
  function Signed(s: string): Option<int> {
    if s != "" && s[0] == '-' then Negated(Number(s, 1, |s|))
    else if s != "" && s[0] == '+' then Number(s, 1, |s|)
    else Number(s, 0, |s|)
  }

  /** `int(s)` */
  function ParseInt(text: string): Option<int> { Signed(Strip(text)) }

  lemma StripNothing(s: string)
    requires s != "" && !IsSpace(s[0]) && !IsSpace(s[|s| - 1])
    ensures Strip(s) == s
  {
  }

  /** The digits of a text behind another one. */
  lemma {:induction false} NumberShift(a: string, d: string, k: nat)
    requires k <= |d|
    ensures Number(a + d, |a|, |a| + k) == Number(d, 0, k)
  {
    if k == 0 {
    } else {
      NumberShift(a, d, k - 1);
    }
  }

  lemma {:induction false} NumberPrefix(d: string, e: string, k: nat)
    requires k <= |d|
    ensures Number(d + e, 0, k) == Number(d, 0, k)
  {
    if k == 0 {
    } else {
      NumberPrefix(d, e, k - 1);
    }
  }

  lemma {:induction false} DigitsRoundTrip(n: nat)
    ensures Number(Digits(n), 0, |Digits(n)|) == Some(n)
  {
    if n < 10 {
    } else {
      var front, last := Digits(n / 10), [Digit(n % 10)];
      DigitsChars(n / 10);
      DigitsRoundTrip(n / 10);
      NumberPrefix(front, last, |front|);
    }
  }

  /** A text of digits is read as the number. */
  lemma NaturalRoundTrip(n: nat)
    ensures ParseInt(Digits(n)) == Some(n)
  {
    DigitsRoundTrip(n);
    DigitsChars(n);
    StripNothing(Digits(n));
  }

  /** A sign in front of digits. */
  lemma SignedDigits(sign: char, d: string)
    requires (sign == '+' || sign == '-') && d != "" && AllDigits(d)
    ensures ParseInt([sign] + d) == if sign == '-' then Negated(Number(d, 0, |d|)) else Number(d, 0, |d|)
  {
    StripNothing([sign] + d);
    NumberShift([sign], d, |d|);
  }

  lemma PlusRoundTrip(n: nat)
    ensures ParseInt(['+'] + Digits(n)) == Some(n)
  {
    DigitsRoundTrip(n);
    DigitsChars(n);
    SignedDigits('+', Digits(n));
  }

  lemma MinusRoundTrip(n: nat)
    ensures ParseInt(['-'] + Digits(n)) == Some(0 - n)
  {
    DigitsRoundTrip(n);
    DigitsChars(n);
    SignedDigits('-', Digits(n));
  }

  lemma IntRoundTrip(n: int)
    ensures ParseInt(IntText(n)) == Some(n)
  {
    if n < 0 {
      MinusRoundTrip(0 - n);
    } else {
      NaturalRoundTrip(n);
    }
  }
}
