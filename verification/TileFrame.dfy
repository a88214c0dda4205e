/** The binary frame in which the dynamic cache keeps a tile: the length of the
    image on 8 bytes, the image, and a JSON object with its encoding and type. */
module TileFrame {
  import opened Common
  import opened JsonText

  type Byte = b: int | 0 <= b < 256

  const TWO_63 := 0x8000_0000_0000_0000

  function Pow256(k: nat): (p: int)
    ensures p >= 1
  {
    if k == 0 then 1 else 256 * Pow256(k - 1)
  }

  /** The k low bytes of n, least significant first. */
  function LittleEndian(n: nat, k: nat): (bytes: seq<Byte>)
    ensures |bytes| == k
  {
    if k == 0 then [] else [n % 256] + LittleEndian(n / 256, k - 1)
  }

  function FromLittleEndian(bytes: seq<Byte>): nat {
    if bytes == [] then 0 else bytes[0] + 256 * FromLittleEndian(bytes[1..])
  }

  lemma {:induction false} LittleEndianRoundTrip(n: nat, k: nat)
    requires n < Pow256(k)
    ensures FromLittleEndian(LittleEndian(n, k)) == n
  {
    if k == 0 {
    } else {
      LittleEndianRoundTrip(n / 256, k - 1);
      assert LittleEndian(n, k)[1..] == LittleEndian(n / 256, k - 1);
    }
  }

  /** A signed 8-byte integer, in two's complement. */
  function PackInt64(n: int): (bytes: seq<Byte>)
    requires -TWO_63 <= n < TWO_63
    ensures |bytes| == 8
  {
    LittleEndian(if n < 0 then n + 2 * TWO_63 else n, 8)
  }

  function UnpackInt64(bytes: seq<Byte>): int {
    var n := FromLittleEndian(bytes);
    if n < TWO_63 then n else n - 2 * TWO_63
  }

  lemma Int64RoundTrip(n: int)
    requires -TWO_63 <= n < TWO_63
    ensures UnpackInt64(PackInt64(n)) == n
  {
    assert Pow256(8) == 256 * (256 * (256 * (256 * (256 * (256 * (256 * (256 * Pow256(0)))))))) == 2 * TWO_63;
    LittleEndianRoundTrip(if n < 0 then n + 2 * TWO_63 else n, 8);
  }

  /** The least significant byte comes first. */
  lemma Int64OfByte(n: int)
    requires 0 <= n < 256
    ensures PackInt64(n) == [n, 0, 0, 0, 0, 0, 0, 0]
  {
    ZeroBytes(7);
  }

  lemma {:induction false} ZeroBytes(k: nat)
    ensures LittleEndian(0, k) == seq(k, _ => 0)
  {
    if k > 0 {
      ZeroBytes(k - 1);
      assert seq(k, _ => 0) == [0] + seq(k - 1, _ => 0);
    }
  }

  /** A Python slice: negative bounds count from the end, and both are clipped. */
  function Slice<T>(s: seq<T>, start: int, end: int): seq<T> {
    var lo, hi := SliceBound(|s|, start), SliceBound(|s|, end);
    if lo <= hi then s[lo..hi] else []
  }

  function SliceBound(length: nat, i: int): (r: nat)
    ensures r <= length
  {
    var j := if i < 0 then i + length else i;
    if j < 0 then 0 else if j > length then length else j
  }

  predicate IsAscii(s: string) { forall i | 0 <= i < |s| :: s[i] as int < 128 }

  /** The UTF-8 encoding of an ASCII text. */
  function AsciiBytes(s: string): seq<Byte>
    requires IsAscii(s)
  {
    seq(|s|, i requires 0 <= i < |s| => s[i] as int)
  }

  function AsciiText(bytes: seq<Byte>): Option<string> {
    if forall i | 0 <= i < |bytes| :: bytes[i] < 128
    then Some(seq(|bytes|, i requires 0 <= i < |bytes| => bytes[i] as char))
    else None
  }

  lemma AsciiRoundTrip(s: string)
    requires IsAscii(s)
    ensures AsciiText(AsciiBytes(s)) == Some(s)
  {
    var bytes := AsciiBytes(s);
    assert seq(|bytes|, i requires 0 <= i < |bytes| => bytes[i] as char) == s;
  }

  lemma AsciiConcat(a: string, b: string)
    requires IsAscii(a) && IsAscii(b)
    ensures IsAscii(a + b)
  {
  }

  /** What is cached of a tile. */
  datatype Content = Content(data: seq<Byte>, contentEncoding: Option<string>, contentType: Option<string>)

  const ENCODING := "content_encoding"
  const TYPE := "content_type"

  function Header(c: Content): (text: string)
    ensures IsAscii(text)
  {
    ObjectIsAscii(ENCODING, c.contentEncoding, TYPE, c.contentType);
    ObjectText(ENCODING, c.contentEncoding, TYPE, c.contentType)
  }

  lemma HexIsAscii(n: int)
    requires 0 <= n < 0x10000
    ensures IsAscii(Unicode(n))
  {
    DigitIsAscii(n / 16 / 16 / 16);
    DigitIsAscii(n / 16 / 16 % 16);
    DigitIsAscii(n / 16 % 16);
    DigitIsAscii(n % 16);
    AsciiConcat(['\\', 'u'], Hex4(n));
  }

  lemma DigitIsAscii(d: int)
    requires 0 <= d < 16
    ensures HexDigit(d) as int < 128
  {
  }

  lemma EscapedIsAscii(c: char)
    ensures IsAscii(EscapeChar(c))
  {
    if c as int >= 0x10000 {
      HexIsAscii(High(c));
      HexIsAscii(Low(c));
      AsciiConcat(Unicode(High(c)), Unicode(Low(c)));
    } else if !IsShort(c) {
      HexIsAscii(c as int);
    }
  }

  lemma {:induction false} EscapeIsAscii(s: string)
    ensures IsAscii(Escape(s))
  {
    if s == "" {
    } else {
      EscapedIsAscii(s[0]);
      EscapeIsAscii(s[1..]);
      AsciiConcat(EscapeChar(s[0]), Escape(s[1..]));
    }
  }

  lemma ValueIsAscii(v: Option<string>)
    ensures IsAscii(Value(v))
  {
    if v.Some? {
      EscapeIsAscii(v.value);
      AsciiConcat(Escape(v.value), ['"']);
      AsciiConcat(['"'], Escape(v.value) + ['"']);
    }
  }

  lemma MemberIsAscii(key: string, v: Option<string>)
    ensures IsAscii(Member(key, v))
  {
    var tail := ['"', ':', ' '] + Value(v);
    EscapeIsAscii(key);
    ValueIsAscii(v);
    AsciiConcat(['"', ':', ' '], Value(v));
    AsciiConcat(Escape(key), tail);
    AsciiConcat(['"'], Escape(key) + tail);
  }

  lemma ObjectIsAscii(key1: string, v1: Option<string>, key2: string, v2: Option<string>)
    ensures IsAscii(ObjectText(key1, v1, key2, v2))
  {
    var m1, m2 := Member(key1, v1), Member(key2, v2);
    MemberIsAscii(key1, v1);
    MemberIsAscii(key2, v2);
    AsciiConcat(m2, ['}']);
    AsciiConcat([',', ' '], m2 + ['}']);
    AsciiConcat(m1, [',', ' '] + (m2 + ['}']));
    AsciiConcat(['{'], m1 + ([',', ' '] + (m2 + ['}'])));
  }

  /** The frame of a tile that has data. */
  function EncodeTile(c: Content): seq<Byte>
    requires c.data != [] && |c.data| < TWO_63
  {
    PackInt64(|c.data|) + c.data + AsciiBytes(Header(c))
  }

  /** The values of two keys of a JSON object. */
  function TwoValues(bytes: seq<Byte>, key1: string, key2: string): Result<(Option<string>, Option<string>)> {
    var text := AsciiText(bytes);
    if text.None? then Failure("not ASCII")
    else
      var other := ParseObject(text.value);
      if other.None? then Failure("not a JSON object of strings and nulls")
      else if key1 !in other.value || key2 !in other.value then Failure("missing key")
      else Success((other.value[key1], other.value[key2]))
  }

  function DecodeHeader(bytes: seq<Byte>): Result<(Option<string>, Option<string>)> {
    TwoValues(bytes, ENCODING, TYPE)
  }

  /** The image of a frame, and the text behind it. */
  function Image(frame: seq<Byte>): seq<Byte> { Slice(frame, 8, UnpackInt64(Slice(frame, 0, 8)) + 8) }

  function Tail(frame: seq<Byte>): seq<Byte> { Slice(frame, 8 + UnpackInt64(Slice(frame, 0, 8)), |frame|) }

  function DecodeTile(frame: seq<Byte>): Result<Content> {
    if |frame| < 8 then Failure("the length takes 8 bytes")
    else
      var header := DecodeHeader(Tail(frame));
      if header.Failure? then Failure(header.message)
      else Success(Content(Image(frame), header.value.0, header.value.1))
  }

  /** A tile whose fields are filled from the cache. */
  class Tile {
    var data: Option<seq<Byte>>
    var contentEncoding: Option<string>
    var contentType: Option<string>

    constructor ()
      ensures data.None? && contentEncoding.None? && contentType.None?
    {
      data, contentEncoding, contentType := None, None, None;
    }

    /** Fill the tile from a frame. The data is set before the header is read. */
    method Decode(frame: seq<Byte>) returns (decoded: Result<()>)
      modifies this
      ensures decoded.Success? <==> DecodeTile(frame).Success?
      ensures decoded.Success? ==>
        data.Some? && Content(data.value, contentEncoding, contentType) == DecodeTile(frame).value
      ensures decoded.Failure? ==>
        contentEncoding == old(contentEncoding) && contentType == old(contentType)
        && data == if |frame| < 8 then old(data) else Some(Image(frame))
    {
      if |frame| < 8 {
        return Failure("the length takes 8 bytes");
      }
      var imageLen := UnpackInt64(Slice(frame, 0, 8));
      data := Some(Slice(frame, 8, imageLen + 8));
      var other := DecodeHeader(Slice(frame, 8 + imageLen, |frame|));
      if other.Failure? {
        return Failure(other.message);
      }
      contentEncoding, contentType := other.value.0, other.value.1;
      return Success(());
    }
  }

  lemma TwoValuesRoundTrip(key1: string, v1: Option<string>, key2: string, v2: Option<string>)
    requires key1 != key2 && IsAscii(ObjectText(key1, v1, key2, v2))
    ensures TwoValues(AsciiBytes(ObjectText(key1, v1, key2, v2)), key1, key2) == Success((v1, v2))
  {
    AsciiRoundTrip(ObjectText(key1, v1, key2, v2));
    ObjectRoundTrip(key1, v1, key2, v2);
  }

  lemma FrameSlices(length: seq<Byte>, data: seq<Byte>, text: seq<Byte>)
    requires |length| == 8 && UnpackInt64(length) == |data|
    ensures Image(length + data + text) == data && Tail(length + data + text) == text
  {
    var frame := length + data + text;
    assert Slice(frame, 0, 8) == length;
    assert Slice(frame, 8, |data| + 8) == data;
    assert Slice(frame, 8 + |data|, |frame|) == text;
  }

  /** The bytes of a frame: the length of the image on 8 bytes, the image, and the object
      with the encoding and the type. */
  lemma FrameLayout(c: Content)
    requires c.data != [] && |c.data| < TWO_63
    ensures var frame := EncodeTile(c);
      && |frame| >= 8 + |c.data|
      && UnpackInt64(frame[..8]) == |c.data|
      && frame[8..8 + |c.data|] == c.data
      && AsciiText(frame[8 + |c.data|..])
         == Some(ObjectText("content_encoding", c.contentEncoding, "content_type", c.contentType))
  {
    var length, text := PackInt64(|c.data|), AsciiBytes(Header(c));
    Int64RoundTrip(|c.data|);
    AsciiRoundTrip(Header(c));
    FrameParts(length, c.data, text);
  }

  lemma FrameParts(length: seq<Byte>, data: seq<Byte>, text: seq<Byte>)
    requires |length| == 8
    ensures var frame := length + data + text;
      frame[..8] == length && frame[8..8 + |data|] == data && frame[8 + |data|..] == text
  {
  }

  /** Decoding an encoded tile restores its data, encoding and type. */
  lemma FrameRoundTrip(c: Content)
    requires c.data != [] && |c.data| < TWO_63
    ensures DecodeTile(EncodeTile(c)) == Success(c)
  {
    Int64RoundTrip(|c.data|);
    FrameSlices(PackInt64(|c.data|), c.data, AsciiBytes(Header(c)));
    assert ENCODING != TYPE by { assert |ENCODING| != |TYPE|; }
    TwoValuesRoundTrip(ENCODING, c.contentEncoding, TYPE, c.contentType);
  }

  /** The cache: frames by key. Expiry is not part of it. */
  class RedisStore {
    var values: map<string, seq<Byte>>

    constructor ()
      ensures values == map[]
    {
      values := map[];
    }

    /** Store a tile; one without data is refused. */
    method PutOne(key: string, tile: Tile) returns (stored: Result<()>)
      modifies this
      ensures stored.Success? <==> tile.data.Some? && 0 < |tile.data.value| < TWO_63
      ensures stored.Failure? ==> values == old(values)
      ensures stored.Success? ==>
        values == old(values)[key := EncodeTile(Content(tile.data.value, tile.contentEncoding, tile.contentType))]
    {
      if tile.data.None? || tile.data.value == [] || |tile.data.value| >= TWO_63 {
        return Failure("no data");
      }
      var c := Content(tile.data.value, tile.contentEncoding, tile.contentType);
      values := values[key := EncodeTile(c)];
      return Success(());
    }

    /** Fill a tile from the cache, if its key is there. */
    method GetOne(key: string, tile: Tile) returns (found: Result<bool>)
      modifies tile
      ensures key !in values ==> found == Success(false) && unchanged(tile)
      ensures key in values ==> (found.Success? <==> DecodeTile(values[key]).Success?)
      ensures key in values && found.Success? ==>
        found.value && tile.data.Some?
        && Content(tile.data.value, tile.contentEncoding, tile.contentType) == DecodeTile(values[key]).value
    {
      if key !in values {
        return Success(false);
      }
      var decoded := tile.Decode(values[key]);
      if decoded.Failure? {
        return Failure(decoded.message);
      }
      return Success(true);
    }
  }
}
