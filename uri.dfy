/** `encodeURIComponent` and `decodeURIComponent` (ECMA-262 section 19.2.6):
    every character outside the unreserved set is written as the `%XX` escapes
    of its UTF-8 octets, and reading accepts exactly the escapes of well-formed
    UTF-8. A failing `decodeURIComponent` (URIError) is None. */
module UriComponent {
  import opened Wrappers
  import opened JsNumber

  type Byte = b: int | 0 <= b < 256

  /** uriAlpha, DecimalDigit and uriMark: left as they are by `encodeURIComponent`. */
  predicate IsUnreserved(c: char) {
    ('A' <= c <= 'Z') || ('a' <= c <= 'z') || ('0' <= c <= '9')
    || c == '-' || c == '_' || c == '.' || c == '!' || c == '~' || c == '*'
    || c == '\'' || c == '(' || c == ')'
  }

  /** The UTF-8 octets of a code point. */
  function Utf8(c: char): (r: seq<Byte>)
    ensures 1 <= |r| <= 4
  {
    var v := c as int;
    if v < 0x80 then [v]
    else if v < 0x800 then [0xC0 + v / 64, 0x80 + v % 64]
    else if v < 0x10000 then [0xE0 + v / 4096, 0x80 + (v / 64) % 64, 0x80 + v % 64]
    else [0xF0 + v / 262144, 0x80 + (v / 4096) % 64, 0x80 + (v / 64) % 64, 0x80 + v % 64]
  }

  function HexUpper(d: int): char
    requires 0 <= d < 16
  {
    if d < 10 then ('0' as int + d) as char else ('A' as int + d - 10) as char
  }

  function Percent(b: Byte): string {
    ['%', HexUpper(b / 16), HexUpper(b % 16)]
  }

  function PercentAll(bs: seq<Byte>): string {
    if bs == [] then "" else Percent(bs[0]) + PercentAll(bs[1..])
  }

  function EncodeChar(c: char): string {
    if IsUnreserved(c) then [c] else PercentAll(Utf8(c))
  }

  /** `encodeURIComponent(s)`. */
  function Encode(s: string): (r: string)
    ensures |r| >= |s|
  {
    if s == [] then "" else EncodeChar(s[0]) + Encode(s[1..])
  }

  /** The octet of a `%XX` escape at the start of s. */
  function OctetAt(s: string): (r: Option<Byte>)
    ensures r.Some? ==> |s| >= 3
  {
    if |s| < 3 || s[0] != '%' then None
    else
      var hi, lo := BaseDigitValue(s[1]), BaseDigitValue(s[2]);
      if hi < 0 || lo < 0 then None else Some(hi * 16 + lo)
  }

  /** A continuation octet `10xxxxxx` at the start of s: its low six bits. */
  function ContinuationAt(s: string): (r: Option<int>)
    ensures r.Some? ==> |s| >= 3 && 0 <= r.value < 64
  {
    match OctetAt(s)
    case None => None
    case Some(b) => if 0x80 <= b < 0xC0 then Some(b - 0x80) else None
  }

  /** The character whose escapes start s (which starts with `%`), and the text after them. */
  function DecodeOctets(s: string): (r: Option<(char, string)>)
    ensures r.Some? ==> |r.value.1| < |s|
  {
    match OctetAt(s)
    case None => None
    case Some(b) =>
      if b < 0x80 then Some((b as char, s[3..]))
      else if 0xC0 <= b < 0xE0 then
        match ContinuationAt(s[3..])
        case None => None
        case Some(c1) =>
          var v := (b - 0xC0) * 64 + c1;
          if v < 0x80 then None else Some((v as char, s[6..]))
      else if 0xE0 <= b < 0xF0 then
        match ContinuationAt(s[3..])
        case None => None
        case Some(c1) =>
          match ContinuationAt(s[6..])
          case None => None
          case Some(c2) =>
            var v := ((b - 0xE0) * 64 + c1) * 64 + c2;
            if v < 0x800 || (0xD800 <= v < 0xE000) then None else Some((v as char, s[9..]))
      else if 0xF0 <= b < 0xF8 then
        match ContinuationAt(s[3..])
        case None => None
        case Some(c1) =>
          match ContinuationAt(s[6..])
          case None => None
          case Some(c2) =>
            match ContinuationAt(s[9..])
            case None => None
            case Some(c3) =>
              var v := (((b - 0xF0) * 64 + c1) * 64 + c2) * 64 + c3;
              if v < 0x10000 || v > 0x10FFFF then None else Some((v as char, s[12..]))
      else None
  }

  /** `decodeURIComponent(s)`; None is the URIError it throws. */
  function Decode(s: string): Option<string>
    decreases |s|
  {
    if s == [] then Some("")
    else if s[0] != '%' then
      match Decode(s[1..])
      case None => None
      case Some(t) => Some([s[0]] + t)
    else
      match DecodeOctets(s)
      case None => None
      case Some((c, rest)) =>
        match Decode(rest)
        case None => None
        case Some(t) => Some([c] + t)
  }

  lemma HexUpperValue(d: int)
    requires 0 <= d < 16
    ensures BaseDigitValue(HexUpper(d)) == d
  {
  }

  lemma PercentRead(b: Byte, rest: string)
    ensures OctetAt(Percent(b) + rest) == Some(b)
    ensures (Percent(b) + rest)[3..] == rest
  {
    HexUpperValue(b / 16);
    HexUpperValue(b % 16);
  }

  lemma PercentAllSplit(bs: seq<Byte>, rest: string)
    requires |bs| >= 1
    ensures PercentAll(bs) + rest == Percent(bs[0]) + (PercentAll(bs[1..]) + rest)
  {
  }

  lemma ContinuationRead(b: Byte, rest: string)
    requires 0x80 <= b < 0xC0
    ensures ContinuationAt(Percent(b) + rest) == Some(b - 0x80)
    ensures (Percent(b) + rest)[3..] == rest
  {
    PercentRead(b, rest);
  }

  lemma Read1(c: char, rest: string)
    requires (c as int) < 0x80
    ensures DecodeOctets(PercentAll(Utf8(c)) + rest) == Some((c, rest))
  {
    var bs := Utf8(c);
    PercentAllSplit(bs, rest);
    PercentRead(bs[0], rest);
  }

  lemma Read2(c: char, rest: string)
    requires 0x80 <= (c as int) < 0x800
    ensures DecodeOctets(PercentAll(Utf8(c)) + rest) == Some((c, rest))
  {
    var bs := Utf8(c);
    var v := c as int;
    var s := PercentAll(bs) + rest;
    var r1 := PercentAll(bs[1..]) + rest;
    PercentAllSplit(bs, rest);
    PercentAllSplit(bs[1..], rest);
    PercentRead(bs[0], r1);
    ContinuationRead(bs[1], rest);
    assert OctetAt(s) == Some(0xC0 + v / 64) && s[3..] == r1;
    assert ContinuationAt(r1) == Some(v % 64) && r1[3..] == rest;
    assert s[6..] == rest;
    assert (v / 64) * 64 + v % 64 == v;
  }

  lemma PercentAll3(b0: Byte, b1: Byte, b2: Byte, rest: string)
    ensures PercentAll([b0, b1, b2]) + rest == Percent(b0) + (Percent(b1) + (Percent(b2) + rest))
  {
    assert [b0, b1, b2][1..] == [b1, b2] && [b1, b2][1..] == [b2];
    PercentAllSplit([b0, b1, b2], rest);
    PercentAllSplit([b1, b2], rest);
    PercentAllSplit([b2], rest);
  }

  lemma PercentAll4(b0: Byte, b1: Byte, b2: Byte, b3: Byte, rest: string)
    ensures PercentAll([b0, b1, b2, b3]) + rest == Percent(b0) + (Percent(b1) + (Percent(b2) + (Percent(b3) + rest)))
  {
    assert [b0, b1, b2, b3][1..] == [b1, b2, b3];
    PercentAllSplit([b0, b1, b2, b3], rest);
    PercentAll3(b1, b2, b3, rest);
  }

  /** The escapes of a lead octet `1110xxxx` and two continuations, read on any text. */
  lemma ReadOctets3(b0: Byte, b1: Byte, b2: Byte, rest: string)
    requires 0xE0 <= b0 < 0xF0 && 0x80 <= b1 < 0xC0 && 0x80 <= b2 < 0xC0
    ensures var v := ((b0 - 0xE0) * 64 + (b1 - 0x80)) * 64 + (b2 - 0x80);
      DecodeOctets(Percent(b0) + (Percent(b1) + (Percent(b2) + rest))) ==
        if v < 0x800 || (0xD800 <= v < 0xE000) then None else Some((v as char, rest))
  {
    var s2 := Percent(b2) + rest;
    var s1 := Percent(b1) + s2;
    var s := Percent(b0) + s1;
    PercentRead(b0, s1);
    ContinuationRead(b1, s2);
    ContinuationRead(b2, rest);
    assert s[3..] == s1 && s[6..] == s2 && s[9..] == rest;
  }

  /** The escapes of a lead octet `11110xxx` and three continuations, read on any text. */
  lemma ReadOctets4(b0: Byte, b1: Byte, b2: Byte, b3: Byte, rest: string)
    requires 0xF0 <= b0 < 0xF8 && 0x80 <= b1 < 0xC0 && 0x80 <= b2 < 0xC0 && 0x80 <= b3 < 0xC0
    ensures var v := (((b0 - 0xF0) * 64 + (b1 - 0x80)) * 64 + (b2 - 0x80)) * 64 + (b3 - 0x80);
      DecodeOctets(Percent(b0) + (Percent(b1) + (Percent(b2) + (Percent(b3) + rest)))) ==
        if v < 0x10000 || v > 0x10FFFF then None else Some((v as char, rest))
  {
    var s3 := Percent(b3) + rest;
    var s2 := Percent(b2) + s3;
    var s1 := Percent(b1) + s2;
    var s := Percent(b0) + s1;
    PercentRead(b0, s1);
    ContinuationRead(b1, s2);
    ContinuationRead(b2, s3);
    ContinuationRead(b3, rest);
    assert s[3..] == s1 && s[6..] == s2 && s[9..] == s3 && s[12..] == rest;
    DecodeSteps4(s, b0, b1 - 0x80, b2 - 0x80, b3 - 0x80);
  }

  /** How a four-octet character is read, on any text. */
  lemma DecodeSteps4(s: string, b0: Byte, c1: int, c2: int, c3: int)
    requires OctetAt(s) == Some(b0) && 0xF0 <= b0 < 0xF8
    requires ContinuationAt(s[3..]) == Some(c1)
    requires ContinuationAt(s[6..]) == Some(c2)
    requires ContinuationAt(s[9..]) == Some(c3)
    ensures var v := (((b0 - 0xF0) * 64 + c1) * 64 + c2) * 64 + c3;
      DecodeOctets(s) == if v < 0x10000 || v > 0x10FFFF then None else Some((v as char, s[12..]))
  {
  }

  lemma Read3(c: char, rest: string)
    requires 0x800 <= (c as int) < 0x10000
    ensures DecodeOctets(PercentAll(Utf8(c)) + rest) == Some((c, rest))
  {
    var v := c as int;
    var b0, b1, b2 := 0xE0 + v / 4096, 0x80 + (v / 64) % 64, 0x80 + v % 64;
    assert Utf8(c) == [b0, b1, b2];
    assert ((b0 - 0xE0) * 64 + (b1 - 0x80)) * 64 + (b2 - 0x80) == v by {
      Digits3(v);
    }
    PercentAll3(b0, b1, b2, rest);
    ReadOctets3(b0, b1, b2, rest);
  }

  lemma Digits3(v: int)
    requires 0 <= v < 0x10000
    ensures ((v / 4096) * 64 + (v / 64) % 64) * 64 + v % 64 == v
  {
    assert (v / 4096) * 64 + (v / 64) % 64 == v / 64;
    assert (v / 64) * 64 + v % 64 == v;
  }

  lemma Digits4(v: int)
    requires 0 <= v <= 0x10FFFF
    ensures (((v / 262144) * 64 + (v / 4096) % 64) * 64 + (v / 64) % 64) * 64 + v % 64 == v
  {
    assert (v / 262144) * 64 + (v / 4096) % 64 == v / 4096;
    assert (v / 4096) * 64 + (v / 64) % 64 == v / 64;
    assert (v / 64) * 64 + v % 64 == v;
  }

  lemma Read4(c: char, rest: string)
    requires 0x10000 <= (c as int)
    ensures DecodeOctets(PercentAll(Utf8(c)) + rest) == Some((c, rest))
  {
    var v := c as int;
    var b0, b1, b2, b3 := 0xF0 + v / 262144, 0x80 + (v / 4096) % 64, 0x80 + (v / 64) % 64, 0x80 + v % 64;
    assert Utf8(c) == [b0, b1, b2, b3];
    assert (((b0 - 0xF0) * 64 + (b1 - 0x80)) * 64 + (b2 - 0x80)) * 64 + (b3 - 0x80) == v by {
      Digits4(v);
    }
    PercentAll4(b0, b1, b2, b3, rest);
    ReadOctets4(b0, b1, b2, b3, rest);
  }

  /** The escapes of a character's octets are read back as that character. */
  lemma DecodeOctetsRead(c: char, rest: string)
    ensures DecodeOctets(PercentAll(Utf8(c)) + rest) == Some((c, rest))
  {
    if (c as int) < 0x80 {
      Read1(c, rest);
    } else if (c as int) < 0x800 {
      Read2(c, rest);
    } else if (c as int) < 0x10000 {
      Read3(c, rest);
    } else {
      Read4(c, rest);
    }
  }

  /** `decodeURIComponent(encodeURIComponent(s))` gives s back. */
  lemma {:induction false} DecodeEncode(s: string)
    ensures Decode(Encode(s)) == Some(s)
  {
    if s != [] {
      DecodeEncode(s[1..]);
      var c := s[0];
      var e := Encode(s);
      assert e == EncodeChar(c) + Encode(s[1..]);
      if IsUnreserved(c) {
        assert e[0] == c && e[1..] == Encode(s[1..]);
      } else {
        DecodeOctetsRead(c, Encode(s[1..]));
        assert e[0] == '%';
      }
      assert [c] + s[1..] == s;
    }
  }
}
