/** JSON text as RFC 8259 defines it, written by `JSON.stringify` and read by
    `JSON.parse` (ECMA-262 section 25.5). A number is kept as its text (its
    lexeme); its value is what `Number` gives for that text. An object keeps
    its members in text order, duplicates included; reading a member takes the
    last one, as `JSON.parse` does. */
module JsonCodec {
  import opened Wrappers
  import opened JsString
  import opened JsNumber

  datatype Json =
    | JNull
    | JBool(b: bool)
    | JNum(lexeme: string)
    | JStr(text: string)
    | JArr(items: seq<Json>)
    | JObj(fields: seq<Field>)

  datatype Field = Field(key: string, value: Json)

  /** What a parser step produced, and the text after it. */
  datatype Step<T> = Step(value: T, rest: string)

  // ---------------------------------------------------------------------------
  // Numbers

  /** Length of the integer part at the start of t: `0` or a digit run without a leading zero. */
  function IntLen(t: string): (r: Option<nat>)
    ensures r.Some? ==> 1 <= r.value <= |t|
  {
    if t == [] || !IsDigit(t[0]) then None
    else if t[0] == '0' then Some(1)
    else Some(DigitRun(t))
  }

  /** Length of an optional fraction `.digits` at the start of t. */
  function FracLen(t: string): (r: Option<nat>)
    ensures r.Some? ==> r.value <= |t|
  {
    if t == [] || t[0] != '.' then Some(0)
    else if DigitRun(t[1..]) == 0 then None
    else Some(1 + DigitRun(t[1..]))
  }

  /** Length of an optional exponent `e`/`E`, sign, digits at the start of t. */
  function ExpLen(t: string): (r: Option<nat>)
    ensures r.Some? ==> r.value <= |t|
  {
    if t == [] || (t[0] != 'e' && t[0] != 'E') then Some(0)
    else
      var m := if |t| > 1 && (t[1] == '+' || t[1] == '-') then 2 else 1;
      if DigitRun(t[m..]) == 0 then None
      else Some(m + DigitRun(t[m..]))
  }

  /** Length of an optional fraction followed by an optional exponent. */
  function FracExpLen(t: string): (r: Option<nat>)
    ensures r.Some? ==> r.value <= |t|
  {
    match FracLen(t)
    case None => None
    case Some(b) =>
      match ExpLen(t[b..])
      case None => None
      case Some(c) => Some(b + c)
  }

  /** Length of an unsigned JSON number at the start of t. */
  function UnsignedLen(t: string): (r: Option<nat>)
    ensures r.Some? ==> 1 <= r.value <= |t|
  {
    match IntLen(t)
    case None => None
    case Some(a) =>
      match FracExpLen(t[a..])
      case None => None
      case Some(c) => Some(a + c)
  }

  /** Length of the JSON number at the start of s (`-`? int frac? exp?), or None. */
  function ScanNumber(s: string): (r: Option<nat>)
    ensures r.Some? ==> 1 <= r.value <= |s|
  {
    if s != [] && s[0] == '-' then
      match UnsignedLen(s[1..])
      case None => None
      case Some(n) => Some(n + 1)
    else UnsignedLen(s)
  }

  /** A complete JSON number. */
  predicate IsNumberLexeme(s: string) {
    ScanNumber(s) == Some(|s|)
  }

  /** The number JSON text for an integer, as `JSON.stringify` writes it. */
  function IntLexeme(n: int): string {
    var d := NatToString(if n < 0 then -n else n);
    if n < 0 then "-" + d else d
  }

  /** The text written for an integer is a complete JSON number. */
  lemma IntLexemeIsNumber(n: int)
    ensures IsNumberLexeme(IntLexeme(n))
  {
    var d := NatToString(if n < 0 then -n else n);
    DigitRunAll(d);
    assert IntLen(d) == Some(|d|);
    assert d[|d|..] == [];
    if n < 0 {
      assert ("-" + d)[1..] == d;
    }
  }

  // ---------------------------------------------------------------------------
  // Writing

  function HexLower(d: nat): (c: char)
    requires d < 16
  {
    if d < 10 then ('0' as int + d) as char else ('a' as int + d - 10) as char
  }

  /** QuoteJSONString for one character. */
  function EscapeChar(c: char): string {
    if c == '"' then "\\\""
    else if c == '\\' then "\\\\"
    else if c == '\U{0008}' then "\\b"
    else if c == '\U{000C}' then "\\f"
    else if c == '\n' then "\\n"
    else if c == '\r' then "\\r"
    else if c == '\t' then "\\t"
    else if (c as int) < 0x20 then "\\u00" + [HexLower(c as int / 16), HexLower(c as int % 16)]
    else [c]
  }

  function Escape(s: string): string {
    if s == [] then "" else EscapeChar(s[0]) + Escape(s[1..])
  }

  function Quote(s: string): string {
    "\"" + Escape(s) + "\""
  }

  /** `JSON.stringify` without indentation. */
  function Serialize(j: Json): string {
    match j
    case JNull => "null"
    case JBool(b) => if b then "true" else "false"
    case JNum(lexeme) => lexeme
    case JStr(text) => Quote(text)
    case JArr(items) => "[" + SerializeItems(items) + "]"
    case JObj(fields) => "{" + SerializeFields(fields) + "}"
  }

  function SerializeItems(items: seq<Json>): string {
    if items == [] then ""
    else if |items| == 1 then Serialize(items[0])
    else Serialize(items[0]) + "," + SerializeItems(items[1..])
  }

  function SerializeField(f: Field): string {
    Quote(f.key) + ":" + Serialize(f.value)
  }

  function SerializeFields(fields: seq<Field>): string {
    if fields == [] then ""
    else if |fields| == 1 then SerializeField(fields[0])
    else SerializeField(fields[0]) + "," + SerializeFields(fields[1..])
  }

  /** Every number carries a complete JSON number as its text. */
  predicate WellFormed(j: Json) {
    match j
    case JNum(lexeme) => IsNumberLexeme(lexeme)
    case JArr(items) => forall i :: 0 <= i < |items| ==> WellFormed(items[i])
    case JObj(fields) => forall i :: 0 <= i < |fields| ==> WellFormed(fields[i].value)
    case _ => true
  }

  // ---------------------------------------------------------------------------
  // Reading

  predicate IsWs(c: char) {
    c == ' ' || c == '\t' || c == '\n' || c == '\r'
  }

  function SkipWs(s: string): (r: string)
    ensures |r| <= |s|
    ensures r == [] || !IsWs(r[0])
  {
    if s != [] && IsWs(s[0]) then SkipWs(s[1..]) else s
  }

  function HexValue(c: char): (v: int)
    ensures -1 <= v < 16
  {
    BaseDigitValue(c)
  }

  /** Four hex digits at the start of s. */
  function Hex4(s: string): (r: Option<nat>)
    ensures r.Some? ==> |s| >= 4 && r.value < 0x10000
  {
    if |s| < 4 then None
    else
      var a, b, c, d := HexValue(s[0]), HexValue(s[1]), HexValue(s[2]), HexValue(s[3]);
      if a < 0 || b < 0 || c < 0 || d < 0 then None
      else Some(((a * 16 + b) * 16 + c) * 16 + d)
  }

  /** The character an escape stands for, s being the text after the backslash.
      A `\u` escape of a high surrogate must be followed by one of a low surrogate. */
  function ParseEscape(s: string): (r: Option<Step<char>>)
    ensures r.Some? ==> |r.value.rest| < |s|
  {
    if s == [] then None
    else if s[0] == '"' then Some(Step('"', s[1..]))
    else if s[0] == '\\' then Some(Step('\\', s[1..]))
    else if s[0] == '/' then Some(Step('/', s[1..]))
    else if s[0] == 'b' then Some(Step('\U{0008}', s[1..]))
    else if s[0] == 'f' then Some(Step('\U{000C}', s[1..]))
    else if s[0] == 'n' then Some(Step('\n', s[1..]))
    else if s[0] == 'r' then Some(Step('\r', s[1..]))
    else if s[0] == 't' then Some(Step('\t', s[1..]))
    else if s[0] != 'u' then None
    else match Hex4(s[1..])
      case None => None
      case Some(u) =>
        if 0xDC00 <= u < 0xE000 then None
        else if u < 0xD800 || u >= 0xE000 then Some(Step(u as char, s[5..]))
        else if |s| < 7 || s[5] != '\\' || s[6] != 'u' then None
        else match Hex4(s[7..])
          case None => None
          case Some(l) =>
            if l < 0xDC00 || l >= 0xE000 then None
            else Some(Step((0x10000 + (u - 0xD800) * 0x400 + (l - 0xDC00)) as char, s[11..]))
  }

  /** The characters of a string up to its closing quote, s being the text after the
      opening quote. */
  function ParseChars(s: string): (r: Option<Step<string>>)
    ensures r.Some? ==> |r.value.rest| < |s|
  {
    if s == [] then None
    else if s[0] == '"' then Some(Step("", s[1..]))
    else if s[0] == '\\' then
      match ParseEscape(s[1..])
      case None => None
      case Some(e) =>
        match ParseChars(e.rest)
        case None => None
        case Some(t) => Some(Step([e.value] + t.value, t.rest))
    else if (s[0] as int) < 0x20 then None
    else
      match ParseChars(s[1..])
      case None => None
      case Some(t) => Some(Step([s[0]] + t.value, t.rest))
  }

  function ParseNumber(s: string): (r: Option<Step<Json>>)
    ensures r.Some? ==> |r.value.rest| < |s|
  {
    match ScanNumber(s)
    case None => None
    case Some(n) => Some(Step(JNum(s[..n]), s[n..]))
  }

  /** A value with no white space before it. */
  function ParseBare(s: string): (r: Option<Step<Json>>)
    ensures r.Some? ==> |r.value.rest| < |s|
    decreases |s|, 1
  {
    if s == [] then None
    else if s[0] == 'n' then (if StartsWith(s, "null") then Some(Step(JNull, s[4..])) else None)
    else if s[0] == 't' then (if StartsWith(s, "true") then Some(Step(JBool(true), s[4..])) else None)
    else if s[0] == 'f' then (if StartsWith(s, "false") then Some(Step(JBool(false), s[5..])) else None)
    else if s[0] == '"' then
      match ParseChars(s[1..])
      case None => None
      case Some(t) => Some(Step(JStr(t.value), t.rest))
    else if s[0] == '[' then ParseArray(s[1..])
    else if s[0] == '{' then ParseObject(s[1..])
    else if s[0] == '-' || IsDigit(s[0]) then ParseNumber(s)
    else None
  }

  /** A value with white space around it (the grammar's `element`). */
  function ParseElement(s: string): (r: Option<Step<Json>>)
    ensures r.Some? ==> |r.value.rest| < |s|
    decreases |s|, 2
  {
    match ParseBare(SkipWs(s))
    case None => None
    case Some(t) => Some(Step(t.value, SkipWs(t.rest)))
  }

  /** One or more elements separated by commas. */
  function ParseElems(s: string): (r: Option<Step<seq<Json>>>)
    ensures r.Some? ==> |r.value.rest| < |s|
    decreases |s|, 3
  {
    match ParseElement(s)
    case None => None
    case Some(e) =>
      if e.rest != [] && e.rest[0] == ',' then
        match ParseElems(e.rest[1..])
        case None => None
        case Some(t) => Some(Step([e.value] + t.value, t.rest))
      else Some(Step([e.value], e.rest))
  }

  /** An array, s being the text after `[`. */
  function ParseArray(s: string): (r: Option<Step<Json>>)
    ensures r.Some? ==> |r.value.rest| < |s|
    decreases |s|, 4
  {
    var t := SkipWs(s);
    if t != [] && t[0] == ']' then Some(Step(JArr([]), t[1..]))
    else
      match ParseElems(s)
      case None => None
      case Some(e) =>
        if e.rest != [] && e.rest[0] == ']' then Some(Step(JArr(e.value), e.rest[1..])) else None
  }

  /** `"key" : element`. */
  function ParseMember(s: string): (r: Option<Step<Field>>)
    ensures r.Some? ==> |r.value.rest| < |s|
    decreases |s|, 2
  {
    var t := SkipWs(s);
    if t == [] || t[0] != '"' then None
    else
      match ParseChars(t[1..])
      case None => None
      case Some(k) =>
        var u := SkipWs(k.rest);
        if u == [] || u[0] != ':' then None
        else
          match ParseElement(u[1..])
          case None => None
          case Some(v) => Some(Step(Field(k.value, v.value), v.rest))
  }

  /** One or more members separated by commas. */
  function ParseMembers(s: string): (r: Option<Step<seq<Field>>>)
    ensures r.Some? ==> |r.value.rest| < |s|
    decreases |s|, 3
  {
    match ParseMember(s)
    case None => None
    case Some(m) =>
      if m.rest != [] && m.rest[0] == ',' then
        match ParseMembers(m.rest[1..])
        case None => None
        case Some(t) => Some(Step([m.value] + t.value, t.rest))
      else Some(Step([m.value], m.rest))
  }

  /** An object, s being the text after `{`. */
  function ParseObject(s: string): (r: Option<Step<Json>>)
    ensures r.Some? ==> |r.value.rest| < |s|
    decreases |s|, 4
  {
    var t := SkipWs(s);
    if t != [] && t[0] == '}' then Some(Step(JObj([]), t[1..]))
    else
      match ParseMembers(s)
      case None => None
      case Some(e) =>
        if e.rest != [] && e.rest[0] == '}' then Some(Step(JObj(e.value), e.rest[1..])) else None
  }

  /** `JSON.parse(text)`; None is the SyntaxError it throws. */
  function Parse(text: string): Option<Json> {
    match ParseElement(text)
    case None => None
    case Some(e) => if e.rest == [] then Some(e.value) else None
  }

  // ---------------------------------------------------------------------------
  // Using parsed values

  /** `obj[key]` on an object's members: the last member with that key, None for `undefined`. */
  function Get(fields: seq<Field>, key: string): Option<Json> {
    if fields == [] then None
    else if fields[|fields| - 1].key == key then Some(fields[|fields| - 1].value)
    else Get(fields[..|fields| - 1], key)
  }

  /** A lookup finds nothing exactly when no member has the key, and otherwise the value
      of the last member that has it. */
  lemma {:induction false} GetSpec(fields: seq<Field>, key: string)
    ensures Get(fields, key).None? <==> forall i :: 0 <= i < |fields| ==> fields[i].key != key
    ensures Get(fields, key).Some? ==>
      exists i :: 0 <= i < |fields| && fields[i] == Field(key, Get(fields, key).value) &&
        forall k :: i < k < |fields| ==> fields[k].key != key
  {
    if fields != [] && fields[|fields| - 1].key != key {
      var init := fields[..|fields| - 1];
      GetSpec(init, key);
      if Get(init, key).Some? {
        var i :| 0 <= i < |init| && init[i] == Field(key, Get(init, key).value) &&
          forall k :: i < k < |init| ==> init[k].key != key;
        assert fields[i] == init[i];
      }
    }
  }

  /** `value[key]` for a value that is not null: only objects have members here. */
  function Member(j: Json, key: string): Option<Json> {
    if j.JObj? then Get(j.fields, key) else None
  }

  /** ToBoolean on a parsed value: null, false, zero and the empty string are falsy. */
  predicate Truthy(j: Json) {
    match j
    case JNull => false
    case JBool(b) => b
    case JNum(lexeme) => ToNumber(lexeme) != Some(0.0)
    case JStr(text) => text != []
    case _ => true
  }

  // ---------------------------------------------------------------------------
  // Reading back what was written

  lemma HexLowerValue(d: nat)
    requires d < 16
    ensures HexValue(HexLower(d)) == d
  {
  }

  /** Text that may follow a value in written JSON. */
  predicate Follows(rest: string) {
    rest == [] || rest[0] == ',' || rest[0] == ']' || rest[0] == '}'
  }

  lemma EscapeCharRead(c: char, rest: string)
    ensures ParseChars(EscapeChar(c) + rest) == match ParseChars(rest)
      case None => None
      case Some(t) => Some(Step([c] + t.value, t.rest))
  {
    if c == '"' || c == '\\' || c == '\U{0008}' || c == '\U{000C}' || c == '\n' || c == '\r' || c == '\t' {
      ShortEscapeRead(c, rest);
    } else if (c as int) < 0x20 {
      UnicodeEscapeRead(c, rest);
    } else {
      assert (EscapeChar(c) + rest)[1..] == rest;
    }
  }

  /** The two-character escapes. */
  lemma ShortEscapeRead(c: char, rest: string)
    requires c == '"' || c == '\\' || c == '\U{0008}' || c == '\U{000C}' || c == '\n' || c == '\r' || c == '\t'
    ensures ParseChars(EscapeChar(c) + rest) == match ParseChars(rest)
      case None => None
      case Some(t) => Some(Step([c] + t.value, t.rest))
  {
    var s := EscapeChar(c) + rest;
    assert s[1..][1..] == rest;
  }

  /** The `\u00XX` escapes of the other control characters. */
  lemma UnicodeEscapeRead(c: char, rest: string)
    requires (c as int) < 0x20
    requires !(c == '"' || c == '\\' || c == '\U{0008}' || c == '\U{000C}' || c == '\n' || c == '\r' || c == '\t')
    ensures ParseChars(EscapeChar(c) + rest) == match ParseChars(rest)
      case None => None
      case Some(t) => Some(Step([c] + t.value, t.rest))
  {
    var s := EscapeChar(c) + rest;
    var h, l := c as int / 16, c as int % 16;
    HexLowerValue(h);
    HexLowerValue(l);
    assert s[1..][1..][..4] == "00" + [HexLower(h), HexLower(l)];
    assert Hex4(s[1..][1..]) == Some(c as int);
    assert s[1..][5..] == rest;
  }

  /** A written string body is read back up to its closing quote. */
  lemma {:induction false} EscapeRead(text: string, rest: string)
    ensures ParseChars(Escape(text) + "\"" + rest) == Some(Step(text, rest))
  {
    if text == [] {
      assert (Escape(text) + "\"" + rest)[1..] == rest;
    } else {
      var tail := Escape(text[1..]) + "\"" + rest;
      EscapeRead(text[1..], rest);
      EscapeCons(text, "\"" + rest);
      Concat3(Escape(text), "\"", rest);
      Concat3(Escape(text[1..]), "\"", rest);
      EscapeCharRead(text[0], tail);
      assert [text[0]] + text[1..] == text;
    }
  }

  lemma EscapeCons(text: string, after: string)
    requires text != []
    ensures Escape(text) + after == EscapeChar(text[0]) + (Escape(text[1..]) + after)
  {
  }

  /** Concatenation regrouped to the right. */
  lemma Concat3(a: string, b: string, c: string)
    ensures a + b + c == a + (b + c)
  {
  }

  lemma DigitRunFollowed(t: string, rest: string)
    requires Follows(rest)
    ensures DigitRun(t + rest) == DigitRun(t)
  {
    DigitRunAppend(t, rest);
  }

  lemma IntLenAppend(t: string, rest: string)
    requires Follows(rest)
    ensures IntLen(t + rest) == IntLen(t)
  {
    if t != [] {
      DigitRunFollowed(t, rest);
    }
  }

  lemma FracLenAppend(t: string, rest: string)
    requires Follows(rest)
    ensures FracLen(t + rest) == FracLen(t)
  {
    if t != [] {
      assert (t + rest)[1..] == t[1..] + rest;
      DigitRunFollowed(t[1..], rest);
    }
  }

  lemma ExpLenAppend(t: string, rest: string)
    requires Follows(rest)
    ensures ExpLen(t + rest) == ExpLen(t)
  {
    if t != [] && (t[0] == 'e' || t[0] == 'E') {
      var m := if |t| > 1 && (t[1] == '+' || t[1] == '-') then 2 else 1;
      assert (t + rest)[m..] == t[m..] + rest;
      DigitRunFollowed(t[m..], rest);
    }
  }

  lemma FracExpLenAppend(t: string, rest: string)
    requires Follows(rest)
    ensures FracExpLen(t + rest) == FracExpLen(t)
  {
    FracLenAppend(t, rest);
    if FracLen(t).Some? {
      var b := FracLen(t).value;
      assert (t + rest)[b..] == t[b..] + rest;
      ExpLenAppend(t[b..], rest);
    }
    SameFracExpLen(t + rest, t);
  }

  /** Texts whose fractions have the same length and whose tails after it scan alike
      scan alike as a fraction and exponent. */
  lemma SameFracExpLen(u: string, t: string)
    requires FracLen(u) == FracLen(t)
    requires FracLen(t).Some? ==> ExpLen(u[FracLen(t).value..]) == ExpLen(t[FracLen(t).value..])
    ensures FracExpLen(u) == FracExpLen(t)
  {
  }

  lemma UnsignedLenAppend(t: string, rest: string)
    requires Follows(rest)
    ensures UnsignedLen(t + rest) == UnsignedLen(t)
  {
    IntLenAppend(t, rest);
    if IntLen(t).Some? {
      var a := IntLen(t).value;
      assert (t + rest)[a..] == t[a..] + rest;
      FracExpLenAppend(t[a..], rest);
    }
    SameUnsignedLen(t + rest, t);
  }

  /** Texts whose integer parts have the same length and whose tails after it scan
      alike scan alike as unsigned numbers. */
  lemma SameUnsignedLen(u: string, t: string)
    requires IntLen(u) == IntLen(t)
    requires IntLen(t).Some? ==> FracExpLen(u[IntLen(t).value..]) == FracExpLen(t[IntLen(t).value..])
    ensures UnsignedLen(u) == UnsignedLen(t)
  {
  }

  lemma ScanNumberSigned(s: string)
    requires s != [] && s[0] == '-'
    ensures ScanNumber(s) == match UnsignedLen(s[1..])
      case None => None
      case Some(n) => Some(n + 1)
  {
  }

  lemma ScanNumberUnsigned(s: string)
    requires s == [] || s[0] != '-'
    ensures ScanNumber(s) == UnsignedLen(s)
  {
  }

  /** The text after a written value does not change where a number ends. */
  lemma ScanNumberAppend(lex: string, rest: string)
    requires Follows(rest)
    ensures ScanNumber(lex + rest) == ScanNumber(lex)
  {
    var s := lex + rest;
    if lex != [] && lex[0] == '-' {
      assert s[0] == '-' && s[1..] == lex[1..] + rest;
      UnsignedLenAppend(lex[1..], rest);
    } else {
      assert s == [] || s[0] != '-' by {
        if lex == [] { assert s == rest; } else { assert s[0] == lex[0]; }
      }
      UnsignedLenAppend(lex, rest);
    }
    SameScan(s, lex);
  }

  /** Texts that agree on a leading minus and on the unsigned number after it scan alike. */
  lemma SameScan(u: string, t: string)
    requires (u != [] && u[0] == '-') == (t != [] && t[0] == '-')
    requires t != [] && t[0] == '-' ==> UnsignedLen(u[1..]) == UnsignedLen(t[1..])
    requires !(t != [] && t[0] == '-') ==> UnsignedLen(u) == UnsignedLen(t)
    ensures ScanNumber(u) == ScanNumber(t)
  {
  }

  lemma NumberLexemeStart(lex: string)
    requires IsNumberLexeme(lex)
    ensures lex != [] && (lex[0] == '-' || IsDigit(lex[0]))
  {
    if lex[0] == '-' {
      assert lex[1..][0] == lex[1];
    }
  }

  lemma SkipWsNone(s: string)
    requires s == [] || !IsWs(s[0])
    ensures SkipWs(s) == s
  {
  }

  /** Written JSON starts with the first character of a value. */
  lemma SerializeStart(j: Json)
    requires WellFormed(j)
    ensures |Serialize(j)| >= 1
    ensures var c := Serialize(j)[0]; !IsWs(c) && c != ']' && c != '}' && c != ','
  {
    if j.JNum? {
      NumberLexemeStart(j.lexeme);
    }
  }

  lemma BareNumber(s: string)
    requires s != [] && (s[0] == '-' || IsDigit(s[0]))
    ensures ParseBare(s) == ParseNumber(s)
  {
    assert s[0] != 'n' && s[0] != 't' && s[0] != 'f' && s[0] != '"' && s[0] != '[' && s[0] != '{';
  }

  lemma BareString(s: string)
    requires s != [] && s[0] == '"'
    ensures ParseBare(s) == match ParseChars(s[1..])
      case None => None
      case Some(t) => Some(Step(JStr(t.value), t.rest))
  {
  }

  lemma BareArray(s: string)
    requires s != [] && s[0] == '['
    ensures ParseBare(s) == ParseArray(s[1..])
  {
  }

  lemma BareObject(s: string)
    requires s != [] && s[0] == '{'
    ensures ParseBare(s) == ParseObject(s[1..])
  {
  }

  lemma {:induction false} BareRead(j: Json, rest: string)
    requires WellFormed(j) && Follows(rest)
    ensures ParseBare(Serialize(j) + rest) == Some(Step(j, rest))
    decreases j, 1
  {
    match j
    case JNull => LiteralRead(j, rest);
    case JBool(_) => LiteralRead(j, rest);
    case JNum(lexeme) => NumberRead(lexeme, rest);
    case JStr(text) => StringRead(text, rest);
    case JArr(items) => ArrayRead(items, rest);
    case JObj(fields) => ObjectRead(fields, rest);
  }

  lemma LiteralRead(j: Json, rest: string)
    requires j.JNull? || j.JBool?
    ensures ParseBare(Serialize(j) + rest) == Some(Step(j, rest))
  {
    var s := Serialize(j) + rest;
    if j == JBool(false) {
      assert s[..5] == "false" && s[5..] == rest;
    } else {
      assert s[..4] == Serialize(j) && s[4..] == rest;
    }
  }

  lemma StringRead(text: string, rest: string)
    ensures ParseBare(Serialize(JStr(text)) + rest) == Some(Step(JStr(text), rest))
  {
    var s := Serialize(JStr(text)) + rest;
    var body := Escape(text) + "\"" + rest;
    assert s == "\"" + body;
    assert s[1..] == body;
    EscapeRead(text, rest);
    BareString(s);
  }

  lemma NumberRead(lexeme: string, rest: string)
    requires IsNumberLexeme(lexeme) && Follows(rest)
    ensures ParseBare(lexeme + rest) == Some(Step(JNum(lexeme), rest))
  {
    var s := lexeme + rest;
    ScanNumberAppend(lexeme, rest);
    NumberLexemeStart(lexeme);
    assert s[0] == lexeme[0];
    BareNumber(s);
    assert s[..|lexeme|] == lexeme && s[|lexeme|..] == rest;
    assert ParseNumber(s) == Some(Step(JNum(lexeme), rest));
  }

  /** How an array whose first element starts right after `[` is read, on any text. */
  lemma ArraySteps(s: string, e: Step<seq<Json>>)
    requires s != [] && !IsWs(s[0]) && s[0] != ']'
    requires ParseElems(s) == Some(e) && e.rest != [] && e.rest[0] == ']'
    ensures ParseArray(s) == Some(Step(JArr(e.value), e.rest[1..]))
  {
    SkipWsNone(s);
  }

  /** How an object whose first member starts right after `{` is read, on any text. */
  lemma ObjectSteps(s: string, e: Step<seq<Field>>)
    requires s != [] && s[0] == '"'
    requires ParseMembers(s) == Some(e) && e.rest != [] && e.rest[0] == '}'
    ensures ParseObject(s) == Some(Step(JObj(e.value), e.rest[1..]))
  {
    SkipWsNone(s);
  }

  /** Concatenation regrouped to the right. */
  lemma Concat4(a: string, b: string, c: string, d: string)
    ensures a + b + c + d == a + (b + (c + d))
  {
  }

  /** The first character of a text put in front. */
  lemma DropFirst(a: string, s: string)
    requires |a| == 1
    ensures (a + s)[0] == a[0] && (a + s)[1..] == s
  {
  }

  /** An array with at least one element, on any text of its elements. */
  lemma ArrayText(items: seq<Json>, text: string, rest: string)
    requires text != [] && !IsWs(text[0]) && text[0] != ']'
    requires ParseElems(text + ("]" + rest)) == Some(Step(items, "]" + rest))
    ensures ParseBare("[" + (text + ("]" + rest))) == Some(Step(JArr(items), rest))
  {
    var body := text + ("]" + rest);
    DropFirst("[", body);
    BareArray("[" + body);
    DropFirst("]", rest);
    ArraySteps(body, Step(items, "]" + rest));
  }

  /** An object with at least one member, on any text of its members. */
  lemma ObjectText(fields: seq<Field>, text: string, rest: string)
    requires text != [] && text[0] == '"'
    requires ParseMembers(text + ("}" + rest)) == Some(Step(fields, "}" + rest))
    ensures ParseBare("{" + (text + ("}" + rest))) == Some(Step(JObj(fields), rest))
  {
    var body := text + ("}" + rest);
    DropFirst("{", body);
    BareObject("{" + body);
    DropFirst("}", rest);
    ObjectSteps(body, Step(fields, "}" + rest));
  }

  lemma {:induction false} ArrayRead(items: seq<Json>, rest: string)
    requires WellFormed(JArr(items)) && Follows(rest)
    ensures ParseBare(Serialize(JArr(items)) + rest) == Some(Step(JArr(items), rest))
    decreases JArr(items), 0
  {
    var text := SerializeItems(items);
    Concat4("[", text, "]", rest);
    if items == [] {
      DropFirst("[", "]" + rest);
      BareArray("[" + ("]" + rest));
      DropFirst("]", rest);
    } else {
      ItemsRead(items, "]" + rest);
      SerializeStart(items[0]);
      SerializeItemsStart(items);
      assert text[0] == Serialize(items[0])[0];
      ArrayText(items, text, rest);
    }
  }

  lemma {:induction false} ObjectRead(fields: seq<Field>, rest: string)
    requires WellFormed(JObj(fields)) && Follows(rest)
    ensures ParseBare(Serialize(JObj(fields)) + rest) == Some(Step(JObj(fields), rest))
    decreases JObj(fields), 0
  {
    var text := SerializeFields(fields);
    Concat4("{", text, "}", rest);
    if fields == [] {
      DropFirst("{", "}" + rest);
      BareObject("{" + ("}" + rest));
      DropFirst("}", rest);
    } else {
      MembersRead(fields, "}" + rest);
      SerializeFieldsStart(fields);
      ObjectText(fields, text, rest);
    }
  }

  lemma SerializeItemsStart(items: seq<Json>)
    requires |items| >= 1
    ensures |SerializeItems(items)| >= |Serialize(items[0])|
    ensures SerializeItems(items)[..|Serialize(items[0])|] == Serialize(items[0])
  {
  }

  lemma SerializeFieldsStart(fields: seq<Field>)
    requires |fields| >= 1
    ensures |SerializeFields(fields)| >= 1 && SerializeFields(fields)[0] == '"'
  {
  }

  lemma {:induction false} ElementRead(j: Json, rest: string)
    requires WellFormed(j) && Follows(rest)
    ensures ParseElement(Serialize(j) + rest) == Some(Step(j, rest))
    decreases j, 2
  {
    SerializeStart(j);
    SkipWsNone(Serialize(j) + rest);
    SkipWsNone(rest);
    BareRead(j, rest);
  }

  /** An element followed by a comma and more elements, on any text. */
  lemma ElemsCons(s: string, e: Step<Json>, t: Step<seq<Json>>)
    requires ParseElement(s) == Some(e) && e.rest != [] && e.rest[0] == ','
    requires ParseElems(e.rest[1..]) == Some(t)
    ensures ParseElems(s) == Some(Step([e.value] + t.value, t.rest))
  {
  }

  /** An element followed by no comma ends the elements, on any text. */
  lemma ElemsOne(s: string, e: Step<Json>)
    requires ParseElement(s) == Some(e) && !(e.rest != [] && e.rest[0] == ',')
    ensures ParseElems(s) == Some(Step([e.value], e.rest))
  {
  }

  lemma {:induction false} ItemsRead(items: seq<Json>, rest: string)
    requires |items| >= 1
    requires forall i :: 0 <= i < |items| ==> WellFormed(items[i])
    requires rest != [] && (rest[0] == ']' || rest[0] == '}')
    ensures ParseElems(SerializeItems(items) + rest) == Some(Step(items, rest))
    decreases items
  {
    if |items| == 1 {
      ElementRead(items[0], rest);
      ElemsOne(Serialize(items[0]) + rest, Step(items[0], rest));
      assert [items[0]] == items;
    } else {
      var tailText := SerializeItems(items[1..]);
      var after := "," + (tailText + rest);
      Concat4(Serialize(items[0]), ",", tailText, rest);
      DropFirst(",", tailText + rest);
      ElementRead(items[0], after);
      ItemsRead(items[1..], rest);
      ElemsCons(Serialize(items[0]) + after, Step(items[0], after), Step(items[1..], rest));
      assert [items[0]] + items[1..] == items;
    }
  }

  /** How a member is read, stated on any text. */
  lemma MemberSteps(s: string, k: Step<string>, v: Step<Json>)
    requires s != [] && s[0] == '"'
    requires ParseChars(s[1..]) == Some(k)
    requires k.rest != [] && k.rest[0] == ':'
    requires ParseElement(k.rest[1..]) == Some(v)
    ensures ParseMember(s) == Some(Step(Field(k.value, v.value), v.rest))
  {
    SkipWsNone(s);
    SkipWsNone(k.rest);
  }

  /** A member followed by a comma and more members, on any text. */
  lemma MembersCons(s: string, m: Step<Field>, t: Step<seq<Field>>)
    requires ParseMember(s) == Some(m) && m.rest != [] && m.rest[0] == ','
    requires ParseMembers(m.rest[1..]) == Some(t)
    ensures ParseMembers(s) == Some(Step([m.value] + t.value, t.rest))
  {
  }

  /** A member followed by no comma ends the members, on any text. */
  lemma MembersOne(s: string, m: Step<Field>)
    requires ParseMember(s) == Some(m) && !(m.rest != [] && m.rest[0] == ',')
    ensures ParseMembers(s) == Some(Step([m.value], m.rest))
  {
  }

  /** A quoted key is read back up to its closing quote. */
  lemma QuotedKey(key: string, after: string)
    ensures var s := Quote(key) + after;
      s != [] && s[0] == '"' && ParseChars(s[1..]) == Some(Step(key, after))
  {
    var s := Quote(key) + after;
    assert s == "\"" + (Escape(key) + "\"" + after);
    EscapeRead(key, after);
  }

  /** A member is read back from its key and the text of its value. */
  lemma MemberText(key: string, valueText: string, v: Json, rest: string)
    requires ParseElement(valueText + rest) == Some(Step(v, rest))
    ensures ParseMember(Quote(key) + ":" + valueText + rest) == Some(Step(Field(key, v), rest))
  {
    var after := ":" + (valueText + rest);
    Concat4(Quote(key), ":", valueText, rest);
    QuotedKey(key, after);
    DropFirst(":", valueText + rest);
    MemberSteps(Quote(key) + after, Step(key, after), Step(v, rest));
  }

  lemma {:induction false} MemberRead(f: Field, rest: string)
    requires WellFormed(f.value) && Follows(rest)
    ensures ParseMember(SerializeField(f) + rest) == Some(Step(f, rest))
    decreases f, 0
  {
    ElementRead(f.value, rest);
    MemberText(f.key, Serialize(f.value), f.value, rest);
  }

  lemma {:induction false} MembersRead(fields: seq<Field>, rest: string)
    requires |fields| >= 1
    requires forall i :: 0 <= i < |fields| ==> WellFormed(fields[i].value)
    requires rest != [] && (rest[0] == ']' || rest[0] == '}')
    ensures ParseMembers(SerializeFields(fields) + rest) == Some(Step(fields, rest))
    decreases fields
  {
    if |fields| == 1 {
      MemberRead(fields[0], rest);
      MembersOne(SerializeField(fields[0]) + rest, Step(fields[0], rest));
      assert [fields[0]] == fields;
    } else {
      var tailText := SerializeFields(fields[1..]);
      var after := "," + (tailText + rest);
      Concat4(SerializeField(fields[0]), ",", tailText, rest);
      DropFirst(",", tailText + rest);
      MemberRead(fields[0], after);
      MembersRead(fields[1..], rest);
      MembersCons(SerializeField(fields[0]) + after, Step(fields[0], after), Step(fields[1..], rest));
      assert [fields[0]] + fields[1..] == fields;
    }
  }

  /** `JSON.parse(JSON.stringify(j))` gives j back. */
  lemma ParseSerialize(j: Json)
    requires WellFormed(j)
    ensures Parse(Serialize(j)) == Some(j)
  {
    ElementRead(j, "");
    assert Serialize(j) + "" == Serialize(j);
  }
}
