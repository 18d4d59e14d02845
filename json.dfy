/** JSON text as the two ends of the recommendation bridge see it: JavaScript's `JSON.parse`
    (a recogniser for the JSON grammar of ECMA-404 that builds a value) and the string
    encoder of Python's `json.dumps` with its default `ensure_ascii=True`. The round trip
    between them is proved for the one shape the script prints. */
module Json {
  import opened Wrappers
  import opened Strings

  /** A parsed JSON value. Numbers keep their lexeme: nothing here depends on their value. */
  datatype Json =
    | JNull
    | JBool(b: bool)
    | JNumber(lexeme: string)
    | JString(s: string)
    | JArray(items: seq<Json>)
    | JObject(members: seq<(string, Json)>)

  // ----- JSON.parse -----

  /** The four whitespace characters JSON allows between tokens. */
  predicate IsJsonSpace(c: char) {
    c == ' ' || c == '\t' || c == '\n' || c == '\r'
  }

  function SkipSpace(s: string): (r: string)
    ensures |r| <= |s|
    ensures r == [] || !IsJsonSpace(r[0])
  {
    if s != [] && IsJsonSpace(s[0]) then SkipSpace(s[1..]) else s
  }

  predicate IsDigit(c: char) {
    '0' <= c <= '9'
  }

  /** The length of the longest run of decimal digits at the start of `s`. */
  function DigitRun(s: string): (n: nat)
    ensures n <= |s|
    ensures forall i :: 0 <= i < n ==> IsDigit(s[i])
    ensures n == |s| || !IsDigit(s[n])
  {
    if s != [] && IsDigit(s[0]) then 1 + DigitRun(s[1..]) else 0
  }

  /** The length of the `.digits` part of a number, if any; `None` for a dot without digits. */
  function FractionLength(s: string): (r: Option<nat>)
    ensures r.Some? ==> r.value <= |s|
  {
    if s == [] || s[0] != '.' then Some(0)
    else
      var d := DigitRun(s[1..]);
      if d == 0 then None else Some(1 + d)
  }

  /** The length of the `e[+-]digits` part of a number, if any; `None` for an exponent
      marker without digits. */
  function ExponentLength(s: string): (r: Option<nat>)
    ensures r.Some? ==> r.value <= |s|
  {
    if s == [] || (s[0] != 'e' && s[0] != 'E') then Some(0)
    else
      var sign := if |s| > 1 && (s[1] == '+' || s[1] == '-') then 1 else 0;
      var d := DigitRun(s[1 + sign..]);
      if d == 0 then None else Some(1 + sign + d)
  }

  /** The length of the number token `-? (0 | [1-9][0-9]*) frac? exp?` at the start of `s`. */
  function NumberLength(s: string): (r: Option<nat>)
    ensures r.Some? ==> 0 < r.value <= |s|
  {
    var sign := if s != [] && s[0] == '-' then 1 else 0;
    var t := s[sign..];
    if t == [] || !IsDigit(t[0]) then None
    else
      var whole := if t[0] == '0' then 1 else DigitRun(t);
      var f := FractionLength(t[whole..]);
      if f.None? then None
      else
        var e := ExponentLength(t[whole + f.value..]);
        if e.None? then None else Some(sign + whole + f.value + e.value)
  }

  function HexValue(c: char): (r: Option<nat>)
    ensures r.Some? ==> r.value < 16
  {
    if '0' <= c <= '9' then Some(c as int - '0' as int)
    else if 'a' <= c <= 'f' then Some(c as int - 'a' as int + 10)
    else if 'A' <= c <= 'F' then Some(c as int - 'A' as int + 10)
    else None
  }

  /** The value of the four hexadecimal digits `s[i..i+4]`. */
  function Hex4At(s: string, i: nat): (r: Option<nat>)
    ensures r.Some? ==> i + 4 <= |s| && r.value < 0x10000
  {
    if i + 4 > |s| then None
    else
      var a, b, c, d := HexValue(s[i]), HexValue(s[i + 1]), HexValue(s[i + 2]), HexValue(s[i + 3]);
      if a.Some? && b.Some? && c.Some? && d.Some? then
        Some(a.value * 4096 + b.value * 256 + c.value * 16 + d.value)
      else None
  }

  /** The escape sequence at the start of `s` (which starts with a backslash): the character
      it stands for and how many characters it takes. A `\u` escape of a surrogate combines
      with a following low-surrogate escape; a surrogate left alone has no character. */
  function Unescape(s: string): (r: Option<(char, nat)>)
    requires s != [] && s[0] == '\\'
    ensures r.Some? ==> 2 <= r.value.1 <= |s|
  {
    if |s| < 2 then None
    else if s[1] == '"' then Some(('"', 2))
    else if s[1] == '\\' then Some(('\\', 2))
    else if s[1] == '/' then Some(('/', 2))
    else if s[1] == 'b' then Some(('\U{8}', 2))
    else if s[1] == 'f' then Some(('\U{C}', 2))
    else if s[1] == 'n' then Some(('\n', 2))
    else if s[1] == 'r' then Some(('\r', 2))
    else if s[1] == 't' then Some(('\t', 2))
    else if s[1] == 'u' then
      var v := Hex4At(s, 2);
      if v.None? then None
      else if v.value < 0xD800 || 0xDFFF < v.value then Some((v.value as char, 6))
      else if v.value <= 0xDBFF && |s| >= 12 && s[6] == '\\' && s[7] == 'u' then
        var w := Hex4At(s, 8);
        if w.Some? && 0xDC00 <= w.value <= 0xDFFF then
          Some(((0x10000 + (v.value - 0xD800) * 0x400 + (w.value - 0xDC00)) as char, 12))
        else None
      else None
    else None
  }

  /** A string literal's characters up to and including its closing quote (the opening quote
      is already consumed): the decoded text and what follows the literal. */
  function ParseStringBody(s: string): (r: Option<(string, string)>)
    ensures r.Some? ==> |r.value.1| < |s|
  {
    if s == [] then None
    else if s[0] == '"' then Some(("", s[1..]))
    else if s[0] == '\\' then
      var e := Unescape(s);
      if e.None? then None else Prepend(e.value.0, ParseStringBody(s[e.value.1..]))
    else if s[0] < ' ' then None
    else Prepend(s[0], ParseStringBody(s[1..]))
  }

  /** The result of parsing the rest of a literal, with `c` put in front of the text. */
  function Prepend(c: char, r: Option<(string, string)>): (r': Option<(string, string)>)
    ensures r'.Some? <==> r.Some?
    ensures r'.Some? ==> r'.value == ([c] + r.value.0, r.value.1)
  {
    if r.None? then None else Some(([c] + r.value.0, r.value.1))
  }

  /** One JSON value at the very start of `s`, and the text after it. */
  function ParseValue(s: string): (r: Option<(Json, string)>)
    ensures r.Some? ==> |r.value.1| < |s|
    decreases |s|, 0
  {
    if s == [] then None
    else if s[0] == '{' then ParseObject(s[1..])
    else if s[0] == '[' then ParseArray(s[1..])
    else if s[0] == '"' then
      var t := ParseStringBody(s[1..]);
      if t.None? then None else Some((JString(t.value.0), t.value.1))
    else if StartsWith(s, "true") then Some((JBool(true), s[4..]))
    else if StartsWith(s, "false") then Some((JBool(false), s[5..]))
    else if StartsWith(s, "null") then Some((JNull, s[4..]))
    else
      var n := NumberLength(s);
      if n.None? then None else Some((JNumber(s[..n.value]), s[n.value..]))
  }

  /** An array after its opening bracket. */
  function ParseArray(s: string): (r: Option<(Json, string)>)
    ensures r.Some? ==> |r.value.1| < |s|
    decreases |s|, 3
  {
    var t := SkipSpace(s);
    if t != [] && t[0] == ']' then Some((JArray([]), t[1..]))
    else
      var items := ParseItems(t);
      if items.None? then None else Some((JArray(items.value.0), items.value.1))
  }

  /** The elements of a non-empty array and its closing bracket. */
  function ParseItems(s: string): (r: Option<(seq<Json>, string)>)
    ensures r.Some? ==> |r.value.1| < |s|
    decreases |s|, 2
  {
    var v := ParseValue(SkipSpace(s));
    if v.None? then None
    else
      var u := SkipSpace(v.value.1);
      if u == [] then None
      else if u[0] == ']' then Some(([v.value.0], u[1..]))
      else if u[0] == ',' then
        var more := ParseItems(u[1..]);
        if more.None? then None else Some(([v.value.0] + more.value.0, more.value.1))
      else None
  }

  /** An object after its opening brace. */
  function ParseObject(s: string): (r: Option<(Json, string)>)
    ensures r.Some? ==> |r.value.1| < |s|
    decreases |s|, 3
  {
    var t := SkipSpace(s);
    if t != [] && t[0] == '}' then Some((JObject([]), t[1..]))
    else
      var members := ParseMembers(t);
      if members.None? then None else Some((JObject(members.value.0), members.value.1))
  }

  /** One `"key": value` member, and the text after the value. */
  function ParseMember(s: string): (r: Option<((string, Json), string)>)
    ensures r.Some? ==> |r.value.1| < |s|
    decreases |s|, 1
  {
    var t := SkipSpace(s);
    if t == [] || t[0] != '"' then None
    else
      var key := ParseStringBody(t[1..]);
      if key.None? then None
      else
        var u := SkipSpace(key.value.1);
        if u == [] || u[0] != ':' then None
        else
          var v := ParseValue(SkipSpace(u[1..]));
          if v.None? then None
          else Some(((key.value.0, v.value.0), v.value.1))
  }

  /** The members of a non-empty object, in order, and its closing brace. */
  function ParseMembers(s: string): (r: Option<(seq<(string, Json)>, string)>)
    ensures r.Some? ==> |r.value.1| < |s|
    decreases |s|, 2
  {
    var m := ParseMember(s);
    if m.None? then None
    else
      var w := SkipSpace(m.value.1);
      if w == [] then None
      else if w[0] == '}' then Some(([m.value.0], w[1..]))
      else if w[0] == ',' then
        var more := ParseMembers(w[1..]);
        if more.None? then None else Some(([m.value.0] + more.value.0, more.value.1))
      else None
  }

  /** `JSON.parse(text)`: `None` where it throws a SyntaxError. The whole text must be one
      value with optional whitespace around it. */
  function Parse(text: string): (r: Option<Json>)
    ensures r.Some? ==> SkipSpace(text) != []
  {
    var v := ParseValue(SkipSpace(text));
    if v.Some? && SkipSpace(v.value.1) == [] then Some(v.value.0) else None
  }

  /** `obj.key` on a parsed value: the value of the last member named `key` (later
      duplicates overwrite earlier ones), `None` for JavaScript's `undefined`. Only objects
      have the member; strings, numbers, booleans and arrays give `undefined`. (Reading a
      member of `null` throws; callers deal with `JNull` before asking.) */
  function Member(v: Json, key: string): (r: Option<Json>)
    ensures v.JObject? && r.Some? ==>
      exists i :: 0 <= i < |v.members| && v.members[i] == (key, r.value) &&
        forall j :: i < j < |v.members| ==> v.members[j].0 != key
    ensures v.JObject? ==> (r.None? <==> forall i :: 0 <= i < |v.members| ==> v.members[i].0 != key)
    ensures !v.JObject? ==> r.None?
  {
    match v
    case JObject(ms) => LastBinding(ms, key)
    case _ => None
  }

  /** The value of the last member named `key`, if any. */
  function LastBinding(ms: seq<(string, Json)>, key: string): (r: Option<Json>)
    ensures r.Some? ==>
      exists i :: 0 <= i < |ms| && ms[i] == (key, r.value) && forall j :: i < j < |ms| ==> ms[j].0 != key
    ensures r.None? <==> forall i :: 0 <= i < |ms| ==> ms[i].0 != key
  {
    if ms == [] then None
    else if ms[|ms| - 1].0 == key then
      assert ms[|ms| - 1] == (key, ms[|ms| - 1].1);
      Some(ms[|ms| - 1].1)
    else
      var init := ms[..|ms| - 1];
      var r := LastBinding(init, key);
      LastBindingPastOther(ms, init, key, r);
      r
  }

  /** A last member with another name leaves the last binding of `key` where it was. */
  lemma LastBindingPastOther(ms: seq<(string, Json)>, init: seq<(string, Json)>, key: string, r: Option<Json>)
    requires ms != [] && init == ms[..|ms| - 1] && ms[|ms| - 1].0 != key
    requires r.Some? ==>
      exists i :: 0 <= i < |init| && init[i] == (key, r.value) && forall j :: i < j < |init| ==> init[j].0 != key
    requires r.None? <==> forall i :: 0 <= i < |init| ==> init[i].0 != key
    ensures r.Some? ==>
      exists i :: 0 <= i < |ms| && ms[i] == (key, r.value) && forall j :: i < j < |ms| ==> ms[j].0 != key
    ensures r.None? <==> forall i :: 0 <= i < |ms| ==> ms[i].0 != key
  {
    if r.Some? {
      var i :| 0 <= i < |init| && init[i] == (key, r.value) && forall j :: i < j < |init| ==> init[j].0 != key;
      assert ms[i] == init[i];
      forall j | i < j < |ms| ensures ms[j].0 != key {
        if j < |init| { assert ms[j] == init[j]; }
      }
    } else {
      forall i | 0 <= i < |ms| ensures ms[i].0 != key {
        if i < |init| { assert ms[i] == init[i]; }
      }
    }
  }

  // ----- Python's json.dumps -----

  function HexDigitChar(d: nat): (c: char)
    requires d < 16
    ensures HexValue(c) == Some(d)
    ensures '0' <= c <= '9' || 'a' <= c <= 'f'
  {
    if d < 10 then ('0' as int + d) as char else ('a' as int + d - 10) as char
  }

  /** `'{0:04x}'.format(v)`: four lower-case hexadecimal digits, most significant first. */
  function Hex4Text(v: nat): (r: string)
    requires v < 0x10000
    ensures |r| == 4 && Hex4At(r, 0) == Some(v)
    ensures forall i :: 0 <= i < 4 ==> ' ' <= r[i] <= '~'
  {
    var q1 := v / 16;
    var q2 := q1 / 16;
    var r := [HexDigitChar(q2 / 16), HexDigitChar(q2 % 16), HexDigitChar(q1 % 16), HexDigitChar(v % 16)];
    assert Hex4At(r, 0) == Some((q2 / 16) * 4096 + (q2 % 16) * 256 + (q1 % 16) * 16 + v % 16);
    r
  }

  /** How `json.dumps` writes one character of a string with `ensure_ascii=True`: the seven
      short escapes, printable ASCII as itself, anything else as `\uXXXX`, and characters
      beyond the Basic Multilingual Plane as a UTF-16 surrogate pair of such escapes. */
  function EscapeChar(c: char): string {
    if IsShortEscaped(c) then ShortEscape(c)
    else if ' ' <= c <= '~' then [c]
    else if (c as int) < 0x10000 then UnicodeEscape(c as int)
    else SurrogatePairEscape(c as int)
  }

  /** The characters with a two-character escape of their own. */
  predicate IsShortEscaped(c: char) {
    c == '"' || c == '\\' || c == '\n' || c == '\r' || c == '\t' || c == '\U{8}' || c == '\U{C}'
  }

  function ShortEscape(c: char): (r: string)
    requires IsShortEscaped(c)
    ensures |r| == 2 && r[0] == '\\'
  {
    if c == '"' then "\\\""
    else if c == '\\' then "\\\\"
    else if c == '\n' then "\\n"
    else if c == '\r' then "\\r"
    else if c == '\t' then "\\t"
    else if c == '\U{8}' then "\\b"
    else "\\f"
  }

  /** `\uXXXX` for a code point of the Basic Multilingual Plane. */
  function UnicodeEscape(v: nat): (r: string)
    requires v < 0x10000
  {
    "\\u" + Hex4Text(v)
  }

  /** The UTF-16 surrogate pair of a code point beyond the Basic Multilingual Plane, each half
      as a `\uXXXX` escape. */
  function SurrogatePairEscape(v: nat): (r: string)
    requires 0x10000 <= v <= 0x10FFFF
  {
    UnicodeEscape(HighSurrogate(v)) + UnicodeEscape(LowSurrogate(v))
  }

  function HighSurrogate(v: nat): (r: nat)
    requires 0x10000 <= v <= 0x10FFFF
    ensures 0xD800 <= r <= 0xDBFF
  {
    0xD800 + (v - 0x10000) / 0x400
  }

  function LowSurrogate(v: nat): (r: nat)
    requires 0x10000 <= v <= 0x10FFFF
    ensures 0xDC00 <= r <= 0xDFFF
  {
    0xDC00 + (v - 0x10000) % 0x400
  }

  /** The characters of a string literal as `json.dumps` writes them, between the quotes. */
  function EncodeChars(s: string): string {
    if s == [] then "" else EscapeChar(s[0]) + EncodeChars(s[1..])
  }

  /** `json.dumps(s)` for a string. */
  function DumpString(s: string): string {
    "\"" + EncodeChars(s) + "\""
  }

  /** `json.dumps({key: value})` for a one-entry dictionary of strings, with the default
      separators `', '` and `': '`. */
  function DumpStringObject(key: string, value: string): string {
    "{" + DumpString(key) + ": " + DumpString(value) + "}"
  }

  // ----- the round trip -----

  /** Every character `json.dumps` writes is printable ASCII, so an encoded string never
      contains a line break. */
  lemma {:induction false} EncodedIsPrintable(s: string)
    ensures Printable(EncodeChars(s))
  {
    if s != [] {
      EncodedIsPrintable(s[1..]);
      EscapeCharPrintable(s[0]);
      PrintableConcat(EscapeChar(s[0]), EncodeChars(s[1..]));
    }
  }

  ghost predicate Printable(s: string) {
    forall i :: 0 <= i < |s| ==> ' ' <= s[i] <= '~'
  }

  lemma PrintableConcat(a: string, b: string)
    requires Printable(a) && Printable(b)
    ensures Printable(a + b)
  {
  }

  lemma EscapeCharPrintable(c: char)
    ensures Printable(EscapeChar(c))
  {
    if !IsShortEscaped(c) && !(' ' <= c <= '~') {
      if (c as int) < 0x10000 {
        UnicodeEscapePrintable(c as int);
      } else {
        UnicodeEscapePrintable(HighSurrogate(c as int));
        UnicodeEscapePrintable(LowSurrogate(c as int));
      }
    }
  }

  lemma UnicodeEscapePrintable(v: nat)
    requires v < 0x10000
    ensures Printable(UnicodeEscape(v))
  {
    var h := Hex4Text(v);
    assert UnicodeEscape(v) == ['\\', 'u', h[0], h[1], h[2], h[3]];
  }

  /** The line `json.dumps` writes for a one-entry dictionary is printable ASCII, so it
      holds no line break. */
  lemma DumpedObjectHasNoNewline(key: string, value: string)
    ensures '\n' !in DumpStringObject(key, value)
  {
    EncodedIsPrintable(key);
    EncodedIsPrintable(value);
    var k := DumpString(key);
    var v := DumpString(value);
    PrintableConcat("\"", EncodeChars(key));
    PrintableConcat("\"" + EncodeChars(key), "\"");
    PrintableConcat("\"", EncodeChars(value));
    PrintableConcat("\"" + EncodeChars(value), "\"");
    PrintableConcat("{", k);
    PrintableConcat("{" + k, ": ");
    PrintableConcat("{" + k + ": ", v);
    PrintableConcat("{" + k + ": " + v, "}");
  }

  /** Decoding one escape written by `json.dumps` gives the character back and goes on after it. */
  lemma EscapeCharDecodes(c: char, tail: string)
    ensures ParseStringBody(EscapeChar(c) + tail) == Prepend(c, ParseStringBody(tail))
  {
    if IsShortEscaped(c) {
      ShortEscapeDecodes(c, tail);
    } else if ' ' <= c <= '~' {
      var s := EscapeChar(c) + tail;
      assert s[1..] == tail;
    } else if (c as int) < 0x10000 {
      UnicodeEscapeDecodes(c, tail);
    } else {
      SurrogatePairDecodes(c, tail);
    }
  }

  lemma ShortEscapeDecodes(c: char, tail: string)
    requires IsShortEscaped(c)
    ensures ParseStringBody(ShortEscape(c) + tail) == Prepend(c, ParseStringBody(tail))
  {
    var s := ShortEscape(c) + tail;
    assert s[2..] == tail;
    assert Unescape(s) == Some((c, 2));
    ParseStringBodyEscape(s, c, 2);
  }

  lemma UnicodeEscapeDecodes(c: char, tail: string)
    requires !IsShortEscaped(c) && !(' ' <= c <= '~') && (c as int) < 0x10000
    ensures ParseStringBody(UnicodeEscape(c as int) + tail) == Prepend(c, ParseStringBody(tail))
  {
    var h := Hex4Text(c as int);
    var s := UnicodeEscape(c as int) + tail;
    assert s == "\\u" + h + tail;
    Hex4AtShift(h, "\\u", tail);
    assert Unescape(s) == Some((c, 6));
    assert s[6..] == tail;
    ParseStringBodyEscape(s, c, 6);
  }

  lemma SurrogatePairDecodes(c: char, tail: string)
    requires (c as int) >= 0x10000
    ensures ParseStringBody(SurrogatePairEscape(c as int) + tail) == Prepend(c, ParseStringBody(tail))
  {
    var hi, lo := HighSurrogate(c as int), LowSurrogate(c as int);
    var s := UnicodeEscape(hi) + UnicodeEscape(lo) + tail;
    PairEscapeLayout(hi, lo, tail);
    UnescapePair(s, c);
    ParseStringBodyEscape(s, c, 12);
  }

  /** Where the pieces of `\uHHHH\uLLLL` stand. */
  lemma PairEscapeLayout(hi: nat, lo: nat, tail: string)
    requires hi < 0x10000 && lo < 0x10000
    ensures var s := UnicodeEscape(hi) + UnicodeEscape(lo) + tail;
      |s| >= 12 && s[0] == '\\' && s[1] == 'u' && s[6] == '\\' && s[7] == 'u' &&
      Hex4At(s, 2) == Some(hi) && Hex4At(s, 8) == Some(lo) && s[12..] == tail
  {
    var h1, h2 := Hex4Text(hi), Hex4Text(lo);
    var s := UnicodeEscape(hi) + UnicodeEscape(lo) + tail;
    assert s == "\\u" + h1 + ("\\u" + h2 + tail);
    Hex4AtShift(h1, "\\u", "\\u" + h2 + tail);
    assert s == ("\\u" + h1 + "\\u") + h2 + tail;
    Hex4AtShift(h2, "\\u" + h1 + "\\u", tail);
  }

  /** One step of `ParseStringBody` over an escape sequence. */
  lemma ParseStringBodyEscape(s: string, c: char, n: nat)
    requires s != [] && s[0] == '\\' && Unescape(s) == Some((c, n))
    ensures n <= |s| && ParseStringBody(s) == Prepend(c, ParseStringBody(s[n..]))
  {
  }

  /** What `Unescape` makes of the surrogate-pair escape of `c`. */
  lemma UnescapePair(s: string, c: char)
    requires (c as int) >= 0x10000
    requires |s| >= 12 && s[0] == '\\' && s[1] == 'u' && s[6] == '\\' && s[7] == 'u'
    requires Hex4At(s, 2) == Some(HighSurrogate(c as int)) && Hex4At(s, 8) == Some(LowSurrogate(c as int))
    ensures Unescape(s) == Some((c, 12))
  {
    SurrogateArithmetic(c as int);
  }

  lemma SurrogateArithmetic(v: nat)
    requires 0x10000 <= v <= 0x10FFFF
    ensures 0x10000 + (HighSurrogate(v) - 0xD800) * 0x400 + (LowSurrogate(v) - 0xDC00) == v
  {
  }

  /** Reading four hex digits is the same wherever they stand. */
  lemma Hex4AtShift(h: string, before: string, after: string)
    requires |h| == 4
    ensures Hex4At(before + h + after, |before|) == Hex4At(h, 0)
  {
    var s := before + h + after;
    assert s[|before|] == h[0] && s[|before| + 1] == h[1] && s[|before| + 2] == h[2] && s[|before| + 3] == h[3];
  }

  /** The characters `json.dumps` writes for a string, followed by the closing quote, decode
      to exactly that string, and parsing goes on right after the quote. */
  lemma {:induction false} EncodedCharsDecode(s: string, rest: string)
    ensures ParseStringBody(EncodeChars(s) + "\"" + rest) == Some((s, rest))
  {
    if s == [] {
      assert EncodeChars(s) + "\"" + rest == "\"" + rest;
      assert ("\"" + rest)[1..] == rest;
    } else {
      EncodedCharsDecode(s[1..], rest);
      assert EncodeChars(s) + "\"" + rest == EscapeChar(s[0]) + (EncodeChars(s[1..]) + "\"" + rest);
      EscapeCharDecodes(s[0], EncodeChars(s[1..]) + "\"" + rest);
      assert [s[0]] + s[1..] == s;
      assert Prepend(s[0], Some((s[1..], rest))) == Some((s, rest));
    }
  }

  /** How `ParseValue` reads a string literal. */
  lemma ParseValueOfString(s: string, text: string, tail: string)
    requires s != [] && s[0] == '"' && ParseStringBody(s[1..]) == Some((text, tail))
    ensures ParseValue(s) == Some((JString(text), tail))
  {
  }

  /** How `ParseMember` reads `"key": value` written with one space after the colon. */
  lemma ParseMemberOf(s: string, key: string, afterKey: string, v: Json, tail: string)
    requires s != [] && s[0] == '"' && ParseStringBody(s[1..]) == Some((key, afterKey))
    requires |afterKey| >= 3 && afterKey[0] == ':' && afterKey[1] == ' ' && !IsJsonSpace(afterKey[2])
    requires ParseValue(afterKey[2..]) == Some((v, tail))
    ensures ParseMember(s) == Some(((key, v), tail))
  {
    assert SkipSpace(s) == s;
    assert SkipSpace(afterKey) == afterKey;
    var rest := afterKey[1..];
    assert rest[1..] == afterKey[2..];
    assert SkipSpace(afterKey[2..]) == afterKey[2..];
    assert SkipSpace(rest) == afterKey[2..];
  }

  /** How `Parse` reads an object whose single member ends right before the closing brace. */
  lemma ParseSingleMemberObject(line: string, m: (string, Json))
    requires |line| >= 2 && line[0] == '{' && line[1] == '"'
    requires ParseMember(line[1..]) == Some((m, "}"))
    ensures Parse(line) == Some(JObject([m]))
  {
    SingleMemberList(line[1..], m);
    ObjectOfMembers(line[1..], [m]);
    ParseOfObject(line, JObject([m]));
  }

  lemma SingleMemberList(body: string, m: (string, Json))
    requires ParseMember(body) == Some((m, "}"))
    ensures ParseMembers(body) == Some(([m], ""))
  {
    assert SkipSpace("}") == "}" && "}"[1..] == "";
  }

  lemma ObjectOfMembers(body: string, ms: seq<(string, Json)>)
    requires body != [] && body[0] == '"' && ParseMembers(body) == Some((ms, ""))
    ensures ParseObject(body) == Some((JObject(ms), ""))
  {
    assert SkipSpace(body) == body;
  }

  lemma ParseOfObject(line: string, v: Json)
    requires line != [] && line[0] == '{' && ParseObject(line[1..]) == Some((v, ""))
    ensures Parse(line) == Some(v)
  {
    assert SkipSpace(line) == line;
    assert ParseValue(line) == Some((v, ""));
  }

  /** A string literal written by `json.dumps`, then `tail`: after its opening quote, the
      literal's characters decode to the string and parsing goes on at `tail`. */
  lemma DumpedStringBody(value: string, tail: string)
    ensures DumpString(value) + tail != [] && (DumpString(value) + tail)[0] == '"'
    ensures ParseStringBody((DumpString(value) + tail)[1..]) == Some((value, tail))
  {
    var s := DumpString(value) + tail;
    assert s == "\"" + (EncodeChars(value) + "\"" + tail);
    assert s[1..] == EncodeChars(value) + "\"" + tail;
    EncodedCharsDecode(value, tail);
  }

  /** A string literal written by `json.dumps`, then `tail`, parses as that string. */
  lemma DumpedStringParses(value: string, tail: string)
    ensures ParseValue(DumpString(value) + tail) == Some((JString(value), tail))
  {
    DumpedStringBody(value, tail);
    ParseValueOfString(DumpString(value) + tail, value, tail);
  }

  /** `JSON.parse` of what `json.dumps({key: value})` prints is an object with exactly that
      one member. */
  lemma DumpedObjectParses(key: string, value: string)
    ensures Parse(DumpStringObject(key, value)) == Some(JObject([(key, JString(value))]))
  {
    var vt := DumpString(value) + "}";
    var afterKey := ": " + vt;
    var body := DumpString(key) + afterKey;
    DumpedStringBody(key, afterKey);
    DumpedStringParses(value, "}");
    DumpedStringBody(value, "}");
    var line := DumpStringObject(key, value);
    ObjectLayout(DumpString(key), DumpString(value));
    ObjectLineParses(line, body, key, afterKey, vt, JString(value));
  }

  lemma ObjectLayout(k: string, v: string)
    ensures "{" + k + ": " + v + "}" == "{" + (k + (": " + (v + "}")))
  {
    assert "{" + k + ": " + v + "}" == "{" + (k + ": " + v + "}");
    assert k + ": " + v + "}" == k + (": " + v + "}");
    assert ": " + v + "}" == ": " + (v + "}");
  }

  /** The layout `{"key": value}` as `json.dumps` writes it, stated on the parts of the line. */
  lemma ObjectLineParses(line: string, body: string, key: string, afterKey: string, vt: string, v: Json)
    requires line == "{" + body && body != [] && body[0] == '"'
    requires ParseStringBody(body[1..]) == Some((key, afterKey))
    requires afterKey == ": " + vt && vt != [] && vt[0] == '"'
    requires ParseValue(vt) == Some((v, "}"))
    ensures Parse(line) == Some(JObject([(key, v)]))
  {
    assert afterKey[2..] == vt;
    ParseMemberOf(body, key, afterKey, v, "}");
    assert line[1..] == body;
    ParseSingleMemberObject(line, (key, v));
  }

  /** The characters a JSON value can begin with: a brace, a bracket, a quote, a minus sign,
      a digit, or the first letter of `true`, `false` or `null`. */
  predicate CanStartValue(c: char) {
    c == '{' || c == '[' || c == '"' || c == '-' || IsDigit(c) || c == 't' || c == 'f' || c == 'n'
  }

  /** A line that does not start (after whitespace) with a character that can begin a JSON
      value is rejected. */
  lemma RejectsNonValueStart(text: string)
    requires SkipSpace(text) != [] && !CanStartValue(SkipSpace(text)[0])
    ensures Parse(text) == None
  {
    var t := SkipSpace(text);
    assert !StartsWith(t, "true") && !StartsWith(t, "false") && !StartsWith(t, "null");
    assert NumberLength(t) == None;
  }
}
