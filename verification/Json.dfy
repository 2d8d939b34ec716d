/** JSON as it is stored: compact text written by the encoder, and the reader that gets
    the value back.  Sections 4 to 7 of RFC 8259; a number is kept as it was spelled. */
module Json {
  import opened Wrappers
  import opened Text

  datatype Json =
    | JNull
    | JBool(b: bool)
    | JNumber(spelling: string)
    | JNonFinite
    | JString(s: string)
    | JList(items: seq<Json>)
    | JObject(entries: seq<Entry>)

  /** One member of an object, in the order the caller gave them. */
  datatype Entry = Entry(key: string, value: Json)

  // ---- strings ----------------------------------------------------------------------

  function HexDigit(v: int): char
    requires 0 <= v < 16
  {
    if v < 10 then ('0' as int + v) as char else ('a' as int + (v - 10)) as char
  }

  function HexValue(c: char): (v: Option<int>)
    ensures v.Some? ==> 0 <= v.value < 16
  {
    if '0' <= c <= '9' then Some(c as int - '0' as int)
    else if 'a' <= c <= 'f' then Some(c as int - 'a' as int + 10)
    else if 'A' <= c <= 'F' then Some(c as int - 'A' as int + 10)
    else None
  }

  function UnicodeEscape(n: int): string
    requires 0 <= n < 0x10000
  {
    ['\\', 'u', HexDigit(n / 4096), HexDigit(n / 256 % 16), HexDigit(n / 16 % 16), HexDigit(n % 16)]
  }

  lemma HexDigitIsListed(v: int)
    requires 0 <= v < 16
    ensures HexDigit(v) == "0123456789abcdef"[v]
  {
    if v < 10 {
      assert "0123456789abcdef"[v] == ('0' as int + v) as char;
    } else {
      assert "0123456789abcdef"[v] == ('a' as int + (v - 10)) as char;
    }
  }

  /** One character inside quotes.  `ascii` escapes everything outside printable ASCII too. */
  function EscapeChar(c: char, ascii: bool): (r: string)
    ensures r != "" && r[0] != '"'
  {
    if c == '"' then "\\\""
    else if c == '\\' then "\\\\"
    else if c == '\n' then "\\n"
    else if c == '\r' then "\\r"
    else if c == '\t' then "\\t"
    else if c == '\U{0C}' then "\\f"
    else if c == '\U{08}' then "\\b"
    else if c < ' ' || (ascii && '~' < c && c as int < 0x10000) then UnicodeEscape(c as int)
    else if ascii && '~' < c then
      UnicodeEscape(0xD800 + (c as int - 0x10000) / 0x400) + UnicodeEscape(0xDC00 + (c as int - 0x10000) % 0x400)
    else [c]
  }

  function Escape(s: string, ascii: bool): string {
    if s == "" then "" else EscapeChar(s[0], ascii) + Escape(s[1..], ascii)
  }

  function DumpsString(s: string, ascii: bool): string {
    "\"" + Escape(s, ascii) + "\""
  }

  /** json.dumps of a string with its default, ASCII-only, escaping. */
  function DumpsAscii(s: string): string {
    DumpsString(s, true)
  }

  function ReadUnicodeEscape(s: string): (r: Option<int>)
    ensures r.Some? ==> |s| >= 6 && 0 <= r.value < 0x10000
  {
    if |s| >= 6 && s[0] == '\\' && s[1] == 'u' && HexValue(s[2]).Some? && HexValue(s[3]).Some?
       && HexValue(s[4]).Some? && HexValue(s[5]).Some?
    then Some(HexValue(s[2]).value * 4096 + HexValue(s[3]).value * 256 + HexValue(s[4]).value * 16
              + HexValue(s[5]).value)
    else None
  }

  function SimpleEscape(c: char): Option<char> {
    match c
    case '"' => Some('"')
    case '\\' => Some('\\')
    case '/' => Some('/')
    case 'n' => Some('\n')
    case 'r' => Some('\r')
    case 't' => Some('\t')
    case 'f' => Some('\U{0C}')
    case 'b' => Some('\U{08}')
    case _ => None
  }

  /** One character, escaped or not, and what follows it.  An unpaired surrogate is not a
      character. */
  function ReadChar(s: string): (r: Option<(char, string)>)
    ensures r.Some? ==> |r.value.1| < |s|
  {
    if s == "" || s[0] < ' ' then None
    else if s[0] != '\\' then Some((s[0], s[1..]))
    else if |s| >= 2 && s[1] != 'u' then
      if SimpleEscape(s[1]).Some? then Some((SimpleEscape(s[1]).value, s[2..])) else None
    else
      var high := ReadUnicodeEscape(s);
      if high.None? then None
      else if !(0xD800 <= high.value < 0xE000) then Some((high.value as char, s[6..]))
      else
        var low := ReadUnicodeEscape(s[6..]);
        if high.value < 0xDC00 && low.Some? && 0xDC00 <= low.value < 0xE000
        then Some(((0x10000 + (high.value - 0xD800) * 0x400 + (low.value - 0xDC00)) as char, s[12..]))
        else None
  }

  /** The rest of a string after its opening quote, and what follows its closing one. */
  function ReadString(s: string): (r: Option<(string, string)>)
    ensures r.Some? ==> |r.value.1| < |s|
    decreases |s|
  {
    if s == "" then None
    else if s[0] == '"' then Some(("", s[1..]))
    else
      var c := ReadChar(s);
      if c.None? then None
      else
        var tail := ReadString(c.value.1);
        if tail.None? then None else Some(([c.value.0] + tail.value.0, tail.value.1))
  }

  lemma HexRoundTrip(n: int, rest: string)
    requires 0 <= n < 0x10000
    ensures ReadUnicodeEscape(UnicodeEscape(n) + rest) == Some(n)
  {
    HexDigits(n);
    var d3, d2, d1, d0 := n / 4096, n / 256 % 16, n / 16 % 16, n % 16;
    HexDigitValue(d3);
    HexDigitValue(d2);
    HexDigitValue(d1);
    HexDigitValue(d0);
  }

  lemma HexDigits(n: int)
    requires 0 <= n < 0x10000
    ensures 0 <= n / 4096 < 16
    ensures n == n / 4096 * 4096 + n / 256 % 16 * 256 + n / 16 % 16 * 16 + n % 16
  {
    assert n / 16 / 16 == n / 256 && n / 256 / 16 == n / 4096;
  }

  lemma HexDigitValue(v: int)
    requires 0 <= v < 16
    ensures HexValue(HexDigit(v)) == Some(v)
  {
  }

  lemma ReadsEscapedChar(c: char, ascii: bool, rest: string)
    ensures ReadChar(EscapeChar(c, ascii) + rest) == Some((c, rest))
  {
    var e := EscapeChar(c, ascii);
    var s := e + rest;
    var n := c as int;
    assert s[|e|..] == rest;
    if n < 0x10000 && e == UnicodeEscape(n) {
      HexRoundTrip(n, rest);
    } else if ascii && n >= 0x10000 {
      var m := n - 0x10000;
      var high, low := 0xD800 + m / 0x400, 0xDC00 + m % 0x400;
      assert s == UnicodeEscape(high) + (UnicodeEscape(low) + rest);
      HexRoundTrip(high, UnicodeEscape(low) + rest);
      HexRoundTrip(low, rest);
      assert s[6..] == UnicodeEscape(low) + rest;
    }
  }

  lemma {:induction false} ReadsEscaped(s: string, ascii: bool, rest: string)
    ensures ReadString(Escape(s, ascii) + "\"" + rest) == Some((s, rest))
  {
    if s == "" {
      assert (Escape(s, ascii) + "\"" + rest)[1..] == rest;
    } else {
      var tail := Escape(s[1..], ascii) + "\"" + rest;
      assert Escape(s, ascii) + "\"" + rest == EscapeChar(s[0], ascii) + tail;
      ReadsEscapedChar(s[0], ascii, tail);
      ReadsEscaped(s[1..], ascii, rest);
      assert [s[0]] + s[1..] == s;
    }
  }

  // ---- numbers ----------------------------------------------------------------------

  predicate IsDigit(c: char) {
    '0' <= c <= '9'
  }

  predicate IsSign(c: char) {
    c == '-' || c == '+'
  }

  predicate IsExponentMark(c: char) {
    c == 'e' || c == 'E'
  }

  predicate IsNumberChar(c: char) {
    IsDigit(c) || IsSign(c) || IsExponentMark(c) || c == '.'
  }

  function AfterDigits(s: string): string {
    s[Span(s, IsDigit)..]
  }

  /** The grammar of section 6: an optional minus, an integer without leading zeros, an
      optional fraction, an optional exponent. */
  predicate IsNumber(s: string) {
    var unsigned := if s != "" && s[0] == '-' then s[1..] else s;
    && unsigned != "" && IsDigit(unsigned[0])
    && (unsigned[0] == '0' && |unsigned| > 1 ==> !IsDigit(unsigned[1]))
    && IsFraction(AfterDigits(unsigned))
  }

  predicate IsFraction(s: string) {
    IsExponent(s) || (|s| > 1 && s[0] == '.' && IsDigit(s[1]) && IsExponent(AfterDigits(s[1..])))
  }

  predicate IsExponent(s: string) {
    s == "" ||
    (IsExponentMark(s[0]) &&
     var digits := if |s| > 1 && IsSign(s[1]) then s[2..] else s[1..];
     digits != "" && Span(digits, IsDigit) == |digits|)
  }

  lemma NumberCharsJoined(a: string, b: string)
    requires (forall i :: 0 <= i < |a| ==> IsNumberChar(a[i])) && forall i :: 0 <= i < |b| ==> IsNumberChar(b[i])
    ensures forall i :: 0 <= i < |a + b| ==> IsNumberChar((a + b)[i])
  {
  }

  /** Digits and then number characters are number characters. */
  lemma DigitsAndMore(s: string)
    requires forall i :: 0 <= i < |AfterDigits(s)| ==> IsNumberChar(AfterDigits(s)[i])
    ensures forall i :: 0 <= i < |s| ==> IsNumberChar(s[i])
  {
    var n := Span(s, IsDigit);
    NumberCharsJoined(s[..n], AfterDigits(s));
    assert s == s[..n] + AfterDigits(s);
  }

  lemma NumberChars(s: string)
    requires IsNumber(s)
    ensures All(s, IsNumberChar) && s != "" && (s[0] == '-' || IsDigit(s[0]))
  {
    var unsigned := if s[0] == '-' then s[1..] else s;
    FractionChars(AfterDigits(unsigned));
    DigitsAndMore(unsigned);
    if s[0] == '-' {
      NumberCharsJoined([s[0]], s[1..]);
      assert s == [s[0]] + s[1..];
    }
  }

  lemma FractionChars(s: string)
    requires IsFraction(s)
    ensures forall i :: 0 <= i < |s| ==> IsNumberChar(s[i])
  {
    if IsExponent(s) {
      ExponentChars(s);
    } else {
      ExponentChars(AfterDigits(s[1..]));
      DigitsAndMore(s[1..]);
      NumberCharsJoined([s[0]], s[1..]);
      assert s == [s[0]] + s[1..];
    }
  }

  lemma ExponentChars(s: string)
    requires IsExponent(s)
    ensures forall i :: 0 <= i < |s| ==> IsNumberChar(s[i])
  {
    if s != "" {
      var digits := if |s| > 1 && IsSign(s[1]) then s[2..] else s[1..];
      NumberCharsJoined(s[..|s| - |digits|], digits);
      assert s == s[..|s| - |digits|] + digits;
    }
  }

  // ---- values -----------------------------------------------------------------------

  /** Compact text, members in the order they stand. */
  function Render(v: Json): string
    decreases v, 0
  {
    match v
    case JNull => "null"
    case JBool(b) => if b then "true" else "false"
    case JNumber(spelling) => spelling
    case JNonFinite => "NaN"
    case JString(s) => DumpsString(s, false)
    case JList(items) => "[" + RenderItems(items) + "]"
    case JObject(entries) => "{" + RenderEntries(entries) + "}"
  }

  function RenderItems(items: seq<Json>): string
    decreases items, 0
  {
    if items == [] then ""
    else if |items| == 1 then Render(items[0])
    else Render(items[0]) + "," + RenderItems(items[1..])
  }

  function RenderEntry(e: Entry): string
    decreases e, 0
  {
    DumpsString(e.key, false) + ":" + Render(e.value)
  }

  function RenderEntries(entries: seq<Entry>): string
    decreases entries, 0
  {
    if entries == [] then ""
    else if |entries| == 1 then RenderEntry(entries[0])
    else RenderEntry(entries[0]) + "," + RenderEntries(entries[1..])
  }

  /** No space is written: what stands between the values of a list, or the members of an object,
      is one comma, and between a member's name and its value one colon. */
  lemma {:induction false} RenderedItems(items: seq<Json>)
    ensures RenderItems(items) == Join(seq(|items|, i requires 0 <= i < |items| => Render(items[i])), ",")
  {
    var rendered := seq(|items|, i requires 0 <= i < |items| => Render(items[i]));
    if |items| > 1 {
      RenderedItems(items[1..]);
      assert rendered[1..] == seq(|items[1..]|, i requires 0 <= i < |items[1..]| => Render(items[1..][i]));
    }
  }

  lemma {:induction false} RenderedMembers(entries: seq<Entry>)
    ensures RenderEntries(entries)
            == Join(seq(|entries|, i requires 0 <= i < |entries| => RenderEntry(entries[i])), ",")
    ensures forall i :: 0 <= i < |entries| ==>
              RenderEntry(entries[i]) == DumpsString(entries[i].key, false) + ":" + Render(entries[i].value)
  {
    var rendered := seq(|entries|, i requires 0 <= i < |entries| => RenderEntry(entries[i]));
    if |entries| > 1 {
      RenderedMembers(entries[1..]);
      assert rendered[1..] == seq(|entries[1..]|, i requires 0 <= i < |entries[1..]| => RenderEntry(entries[1..][i]));
    }
  }

  predicate StartsWith(s: string, prefix: string) {
    |s| >= |prefix| && s[..|prefix|] == prefix
  }

  function ReadLiteral(s: string): (r: Option<(Json, string)>)
    ensures r.Some? ==> |r.value.1| < |s|
  {
    if StartsWith(s, "null") then Some((JNull, s[4..]))
    else if StartsWith(s, "true") then Some((JBool(true), s[4..]))
    else if StartsWith(s, "false") then Some((JBool(false), s[5..]))
    else None
  }

  /** One value and what follows it. */
  function ReadValue(s: string): (r: Option<(Json, string)>)
    ensures r.Some? ==> |r.value.1| < |s|
    decreases |s|, 0
  {
    if s == "" then None
    else if s[0] in "ntf" then ReadLiteral(s)
    else if s[0] == '"' then
      var text := ReadString(s[1..]);
      if text.None? then None else Some((JString(text.value.0), text.value.1))
    else if s[0] == '[' then
      if |s| > 1 && s[1] == ']' then Some((JList([]), s[2..]))
      else
        var items := ReadItems(s[1..]);
        if items.None? then None else Some((JList(items.value.0), items.value.1))
    else if s[0] == '{' then
      if |s| > 1 && s[1] == '}' then Some((JObject([]), s[2..]))
      else
        var entries := ReadEntries(s[1..]);
        if entries.None? then None else Some((JObject(entries.value.0), entries.value.1))
    else ReadNumber(s)
  }

  function ReadNumber(s: string): (r: Option<(Json, string)>)
    ensures r.Some? ==> |r.value.1| < |s|
  {
    var n := Span(s, IsNumberChar);
    if IsNumber(s[..n]) then Some((JNumber(s[..n]), s[n..])) else None
  }

  /** One or more values up to the closing bracket. */
  function ReadItems(s: string): (r: Option<(seq<Json>, string)>)
    ensures r.Some? ==> |r.value.1| < |s|
    decreases |s|, 1
  {
    var first := ReadValue(s);
    if first.None? || first.value.1 == "" then None
    else
      var rest := first.value.1;
      if rest[0] == ']' then Some(([first.value.0], rest[1..]))
      else if rest[0] != ',' then None
      else
        var more := ReadItems(rest[1..]);
        if more.None? then None else Some(([first.value.0] + more.value.0, more.value.1))
  }

  function ReadEntry(s: string): (r: Option<(Entry, string)>)
    ensures r.Some? ==> |r.value.1| < |s|
    decreases |s|, 0
  {
    if s == "" || s[0] != '"' then None
    else
      var key := ReadString(s[1..]);
      if key.None? || key.value.1 == "" || key.value.1[0] != ':' then None
      else
        var value := ReadValue(key.value.1[1..]);
        if value.None? then None else Some((Entry(key.value.0, value.value.0), value.value.1))
  }

  function ReadEntries(s: string): (r: Option<(seq<Entry>, string)>)
    ensures r.Some? ==> |r.value.1| < |s|
    decreases |s|, 1
  {
    var first := ReadEntry(s);
    if first.None? || first.value.1 == "" then None
    else
      var rest := first.value.1;
      if rest[0] == '}' then Some(([first.value.0], rest[1..]))
      else if rest[0] != ',' then None
      else
        var more := ReadEntries(rest[1..]);
        if more.None? then None else Some(([first.value.0] + more.value.0, more.value.1))
  }

  /** json.loads, on text that is one value and nothing else. */
  function Loads(s: string): Option<Json> {
    var r := ReadValue(s);
    if r.Some? && r.value.1 == "" then Some(r.value.0) else None
  }

  /** What the encoder can write as JSON. */
  ghost predicate Renderable(v: Json)
    decreases v
  {
    match v
    case JNumber(spelling) => IsNumber(spelling)
    case JNonFinite => false
    case JList(items) => forall i :: 0 <= i < |items| ==> Renderable(items[i])
    case JObject(entries) => forall i :: 0 <= i < |entries| ==> Renderable(entries[i].value)
    case _ => true
  }

  /** What may follow a value inside a text. */
  predicate Ends(rest: string) {
    rest == "" || rest[0] in ",]}"
  }

  lemma {:induction false} ReadsRendered(v: Json, rest: string)
    requires Renderable(v) && Ends(rest)
    ensures ReadValue(Render(v) + rest) == Some((v, rest))
    ensures Render(v) != "" && Render(v)[0] !in "]}"
    decreases v, 0
  {
    match v
    case JNull => ReadsLiteral(v, rest);
    case JBool(b) => ReadsLiteral(v, rest);
    case JNumber(spelling) => ReadsNumber(spelling, rest);
    case JString(text) => ReadsStringValue(text, false, rest);
    case JList(items) =>
      if items != [] { ReadsItems(items, rest); }
      ReadsList(items, rest);
    case JObject(entries) =>
      if entries != [] { ReadsEntries(entries, rest); }
      ReadsObject(entries, rest);
    case JNonFinite => assert false;
  }

  lemma ReadsStringValue(text: string, ascii: bool, rest: string)
    ensures ReadValue(DumpsString(text, ascii) + rest) == Some((JString(text), rest))
  {
    var body := Escape(text, ascii) + "\"" + rest;
    ReadsEscaped(text, ascii, rest);
    assert DumpsString(text, ascii) + rest == "\"" + body;
    ReadsAfterQuote(body);
  }

  lemma ReadsAfterQuote(body: string)
    requires ReadString(body).Some?
    ensures ReadValue("\"" + body) == Some((JString(ReadString(body).value.0), ReadString(body).value.1))
  {
    assert ("\"" + body)[1..] == body;
  }

  /** A bracketed text is read by what stands between the brackets. */
  lemma Bracketed(open: string, body: string, close: string, rest: string)
    ensures open + body + close + rest == open + (body + (close + rest))
    ensures |open| == 1 ==> (open + body)[1..] == body
  {
  }

  lemma ReadsList(items: seq<Json>, rest: string)
    requires items != [] ==> ReadItems(RenderItems(items) + ("]" + rest)) == Some((items, rest))
    requires items != [] ==> RenderItems(items) != "" && RenderItems(items)[0] !in "]}"
    ensures ReadValue(Render(JList(items)) + rest) == Some((JList(items), rest))
  {
    Bracketed("[", RenderItems(items), "]", rest);
    if items == [] {
      ReadsEmptyList(rest);
      assert "[" + RenderItems(items) + "]" + rest == "[]" + rest;
    } else {
      ReadsAfterBracket(RenderItems(items) + ("]" + rest));
    }
  }

  lemma ReadsEmptyList(rest: string)
    ensures ReadValue("[]" + rest) == Some((JList([]), rest))
  {
    assert ("[]" + rest)[2..] == rest;
  }

  lemma ReadsAfterBracket(body: string)
    requires body != "" && body[0] != ']' && ReadItems(body).Some?
    ensures ReadValue("[" + body) == Some((JList(ReadItems(body).value.0), ReadItems(body).value.1))
  {
    assert ("[" + body)[1..] == body;
  }

  lemma ReadsObject(entries: seq<Entry>, rest: string)
    requires entries != [] ==> ReadEntries(RenderEntries(entries) + ("}" + rest)) == Some((entries, rest))
    requires entries != [] ==> RenderEntries(entries) != "" && RenderEntries(entries)[0] == '"'
    ensures ReadValue(Render(JObject(entries)) + rest) == Some((JObject(entries), rest))
  {
    Bracketed("{", RenderEntries(entries), "}", rest);
    if entries == [] {
      ReadsEmptyObject(rest);
      assert "{" + RenderEntries(entries) + "}" + rest == "{}" + rest;
    } else {
      ReadsAfterBrace(RenderEntries(entries) + ("}" + rest));
    }
  }

  lemma ReadsEmptyObject(rest: string)
    ensures ReadValue("{}" + rest) == Some((JObject([]), rest))
  {
    assert ("{}" + rest)[2..] == rest;
  }

  lemma ReadsAfterBrace(body: string)
    requires body != "" && body[0] == '"' && ReadEntries(body).Some?
    ensures ReadValue("{" + body) == Some((JObject(ReadEntries(body).value.0), ReadEntries(body).value.1))
  {
    assert ("{" + body)[1..] == body;
  }

  lemma ReadsLiteral(v: Json, rest: string)
    requires v.JNull? || v.JBool?
    ensures ReadValue(Render(v) + rest) == Some((v, rest))
  {
    var s := Render(v) + rest;
    assert s[|Render(v)|..] == rest && s[..|Render(v)|] == Render(v);
    assert StartsWith(s, Render(v));
  }

  lemma ReadsNumber(spelling: string, rest: string)
    requires IsNumber(spelling) && Ends(rest)
    ensures ReadValue(spelling + rest) == Some((JNumber(spelling), rest))
    ensures spelling != "" && spelling[0] !in "]}"
  {
    NumberChars(spelling);
    SpanOfAll(spelling, rest, IsNumberChar);
    var s := spelling + rest;
    assert s[..|spelling|] == spelling && s[|spelling|..] == rest;
    assert s[0] == spelling[0];
    assert ReadNumber(s) == Some((JNumber(spelling), rest));
  }

  lemma {:induction false} ReadsItems(items: seq<Json>, rest: string)
    requires items != [] && forall i :: 0 <= i < |items| ==> Renderable(items[i])
    ensures ReadItems(RenderItems(items) + ("]" + rest)) == Some((items, rest))
    ensures RenderItems(items) != "" && RenderItems(items)[0] !in "]}"
    decreases items, 0
  {
    if |items| == 1 {
      ReadsRendered(items[0], "]" + rest);
      assert [items[0]] == items;
      assert ("]" + rest)[1..] == rest;
    } else {
      var tail := RenderItems(items[1..]) + ("]" + rest);
      assert RenderItems(items) + ("]" + rest) == Render(items[0]) + ("," + tail);
      ReadsRendered(items[0], "," + tail);
      assert ("," + tail)[1..] == tail;
      ReadsItems(items[1..], rest);
      assert [items[0]] + items[1..] == items;
    }
  }

  lemma {:induction false} ReadsEntry(e: Entry, rest: string)
    requires Renderable(e.value) && Ends(rest)
    ensures ReadEntry(RenderEntry(e) + rest) == Some((e, rest))
    ensures RenderEntry(e) != "" && RenderEntry(e)[0] == '"'
    decreases e, 1
  {
    ReadsRendered(e.value, rest);
    ReadsKeyAndValue(e, rest);
  }

  lemma ReadsKeyAndValue(e: Entry, rest: string)
    requires ReadValue(Render(e.value) + rest) == Some((e.value, rest))
    ensures ReadEntry(RenderEntry(e) + rest) == Some((e, rest))
  {
    var value := Render(e.value) + rest;
    ReadsEscaped(e.key, false, ":" + value);
    KeyThenValue(Escape(e.key, false), Render(e.value), rest);
    ReadsAfterKey(Escape(e.key, false) + "\"" + (":" + value), e.key, value);
  }

  lemma KeyThenValue(key: string, value: string, rest: string)
    ensures "\"" + key + "\"" + ":" + value + rest == "\"" + (key + "\"" + (":" + (value + rest)))
  {
  }

  lemma ReadsAfterKey(body: string, key: string, value: string)
    requires ReadString(body) == Some((key, ":" + value)) && ReadValue(value).Some?
    ensures ReadEntry("\"" + body) == Some((Entry(key, ReadValue(value).value.0), ReadValue(value).value.1))
  {
    assert ("\"" + body)[1..] == body && (":" + value)[1..] == value;
  }

  lemma {:induction false} ReadsEntries(entries: seq<Entry>, rest: string)
    requires entries != [] && forall i :: 0 <= i < |entries| ==> Renderable(entries[i].value)
    ensures ReadEntries(RenderEntries(entries) + ("}" + rest)) == Some((entries, rest))
    ensures RenderEntries(entries) != "" && RenderEntries(entries)[0] == '"'
    decreases entries, 0
  {
    if |entries| == 1 {
      ReadsEntry(entries[0], "}" + rest);
      ReadsLastEntry(RenderEntry(entries[0]) + ("}" + rest), entries[0], rest);
      assert [entries[0]] == entries;
    } else {
      var tail := RenderEntries(entries[1..]) + ("}" + rest);
      ReadsEntries(entries[1..], rest);
      ReadsEntry(entries[0], "," + tail);
      RenderedTail(entries, rest);
      ReadsOneMoreEntry(RenderEntry(entries[0]) + ("," + tail), entries[0], tail);
      assert [entries[0]] + entries[1..] == entries;
    }
  }

  lemma {:induction false} RenderedTail(entries: seq<Entry>, rest: string)
    requires |entries| > 1
    ensures RenderEntries(entries) + ("}" + rest)
         == RenderEntry(entries[0]) + ("," + (RenderEntries(entries[1..]) + ("}" + rest)))
    ensures RenderEntry(entries[0]) != "" ==>
              RenderEntries(entries) != "" && RenderEntries(entries)[0] == RenderEntry(entries[0])[0]
  {
    var first, more := RenderEntry(entries[0]), RenderEntries(entries[1..]);
    assert RenderEntries(entries) == first + "," + more;
  }

  lemma ReadsLastEntry(s: string, e: Entry, rest: string)
    requires ReadEntry(s) == Some((e, "}" + rest))
    ensures ReadEntries(s) == Some(([e], rest))
  {
    assert ("}" + rest)[1..] == rest;
  }

  lemma ReadsOneMoreEntry(s: string, e: Entry, tail: string)
    requires ReadEntry(s) == Some((e, "," + tail)) && ReadEntries(tail).Some?
    ensures ReadEntries(s) == Some(([e] + ReadEntries(tail).value.0, ReadEntries(tail).value.1))
  {
    assert ("," + tail)[1..] == tail;
  }

  /** Reading what was written gives the value back. */
  lemma LoadsRendered(v: Json)
    requires Renderable(v)
    ensures Loads(Render(v)) == Some(v)
  {
    ReadsRendered(v, "");
    assert Render(v) + "" == Render(v);
  }

  /** The copy of a note's body the event log keeps is the body: any text survives the
      ASCII-only escaping, surrogate pairs included. */
  lemma LoadsAsciiString(s: string)
    ensures Loads(DumpsAscii(s)) == Some(JString(s))
    ensures forall c :: c in DumpsAscii(s) ==> ' ' <= c <= '~'
  {
    ReadsStringValue(s, true, "");
    assert DumpsAscii(s) + "" == DumpsAscii(s);
    EscapesToAscii(s);
  }

  lemma {:induction false} EscapesToAscii(s: string)
    ensures forall c :: c in Escape(s, true) ==> ' ' <= c <= '~'
  {
    if s != "" {
      EscapesToAscii(s[1..]);
      EscapesCharToAscii(s[0]);
    }
  }

  lemma EscapesCharToAscii(c: char)
    ensures forall d :: d in EscapeChar(c, true) ==> ' ' <= d <= '~'
  {
  }
}
