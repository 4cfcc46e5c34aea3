/**
 The texts behind the report's data block: compact JSON, the escapes that keep control and format
 characters out of the page (scripts/render_validation_report.py, `_json_for_html`), HTML escaping,
 and the decoders that undo them. A Dafny string of Unicode scalar values is a text without lone
 surrogates. `hidden` tells which characters are of category Cc or Cf.
 */
module ReportText {
  import opened Outcomes
  import opened Sequences

  datatype Json =
    | Null | Bool(b: bool) | Num(lexeme: string) | Str(s: string) | Arr(items: seq<Json>) | Obj(fields: seq<Field>)

  datatype Field = Field(key: string, value: Json)

  // ---------- Hexadecimal escapes ----------

  function HexDigit(n: nat): (r: char)
    requires n < 16
  {
    if n < 10 then '0' + (n as char) else 'a' + ((n - 10) as char)
  }

  function HexValue(c: char): (r: Option<nat>)
    ensures r.Some? ==> r.value < 16
  {
    if '0' <= c <= '9' then Some((c - '0') as nat)
    else if 'a' <= c <= 'f' then Some((c - 'a') as nat + 10)
    else if 'A' <= c <= 'F' then Some((c - 'A') as nat + 10)
    else None
  }

  lemma HexDigitValue(n: nat)
    requires n < 16
    ensures HexValue(HexDigit(n)) == Some(n)
  {
  }

  /** `\uxxxx`. */
  function Escape16(n: nat): (r: string)
    requires n < 0x10000
    ensures |r| == 6
  {
    ['\\', 'u', HexDigit(n / 4096), HexDigit(n / 256 % 16), HexDigit(n / 16 % 16), HexDigit(n % 16)]
  }

  /** The number of a `\uxxxx` at the head of the text. */
  function Unit(t: string): (r: Option<nat>)
    ensures r.Some? ==> r.value < 0x10000 && |t| >= 6
  {
    if |t| < 6 || t[0] != '\\' || t[1] != 'u' then None
    else
      match (HexValue(t[2]), HexValue(t[3]), HexValue(t[4]), HexValue(t[5]))
      case (Some(a), Some(b), Some(c), Some(d)) => Some(((a * 16 + b) * 16 + c) * 16 + d)
      case _ => None
  }

  lemma DigitsOf(n: nat)
    requires n < 0x10000
    ensures ((n / 4096 * 16 + n / 256 % 16) * 16 + n / 16 % 16) * 16 + n % 16 == n
  {
    assert n / 256 == n / 4096 * 16 + n / 256 % 16;
    assert n / 16 == n / 256 * 16 + n / 16 % 16;
  }

  lemma UnitOfEscape(n: nat, rest: string)
    requires n < 0x10000
    ensures Unit(Escape16(n) + rest) == Some(n)
  {
    HexDigitValue(n / 4096);
    HexDigitValue(n / 256 % 16);
    HexDigitValue(n / 16 % 16);
    HexDigitValue(n % 16);
    DigitsOf(n);
  }

  // ---------- Code points ----------

  function High(codepoint: nat): (r: nat)
    requires 0x10000 <= codepoint < 0x110000
    ensures 0xD800 <= r < 0xDC00
  {
    0xD800 + (codepoint - 0x10000) / 1024
  }

  function Low(codepoint: nat): (r: nat)
    requires 0x10000 <= codepoint < 0x110000
    ensures 0xDC00 <= r < 0xE000
  {
    0xDC00 + (codepoint - 0x10000) % 1024
  }

  /** A character as one escape, or as a surrogate pair when it lies beyond the basic plane. */
  function EscapedChar(c: char): (r: string) {
    var n := c as int;
    if n <= 0xFFFF then Escape16(n) else Escape16(High(n)) + Escape16(Low(n))
  }

  predicate Scalar(n: nat) { n < 0xD800 || 0xE000 <= n < 0x110000 }

  /** The character at the head of an escape and how long the escape is. */
  function DecodeUnits(t: string): (r: Option<(char, nat)>)
    ensures r.Some? ==> 0 < r.value.1 <= |t|
  {
    match Unit(t)
    case None => None
    case Some(first) =>
      if Scalar(first) then Some((first as char, 6))
      else if first < 0xDC00 then
        match Unit(t[6..])
        case Some(second) =>
          if 0xDC00 <= second < 0xE000
          then Some(((0x10000 + (first - 0xD800) * 1024 + (second - 0xDC00)) as char, 12)) else None
        case None => None
      else None
  }

  lemma DecodeEscapedChar(c: char, rest: string)
    ensures DecodeUnits(EscapedChar(c) + rest) == Some((c, |EscapedChar(c)|))
  {
    var n := c as int;
    if n <= 0xFFFF {
      UnitOfEscape(n, rest);
    } else {
      var high, low := Escape16(High(n)), Escape16(Low(n));
      assert EscapedChar(c) + rest == high + (low + rest);
      UnitOfEscape(High(n), low + rest);
      assert (high + (low + rest))[6..] == low + rest;
      UnitOfEscape(Low(n), rest);
      assert 0x10000 + (High(n) - 0xD800) * 1024 + (Low(n) - 0xDC00) == n;
    }
  }

  // ---------- Strings ----------

  /** One character inside a JSON string, with nothing beyond ASCII escaped. */
  function JsonChar(c: char): (r: string)
    ensures r != ""
  {
    if c == '"' then ['\\', '"']
    else if c == '\\' then ['\\', '\\']
    else if c == '\n' then ['\\', 'n']
    else if c == '\r' then ['\\', 'r']
    else if c == '\t' then ['\\', 't']
    else if c == '\U{8}' then ['\\', 'b']
    else if c == '\U{C}' then ['\\', 'f']
    else if c < ' ' then Escape16(c as int)
    else [c]
  }

  /** Hidden characters replaced by escapes. */
  function Safe(hidden: char -> bool, text: string): (r: string) {
    if text == "" then ""
    else (if hidden(text[0]) then EscapedChar(text[0]) else [text[0]]) + Safe(hidden, text[1..])
  }

  lemma {:induction false} SafeConcat(hidden: char -> bool, a: string, b: string)
    ensures Safe(hidden, a + b) == Safe(hidden, a) + Safe(hidden, b)
  {
    if a == "" {
      assert a + b == b;
    } else {
      assert (a + b)[1..] == a[1..] + b;
      SafeConcat(hidden, a[1..], b);
    }
  }

  /** Printable ASCII is never hidden. */
  ghost predicate AsciiVisible(hidden: char -> bool) {
    forall c :: ' ' <= c <= '~' ==> !hidden(c)
  }

  predicate Ascii(text: string) {
    forall i :: 0 <= i < |text| ==> ' ' <= text[i] <= '~'
  }

  lemma {:induction false} SafeAscii(hidden: char -> bool, text: string)
    requires AsciiVisible(hidden) && Ascii(text)
    ensures Safe(hidden, text) == text
  {
    if text == "" {
    } else {
      SafeAscii(hidden, text[1..]);
    }
  }

  /** The character at the head of a JSON string's content and how long its notation is. */
  function OneChar(t: string): (r: Option<(char, nat)>)
    ensures r.Some? ==> 0 < r.value.1 <= |t|
  {
    if t == "" then None
    else if t[0] == '\\' then
      if |t| < 2 then None
      else if t[1] == '"' || t[1] == '\\' || t[1] == '/' then Some((t[1], 2))
      else if t[1] == 'n' then Some(('\n', 2))
      else if t[1] == 'r' then Some(('\r', 2))
      else if t[1] == 't' then Some(('\t', 2))
      else if t[1] == 'b' then Some(('\U{8}', 2))
      else if t[1] == 'f' then Some(('\U{C}', 2))
      else DecodeUnits(t)
    else if t[0] < ' ' then None
    else Some((t[0], 1))
  }

  function SafeChar(hidden: char -> bool, c: char): (r: string) { Safe(hidden, JsonChar(c)) }

  lemma EscapeIsAscii(n: nat)
    requires n < 0x10000
    ensures Ascii(Escape16(n))
  {
  }

  predicate HasShortEscape(c: char) {
    c == '"' || c == '\\' || c == '\n' || c == '\r' || c == '\t' || c == '\U{8}' || c == '\U{C}'
  }

  lemma SafeOfShort(hidden: char -> bool, c: char)
    requires AsciiVisible(hidden) && HasShortEscape(c)
    ensures SafeChar(hidden, c) == JsonChar(c)
  {
    SafeAscii(hidden, JsonChar(c));
  }

  lemma SafeOfOther(hidden: char -> bool, c: char)
    requires AsciiVisible(hidden) && !HasShortEscape(c)
    ensures SafeChar(hidden, c) == if c < ' ' || hidden(c) then EscapedChar(c) else [c]
  {
    if c < ' ' {
      EscapeIsAscii(c as int);
      SafeAscii(hidden, Escape16(c as int));
    } else {
      assert JsonChar(c) == [c] && [c][1..] == "";
      assert Safe(hidden, "") == "";
      assert EscapedChar(c) + "" == EscapedChar(c);
    }
  }

  lemma ShortDecodes(c: char, rest: string)
    requires HasShortEscape(c)
    ensures JsonChar(c)[0] == '\\' && OneChar(JsonChar(c) + rest) == Some((c, |JsonChar(c)|))
  {
  }

  lemma EscapedDecodes(c: char, rest: string)
    ensures EscapedChar(c)[0] == '\\' && OneChar(EscapedChar(c) + rest) == Some((c, |EscapedChar(c)|))
  {
    DecodeEscapedChar(c, rest);
    var t := EscapedChar(c) + rest;
    assert t[0] == '\\' && t[1] == 'u';
  }

  lemma OneCharDecodes(hidden: char -> bool, c: char, rest: string)
    requires AsciiVisible(hidden)
    ensures var code := SafeChar(hidden, c);
            code != "" && code[0] != '"' && OneChar(code + rest) == Some((c, |code|))
  {
    if HasShortEscape(c) {
      SafeOfShort(hidden, c);
      ShortDecodes(c, rest);
    } else {
      SafeOfOther(hidden, c);
      if c < ' ' || hidden(c) { EscapedDecodes(c, rest); }
    }
  }

  function JsonChars(s: string): (r: string) {
    if s == "" then "" else JsonChar(s[0]) + JsonChars(s[1..])
  }

  /** The content of a JSON string up to its closing quote, and the text after it. */
  function Chars(t: string): (r: Option<(string, string)>)
    ensures r.Some? ==> |r.value.1| < |t|
    decreases |t|
  {
    if t == "" then None
    else if t[0] == '"' then Some(("", t[1..]))
    else
      match OneChar(t)
      case None => None
      case Some((c, n)) =>
        match Chars(t[n..])
        case None => None
        case Some((s, rest)) => Some(([c] + s, rest))
  }

  lemma {:induction false} CharsStep(code: string, more: string, c: char, s: string, rest: string)
    requires code != "" && code[0] != '"' && OneChar(code + more) == Some((c, |code|))
    requires Chars(more) == Some((s, rest))
    ensures Chars(code + more) == Some(([c] + s, rest))
  {
    assert (code + more)[|code|..] == more && (code + more)[0] == code[0];
  }

  function SafeChars(hidden: char -> bool, s: string): (r: string) { Safe(hidden, JsonChars(s)) }

  lemma SafeCharsCons(hidden: char -> bool, c: char, s: string)
    ensures SafeChars(hidden, [c] + s) == SafeChar(hidden, c) + SafeChars(hidden, s)
  {
    assert ([c] + s)[1..] == s;
    SafeConcat(hidden, JsonChar(c), JsonChars(s));
  }

  lemma {:induction false} CharsOfNothing(hidden: char -> bool, rest: string)
    ensures Chars(SafeChars(hidden, "") + ("\"" + rest)) == Some(("", rest))
  {
    var t := "\"" + rest;
    assert SafeChars(hidden, "") + t == t && t[1..] == rest;
  }

  lemma {:induction false} CharsCons(hidden: char -> bool, c: char, s: string, end: string, rest: string)
    requires AsciiVisible(hidden) && Chars(SafeChars(hidden, s) + end) == Some((s, rest))
    ensures Chars(SafeChars(hidden, [c] + s) + end) == Some(([c] + s, rest))
  {
    var more := SafeChars(hidden, s) + end;
    SafeCharsCons(hidden, c, s);
    Assoc(SafeChar(hidden, c), SafeChars(hidden, s), end);
    OneCharDecodes(hidden, c, more);
    CharsStep(SafeChar(hidden, c), more, c, s, rest);
  }

  /** A string's content is read back, whatever it contains. */
  lemma {:induction false} CharsDecode(hidden: char -> bool, s: string, rest: string)
    requires AsciiVisible(hidden)
    ensures Chars(SafeChars(hidden, s) + ("\"" + rest)) == Some((s, rest))
  {
    if s == "" {
      CharsOfNothing(hidden, rest);
    } else {
      CharsDecode(hidden, s[1..], rest);
      CharsCons(hidden, s[0], s[1..], "\"" + rest, rest);
      assert s == [s[0]] + s[1..];
    }
  }
}
