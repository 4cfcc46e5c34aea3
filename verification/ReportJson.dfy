/**
 Compact JSON values with hidden characters escaped (scripts/render_validation_report.py,
 `_json_for_html`) and the decoder that reads them back. Number lexemes are kept as written.
 */
module ReportJson {
  import opened Outcomes
  import opened ReportText
  import opened Sequences

  predicate IsNumChar(c: char) {
    '0' <= c <= '9' || c == '-' || c == '+' || c == '.' || c == 'e' || c == 'E'
  }

  predicate IsLexeme(s: string) {
    s != "" && ('0' <= s[0] <= '9' || s[0] == '-') && forall i :: 0 <= i < |s| ==> IsNumChar(s[i])
  }

  /** Every number in the value is a number lexeme. */
  predicate Printable(v: Json) {
    match v
    case Num(lexeme) => IsLexeme(lexeme)
    case Arr(items) => forall i :: 0 <= i < |items| ==> Printable(items[i])
    case Obj(fields) => forall i :: 0 <= i < |fields| ==> Printable(fields[i].value)
    case _ => true
  }

  // ---------- Printing ----------

  function Quote(s: string): (r: string) { "\"" + (JsonChars(s) + "\"") }

  /** `json.dumps(value, ensure_ascii=False, separators=(",", ":"))`. */
  function Print(v: Json): (r: string)
    decreases v, 0
  {
    match v
    case Null => "null"
    case Bool(b) => if b then "true" else "false"
    case Num(lexeme) => lexeme
    case Str(s) => Quote(s)
    case Arr(items) => "[" + PrintItems(items)
    case Obj(fields) => "{" + PrintFields(fields)
  }

  /** The items and the closing bracket. */
  function PrintItems(items: seq<Json>): (r: string)
    decreases items, 1
  {
    if items == [] then "]"
    else Print(items[0]) + (if |items| == 1 then "]" else "," + PrintItems(items[1..]))
  }

  function PrintFields(fields: seq<Field>): (r: string)
    decreases fields, 1
  {
    if fields == [] then "}"
    else
      Quote(fields[0].key) + (":" + (Print(fields[0].value) +
        (if |fields| == 1 then "}" else "," + PrintFields(fields[1..]))))
  }

  // ---------- Reading ----------

  function NumEnd(t: string): (r: nat)
    ensures r <= |t|
  {
    if t != "" && IsNumChar(t[0]) then 1 + NumEnd(t[1..]) else 0
  }

  /** One value at the head of the text, and the text after it. */
  function Parse(t: string): (r: Option<(Json, string)>)
    ensures r.Some? ==> |r.value.1| < |t|
    decreases |t|, 2
  {
    if t == "" then None
    else if t[0] == '"' then
      match Chars(t[1..]) case None => None case Some((s, rest)) => Some((Str(s), rest))
    else if t[0] == '[' then
      if |t| >= 2 && t[1] == ']' then Some((Arr([]), t[2..]))
      else match ParseItems(t[1..]) case None => None case Some((items, rest)) => Some((Arr(items), rest))
    else if t[0] == '{' then
      if |t| >= 2 && t[1] == '}' then Some((Obj([]), t[2..]))
      else match ParseFields(t[1..]) case None => None case Some((fields, rest)) => Some((Obj(fields), rest))
    else if t[0] == 'n' then if "null" <= t then Some((Null, t[4..])) else None
    else if t[0] == 't' then if "true" <= t then Some((Bool(true), t[4..])) else None
    else if t[0] == 'f' then if "false" <= t then Some((Bool(false), t[5..])) else None
    else
      var n := NumEnd(t);
      if n > 0 then Some((Num(t[..n]), t[n..])) else None
  }

  function ParseItems(t: string): (r: Option<(seq<Json>, string)>)
    ensures r.Some? ==> |r.value.1| < |t|
    decreases |t|, 3
  {
    match Parse(t)
    case None => None
    case Some((v, rest)) =>
      if rest == "" then None
      else if rest[0] == ']' then Some(([v], rest[1..]))
      else if rest[0] != ',' then None
      else match ParseItems(rest[1..]) case None => None case Some((more, end)) => Some(([v] + more, end))
  }

  function ParseFields(t: string): (r: Option<(seq<Field>, string)>)
    ensures r.Some? ==> |r.value.1| < |t|
    decreases |t|, 3
  {
    if t == "" || t[0] != '"' then None
    else
      match Chars(t[1..])
      case None => None
      case Some((key, colon)) =>
        if colon == "" || colon[0] != ':' then None
        else
          match Parse(colon[1..])
          case None => None
          case Some((v, rest)) =>
            if rest == "" then None
            else if rest[0] == '}' then Some(([Field(key, v)], rest[1..]))
            else if rest[0] != ',' then None
            else
              match ParseFields(rest[1..])
              case None => None
              case Some((more, end)) => Some(([Field(key, v)] + more, end))
  }

  /** `json.loads`: one value and nothing after it. */
  function Loads(t: string): (r: Option<Json>) {
    match Parse(t)
    case Some((v, "")) => Some(v)
    case _ => None
  }

  // ---------- Reading what was printed ----------

  /** A text that may follow a value. */
  predicate Stops(rest: string) {
    rest == "" || rest[0] == ',' || rest[0] == ']' || rest[0] == '}'
  }

  predicate IsValueHead(c: char) {
    c == '"' || c == '[' || c == '{' || c == 'n' || c == 't' || c == 'f' || IsNumChar(c)
  }

  lemma {:induction false} SafeVisible(hidden: char -> bool, c: char, text: string)
    requires AsciiVisible(hidden) && ' ' <= c <= '~'
    ensures Safe(hidden, [c] + text) == [c] + Safe(hidden, text)
  {
    assert ([c] + text)[1..] == text;
  }

  lemma SafeQuote(hidden: char -> bool, s: string, rest: string)
    requires AsciiVisible(hidden)
    ensures Safe(hidden, Quote(s)) + rest == "\"" + (SafeChars(hidden, s) + ("\"" + rest))
  {
    SafeVisible(hidden, '"', JsonChars(s) + "\"");
    SafeConcat(hidden, JsonChars(s), "\"");
    SafeAscii(hidden, "\"");
    Assoc("\"", SafeChars(hidden, s) + "\"", rest);
    Assoc(SafeChars(hidden, s), "\"", rest);
  }

  lemma {:induction false} NumEndIs(lexeme: string, rest: string)
    requires Stops(rest) && forall i :: 0 <= i < |lexeme| ==> IsNumChar(lexeme[i])
    ensures NumEnd(lexeme + rest) == |lexeme|
  {
    if lexeme == "" {
      assert lexeme + rest == rest;
    } else {
      assert (lexeme + rest)[1..] == lexeme[1..] + rest && (lexeme + rest)[0] == lexeme[0];
      NumEndIs(lexeme[1..], rest);
    }
  }

  lemma {:induction false} ParseNumber(hidden: char -> bool, lexeme: string, rest: string)
    requires AsciiVisible(hidden) && IsLexeme(lexeme) && Stops(rest)
    ensures Safe(hidden, lexeme) == lexeme && Parse(lexeme + rest) == Some((Num(lexeme), rest))
  {
    SafeAscii(hidden, lexeme);
    NumEndIs(lexeme, rest);
    var t := lexeme + rest;
    assert t[0] == lexeme[0] && t[..|lexeme|] == lexeme && t[|lexeme|..] == rest;
  }

  lemma {:induction false} ParseString(hidden: char -> bool, s: string, rest: string)
    requires AsciiVisible(hidden)
    ensures Parse(Safe(hidden, Quote(s)) + rest) == Some((Str(s), rest))
  {
    SafeQuote(hidden, s, rest);
    CharsDecode(hidden, s, rest);
    var content := SafeChars(hidden, s) + ("\"" + rest);
    assert ("\"" + content)[1..] == content;
  }

  lemma {:induction false} ParseWord(hidden: char -> bool, v: Json, rest: string)
    requires AsciiVisible(hidden) && (v.Null? || v.Bool?)
    ensures Parse(Safe(hidden, Print(v)) + rest) == Some((v, rest))
  {
    var word := Print(v);
    SafeAscii(hidden, word);
    var t := word + rest;
    assert t[|word|..] == rest && word <= t && t[0] == word[0];
  }

  lemma {:induction false} HeadOf(hidden: char -> bool, v: Json)
    requires AsciiVisible(hidden) && Printable(v)
    ensures Safe(hidden, Print(v)) != "" && IsValueHead(Safe(hidden, Print(v))[0])
  {
    match v
    case Null => SafeAscii(hidden, Print(v));
    case Bool(_) => SafeAscii(hidden, Print(v));
    case Num(lexeme) => ParseNumber(hidden, lexeme, "");
    case Str(s) => SafeVisible(hidden, '"', JsonChars(s) + "\"");
    case Arr(items) => SafeVisible(hidden, '[', PrintItems(items));
    case Obj(fields) => SafeVisible(hidden, '{', PrintFields(fields));
  }

  lemma {:induction false} ItemsLast(first: string, v: Json, rest: string)
    requires Parse(first + ("]" + rest)) == Some((v, "]" + rest))
    ensures ParseItems(first + ("]" + rest)) == Some(([v], rest))
  {
    assert ("]" + rest)[1..] == rest;
  }

  lemma {:induction false} ItemsMore(first: string, more: string, v: Json, vs: seq<Json>, rest: string)
    requires Parse(first + ("," + more)) == Some((v, "," + more)) && ParseItems(more) == Some((vs, rest))
    ensures ParseItems(first + ("," + more)) == Some(([v] + vs, rest))
  {
    assert ("," + more)[1..] == more;
  }

  lemma {:induction false} SafeItems(hidden: char -> bool, items: seq<Json>, rest: string)
    requires AsciiVisible(hidden) && items != []
    ensures Safe(hidden, PrintItems(items)) + rest ==
            Safe(hidden, Print(items[0])) +
            (if |items| == 1 then "]" + rest else "," + (Safe(hidden, PrintItems(items[1..])) + rest))
  {
    var first := Print(items[0]);
    if |items| == 1 {
      SafeConcat(hidden, first, "]");
      SafeAscii(hidden, "]");
      Assoc(Safe(hidden, first), "]", rest);
    } else {
      var more := PrintItems(items[1..]);
      SafeConcat(hidden, first, "," + more);
      SafeVisible(hidden, ',', more);
      Assoc(Safe(hidden, first), "," + Safe(hidden, more), rest);
      Assoc(",", Safe(hidden, more), rest);
    }
  }

  lemma {:induction false} OpensArray(body: string, items: seq<Json>, rest: string)
    requires body != "" && body[0] != ']' && ParseItems(body) == Some((items, rest))
    ensures Parse("[" + body) == Some((Arr(items), rest))
  {
    assert ("[" + body)[1..] == body;
  }

  lemma {:induction false} OpensObject(body: string, fields: seq<Field>, rest: string)
    requires body != "" && body[0] != '}' && ParseFields(body) == Some((fields, rest))
    ensures Parse("{" + body) == Some((Obj(fields), rest))
  {
    assert ("{" + body)[1..] == body;
  }

  lemma {:induction false} EmptyArray(hidden: char -> bool, rest: string)
    requires AsciiVisible(hidden)
    ensures Parse(Safe(hidden, Print(Arr([]))) + rest) == Some((Arr([]), rest))
  {
    SafeAscii(hidden, "[]");
    assert Print(Arr([])) == "[]";
    assert ("[]" + rest)[2..] == rest;
  }

  lemma {:induction false} EmptyObject(hidden: char -> bool, rest: string)
    requires AsciiVisible(hidden)
    ensures Parse(Safe(hidden, Print(Obj([]))) + rest) == Some((Obj([]), rest))
  {
    SafeAscii(hidden, "{}");
    assert Print(Obj([])) == "{}";
    assert ("{}" + rest)[2..] == rest;
  }

  lemma {:induction false} FieldHead(hidden: char -> bool, f: Field, tail: string)
    requires AsciiVisible(hidden)
    ensures Safe(hidden, Quote(f.key) + (":" + tail)) == Safe(hidden, Quote(f.key)) + (":" + Safe(hidden, tail))
  {
    SafeConcat(hidden, Quote(f.key), ":" + tail);
    SafeVisible(hidden, ':', tail);
  }

  lemma {:induction false} SafeFields(hidden: char -> bool, fields: seq<Field>, rest: string)
    requires AsciiVisible(hidden) && fields != []
    ensures Safe(hidden, PrintFields(fields)) + rest ==
            "\"" + (SafeChars(hidden, fields[0].key) + ("\"" + (":" + (Safe(hidden, Print(fields[0].value)) +
              (if |fields| == 1 then "}" + rest else "," + (Safe(hidden, PrintFields(fields[1..])) + rest))))))
  {
    var first := Print(fields[0].value);
    var tail := first + (if |fields| == 1 then "}" else "," + PrintFields(fields[1..]));
    FieldHead(hidden, fields[0], tail);
    Assoc(Safe(hidden, Quote(fields[0].key)), ":" + Safe(hidden, tail), rest);
    Assoc(":", Safe(hidden, tail), rest);
    SafeQuote(hidden, fields[0].key, ":" + (Safe(hidden, tail) + rest));
    if |fields| == 1 {
      SafeConcat(hidden, first, "}");
      SafeAscii(hidden, "}");
      Assoc(Safe(hidden, first), "}", rest);
    } else {
      var more := PrintFields(fields[1..]);
      SafeConcat(hidden, first, "," + more);
      SafeVisible(hidden, ',', more);
      Assoc(Safe(hidden, first), "," + Safe(hidden, more), rest);
      Assoc(",", Safe(hidden, more), rest);
    }
  }

  lemma {:induction false} FieldsLast(content: string, key: string, first: string, v: Json, rest: string)
    requires Chars(content) == Some((key, ":" + (first + ("}" + rest))))
    requires Parse(first + ("}" + rest)) == Some((v, "}" + rest))
    ensures ParseFields("\"" + content) == Some(([Field(key, v)], rest))
  {
    assert ("\"" + content)[1..] == content;
    assert (":" + (first + ("}" + rest)))[1..] == first + ("}" + rest);
    assert ("}" + rest)[1..] == rest;
  }

  lemma {:induction false} FieldsMore(
      content: string, key: string, first: string, v: Json, more: string, others: seq<Field>, rest: string)
    requires Chars(content) == Some((key, ":" + (first + ("," + more))))
    requires Parse(first + ("," + more)) == Some((v, "," + more)) && ParseFields(more) == Some((others, rest))
    ensures ParseFields("\"" + content) == Some(([Field(key, v)] + others, rest))
  {
    assert ("\"" + content)[1..] == content;
    assert (":" + (first + ("," + more)))[1..] == first + ("," + more);
    assert ("," + more)[1..] == more;
  }

  lemma FieldContent(
      hidden: char -> bool, fields: seq<Field>, rest: string, tail: string)
    returns (content: string)
    requires AsciiVisible(hidden) && fields != []
    requires tail == if |fields| == 1 then "}" + rest else "," + (Safe(hidden, PrintFields(fields[1..])) + rest)
    ensures Safe(hidden, PrintFields(fields)) + rest == "\"" + content
    ensures Chars(content) == Some((fields[0].key, ":" + (Safe(hidden, Print(fields[0].value)) + tail)))
  {
    var after := ":" + (Safe(hidden, Print(fields[0].value)) + tail);
    content := SafeChars(hidden, fields[0].key) + ("\"" + after);
    SafeFields(hidden, fields, rest);
    CharsDecode(hidden, fields[0].key, after);
  }

  /** A printed value, its hidden characters escaped, is read back and the rest left alone. */
  lemma {:induction false} ParsePrinted(hidden: char -> bool, v: Json, rest: string)
    requires AsciiVisible(hidden) && Printable(v) && Stops(rest)
    ensures Parse(Safe(hidden, Print(v)) + rest) == Some((v, rest))
    decreases v, 0
  {
    match v
    case Null => ParseWord(hidden, v, rest);
    case Bool(_) => ParseWord(hidden, v, rest);
    case Num(lexeme) => ParseNumber(hidden, lexeme, rest);
    case Str(s) => ParseString(hidden, s, rest);
    case Arr(items) =>
      if items == [] {
        EmptyArray(hidden, rest);
      } else {
        ParsePrintedItems(hidden, items, rest);
        SafeVisible(hidden, '[', PrintItems(items));
        Assoc("[", Safe(hidden, PrintItems(items)), rest);
        SafeItems(hidden, items, rest);
        HeadOf(hidden, items[0]);
        OpensArray(Safe(hidden, PrintItems(items)) + rest, items, rest);
      }
    case Obj(fields) =>
      if fields == [] {
        EmptyObject(hidden, rest);
      } else {
        ParsePrintedFields(hidden, fields, rest);
        SafeVisible(hidden, '{', PrintFields(fields));
        Assoc("{", Safe(hidden, PrintFields(fields)), rest);
        SafeFields(hidden, fields, rest);
        OpensObject(Safe(hidden, PrintFields(fields)) + rest, fields, rest);
      }
  }

  lemma {:induction false} ParsePrintedItems(hidden: char -> bool, items: seq<Json>, rest: string)
    requires AsciiVisible(hidden) && items != [] && forall i :: 0 <= i < |items| ==> Printable(items[i])
    ensures ParseItems(Safe(hidden, PrintItems(items)) + rest) == Some((items, rest))
    decreases items, 1
  {
    var first := Safe(hidden, Print(items[0]));
    SafeItems(hidden, items, rest);
    assert items == [items[0]] + items[1..];
    if |items| == 1 {
      assert items == [items[0]];
      ParsePrinted(hidden, items[0], "]" + rest);
      ItemsLast(first, items[0], rest);
    } else {
      var more := Safe(hidden, PrintItems(items[1..])) + rest;
      ParsePrinted(hidden, items[0], "," + more);
      ParsePrintedItems(hidden, items[1..], rest);
      ItemsMore(first, more, items[0], items[1..], rest);
    }
  }

  lemma {:induction false} ParsePrintedFields(hidden: char -> bool, fields: seq<Field>, rest: string)
    requires AsciiVisible(hidden) && fields != [] && forall i :: 0 <= i < |fields| ==> Printable(fields[i].value)
    ensures ParseFields(Safe(hidden, PrintFields(fields)) + rest) == Some((fields, rest))
    decreases fields, 1
  {
    var f, first := fields[0], Safe(hidden, Print(fields[0].value));
    if |fields| == 1 {
      assert fields == [Field(f.key, f.value)];
      ParsePrinted(hidden, f.value, "}" + rest);
      var content := FieldContent(hidden, fields, rest, "}" + rest);
      FieldsLast(content, f.key, first, f.value, rest);
    } else {
      assert fields == [Field(f.key, f.value)] + fields[1..];
      var more := Safe(hidden, PrintFields(fields[1..])) + rest;
      ParsePrinted(hidden, f.value, "," + more);
      ParsePrintedFields(hidden, fields[1..], rest);
      var content := FieldContent(hidden, fields, rest, "," + more);
      FieldsMore(content, f.key, first, f.value, more, fields[1..], rest);
    }
  }

  /** `json.loads` undoes `json.dumps` with the hidden characters escaped. */
  lemma {:induction false} LoadsPrinted(hidden: char -> bool, v: Json)
    requires AsciiVisible(hidden) && Printable(v)
    ensures Loads(Safe(hidden, Print(v))) == Some(v)
  {
    ParsePrinted(hidden, v, "");
    assert Safe(hidden, Print(v)) + "" == Safe(hidden, Print(v));
  }
}
