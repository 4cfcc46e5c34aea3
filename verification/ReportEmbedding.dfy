/**
 The data block of the validation report: written by scripts/render_validation_report.py
 (`_json_for_html`) and read by scripts/verify_validation_records.py (`report_records`).
 */
module ReportEmbedding {
  import opened Outcomes
  import opened ReportText
  import opened ReportJson

  const SCRIPT := "script id="
  const DATA_ID := "\"validation-data\" type="
  const DATA_TYPE := "\"application/json\">"
  const OPENING := "<" + (SCRIPT + (DATA_ID + DATA_TYPE))
  const CLOSING := "<" + "/script>"

  datatype ReportError = NoDataBlock | InvalidJson | NotAnArray | NotAnObject | NoSkillName

  // ---------- HTML ----------

  function Entity(c: char): (r: string)
    ensures r != ""
  {
    if c == '&' then "&amp;"
    else if c == '<' then "&lt;"
    else if c == '>' then "&gt;"
    else if c == '"' then "&quot;"
    else if c == '\'' then "&#x27;"
    else [c]
  }

  /** `html.escape(text, quote=True)`. */
  function HtmlEscape(t: string): (r: string) {
    if t == "" then "" else Entity(t[0]) + HtmlEscape(t[1..])
  }

  /** The character an entity at the head stands for, and its length. */
  function EntityAt(t: string): (r: (char, nat))
    requires t != ""
    ensures 0 < r.1 <= |t|
  {
    if t[0] != '&' then (t[0], 1)
    else if "&amp;" <= t then ('&', 5)
    else if "&lt;" <= t then ('<', 4)
    else if "&gt;" <= t then ('>', 4)
    else if "&quot;" <= t then ('"', 6)
    else if "&#x27;" <= t then ('\'', 6)
    else (t[0], 1)
  }

  /** `html.unescape`, for the five entities `html.escape` writes. */
  function HtmlUnescape(t: string): (r: string)
    decreases |t|
  {
    if t == "" then "" else [EntityAt(t).0] + HtmlUnescape(t[EntityAt(t).1..])
  }

  lemma EntityDecodes(c: char, rest: string)
    ensures EntityAt(Entity(c) + rest) == (c, |Entity(c)|)
  {
    var t := Entity(c) + rest;
    assert t[..|Entity(c)|] == Entity(c);
    assert |t| > 1 ==> t[1] == if |Entity(c)| > 1 then Entity(c)[1] else rest[0];
  }

  lemma {:induction false} UnescapeInvertsEscape(t: string)
    ensures HtmlUnescape(HtmlEscape(t)) == t
  {
    if t == "" {
    } else {
      var code, rest := Entity(t[0]), HtmlEscape(t[1..]);
      EntityDecodes(t[0], rest);
      assert (code + rest)[|code|..] == rest;
      UnescapeInvertsEscape(t[1..]);
      assert t == [t[0]] + t[1..];
    }
  }

  lemma {:induction false} EscapedHasNoMarkup(t: string)
    ensures '<' !in HtmlEscape(t) && '>' !in HtmlEscape(t) && '"' !in HtmlEscape(t) && '\'' !in HtmlEscape(t)
  {
    if t == "" {
    } else {
      EscapedHasNoMarkup(t[1..]);
      var code := Entity(t[0]);
      assert '<' !in code && '>' !in code && '"' !in code && '\'' !in code;
    }
  }

  // ---------- The writer ----------

  function Embedded(hidden: char -> bool, v: Json): (r: string) {
    HtmlEscape(Safe(hidden, Print(v)))
  }

  method JsonForHtml(hidden: char -> bool, v: Json) returns (r: string)
    ensures r == Embedded(hidden, v)
  {
    var serialized := Print(v);
    var safe := "";
    for i := 0 to |serialized|
      invariant safe == Safe(hidden, serialized[..i])
    {
      assert serialized[..i + 1] == serialized[..i] + [serialized[i]];
      SafeConcat(hidden, serialized[..i], [serialized[i]]);
      assert [serialized[i]][1..] == "";
      if !hidden(serialized[i]) {
        safe := safe + [serialized[i]];
      } else {
        safe := safe + EscapedChar(serialized[i]);
      }
    }
    assert serialized[..|serialized|] == serialized;
    r := HtmlEscape(safe);
  }

  // ---------- The reader ----------

  ghost predicate OccursAt(page: string, tag: string, i: int) {
    0 <= i && i + |tag| <= |page| && page[i..i + |tag|] == tag
  }

  ghost predicate FirstAt(page: string, tag: string, from: int, i: int) {
    from <= i && OccursAt(page, tag, i) && forall j :: from <= j < i ==> !OccursAt(page, tag, j)
  }

  method Find(page: string, tag: string, from: nat) returns (r: Option<nat>)
    requires from <= |page|
    ensures r.Some? ==> FirstAt(page, tag, from, r.value)
    ensures r.None? ==> forall i :: from <= i ==> !OccursAt(page, tag, i)
  {
    var i := from;
    while i + |tag| <= |page|
      invariant from <= i
      invariant forall j :: from <= j < i ==> !OccursAt(page, tag, j)
    {
      if page[i..i + |tag|] == tag { return Some(i); }
      i := i + 1;
    }
    return None;
  }

  /** The first opening tag at i and the first closing tag after it at j. */
  ghost predicate Block(page: string, opening: string, closing: string, i: int, j: int) {
    FirstAt(page, opening, 0, i) && FirstAt(page, closing, i + |opening|, j)
  }

  /** The text between the tags. */
  method DataBlock(page: string, opening: string, closing: string) returns (r: Option<string>)
    ensures forall i, j :: Block(page, opening, closing, i, j) ==> r == Some(page[i + |opening|..j])
    ensures (forall i, j :: !Block(page, opening, closing, i, j)) ==> r == None
  {
    var first := Find(page, opening, 0);
    if first.None? { return None; }
    var start := first.value + |opening|;
    var last := Find(page, closing, start);
    if last.None? { return None; }
    assert Block(page, opening, closing, first.value, last.value);
    return Some(page[start..last.value]);
  }

  /** The last field of this key, as a dictionary keeps it. */
  function At(fields: seq<Field>, key: string): (r: Option<Json>) {
    if fields == [] then None
    else if fields[|fields| - 1].key == key then Some(fields[|fields| - 1].value)
    else At(fields[..|fields| - 1], key)
  }

  predicate IsRecord(v: Json) {
    v.Obj? && match At(v.fields, "skill") case Some(Str(_)) => true case _ => false
  }

  function Decode(body: string): (r: Result<seq<Json>, ReportError>) {
    match Loads(HtmlUnescape(body))
    case None => Err(InvalidJson)
    case Some(data) =>
      if !data.Arr? then Err(NotAnArray)
      else if exists i :: 0 <= i < |data.items| && !data.items[i].Obj? then Err(NotAnObject)
      else if exists i :: 0 <= i < |data.items| && !IsRecord(data.items[i]) then Err(NoSkillName)
      else Ok(data.items)
  }

  ghost predicate LastField(fields: seq<Field>, i: int, key: string, value: Json) {
    0 <= i < |fields| && fields[i] == Field(key, value) && forall j :: i < j < |fields| ==> fields[j].key != key
  }

  /** An object whose last field under "skill" is a text. */
  ghost predicate Named(v: Json) {
    v.Obj? && exists i, skill :: LastField(v.fields, i, "skill", Str(skill))
  }

  lemma {:induction false} LastUnder(fields: seq<Field>, key: string)
    ensures At(fields, key).Some? ==> exists i :: LastField(fields, i, key, At(fields, key).value)
    ensures At(fields, key).None? ==> forall i :: 0 <= i < |fields| ==> fields[i].key != key
  {
    if fields == [] {
    } else if fields[|fields| - 1].key == key {
      assert LastField(fields, |fields| - 1, key, At(fields, key).value);
    } else {
      var front := fields[..|fields| - 1];
      LastUnder(front, key);
      if At(front, key).Some? {
        var i :| LastField(front, i, key, At(front, key).value);
        assert LastField(fields, i, key, At(fields, key).value);
      }
    }
  }

  lemma IsRecordIff(v: Json)
    ensures IsRecord(v) <==> Named(v)
  {
    if v.Obj? {
      LastUnder(v.fields, "skill");
      if Named(v) && At(v.fields, "skill").Some? {
        var i, skill :| LastField(v.fields, i, "skill", Str(skill));
        var k :| LastField(v.fields, k, "skill", At(v.fields, "skill").value);
        assert i == k;
      }
    }
  }

  /** A data block is accepted exactly when it is an array of records with names, and returned as it is. */
  lemma {:induction false} DecodeDecides(body: string)
    ensures var data := Loads(HtmlUnescape(body));
            (Decode(body) == Err(InvalidJson) <==> data.None?) &&
            (Decode(body) == Err(NotAnArray) <==> data.Some? && !data.value.Arr?) &&
            (data.Some? && data.value.Arr? ==>
               var records := data.value.items;
               (Decode(body).Ok? <==> forall k :: 0 <= k < |records| ==> Named(records[k])) &&
               (Decode(body).Ok? ==> Decode(body) == Ok(records)) &&
               (Decode(body) == Err(NotAnObject) <==> exists k :: 0 <= k < |records| && !records[k].Obj?))
  {
    var data := Loads(HtmlUnescape(body));
    if data.Some? && data.value.Arr? {
      forall k | 0 <= k < |data.value.items| ensures IsRecord(data.value.items[k]) <==> Named(data.value.items[k]) {
        IsRecordIff(data.value.items[k]);
      }
    }
  }

  method ReportRecords(page: string) returns (r: Result<seq<Json>, ReportError>)
    ensures forall i, j :: Block(page, OPENING, CLOSING, i, j) ==> r == Decode(page[i + |OPENING|..j])
    ensures (forall i, j :: !Block(page, OPENING, CLOSING, i, j)) ==> r == Err(NoDataBlock)
  {
    var body := DataBlock(page, OPENING, CLOSING);
    if body.None? { return Err(NoDataBlock); }
    r := Decode(body.value);
  }

  // ---------- Round trip ----------

  /** A tag whose only `<` is its first character. */
  ghost predicate IsTag(tag: string) {
    tag != "" && tag[0] == '<' && forall k :: 1 <= k < |tag| ==> tag[k] != '<'
  }

  lemma TagIs(rest: string)
    requires '<' !in rest
    ensures IsTag("<" + rest)
  {
  }

  lemma Tags()
    ensures IsTag(OPENING) && IsTag(CLOSING)
  {
    assert '<' !in SCRIPT && '<' !in DATA_ID && '<' !in DATA_TYPE && '<' !in "/script>";
    TagIs(SCRIPT + (DATA_ID + DATA_TYPE));
    TagIs("/script>");
  }

  lemma FirstTag(before: string, tag: string, after: string)
    requires IsTag(tag) && forall i :: !OccursAt(before, tag, i)
    ensures FirstAt(before + tag + after, tag, 0, |before|)
  {
    var page := before + tag + after;
    assert page[|before|..|before| + |tag|] == tag;
    forall j | 0 <= j < |before| ensures !OccursAt(page, tag, j) {
      if j + |tag| <= |before| {
        assert page[j..j + |tag|] == before[j..j + |tag|];
        assert !OccursAt(before, tag, j);
      } else if j + |tag| <= |page| {
        assert page[j..j + |tag|][|before| - j] == page[|before|] == tag[0];
      }
    }
  }

  lemma FirstClosing(head: string, body: string, tag: string, after: string)
    requires IsTag(tag) && '<' !in body
    ensures FirstAt(head + body + tag + after, tag, |head|, |head| + |body|)
  {
    var page, n := head + body + tag + after, |head| + |body|;
    assert page[n..n + |tag|] == tag;
    forall j | |head| <= j < n ensures !OccursAt(page, tag, j) {
      if j + |tag| <= |page| {
        assert page[j..j + |tag|][0] == page[j] == body[j - |head|];
      }
    }
  }

  /** The page as rendered: the data block between other text that does not open one. */
  function Page(before: string, opening: string, embedded: string, closing: string, after: string): (r: string) {
    before + opening + embedded + closing + after
  }

  lemma BlockBetween(
      before: string, opening: string, embedded: string, closing: string, after: string)
    requires IsTag(opening) && IsTag(closing) && '<' !in embedded && forall i :: !OccursAt(before, opening, i)
    ensures var page := Page(before, opening, embedded, closing, after);
            var i, j := |before|, |before| + |opening| + |embedded|;
            Block(page, opening, closing, i, j) && page[i + |opening|..j] == embedded
  {
    assert before + opening + embedded + closing + after == before + opening + (embedded + closing + after);
    FirstTag(before, opening, embedded + closing + after);
    FirstClosing(before + opening, embedded, closing, after);
  }

  lemma DecodeEmbedded(hidden: char -> bool, records: seq<Json>)
    requires AsciiVisible(hidden) && forall k :: 0 <= k < |records| ==> Printable(records[k]) && IsRecord(records[k])
    ensures Decode(Embedded(hidden, Arr(records))) == Ok(records)
    ensures '<' !in Embedded(hidden, Arr(records))
  {
    var text := Safe(hidden, Print(Arr(records)));
    EscapedHasNoMarkup(text);
    UnescapeInvertsEscape(text);
    LoadsPrinted(hidden, Arr(records));
  }

  lemma RoundTripBetween(
    embedded: string, decoded: Result<seq<Json>, ReportError>, before: string, opening: string, closing: string,
    after: string)
    returns (i: int, j: int)
    requires '<' !in embedded && Decode(embedded) == decoded
    requires IsTag(opening) && IsTag(closing) && forall k :: !OccursAt(before, opening, k)
    ensures var page := Page(before, opening, embedded, closing, after);
            Block(page, opening, closing, i, j) && Decode(page[i + |opening|..j]) == decoded
  {
    BlockBetween(before, opening, embedded, closing, after);
    i, j := |before|, |before| + |opening| + |embedded|;
  }

  /** Whatever the records contain, reading the rendered page gives them back. */
  lemma EmbeddingRoundTrip(hidden: char -> bool, records: seq<Json>, before: string, after: string)
    returns (i: int, j: int)
    requires AsciiVisible(hidden) && forall k :: 0 <= k < |records| ==> Printable(records[k]) && IsRecord(records[k])
    requires forall k :: !OccursAt(before, OPENING, k)
    ensures var page := Page(before, OPENING, Embedded(hidden, Arr(records)), CLOSING, after);
            Block(page, OPENING, CLOSING, i, j) && Decode(page[i + |OPENING|..j]) == Ok(records)
  {
    Tags();
    DecodeEmbedded(hidden, records);
    i, j := RoundTripBetween(Embedded(hidden, Arr(records)), Ok(records), before, OPENING, CLOSING, after);
  }

  /** Nothing hidden and no markup reaches the page. */
  lemma {:induction false} NothingHidden(hidden: char -> bool, text: string)
    requires AsciiVisible(hidden)
    ensures forall k :: 0 <= k < |Safe(hidden, text)| ==> !hidden(Safe(hidden, text)[k])
  {
    if text == "" {
    } else {
      NothingHidden(hidden, text[1..]);
      if hidden(text[0]) { EscapedCharVisible(hidden, text[0]); }
    }
  }

  lemma EscapedCharVisible(hidden: char -> bool, c: char)
    requires AsciiVisible(hidden)
    ensures forall k :: 0 <= k < |EscapedChar(c)| ==> !hidden(EscapedChar(c)[k])
  {
    var n := c as int;
    if n <= 0xFFFF {
      EscapeIsAscii(n);
    } else {
      EscapeIsAscii(High(n));
      EscapeIsAscii(Low(n));
    }
  }
}
