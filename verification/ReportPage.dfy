/**
 The validation report as a page (scripts/render_validation_report.py, `render`): its cards show the records,
 and the data block after them is still the first one a reader finds.
 */
module ReportPage {
  import opened Outcomes
  import opened ReportEmbedding
  import opened ReportJson
  import opened ReportText
  import Sequences

  /** A tag from after its `<` to the text that follows it, other fixed text, or a shown value. */
  datatype Part = Mark(tail: string) | Plain(text: string) | Shown(value: string)

  /** `hidden` decides control and format characters, `str` shows a value and `lower` folds case. */
  datatype Style = Style(hidden: char -> bool, str: Json -> string, lower: string -> string)

  /** `_display_text`: without hidden characters, tabs and newlines kept. */
  function DisplayText(hidden: char -> bool, t: string): (r: string) {
    if t == "" then ""
    else (if t[0] == '\t' || t[0] == '\n' || !hidden(t[0]) then [t[0]] else "") + DisplayText(hidden, t[1..])
  }

  function PartText(hidden: char -> bool, p: Part): (r: string) {
    match p
    case Mark(tail) => "<" + tail
    case Plain(text) => text
    case Shown(value) => HtmlEscape(DisplayText(hidden, value))
  }

  function Text(hidden: char -> bool, parts: seq<Part>): (r: string) {
    if parts == [] then ""
    else Text(hidden, parts[..|parts| - 1]) + PartText(hidden, parts[|parts| - 1])
  }

  // ---------- No part opens a data block ----------

  /** Every `<` is followed by something else than `sc`. */
  ghost predicate Quiet(text: string) {
    forall i {:trigger text[i]} :: 0 <= i < |text| && text[i] == '<' ==> !Opens(text, i)
  }

  /** It is not yet clear that the tag at i is another one. */
  predicate Opens(text: string, i: int)
    requires 0 <= i < |text|
  {
    (i + 1 == |text| || text[i + 1] == 's') && (i + 2 >= |text| || text[i + 2] == 'c')
  }

  predicate QuietPart(p: Part) {
    match p
    case Mark(tail) => |tail| >= 2 && '<' !in tail && (tail[0] != 's' || tail[1] != 'c')
    case Plain(text) => '<' !in text
    case Shown(_) => true
  }

  ghost predicate AllQuiet(parts: seq<Part>) {
    forall i :: 0 <= i < |parts| ==> QuietPart(parts[i])
  }

  lemma QuietConcat(a: string, b: string)
    requires Quiet(a) && Quiet(b)
    ensures Quiet(a + b)
  {
    var t := a + b;
    forall i | 0 <= i < |t| && t[i] == '<' ensures !Opens(t, i) {
      if i < |a| {
        assert a[i] == '<' && !Opens(a, i);
      } else {
        assert b[i - |a|] == '<' && !Opens(b, i - |a|);
      }
    }
  }

  lemma PartIsQuiet(hidden: char -> bool, p: Part)
    requires QuietPart(p)
    ensures Quiet(PartText(hidden, p))
  {
    if p.Shown? { EscapedHasNoMarkup(DisplayText(hidden, p.value)); }
  }

  lemma {:induction false} TextIsQuiet(hidden: char -> bool, parts: seq<Part>)
    requires AllQuiet(parts)
    ensures Quiet(Text(hidden, parts))
  {
    if parts == [] {
    } else {
      TextIsQuiet(hidden, parts[..|parts| - 1]);
      PartIsQuiet(hidden, parts[|parts| - 1]);
      QuietConcat(Text(hidden, parts[..|parts| - 1]), PartText(hidden, parts[|parts| - 1]));
    }
  }

  lemma BlockOpens(text: string, i: int)
    requires OccursAt(text, OPENING, i)
    ensures 0 <= i < |text| && text[i] == '<' && Opens(text, i)
  {
    OpeningStarts();
    var found := text[i..i + |OPENING|];
    assert found[0] == text[i] && found[1] == text[i + 1] && found[2] == text[i + 2];
  }

  lemma OpeningStarts()
    ensures |OPENING| >= 3 && OPENING[0] == '<' && OPENING[1] == 's' && OPENING[2] == 'c'
  {
    assert SCRIPT[0] == 's' && SCRIPT[1] == 'c';
  }

  // ---------- The cards ----------

  function Field(v: Json, key: string): (r: Json) {
    if v.Obj? && At(v.fields, key).Some? then At(v.fields, key).value else Null
  }

  function Show(style: Style, v: Json, key: string): (r: Part) { Shown(style.str(Field(v, key))) }

  /** What follows the `<` does not start as the opening tag does. */
  predicate OtherTag(open: string) {
    '<' !in open && open != "" && (open[0] != 's' || (|open| >= 2 && open[1] != 'c'))
  }

  /** `<open>inner</name>`. */
  function Element(open: string, inner: seq<Part>, name: string): (r: seq<Part>)
    requires OtherTag(open) && '<' !in name && AllQuiet(inner)
    ensures AllQuiet(r)
  {
    [Mark(open + ">")] + inner + [Mark("/" + name + ">")]
  }

  /** On the next line. */
  function NextLine(first: seq<Part>, second: seq<Part>): (r: seq<Part>)
    requires AllQuiet(first) && AllQuiet(second)
    ensures AllQuiet(r)
  {
    first + [Plain("\n  ")] + second
  }

  function CaseHead(style: Style, c: Json): (r: seq<Part>)
    ensures AllQuiet(r)
  {
    Element("div class=\"case-head\"",
            Element("strong", [Show(style, c, "title")], "strong") +
            Element("span", [Show(style, c, "score"), Plain("/10")], "span"), "div")
  }

  function CaseParts(style: Style, c: Json): (r: seq<Part>)
    ensures AllQuiet(r)
  {
    Element("li", CaseHead(style, c) + Element("p", [Show(style, c, "whatHappened")], "p"), "li")
  }

  function CasesParts(style: Style, cases: seq<Json>): (r: seq<Part>)
    ensures AllQuiet(r)
  {
    if cases == [] then [] else CasesParts(style, cases[..|cases| - 1]) + CaseParts(style, cases[|cases| - 1])
  }

  function CasesOf(record: Json): (r: seq<Json>) {
    if Field(record, "cases").Arr? then Field(record, "cases").items else []
  }

  function SearchText(style: Style, record: Json): (r: string) {
    style.lower(style.str(Field(record, "skill")) + " " + style.str(Field(record, "oneLiner")))
  }

  function SkillAttribute(style: Style, record: Json): (r: seq<Part>)
    ensures AllQuiet(r)
  {
    [Plain("data-skill=\""), Show(style, record, "skill"), Plain("\" ")]
  }

  function SearchAttribute(style: Style, record: Json): (r: seq<Part>)
    ensures AllQuiet(r)
  {
    [Plain("data-search=\""), Shown(SearchText(style, record)), Plain("\">")]
  }

  function CardStart(style: Style, record: Json): (r: seq<Part>)
    ensures AllQuiet(r)
  {
    [Mark("article class=\"card\" ")] + SkillAttribute(style, record) + SearchAttribute(style, record)
  }

  function Eyebrow(style: Style, record: Json): (r: seq<Part>)
    ensures AllQuiet(r)
  {
    Element("span class=\"eyebrow\"", [Show(style, record, "inv"), Plain(" invocation")], "span")
  }

  function Title(style: Style, record: Json): (r: seq<Part>)
    ensures AllQuiet(r)
  {
    Element("div", Eyebrow(style, record) + Element("h2", [Show(style, record, "skill")], "h2"), "div")
  }

  function Score(style: Style, record: Json): (r: seq<Part>)
    ensures AllQuiet(r)
  {
    Element("div class=\"score\"", [Show(style, record, "caseAvg")] + Element("small", [Plain("/10")], "small"), "div")
  }

  function CardTop(style: Style, record: Json): (r: seq<Part>)
    ensures AllQuiet(r)
  {
    Element("div class=\"card-top\"", Title(style, record) + Score(style, record), "div")
  }

  function Remark(style: Style, record: Json, heading: string, key: string): (r: seq<Part>)
    requires '<' !in heading
    ensures AllQuiet(r)
  {
    Element("p", Element("b", [Plain(heading)], "b") + [Show(style, record, key)], "p")
  }

  function Split(style: Style, record: Json): (r: seq<Part>)
    ensures AllQuiet(r)
  {
    Element("div class=\"split\"", Remark(style, record, "Standout", "standoutStrength") +
                                   Remark(style, record, "Residual", "residual"), "div")
  }

  function Confidence(style: Style, record: Json): (r: seq<Part>)
    ensures AllQuiet(r)
  {
    var shown := [Plain("confidence "), Show(style, record, "confidence")];
    Element("div class=\"confidence\"", shown + [Plain("/10")], "div")
  }

  function CardEnd(style: Style, record: Json): (r: seq<Part>)
    ensures AllQuiet(r)
  {
    NextLine(Split(style, record), Confidence(style, record)) + [Plain("\n"), Mark("/article>")]
  }

  function CardParts(style: Style, record: Json): (r: seq<Part>)
    ensures AllQuiet(r)
  {
    var lead := Element("p class=\"lead\"", [Show(style, record, "oneLiner")], "p");
    var cases := Element("ol", CasesParts(style, CasesOf(record)), "ol");
    NextLine(NextLine(CardStart(style, record), CardTop(style, record)),
             NextLine(NextLine(lead, cases), CardEnd(style, record)))
  }

  function CardsParts(style: Style, records: seq<Json>): (r: seq<Part>)
    ensures AllQuiet(r)
  {
    if records == [] then [] else CardsParts(style, records[..|records| - 1]) + CardParts(style, records[|records| - 1])
  }

  // ---------- The page ----------

  lemma {:induction false} TextSnoc(hidden: char -> bool, front: seq<Part>, last: Part)
    ensures Text(hidden, front + [last]) == Text(hidden, front) + PartText(hidden, last)
  {
    assert (front + [last])[..|front|] == front;
  }

  lemma LastApart<T>(a: seq<T>, b: seq<T>, front: seq<T>, last: T)
    requires b == front + [last]
    ensures a + b == (a + front) + [last]
  {
  }

  lemma {:induction false} TextConcatSnoc(
      hidden: char -> bool, a: seq<Part>, b: seq<Part>, front: seq<Part>, last: Part)
    requires b == front + [last] && Text(hidden, a + front) == Text(hidden, a) + Text(hidden, front)
    ensures Text(hidden, a + b) == Text(hidden, a) + Text(hidden, b)
  {
    LastApart(a, b, front, last);
    TextSnoc(hidden, a + front, last);
    TextSnoc(hidden, front, last);
    Sequences.Assoc(Text(hidden, a), Text(hidden, front), PartText(hidden, last));
  }

  lemma {:induction false} TextConcat(hidden: char -> bool, a: seq<Part>, b: seq<Part>)
    ensures Text(hidden, a + b) == Text(hidden, a) + Text(hidden, b)
    decreases |b|
  {
    if b == [] {
      assert a + b == a;
    } else {
      TextConcat(hidden, a, b[..|b| - 1]);
      assert b == b[..|b| - 1] + [b[|b| - 1]];
      TextConcatSnoc(hidden, a, b, b[..|b| - 1], b[|b| - 1]);
    }
  }

  /** Everything before the data block. `head` and `foot` are the fixed parts around the cards, with what they show. */
  function Before(style: Style, head: seq<Part>, records: seq<Json>, foot: seq<Part>): (r: string) {
    Text(style.hidden, head + CardsParts(style, records) + foot)
  }

  lemma {:induction false} CardsSnoc(style: Style, records: seq<Json>, i: nat, cards: seq<Part>, card: seq<Part>)
    requires i < |records| && cards == CardsParts(style, records[..i]) && card == CardParts(style, records[i])
    ensures CardsParts(style, records[..i + 1]) == cards + card
  {
    assert records[..i + 1][..i] == records[..i];
  }

  lemma {:induction false} BeforeText(style: Style, head: seq<Part>, records: seq<Json>, foot: seq<Part>)
    ensures Before(style, head, records, foot) ==
            Text(style.hidden, head) + Text(style.hidden, CardsParts(style, records)) + Text(style.hidden, foot)
  {
    TextConcat(style.hidden, head, CardsParts(style, records));
    TextConcat(style.hidden, head + CardsParts(style, records), foot);
  }

  /** The cards are rendered one by one, with their cases, and joined. */
  method Render(style: Style, head: seq<Part>, records: seq<Json>, foot: seq<Part>, after: string)
    returns (page: string)
    ensures page ==
            Page(Before(style, head, records, foot), OPENING, Embedded(style.hidden, Arr(records)), CLOSING, after)
  {
    var cards := "";
    for i := 0 to |records|
      invariant cards == Text(style.hidden, CardsParts(style, records[..i]))
    {
      CardsSnoc(style, records, i, CardsParts(style, records[..i]), CardParts(style, records[i]));
      TextConcat(style.hidden, CardsParts(style, records[..i]), CardParts(style, records[i]));
      cards := cards + Text(style.hidden, CardParts(style, records[i]));
    }
    assert records[..|records|] == records;
    var embedded := JsonForHtml(style.hidden, Arr(records));
    BeforeText(style, head, records, foot);
    page := Page(Text(style.hidden, head) + cards + Text(style.hidden, foot), OPENING, embedded, CLOSING, after);
  }

  /** Whatever the records contain, what the page shows of them opens no data block. */
  lemma NothingShownOpensABlock(
      style: Style, head: seq<Part>, records: seq<Json>, foot: seq<Part>, i: int)
    requires AllQuiet(head) && AllQuiet(foot)
    ensures !OccursAt(Before(style, head, records, foot), OPENING, i)
  {
    var text := Before(style, head, records, foot);
    TextIsQuiet(style.hidden, head + CardsParts(style, records) + foot);
    if OccursAt(text, OPENING, i) { BlockOpens(text, i); }
  }

  /** Reading a rendered page gives back exactly the records it was rendered from. */
  method RenderThenRead(style: Style, head: seq<Part>, records: seq<Json>, foot: seq<Part>, after: string)
    returns (r: Result<seq<Json>, ReportError>)
    requires AsciiVisible(style.hidden) && AllQuiet(head) && AllQuiet(foot)
    requires forall k :: 0 <= k < |records| ==> Printable(records[k]) && IsRecord(records[k])
    ensures r == Ok(records)
  {
    var page := Render(style, head, records, foot, after);
    forall i ensures !OccursAt(Before(style, head, records, foot), OPENING, i) {
      NothingShownOpensABlock(style, head, records, foot, i);
    }
    ghost var i, j := EmbeddingRoundTrip(style.hidden, records, Before(style, head, records, foot), after);
    r := ReportRecords(page);
  }
}
