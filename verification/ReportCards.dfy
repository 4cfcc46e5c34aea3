/**
 What a reader of the report sees (scripts/render_validation_report.py, `_display_text` and the cards of `render`):
 which values a card shows, in which order, and no hidden character among them.
 */
module ReportCards {
  import opened ReportEmbedding
  import opened ReportJson
  import opened ReportPage
  import opened ReportText
  import Sequences

  // ---------- Shown text ----------

  lemma {:induction false} DisplayConcat(hidden: char -> bool, a: string, b: string)
    ensures DisplayText(hidden, a + b) == DisplayText(hidden, a) + DisplayText(hidden, b)
  {
    if a == "" {
      assert a + b == b;
    } else {
      DisplayCons(hidden, a[0], a[1..]);
      DisplayCons(hidden, a[0], a[1..] + b);
      DisplayConcat(hidden, a[1..], b);
      assert a == [a[0]] + a[1..] && a + b == [a[0]] + (a[1..] + b);
    }
  }

  /** What is shown of one character. */
  function Shown1(hidden: char -> bool, c: char): (r: string) {
    if c == '\t' || c == '\n' then [c] else if hidden(c) then "" else [c]
  }

  lemma {:induction false} DisplayCons(hidden: char -> bool, c: char, t: string)
    ensures DisplayText(hidden, [c] + t) == Shown1(hidden, c) + DisplayText(hidden, t)
  {
    assert ([c] + t)[1..] == t;
  }

  /** Hidden characters other than tab and newline are dropped, wherever they stand, and all others stay. */
  lemma {:induction false} DisplayDropsHidden(hidden: char -> bool, a: string, c: char, b: string)
    ensures DisplayText(hidden, a + [c] + b) ==
            DisplayText(hidden, a) +
              (if c == '\t' || c == '\n' then [c] else if hidden(c) then "" else [c]) + DisplayText(hidden, b)
  {
    DisplayConcat(hidden, a, [c] + b);
    DisplayCons(hidden, c, b);
    assert a + [c] + b == a + ([c] + b);
  }

  lemma {:induction false} DisplayShows(hidden: char -> bool, t: string, c: char)
    ensures c in DisplayText(hidden, t) <==> c in t && (c == '\t' || c == '\n' || !hidden(c))
  {
    if t == "" {
    } else {
      DisplayShows(hidden, t[1..], c);
      assert t == [t[0]] + t[1..];
    }
  }

  /** A text without hidden characters is shown as it is. */
  lemma {:induction false} DisplayKeepsVisible(hidden: char -> bool, t: string)
    requires forall i :: 0 <= i < |t| ==> t[i] == '\t' || t[i] == '\n' || !hidden(t[i])
    ensures DisplayText(hidden, t) == t
  {
    if t == "" {
    } else {
      DisplayKeepsVisible(hidden, t[1..]);
    }
  }

  // ---------- Nothing hidden ----------

  /** No hidden character but tab and newline. */
  ghost predicate Clean(hidden: char -> bool, t: string) {
    forall i :: 0 <= i < |t| ==> t[i] == '\t' || t[i] == '\n' || !hidden(t[i])
  }

  lemma CleanConcat(hidden: char -> bool, a: string, b: string)
    requires Clean(hidden, a) && Clean(hidden, b)
    ensures Clean(hidden, a + b)
  {
  }

  lemma {:induction false} EscapedIsClean(hidden: char -> bool, t: string)
    requires AsciiVisible(hidden) && Clean(hidden, t)
    ensures Clean(hidden, HtmlEscape(t))
  {
    if t == "" {
    } else {
      EscapedIsClean(hidden, t[1..]);
      assert Clean(hidden, Entity(t[0]));
      CleanConcat(hidden, Entity(t[0]), HtmlEscape(t[1..]));
    }
  }

  /** Printable ASCII and newlines. */
  predicate Printed(text: string) {
    forall i :: 0 <= i < |text| ==> ' ' <= text[i] <= '~' || text[i] == '\n'
  }

  predicate PrintedPart(p: Part) {
    match p
    case Mark(tail) => Printed(tail)
    case Plain(text) => Printed(text)
    case Shown(_) => true
  }

  ghost predicate AllPrinted(parts: seq<Part>) {
    forall i :: 0 <= i < |parts| ==> PrintedPart(parts[i])
  }

  lemma PartIsClean(hidden: char -> bool, p: Part)
    requires AsciiVisible(hidden) && PrintedPart(p)
    ensures Clean(hidden, PartText(hidden, p))
  {
    if p.Shown? {
      var t := DisplayText(hidden, p.value);
      forall i | 0 <= i < |t| ensures t[i] == '\t' || t[i] == '\n' || !hidden(t[i]) {
        DisplayShows(hidden, p.value, t[i]);
      }
      EscapedIsClean(hidden, t);
    }
  }

  lemma {:induction false} TextIsClean(hidden: char -> bool, parts: seq<Part>)
    requires AsciiVisible(hidden) && AllPrinted(parts)
    ensures Clean(hidden, Text(hidden, parts))
  {
    if parts == [] {
    } else {
      TextIsClean(hidden, parts[..|parts| - 1]);
      PartIsClean(hidden, parts[|parts| - 1]);
    }
  }

  // ---------- What the cards show ----------

  /** The values shown, in order. */
  function Values(parts: seq<Part>): (r: seq<string>) {
    if parts == [] then []
    else Values(parts[..|parts| - 1]) + (if parts[|parts| - 1].Shown? then [parts[|parts| - 1].value] else [])
  }

  /** The parts show exactly these values in this order, between printable text. */
  ghost predicate Shows(parts: seq<Part>, values: seq<string>) {
    Values(parts) == values && AllPrinted(parts)
  }

  lemma {:induction false} ValuesConcat(a: seq<Part>, b: seq<Part>)
    ensures Values(a + b) == Values(a) + Values(b)
    decreases |b|
  {
    if b == [] {
      assert a + b == a;
    } else {
      var n := |a + b|;
      assert (a + b)[..n - 1] == a + b[..|b| - 1] && (a + b)[n - 1] == b[|b| - 1];
      ValuesConcat(a, b[..|b| - 1]);
    }
  }

  lemma ShowsConcat(a: seq<Part>, x: seq<string>, b: seq<Part>, y: seq<string>)
    requires Shows(a, x) && Shows(b, y)
    ensures Shows(a + b, x + y)
  {
    ValuesConcat(a, b);
  }

  lemma ShowsOne(p: Part)
    requires PrintedPart(p)
    ensures Shows([p], if p.Shown? then [p.value] else [])
  {
    assert [p][..0] == [];
  }

  lemma ShowsElement(open: string, inner: seq<Part>, values: seq<string>, name: string)
    requires Tag(open) && Tag(name) && AllQuiet(inner) && Shows(inner, values)
    ensures Shows(Element(open, inner, name), values)
  {
    ShowsOne(Mark(open + ">"));
    ShowsOne(Mark("/" + name + ">"));
    ShowsConcat([Mark(open + ">")], [], inner, values);
    ShowsConcat([Mark(open + ">")] + inner, values, [Mark("/" + name + ">")], []);
  }

  /** Two runs of parts inside one element. */
  lemma ShowsTwo(open: string, a: seq<Part>, x: seq<string>, b: seq<Part>, y: seq<string>, name: string)
    requires Tag(open) && Tag(name) && AllQuiet(a) && AllQuiet(b) && Shows(a, x) && Shows(b, y)
    ensures Shows(Element(open, a + b, name), x + y)
  {
    ShowsConcat(a, x, b, y);
    ShowsElement(open, a + b, x + y, name);
  }

  lemma ShowsNextLine(a: seq<Part>, x: seq<string>, b: seq<Part>, y: seq<string>)
    requires AllQuiet(a) && AllQuiet(b) && Shows(a, x) && Shows(b, y)
    ensures Shows(NextLine(a, b), x + y)
  {
    ShowsOne(Plain("\n  "));
    ShowsConcat(a, x, [Plain("\n  ")], []);
    ShowsConcat(a + [Plain("\n  ")], x, b, y);
  }

  /** A shown value between two fixed texts. */
  lemma ShowsBetween(before: string, p: Part, after: string)
    requires Printed(before) && Printed(after) && p.Shown?
    ensures Shows([Plain(before), p, Plain(after)], [p.value])
  {
    ShowsOne(Plain(before));
    ShowsOne(p);
    ShowsOne(Plain(after));
    ShowsConcat([Plain(before)], [], [p], [p.value]);
    ShowsConcat([Plain(before)] + [p], [p.value], [Plain(after)], []);
    assert [Plain(before)] + [p] + [Plain(after)] == [Plain(before), p, Plain(after)];
  }

  /** An opening tag's text. */
  ghost predicate Tag(open: string) { OtherTag(open) && Printed(open) }

  lemma ShortTags()
    ensures Tag("div") && Tag("span") && Tag("p") && Tag("strong") && Tag("small") && Tag("li") && Tag("ol")
    ensures Tag("h2") && Tag("b")
  {
  }

  lemma HeadTags()
    ensures Tag("div class=\"case-head\"") && Tag("div class=\"card-top\"")
  {
  }

  lemma TailTags()
    ensures Tag("div class=\"score\"") && Tag("div class=\"split\"") && Tag("div class=\"confidence\"")
  {
  }

  lemma TextTags()
    ensures Tag("span class=\"eyebrow\"") && Tag("p class=\"lead\"")
  {
  }

  /** What a value is shown as under this key. */
  function Of(style: Style, v: Json, key: string): (r: string) { style.str(ReportPage.Field(v, key)) }

  lemma ShowsKey(style: Style, v: Json, key: string)
    ensures Shows([Show(style, v, key)], [Of(style, v, key)])
  {
    ShowsOne(Show(style, v, key));
  }

  /** A value followed by fixed text. */
  lemma ShowsBefore(style: Style, v: Json, key: string, after: string)
    requires Printed(after)
    ensures Shows([Show(style, v, key), Plain(after)], [Of(style, v, key)])
  {
    ShowsKey(style, v, key);
    ShowsOne(Plain(after));
    ShowsConcat([Show(style, v, key)], [Of(style, v, key)], [Plain(after)], []);
    assert [Show(style, v, key)] + [Plain(after)] == [Show(style, v, key), Plain(after)];
  }

  lemma ShowsKeyIn(style: Style, v: Json, key: string, open: string, name: string)
    requires Tag(open) && Tag(name)
    ensures Shows(Element(open, [Show(style, v, key)], name), [Of(style, v, key)])
  {
    ShowsKey(style, v, key);
    ShowsElement(open, [Show(style, v, key)], [Of(style, v, key)], name);
  }

  lemma ShowsBeforeIn(style: Style, v: Json, key: string, after: string, open: string, name: string)
    requires Tag(open) && Tag(name) && '<' !in after && Printed(after)
    ensures Shows(Element(open, [Show(style, v, key), Plain(after)], name), [Of(style, v, key)])
  {
    ShowsBefore(style, v, key, after);
    ShowsElement(open, [Show(style, v, key), Plain(after)], [Of(style, v, key)], name);
  }

  /** A case shows its title, its score and what happened. */
  lemma CaseShows(style: Style, c: Json)
    ensures Shows(CaseParts(style, c), [Of(style, c, "title"), Of(style, c, "score"), Of(style, c, "whatHappened")])
  {
    ShortTags();
    CaseHeadShows(style, c);
    ShowsKeyIn(style, c, "whatHappened", "p", "p");
    ShowsTwo("li", CaseHead(style, c), [Of(style, c, "title"), Of(style, c, "score")],
             Element("p", [Show(style, c, "whatHappened")], "p"), [Of(style, c, "whatHappened")], "li");
  }

  lemma CaseHeadShows(style: Style, c: Json)
    ensures Shows(CaseHead(style, c), [Of(style, c, "title"), Of(style, c, "score")])
  {
    ShortTags();
    HeadTags();
    ShowsKeyIn(style, c, "title", "strong", "strong");
    ShowsBeforeIn(style, c, "score", "/10", "span", "span");
    ShowsTwo("div class=\"case-head\"",
             Element("strong", [Show(style, c, "title")], "strong"), [Of(style, c, "title")],
             Element("span", [Show(style, c, "score"), Plain("/10")], "span"), [Of(style, c, "score")], "div");
  }

  function CaseValues(style: Style, cases: seq<Json>): (r: seq<string>) {
    if cases == [] then []
    else
      var c := cases[|cases| - 1];
      CaseValues(style, cases[..|cases| - 1]) +
        [Of(style, c, "title"), Of(style, c, "score"), Of(style, c, "whatHappened")]
  }

  lemma {:induction false} CasesShow(style: Style, cases: seq<Json>)
    ensures Shows(CasesParts(style, cases), CaseValues(style, cases))
  {
    if cases == [] {
    } else {
      var front, c := cases[..|cases| - 1], cases[|cases| - 1];
      CasesShow(style, front);
      CaseShows(style, c);
      ShowsConcat(CasesParts(style, front), CaseValues(style, front), CaseParts(style, c),
                  [Of(style, c, "title"), Of(style, c, "score"), Of(style, c, "whatHappened")]);
    }
  }

  /** The attribute that the page's filter searches: the skill, a blank and its one-liner, case folded. */
  function Searched(style: Style, record: Json): (r: string) {
    style.lower(Of(style, record, "skill") + " " + Of(style, record, "oneLiner"))
  }

  lemma CardStartShows(style: Style, record: Json)
    ensures Shows(CardStart(style, record), [Of(style, record, "skill"), Searched(style, record)])
  {
    ShowsOne(Mark("article class=\"card\" "));
    ShowsBetween("data-skill=\"", Show(style, record, "skill"), "\" ");
    ShowsBetween("data-search=\"", Shown(SearchText(style, record)), "\">");
    var skill := SkillAttribute(style, record);
    ShowsConcat([Mark("article class=\"card\" ")], [], skill, [Of(style, record, "skill")]);
    ShowsConcat([Mark("article class=\"card\" ")] + skill, [Of(style, record, "skill")],
                SearchAttribute(style, record), [Searched(style, record)]);
  }

  lemma TitleShows(style: Style, record: Json)
    ensures Shows(Title(style, record), [Of(style, record, "inv"), Of(style, record, "skill")])
  {
    ShortTags();
    TextTags();
    ShowsBeforeIn(style, record, "inv", " invocation", "span class=\"eyebrow\"", "span");
    ShowsKeyIn(style, record, "skill", "h2", "h2");
    ShowsTwo("div", Eyebrow(style, record), [Of(style, record, "inv")],
             Element("h2", [Show(style, record, "skill")], "h2"), [Of(style, record, "skill")], "div");
  }

  lemma ScoreShows(style: Style, record: Json)
    ensures Shows(Score(style, record), [Of(style, record, "caseAvg")])
  {
    ShortTags();
    TailTags();
    ShowsKey(style, record, "caseAvg");
    ShowsOne(Plain("/10"));
    ShowsElement("small", [Plain("/10")], [], "small");
    ShowsTwo("div class=\"score\"", [Show(style, record, "caseAvg")], [Of(style, record, "caseAvg")],
             Element("small", [Plain("/10")], "small"), [], "div");
  }

  lemma CardTopShows(style: Style, record: Json)
    ensures Shows(CardTop(style, record),
                  [Of(style, record, "inv"), Of(style, record, "skill"), Of(style, record, "caseAvg")])
  {
    ShortTags();
    HeadTags();
    TitleShows(style, record);
    ScoreShows(style, record);
    var title := [Of(style, record, "inv"), Of(style, record, "skill")];
    ShowsTwo("div class=\"card-top\"", Title(style, record), title,
             Score(style, record), [Of(style, record, "caseAvg")], "div");
  }

  lemma RemarkShows(style: Style, record: Json, heading: string, key: string)
    requires '<' !in heading && Printed(heading)
    ensures Shows(Remark(style, record, heading, key), [Of(style, record, key)])
  {
    ShortTags();
    ShowsOne(Plain(heading));
    ShowsElement("b", [Plain(heading)], [], "b");
    ShowsKey(style, record, key);
    ShowsTwo("p", Element("b", [Plain(heading)], "b"), [], [Show(style, record, key)], [Of(style, record, key)], "p");
  }

  lemma CardEndShows(style: Style, record: Json)
    ensures Shows(CardEnd(style, record),
                  [Of(style, record, "standoutStrength"), Of(style, record, "residual"),
                   Of(style, record, "confidence")])
  {
    SplitShows(style, record);
    ConfidenceShows(style, record);
    var remarks := [Of(style, record, "standoutStrength"), Of(style, record, "residual")];
    ShowsNextLine(ReportPage.Split(style, record), remarks,
                  Confidence(style, record), [Of(style, record, "confidence")]);
    ShowsOne(Plain("\n"));
    ShowsOne(Mark("/article>"));
    ShowsConcat([Plain("\n")], [], [Mark("/article>")], []);
    assert [Plain("\n")] + [Mark("/article>")] == [Plain("\n"), Mark("/article>")];
    ShowsConcat(NextLine(ReportPage.Split(style, record), Confidence(style, record)),
                remarks + [Of(style, record, "confidence")], [Plain("\n"), Mark("/article>")], []);
  }

  lemma SplitShows(style: Style, record: Json)
    ensures Shows(ReportPage.Split(style, record),
                  [Of(style, record, "standoutStrength"), Of(style, record, "residual")])
  {
    ShortTags();
    TailTags();
    RemarkShows(style, record, "Standout", "standoutStrength");
    RemarkShows(style, record, "Residual", "residual");
    ShowsTwo("div class=\"split\"",
             Remark(style, record, "Standout", "standoutStrength"), [Of(style, record, "standoutStrength")],
             Remark(style, record, "Residual", "residual"), [Of(style, record, "residual")], "div");
  }

  lemma ConfidenceShows(style: Style, record: Json)
    ensures Shows(Confidence(style, record), [Of(style, record, "confidence")])
  {
    ShortTags();
    TailTags();
    var shown := [Plain("confidence "), Show(style, record, "confidence"), Plain("/10")];
    assert [Plain("confidence "), Show(style, record, "confidence")] + [Plain("/10")] == shown;
    ShowsBetween("confidence ", Show(style, record, "confidence"), "/10");
    ShowsElement("div class=\"confidence\"", shown, [Of(style, record, "confidence")], "div");
  }

  /** What one card shows, in the order of the page. */
  function CardValues(style: Style, record: Json): (r: seq<string>) {
    ([Of(style, record, "skill"), Searched(style, record)] +
     [Of(style, record, "inv"), Of(style, record, "skill"), Of(style, record, "caseAvg")]) +
    ([Of(style, record, "oneLiner")] + CaseValues(style, CasesOf(record))) +
    [Of(style, record, "standoutStrength"), Of(style, record, "residual"), Of(style, record, "confidence")]
  }

  lemma {:induction false} CardMiddleShows(style: Style, record: Json, lead: seq<Part>, cases: seq<Part>)
    requires lead == Element("p class=\"lead\"", [Show(style, record, "oneLiner")], "p")
    requires cases == Element("ol", CasesParts(style, CasesOf(record)), "ol")
    ensures AllQuiet(lead) && AllQuiet(cases)
    ensures Shows(NextLine(lead, cases), [Of(style, record, "oneLiner")] + CaseValues(style, CasesOf(record)))
  {
    ShortTags();
    TextTags();
    ShowsKey(style, record, "oneLiner");
    ShowsElement("p class=\"lead\"", [Show(style, record, "oneLiner")], [Of(style, record, "oneLiner")], "p");
    CasesShow(style, CasesOf(record));
    ShowsElement("ol", CasesParts(style, CasesOf(record)), CaseValues(style, CasesOf(record)), "ol");
    ShowsNextLine(lead, [Of(style, record, "oneLiner")], cases, CaseValues(style, CasesOf(record)));
  }

  lemma ShowsFour(
    a: seq<Part>, w: seq<string>, b: seq<Part>, x: seq<string>,
    c: seq<Part>, y: seq<string>, d: seq<Part>, z: seq<string>)
    requires AllQuiet(a) && AllQuiet(b) && AllQuiet(c) && AllQuiet(d)
    requires Shows(a, w) && Shows(b, x) && Shows(c, y) && Shows(d, z)
    ensures Shows(NextLine(NextLine(a, b), NextLine(c, d)), (w + x) + (y + z))
  {
    ShowsNextLine(a, w, b, x);
    ShowsNextLine(c, y, d, z);
    ShowsNextLine(NextLine(a, b), w + x, NextLine(c, d), y + z);
  }

  lemma CardShows(style: Style, record: Json)
    ensures Shows(CardParts(style, record), CardValues(style, record))
  {
    var lead := Element("p class=\"lead\"", [Show(style, record, "oneLiner")], "p");
    var cases := Element("ol", CasesParts(style, CasesOf(record)), "ol");
    CardMiddleShows(style, record, lead, cases);
    CardStartShows(style, record);
    CardTopShows(style, record);
    CardEndShows(style, record);
    var first := [Of(style, record, "skill"), Searched(style, record)];
    var top := [Of(style, record, "inv"), Of(style, record, "skill"), Of(style, record, "caseAvg")];
    var middle := [Of(style, record, "oneLiner")] + CaseValues(style, CasesOf(record));
    var last := [Of(style, record, "standoutStrength"), Of(style, record, "residual"), Of(style, record, "confidence")];
    ShowsFour(CardStart(style, record), first, CardTop(style, record), top,
              NextLine(lead, cases), middle, CardEnd(style, record), last);
    Sequences.Assoc(first + top, middle, last);
  }

  function CardsValues(style: Style, records: seq<Json>): (r: seq<string>) {
    if records == [] then []
    else CardsValues(style, records[..|records| - 1]) + CardValues(style, records[|records| - 1])
  }

  /** The cards show the records' values, all of them and nothing else, in the order of the records. */
  lemma {:induction false} CardsShow(style: Style, records: seq<Json>)
    ensures Shows(CardsParts(style, records), CardsValues(style, records))
  {
    if records == [] {
    } else {
      var front, record := records[..|records| - 1], records[|records| - 1];
      CardsShow(style, front);
      CardShows(style, record);
      ShowsConcat(CardsParts(style, front), CardsValues(style, front), CardParts(style, record),
                  CardValues(style, record));
    }
  }

  /** Whatever the records contain, no hidden character but tab and newline reaches the cards. */
  lemma {:induction false} CardsHideNothing(style: Style, records: seq<Json>, i: nat)
    requires AsciiVisible(style.hidden) && i < |Text(style.hidden, CardsParts(style, records))|
    ensures var c := Text(style.hidden, CardsParts(style, records))[i];
            c == '\t' || c == '\n' || !style.hidden(c)
  {
    CardsShow(style, records);
    TextIsClean(style.hidden, CardsParts(style, records));
  }

  // ---------- Fields ----------

  /** A repeated key has the value of its last field. */
  lemma FieldIsLast(before: seq<ReportText.Field>, key: string, value: Json, after: seq<ReportText.Field>)
    requires forall i :: 0 <= i < |after| ==> after[i].key != key
    ensures ReportPage.Field(Obj(before + [ReportText.Field(key, value)] + after), key) == value
    decreases |after|
  {
    var all := before + [ReportText.Field(key, value)] + after;
    if after == [] {
    } else {
      FieldIsLast(before, key, value, after[..|after| - 1]);
      assert all[..|all| - 1] == before + [ReportText.Field(key, value)] + after[..|after| - 1];
    }
  }
}
