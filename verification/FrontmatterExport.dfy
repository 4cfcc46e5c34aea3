/**
 The export transform on a whole SKILL.md, with the loops of scripts/install.py. A document is its
 sequence of physical lines.
 */
module FrontmatterExport {
  import opened Outcomes
  import opened Frontmatter
  import opened FrontmatterTransform

  const DELIMITER := "---"

  datatype KeyAt = KeyAt(index: nat, key: string, value: string)

  datatype Fault =
    | NoFrontmatter | Unclosed | UnsupportedSyntax | DuplicateKey | InlineMetadata | BadMetadata
    | NotInline | BlockValue | UnexpectedKey | BlockMoved | RemainsInvalid

  /** The harness's allow-list, the keys to move, and the scalar check on values. */
  datatype Profile = Profile(allowed: set<string>, toMetadata: set<string>, inline: string -> bool)

  datatype Document = Document(front: seq<Line>, body: seq<Line>, newline: string)

  // ---------- Delimiters ----------

  ghost predicate Opens(doc: seq<Line>) { doc != [] && doc[0].text == DELIMITER }

  ghost predicate SplitsAt(doc: seq<Line>, closing: int) {
    Opens(doc) && 1 <= closing < |doc| && doc[closing].text == DELIMITER &&
    forall i :: 1 <= i < closing ==> doc[i].text != DELIMITER
  }

  function NewlineOf(line: Line): (r: string) {
    if line.eol == "\r\n" then "\r\n" else "\n"
  }

  ghost function Split(doc: seq<Line>): (r: Option<Document>) {
    if exists k :: SplitsAt(doc, k) then
      var k :| SplitsAt(doc, k);
      Some(Document(doc[1..k], doc[k + 1..], NewlineOf(doc[0])))
    else None
  }

  method FrontmatterLines(doc: seq<Line>) returns (r: Result<Document, Fault>)
    ensures match Split(doc) { case None => r.Err? case Some(d) => r == Ok(d) }
  {
    if doc == [] || doc[0].text != DELIMITER { return Err(NoFrontmatter); }
    for i := 1 to |doc|
      invariant forall j :: 1 <= j < i ==> doc[j].text != DELIMITER
    {
      if doc[i].text == DELIMITER {
        assert SplitsAt(doc, i);
        return Ok(Document(doc[1..i], doc[i + 1..], NewlineOf(doc[0])));
      }
    }
    return Err(Unclosed);
  }

  // ---------- Top-level keys ----------

  ghost predicate Supported(front: seq<Line>) {
    forall i :: 0 <= i < |front| ==> !Classify(front[i].text).Unsupported?
  }

  function PairsOf(keys: seq<KeyAt>): (r: Pairs)
    ensures |r| == |keys| && forall p :: 0 <= p < |r| ==> r[p] == (keys[p].key, keys[p].value)
  {
    seq(|keys|, p requires 0 <= p < |keys| => (keys[p].key, keys[p].value))
  }

  /** The key lines among the first n, in order. */
  function KeysAt(front: seq<Line>, n: nat): (r: seq<KeyAt>)
    requires n <= |front|
  {
    if n == 0 then []
    else
      match Classify(front[n - 1].text)
      case Key(key, value) => KeysAt(front, n - 1) + [KeyAt(n - 1, key, value)]
      case _ => KeysAt(front, n - 1)
  }

  /** All key lines, in order. */
  function AllKeysAt(front: seq<Line>): (r: seq<KeyAt>) { KeysAt(front, |front|) }

  /** Every line is supported and no key comes twice. */
  ghost predicate Readable(front: seq<Line>) {
    Supported(front) && DistinctKeys(Keys(front))
  }

  /** The indentation of the metadata block. */
  function BlockIndent(front: seq<Line>): (r: nat) { Indent(Kids(front, None)) }

  lemma KeysSnoc(front: seq<Line>, i: nat)
    requires i < |front|
    ensures Keys(front[..i + 1]) ==
            Keys(front[..i]) +
            (if Classify(front[i].text).Key? then [(Classify(front[i].text).key, Classify(front[i].text).value)]
             else [])
  {
    assert front[..i + 1] == front[..i] + [front[i]];
    assert [front[i]][1..] == [];
    KeysConcat(front[..i], [front[i]]);
  }

  lemma {:induction false} KeysPrefix(front: seq<Line>, i: nat)
    requires i <= |front|
    ensures Keys(front[..i]) <= Keys(front)
  {
    assert front == front[..i] + front[i..];
    KeysConcat(front[..i], front[i..]);
  }

  lemma {:induction false} KeysAtPairs(front: seq<Line>, n: nat)
    requires n <= |front|
    ensures PairsOf(KeysAt(front, n)) == Keys(front[..n])
  {
    if n == 0 {
      assert front[..0] == [];
    } else {
      KeysAtPairs(front, n - 1);
      KeysSnoc(front, n - 1);
      if Classify(front[n - 1].text).Key? {
        PairsSnoc(KeysAt(front, n - 1), KeysAt(front, n)[|KeysAt(front, n - 1)|]);
      }
    }
  }

  lemma PairsSnoc(keys: seq<KeyAt>, last: KeyAt)
    ensures PairsOf(keys + [last]) == PairsOf(keys) + [(last.key, last.value)]
  {
  }

  predicate HasKey(keys: seq<KeyAt>, key: string) {
    exists p :: 0 <= p < |keys| && keys[p].key == key
  }

  lemma HasKeySnoc(keys: seq<KeyAt>, last: KeyAt)
    ensures forall k :: HasKey(keys + [last], k) <==> HasKey(keys, k) || k == last.key
    ensures DistinctKeys(PairsOf(keys)) && !HasKey(keys, last.key) ==> DistinctKeys(PairsOf(keys + [last]))
  {
    var all := keys + [last];
    forall k ensures HasKey(all, k) <==> HasKey(keys, k) || k == last.key {
      if HasKey(keys, k) {
        var p :| 0 <= p < |keys| && keys[p].key == k;
        assert all[p].key == k;
      }
      assert all[|keys|].key == last.key;
    }
  }

  method TopLevelKeys(front: seq<Line>) returns (r: Result<seq<KeyAt>, Fault>)
    ensures r.Ok? <==> Readable(front)
    ensures r.Ok? ==> r.value == AllKeysAt(front)
  {
    var found: seq<KeyAt> := [];
    var seen: set<string> := {};
    for i := 0 to |front|
      invariant forall j :: 0 <= j < i ==> !Classify(front[j].text).Unsupported?
      invariant found == KeysAt(front, i) && DistinctKeys(PairsOf(found))
      invariant forall k :: k in seen <==> HasKey(found, k)
    {
      match Classify(front[i].text)
      case Filler =>
      case Indented =>
      case Unsupported => return Err(UnsupportedSyntax);
      case Key(key, value) =>
        if key in seen {
          Repeats(front, i, key);
          return Err(DuplicateKey);
        }
        seen := seen + {key};
        HasKeySnoc(found, KeyAt(i, key, value));
        found := found + [KeyAt(i, key, value)];
    }
    KeysAtPairs(front, |front|);
    assert front[..|front|] == front;
    return Ok(found);
  }

  lemma {:induction false} Repeats(front: seq<Line>, i: nat, key: string)
    requires i < |front| && HasKey(KeysAt(front, i), key)
    requires Classify(front[i].text).Key? && Classify(front[i].text).key == key
    ensures exists p, q :: 0 <= p < q < |Keys(front)| && Keys(front)[p].0 == Keys(front)[q].0
  {
    var found := PairsOf(KeysAt(front, i));
    KeysAtPairs(front, i);
    var upTo := KeysUpTo(front, i);
    var p :| 0 <= p < |found| && found[p].0 == key;
    assert upTo[p].0 == upTo[|found|].0;
    assert Keys(front)[p] == upTo[p] && Keys(front)[|found|] == upTo[|found|];
  }

  lemma KeysUpTo(front: seq<Line>, i: nat) returns (upTo: Pairs)
    requires i < |front| && Classify(front[i].text).Key?
    ensures upTo == Keys(front[..i]) + [(Classify(front[i].text).key, Classify(front[i].text).value)]
    ensures upTo <= Keys(front)
  {
    KeysSnoc(front, i);
    KeysPrefix(front, i + 1);
    upTo := Keys(front[..i + 1]);
  }

  // ---------- Sections ----------

  /** The texts of the indented lines. */
  function IndentedTexts(lines: seq<Line>): (r: seq<string>) {
    if lines == [] then []
    else
      IndentedTexts(lines[..|lines| - 1]) +
      (if Classify(lines[|lines| - 1].text).Indented? then [lines[|lines| - 1].text] else [])
  }

  ghost predicate NoKeyLines(lines: seq<Line>) {
    forall i :: 0 <= i < |lines| ==> Classify(lines[i].text).Filler? || Classify(lines[i].text).Indented?
  }

  ghost predicate OnlyFiller(lines: seq<Line>) {
    forall i :: 0 <= i < |lines| ==> Classify(lines[i].text).Filler?
  }

  /** Lines without a key line keep the owner, and all that matters is who owns their indented ones. */
  lemma {:induction false} OwnedLines(inline: string -> bool, lines: seq<Line>, owner: Option<string>)
    requires NoKeyLines(lines)
    ensures OwnerAfter(lines, owner) == owner && Keys(lines) == []
    ensures Fits(inline, lines, owner) <==> owner == None || owner == Some(METADATA) || OnlyFiller(lines)
    ensures Kids(lines, owner) == if owner == Some(METADATA) then IndentedTexts(lines) else []
  {
    if lines == [] {
    } else {
      var front, last := lines[..|lines| - 1], [lines[|lines| - 1]];
      assert lines == front + last && last[1..] == [];
      OwnedLines(inline, front, owner);
      OwnerConcat(front, last, owner);
      KeysConcat(front, last);
      FitsConcat(inline, front, last, owner);
      KidsConcat(front, last, owner);
      assert Classify(last[0].text).Filler? || Classify(last[0].text).Indented?;
    }
  }

  /** One key line and the lines below it. */
  lemma {:induction false} SectionLines(inline: string -> bool, line: Line, below: seq<Line>, owner: Option<string>)
    requires Classify(line.text).Key? && NoKeyLines(below)
    ensures var key, value := Classify(line.text).key, Classify(line.text).value;
            OwnerAfter([line] + below, owner) == Some(key) &&
            (Fits(inline, [line] + below, owner) <==>
               if key == METADATA then SkipBlanks(value) == "" else inline(value) && OnlyFiller(below)) &&
            Kids([line] + below, owner) == if key == METADATA then IndentedTexts(below) else []
  {
    assert ([line] + below)[1..] == below;
    OwnedLines(inline, below, Some(Classify(line.text).key));
  }

  function SectionEnd(keys: seq<KeyAt>, p: nat, total: nat): (r: nat) {
    if p + 1 < |keys| then keys[p + 1].index else total
  }

  /** Where key p's section begins: at its line, or at the end when there is no such key. */
  function SectionStart(keys: seq<KeyAt>, p: nat, total: nat): (r: nat) {
    if p < |keys| then keys[p].index else total
  }

  ghost predicate NoKeyBetween(front: seq<Line>, from: int, to: int) {
    forall i :: from <= i < to && 0 <= i < |front| ==> !Classify(front[i].text).Key?
  }

  /** Key p is on its line and its section runs up to the next key line. */
  lemma {:induction false} SectionFacts(front: seq<Line>, n: nat, p: nat)
    requires n <= |front| && p < |KeysAt(front, n)|
    ensures var keys := KeysAt(front, n);
            keys[p].index < SectionEnd(keys, p, n) <= n &&
            Classify(front[keys[p].index].text) == Key(keys[p].key, keys[p].value) &&
            NoKeyBetween(front, keys[p].index + 1, SectionEnd(keys, p, n))
    ensures p == 0 ==> NoKeyBetween(front, 0, KeysAt(front, n)[0].index)
  {
    var last := |KeysAt(front, n - 1)|;
    if p < last {
      SectionFacts(front, n - 1, p);
    } else if p == 0 {
      NoKeysSoFar(front, n - 1);
    }
  }

  lemma {:induction false} NoKeysSoFar(front: seq<Line>, n: nat)
    requires n <= |front| && KeysAt(front, n) == []
    ensures NoKeyBetween(front, 0, n)
  {
    if n == 0 {
    } else {
      NoKeysSoFar(front, n - 1);
    }
  }

  /** The lines of the block that are neither blank nor comments. */
  method Entries(below: seq<Line>) returns (content: seq<string>)
    ensures content == IndentedTexts(below)
  {
    content := [];
    for i := 0 to |below|
      invariant content == IndentedTexts(below[..i])
    {
      assert below[..i + 1][..i] == below[..i];
      if Classify(below[i].text).Indented? { content := content + [below[i].text]; }
    }
    assert below[..|below|] == below;
  }

  /** The metadata block of one section: its value is empty and its entries are flat, distinct and not reserved. */
  method ValidateMetadataBlock(inline: string -> bool, below: seq<Line>, value: string, reserved: set<string>)
    returns (r: Result<nat, Fault>)
    ensures r.Ok? <==> SkipBlanks(value) == "" && KidsOk(inline, reserved, IndentedTexts(below))
    ensures r.Ok? ==> r.value == Indent(IndentedTexts(below))
  {
    if SkipBlanks(value) != "" { return Err(InlineMetadata); }
    var content := Entries(below);
    var indent := Indent(content);
    var ok := CheckEach(text => KidOk(inline, reserved, indent, text), (a, b) => SameChildKey(a, b), content);
    return if ok then Ok(indent) else Err(BadMetadata);
  }

  /** Checks the entries one by one, each against the ones before it. */
  method CheckEach<T>(ok: T -> bool, same: (T, T) -> bool, entries: seq<T>) returns (r: bool)
    ensures r <==> (forall i :: 0 <= i < |entries| ==> ok(entries[i])) &&
                   forall i, j :: 0 <= i < j < |entries| ==> !same(entries[i], entries[j])
  {
    for i := 0 to |entries|
      invariant forall j :: 0 <= j < i ==> ok(entries[j])
      invariant forall j, k :: 0 <= j < k < i ==> !same(entries[j], entries[k])
    {
      if !ok(entries[i]) { return false; }
      if exists j :: 0 <= j < i && same(entries[j], entries[i]) { return false; }
    }
    return true;
  }

  lemma UpToSection(inline: string -> bool, front: seq<Line>, a: nat, b: nat)
    requires a < b <= |front| && Classify(front[a].text).Key? && NoKeyLines(front[a + 1..b])
    ensures var key, value := Classify(front[a].text).key, Classify(front[a].text).value;
            OwnerAfter(front[..b], None) == Some(key) &&
            (Fits(inline, front[..b], None) <==>
               Fits(inline, front[..a], None) &&
               (if key == METADATA then SkipBlanks(value) == "" else inline(value) && OnlyFiller(front[a + 1..b]))) &&
            Kids(front[..b], None) == Kids(front[..a], None) +
            if key == METADATA then IndentedTexts(front[a + 1..b]) else []
  {
    var part := [front[a]] + front[a + 1..b];
    assert front[..b] == front[..a] + part;
    OwnerConcat(front[..a], part, None);
    FitsConcat(inline, front[..a], part, None);
    KidsConcat(front[..a], part, None);
    SectionLines(inline, front[a], front[a + 1..b], OwnerAfter(front[..a], None));
  }

  lemma {:induction false} PrefixFits(inline: string -> bool, front: seq<Line>, n: nat)
    requires n <= |front| && Fits(inline, front, None)
    ensures Fits(inline, front[..n], None)
  {
    assert front == front[..n] + front[n..];
    FitsConcat(inline, front[..n], front[n..], None);
  }

  lemma KidsOkPrefix(
      inline: string -> bool, reserved: set<string>, kids: seq<string>, rest: seq<string>)
    requires KidsOk(inline, reserved, kids + rest)
    ensures KidsOk(inline, reserved, kids)
  {
    var all := kids + rest;
    assert forall i :: 0 <= i < |kids| ==> all[i] == kids[i];
    forall i | 0 <= i < |kids| ensures KidOk(inline, reserved, Indent(kids), kids[i]) {
      assert KidOk(inline, reserved, Indent(all), all[i]);
    }
    forall i, j | 0 <= i < j < |kids| ensures !SameChildKey(kids[i], kids[j]) {
      assert !SameChildKey(all[i], all[j]);
    }
  }

  /** What is safe as a whole is safe up to any line. */
  lemma SafePrefix(inline: string -> bool, reserved: set<string>, front: seq<Line>, n: nat)
    requires n <= |front| && ExportSafe(inline, reserved, front)
    ensures Fits(inline, front[..n], None) && KidsOk(inline, reserved, Kids(front[..n], None))
  {
    PrefixFits(inline, front, n);
    assert front == front[..n] + front[n..];
    KidsConcat(front[..n], front[n..], None);
    KidsOkPrefix(inline, reserved, Kids(front[..n], None), Kids(front[n..], OwnerAfter(front[..n], None)));
  }

  ghost predicate ReadUpTo(inline: string -> bool, reserved: set<string>, front: seq<Line>, n: nat, indent: nat)
    requires n <= |front|
  {
    Fits(inline, front[..n], None) && KidsOk(inline, reserved, Kids(front[..n], None)) &&
    indent == Indent(Kids(front[..n], None))
  }

  method CheckSection(
      inline: string -> bool, key: string, value: string, below: seq<Line>, reserved: set<string>, indent: nat)
    returns (r: Result<nat, Fault>)
    requires NoKeyLines(below)
    ensures r.Ok? <==> SectionOk(inline, reserved, key, value, below)
    ensures r.Ok? ==> r.value == if key == METADATA then Indent(IndentedTexts(below)) else indent
  {
    if key == METADATA {
      r := ValidateMetadataBlock(inline, below, value, reserved);
      return r;
    }
    if !inline(value) { return Err(NotInline); }
    for i := 0 to |below|
      invariant forall j :: 0 <= j < i ==> Classify(below[j].text).Filler?
    {
      if !Classify(below[i].text).Filler? { return Err(BlockValue); }
    }
    return Ok(indent);
  }

  lemma {:induction false} StartOfKeys(inline: string -> bool, reserved: set<string>, front: seq<Line>)
    requires Supported(front)
    ensures SectionStart(KeysAt(front, |front|), 0, |front|) <= |front|
    ensures ReadUpTo(inline, reserved, front, SectionStart(KeysAt(front, |front|), 0, |front|), 2)
    ensures Kids(front[..SectionStart(KeysAt(front, |front|), 0, |front|)], None) == []
  {
    var keys := KeysAt(front, |front|);
    if keys == [] { NoKeysSoFar(front, |front|); } else { SectionFacts(front, |front|, 0); }
    OwnedLines(inline, front[..SectionStart(keys, 0, |front|)], None);
  }

  ghost predicate SectionOk(
      inline: string -> bool, reserved: set<string>, key: string, value: string, below: seq<Line>)
  {
    if key == METADATA then SkipBlanks(value) == "" && KidsOk(inline, reserved, IndentedTexts(below))
    else inline(value) && OnlyFiller(below)
  }

  /** One more section read: it is all right, or the whole frontmatter is not. */
  lemma SectionStep(
      inline: string -> bool, reserved: set<string>, front: seq<Line>, a: nat, b: nat, key: string,
      value: string, indent: nat)
    requires a < b <= |front| && Classify(front[a].text) == Key(key, value) && NoKeyLines(front[a + 1..b])
    requires ReadUpTo(inline, reserved, front, a, indent)
    requires key == METADATA ==> Kids(front[..a], None) == []
    ensures !SectionOk(inline, reserved, key, value, front[a + 1..b]) ==> !ExportSafe(inline, reserved, front)
    ensures SectionOk(inline, reserved, key, value, front[a + 1..b]) ==>
              ReadUpTo(inline, reserved, front, b,
                       if key == METADATA then Indent(IndentedTexts(front[a + 1..b])) else indent)
    ensures key != METADATA ==> Kids(front[..b], None) == Kids(front[..a], None)
  {
    var texts := IndentedTexts(front[a + 1..b]);
    UpToSection(inline, front, a, b);
    assert [] + texts == texts;
    assert Kids(front[..a], None) + [] == Kids(front[..a], None);
    if ExportSafe(inline, reserved, front) { SafePrefix(inline, reserved, front, b); }
  }

  lemma {:induction false} MetadataOnce(front: seq<Line>, keys: seq<KeyAt>, p: nat)
    requires keys == KeysAt(front, |front|) && DistinctKeys(Keys(front)) && p < |keys| && keys[p].key == METADATA
    ensures forall q :: 0 <= q < p ==> keys[q].key != METADATA
  {
    KeysAtPairs(front, |front|);
    assert front[..|front|] == front;
    forall q | 0 <= q < p ensures keys[q].key != METADATA {
      assert PairsOf(keys)[q].0 != PairsOf(keys)[p].0;
    }
  }

  /** The sections before key p are read, and none of them was metadata unless the block is not empty. */
  ghost predicate Reading(
      inline: string -> bool, reserved: set<string>, front: seq<Line>, keys: seq<KeyAt>, p: nat, indent: nat)
  {
    var n := SectionStart(keys, p, |front|);
    n <= |front| && ReadUpTo(inline, reserved, front, n, indent) &&
    (Kids(front[..n], None) == [] || exists q :: 0 <= q < p && q < |keys| && keys[q].key == METADATA)
  }

  lemma ReadSection(
      inline: string -> bool, reserved: set<string>, front: seq<Line>, keys: seq<KeyAt>, p: nat, indent: nat)
    returns (below: seq<Line>)
    requires Readable(front) && keys == AllKeysAt(front) && p < |keys|
    requires Reading(inline, reserved, front, keys, p, indent)
    ensures keys[p].index < SectionEnd(keys, p, |front|) <= |front|
    ensures below == front[keys[p].index + 1..SectionEnd(keys, p, |front|)] && NoKeyLines(below)
    ensures !SectionOk(inline, reserved, keys[p].key, keys[p].value, below) ==> !ExportSafe(inline, reserved, front)
    ensures SectionOk(inline, reserved, keys[p].key, keys[p].value, below) ==>
              Reading(inline, reserved, front, keys, p + 1,
                      if keys[p].key == METADATA then Indent(IndentedTexts(below)) else indent)
  {
    var a, b := keys[p].index, SectionEnd(keys, p, |front|);
    SectionFacts(front, |front|, p);
    if keys[p].key == METADATA { MetadataOnce(front, keys, p); }
    below := front[a + 1..b];
    assert NoKeyLines(below);
    SectionStep(inline, reserved, front, a, b, keys[p].key, keys[p].value, indent);
    assert b == SectionStart(keys, p + 1, |front|);
  }

  lemma {:induction false} ReadAll(
      inline: string -> bool, reserved: set<string>, front: seq<Line>, keys: seq<KeyAt>, indent: nat)
    requires DistinctKeys(Keys(front)) && Reading(inline, reserved, front, keys, |keys|, indent)
    ensures ExportSafe(inline, reserved, front) && indent == Indent(Kids(front, None))
  {
    assert front[..|front|] == front;
  }

  method ValidateShape(inline: string -> bool, front: seq<Line>, keys: seq<KeyAt>, reserved: set<string>)
    returns (r: Result<nat, Fault>)
    requires Readable(front) && keys == AllKeysAt(front)
    ensures r.Ok? <==> ExportSafe(inline, reserved, front)
    ensures r.Ok? ==> r.value == BlockIndent(front)
  {
    var indent := 2;
    StartOfKeys(inline, reserved, front);
    for p := 0 to |keys|
      invariant Reading(inline, reserved, front, keys, p, indent)
    {
      ghost var section := ReadSection(inline, reserved, front, keys, p, indent);
      var below := front[keys[p].index + 1..SectionEnd(keys, p, |front|)];
      var checked := CheckSection(inline, keys[p].key, keys[p].value, below, reserved, indent);
      if checked.Err? { return checked; }
      indent := checked.value;
    }
    ReadAll(inline, reserved, front, keys, indent);
    return Ok(indent);
  }

  // ---------- The transform ----------

  function Joined(front: seq<Line>, body: seq<Line>, newline: string): (r: seq<Line>) {
    [Line(DELIMITER, newline)] + front + [Line(DELIMITER, newline)] + body
  }

  lemma SplitJoined(front: seq<Line>, body: seq<Line>, newline: string)
    requires newline == "\n" || newline == "\r\n"
    requires forall i :: 0 <= i < |front| ==> front[i].text != DELIMITER
    ensures Split(Joined(front, body, newline)) == Some(Document(front, body, newline))
  {
    var doc, k := Joined(front, body, newline), |front| + 1;
    assert forall i :: 1 <= i < k ==> doc[i] == front[i - 1];
    assert SplitsAt(doc, k);
    assert doc[1..k] == front && doc[k + 1..] == body;
  }

  lemma {:induction false} FitsSupported(inline: string -> bool, front: seq<Line>, owner: Option<string>)
    requires Fits(inline, front, owner)
    ensures Supported(front)
  {
    if front == [] {
    } else {
      assert forall i :: 0 < i < |front| ==> front[i] == front[1..][i - 1];
      match Classify(front[0].text)
      case Key(key, _) => FitsSupported(inline, front[1..], Some(key));
      case Filler => FitsSupported(inline, front[1..], owner);
      case Indented => FitsSupported(inline, front[1..], owner);
      case Unsupported =>
    }
  }

  ghost predicate KeysWithin(front: seq<Line>, allowed: set<string>) {
    forall p :: p in Keys(front) ==> p.0 in allowed
  }

  /** The frontmatters a profile can represent. */
  ghost predicate Exportable(front: seq<Line>, profile: Profile) {
    KeysWithin(front, profile.allowed + profile.toMetadata) &&
    ExportSafe(profile.inline, NamesOf(Only(Keys(front), profile.toMetadata)), front)
  }

  /** The counting loops and the splice of the output list. */
  method Splice(front: seq<Line>, wanted: set<string>, newline: string, pairs: Pairs, indent: nat)
    returns (output: seq<Line>)
    requires METADATA !in wanted && pairs != []
    requires pairs == Only(Keys(front), wanted) && indent == Indent(Kids(front, None))
    ensures output == Transformed(front, wanted, newline)
  {
    output := [];
    for i := 0 to |front|
      invariant output == Drop(front[..i], wanted)
    {
      DropSnoc(front, i, wanted);
      if !IsKeyIn(front[i], wanted) { output := output + [front[i]]; }
    }
    assert front[..|front|] == front;
    var nested := Nested(indent, pairs, newline);
    var position := 0;
    for i := 0 to Anchor(front, wanted)
      invariant position == |Drop(front[..i], wanted)|
    {
      DropSnoc(front, i, wanted);
      if !IsKeyIn(front[i], wanted) { position := position + 1; }
    }
    ghost var at := UnmovedLinesStay(front, wanted, newline);
    if FirstOf(front, {METADATA}) == |front| { nested := [MetadataLine(newline)] + nested; }
    output := output[..position] + nested + output[position..];
  }

  lemma {:induction false} DropSnoc(front: seq<Line>, i: nat, wanted: set<string>)
    requires i < |front|
    ensures Drop(front[..i + 1], wanted) ==
            Drop(front[..i], wanted) + if IsKeyIn(front[i], wanted) then [] else [front[i]]
  {
    assert front[..i + 1] == front[..i] + [front[i]];
    assert [front[i]][1..] == [];
    DropConcat(front[..i], [front[i]], wanted);
  }

  /** No line of the edited frontmatter closes it early. */
  lemma NoDelimiter(inline: string -> bool, front: seq<Line>, wanted: set<string>, newline: string)
    requires METADATA !in wanted && Fits(inline, Transformed(front, wanted, newline), None)
    ensures forall i :: 0 <= i < |Transformed(front, wanted, newline)| ==>
              Transformed(front, wanted, newline)[i].text != DELIMITER
  {
    var out := Transformed(front, wanted, newline);
    FitsSupported(inline, out, None);
    DelimiterUnsupported();
  }

  lemma DelimiterUnsupported()
    ensures Classify(DELIMITER).Unsupported?
  {
    assert KeyEnd(DELIMITER[3..], false) == 0;
    assert KeyEnd(DELIMITER[2..], false) == 1 by { assert DELIMITER[2..][1..] == DELIMITER[3..]; }
    assert KeyEnd(DELIMITER[1..], false) == 2 by { assert DELIMITER[1..][1..] == DELIMITER[2..]; }
    assert KeyEnd(DELIMITER, false) == 3;
  }

  /** The keys after the edit are all allowed exactly when metadata is, or when nothing moved. */
  lemma {:induction false} KeysWithinAfter(front: seq<Line>, profile: Profile, out: seq<Line>)
    requires KeysWithin(front, profile.allowed + profile.toMetadata)
    requires KeysAfter(front, profile.toMetadata, out)
    ensures METADATA in profile.allowed || Only(Keys(front), profile.toMetadata) == [] ==>
            KeysWithin(out, profile.allowed)
    ensures METADATA !in profile.allowed && Only(Keys(front), profile.toMetadata) != [] ==>
            !KeysWithin(out, profile.allowed)
  {
    if METADATA !in profile.allowed && Only(Keys(front), profile.toMetadata) != [] {
      assert (METADATA, "") in Keys(out);
    }
  }

  method Names(pairs: Pairs) returns (names: seq<string>)
    ensures |names| == |pairs| && forall i :: 0 <= i < |pairs| ==> names[i] == pairs[i].0
  {
    names := [];
    for i := 0 to |pairs|
      invariant |names| == i && forall j :: 0 <= j < i ==> names[j] == pairs[j].0
    {
      names := names + [pairs[i].0];
    }
  }

  /** What the transform makes of a document. */
  ghost function Exported(doc: seq<Line>, profile: Profile): (r: seq<Line>)
    requires Split(doc).Some?
  {
    var d := Split(doc).value;
    if Only(Keys(d.front), profile.toMetadata) == [] then doc
    else Joined(Transformed(d.front, profile.toMetadata, d.newline), d.body, d.newline)
  }

  ghost predicate Accepts(doc: seq<Line>, profile: Profile) {
    Split(doc).Some? &&
    var front := Split(doc).value.front;
    Exportable(front, profile) && (METADATA in profile.allowed || Only(Keys(front), profile.toMetadata) == [])
  }

  /** The keys of a supported frontmatter as the methods see them. */
  lemma {:induction false} WholeKeys(front: seq<Line>)
    ensures PairsOf(KeysAt(front, |front|)) == Keys(front)
  {
    KeysAtPairs(front, |front|);
    assert front[..|front|] == front;
  }

  method Recheck(transformed: seq<Line>, profile: Profile) returns (r: Result<(), Fault>)
    ensures r.Ok? <==> (Split(transformed).Some? &&
                        var front := Split(transformed).value.front;
                        KeysWithin(front, profile.allowed) && ExportSafe(profile.inline, {}, front))
  {
    var parsed := FrontmatterLines(transformed);
    if parsed.Err? { return Err(parsed.error); }
    var front := parsed.value.front;
    var keys := TopLevelKeys(front);
    if keys.Err? {
      if ExportSafe(profile.inline, {}, front) { FitsSupported(profile.inline, front, None); }
      return Err(keys.error);
    }
    WholeKeys(front);
    if exists p :: p in PairsOf(keys.value) && p.0 !in profile.allowed { return Err(RemainsInvalid); }
    var shape := ValidateShape(profile.inline, front, keys.value, {});
    return if shape.Ok? then Ok(()) else Err(shape.error);
  }

  /** The output passes every check again, provided metadata is an allowed key. */
  lemma ExportRechecks(d: Document, profile: Profile)
    requires METADATA !in profile.toMetadata && Exportable(d.front, profile)
    requires d.newline == "\n" || d.newline == "\r\n"
    ensures var out := Transformed(d.front, profile.toMetadata, d.newline);
            Split(Joined(out, d.body, d.newline)) == Some(Document(out, d.body, d.newline)) &&
            ExportSafe(profile.inline, {}, out) && Only(Keys(out), profile.toMetadata) == [] &&
            (METADATA in profile.allowed || Only(Keys(d.front), profile.toMetadata) == [] <==>
               KeysWithin(out, profile.allowed))
  {
    var wanted := profile.toMetadata;
    var out := Transformed(d.front, wanted, d.newline);
    EditIsSafe(profile.inline, d.front, wanted, d.newline);
    EditIsIdempotent(profile.inline, d.front, wanted, d.newline, d.newline);
    NoDelimiter(profile.inline, d.front, wanted, d.newline);
    SplitJoined(out, d.body, d.newline);
    KeysWithinAfter(d.front, profile, out);
  }

  /**
   Accepts exactly the exportable frontmatters of a profile that allows metadata, moves the keys it
   should and leaves the body alone; so the checks on its own output never refuse.
   */
  method TransformFrontmatterForProfile(
      doc: seq<Line>, profile: Profile)
    returns (r: Result<(seq<Line>, seq<string>), Fault>)
    requires METADATA !in profile.toMetadata && !profile.inline("")
    ensures r.Ok? <==> Accepts(doc, profile)
    ensures r.Ok? ==> r.value.0 == Exported(doc, profile)
    ensures r.Ok? ==> Pairing(r.value.1, Only(Keys(Split(doc).value.front), profile.toMetadata))
  {
    var parsed := FrontmatterLines(doc);
    if parsed.Err? { return Err(parsed.error); }
    var d := parsed.value;
    var keys := TopLevelKeys(d.front);
    if keys.Err? {
      if Accepts(doc, profile) { FitsSupported(profile.inline, d.front, None); }
      return Err(keys.error);
    }
    WholeKeys(d.front);
    var pairs := PairsOf(keys.value);
    if exists p :: p in pairs && p.0 !in profile.allowed && p.0 !in profile.toMetadata { return Err(UnexpectedKey); }
    var moved := Only(pairs, profile.toMetadata);
    var shape := ValidateShape(profile.inline, d.front, keys.value, NamesOf(moved));
    if shape.Err? { return Err(shape.error); }
    MovedInline(d.front, profile);
    if exists i :: 0 <= i < |moved| && moved[i].1 == "" { return Err(BlockMoved); }
    if moved == [] { return Ok((doc, [])); }
    var output := Splice(d.front, profile.toMetadata, d.newline, moved, shape.value);
    var transformed := Joined(output, d.body, d.newline);
    ExportRechecks(d, profile);
    var checked := Recheck(transformed, profile);
    if checked.Err? { return Err(checked.error); }
    var names := Names(moved);
    return Ok((transformed, names));
  }

  ghost predicate Pairing(names: seq<string>, pairs: Pairs) {
    |names| == |pairs| && forall i :: 0 <= i < |pairs| ==> names[i] == pairs[i].0
  }

  lemma {:induction false} MovedInline(front: seq<Line>, profile: Profile)
    requires METADATA !in profile.toMetadata && !profile.inline("") && Fits(profile.inline, front, None)
    ensures forall i :: 0 <= i < |Only(Keys(front), profile.toMetadata)| ==>
              Only(Keys(front), profile.toMetadata)[i].1 != ""
  {
    var moved := Only(Keys(front), profile.toMetadata);
    FitsInline(profile.inline, front, None);
    OnlyIn(Keys(front), profile.toMetadata);
    forall i | 0 <= i < |moved| ensures moved[i].1 != "" {
      assert moved[i] in moved;
    }
  }

  /** A second application accepts the result, moves nothing and returns it unchanged. */
  lemma ExportIsIdempotent(doc: seq<Line>, profile: Profile)
    requires METADATA !in profile.toMetadata && profile.toMetadata !! profile.allowed && Accepts(doc, profile)
    ensures Accepts(Exported(doc, profile), profile)
    ensures Only(Keys(Split(Exported(doc, profile)).value.front), profile.toMetadata) == []
    ensures Exported(Exported(doc, profile), profile) == Exported(doc, profile)
    ensures Split(Exported(doc, profile)).value.body == Split(doc).value.body
    ensures KeysWithin(Split(Exported(doc, profile)).value.front, profile.allowed)
  {
    var d := Split(doc).value;
    if Only(Keys(d.front), profile.toMetadata) == [] {
      OnlyEmptyIff(Keys(d.front), profile.toMetadata);
    } else {
      ExportRechecks(d, profile);
      assert NamesOf([]) == {};
    }
  }

  // ---------- The Claude.ai profile ----------

  const CLAUDE_AI_ALLOWED_KEYS :=
    {"allowed-tools", "compatibility", "description", "license", METADATA, "name"}
  const CLAUDE_AI_TRANSFORM_KEYS := {"disable-model-invocation", "argument-hint"}

  /** `isJsonString` decides the double-quoted scalars. */
  function ClaudeAiProfile(isJsonString: string -> bool): (r: Profile) {
    Profile(CLAUDE_AI_ALLOWED_KEYS, CLAUDE_AI_TRANSFORM_KEYS, value => InlineScalar(isJsonString, value))
  }

  lemma ClaudeAiProfileFits(isJsonString: string -> bool, profile: Profile)
    requires profile == ClaudeAiProfile(isJsonString)
    ensures METADATA !in profile.toMetadata && METADATA in profile.allowed && profile.toMetadata !! profile.allowed
    ensures !profile.inline("")
  {
    assert |METADATA| == 8 && |"disable-model-invocation"| == 24 && |"argument-hint"| == 13;
    assert |"allowed-tools"| == 13 && "allowed-tools"[1] != "argument-hint"[1];
    assert |"compatibility"| == 13 && "compatibility"[0] != "argument-hint"[0];
  }

  /**
   `transform_claude_ai_frontmatter`, with its scalar check: every exportable document is accepted, the result
   has only allowed keys and the same body, and transforming it again changes nothing.
   */
  method TransformClaudeAiFrontmatter(
      doc: seq<Line>, isJsonString: string -> bool)
    returns (r: Result<(seq<Line>, seq<string>), Fault>)
    ensures r.Ok? <==> Split(doc).Some? && Exportable(Split(doc).value.front, ClaudeAiProfile(isJsonString))
    ensures r.Ok? ==>
              var profile, out := ClaudeAiProfile(isJsonString), r.value.0;
              out == Exported(doc, profile) && Accepts(out, profile) && Exported(out, profile) == out &&
              KeysWithin(Split(out).value.front, CLAUDE_AI_ALLOWED_KEYS) &&
              Split(out).value.body == Split(doc).value.body
  {
    var profile := ClaudeAiProfile(isJsonString);
    ClaudeAiProfileFits(isJsonString, profile);
    r := TransformFrontmatterForProfile(doc, profile);
    if r.Ok? { ExportIsIdempotent(doc, profile); }
  }
}
