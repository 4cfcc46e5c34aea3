/**
 Moving top-level keys below `metadata:` (scripts/install.py, `transform_frontmatter_for_profile`)
 keeps an export-safe frontmatter export-safe, keeps every value, and has nothing left to do.
 */
module FrontmatterTransform {
  import opened Outcomes
  import opened Frontmatter
  import opened Sequences

  type Pairs = seq<(string, string)>

  function Only(keys: Pairs, wanted: set<string>): (r: Pairs) {
    if keys == [] then []
    else if keys[0].0 in wanted then [keys[0]] + Only(keys[1..], wanted)
    else Only(keys[1..], wanted)
  }

  function Without(keys: Pairs, wanted: set<string>): (r: Pairs) {
    if keys == [] then []
    else if keys[0].0 in wanted then Without(keys[1..], wanted)
    else [keys[0]] + Without(keys[1..], wanted)
  }

  predicate IsKeyIn(line: Line, wanted: set<string>) {
    Classify(line.text).Key? && Classify(line.text).key in wanted
  }

  /** The lines other than those of these keys. */
  function Drop(lines: seq<Line>, wanted: set<string>): (r: seq<Line>) {
    if lines == [] then []
    else if IsKeyIn(lines[0], wanted) then Drop(lines[1..], wanted)
    else [lines[0]] + Drop(lines[1..], wanted)
  }

  /** The first line of one of these keys, or the number of lines. */
  function FirstOf(lines: seq<Line>, wanted: set<string>): (r: nat)
    ensures r <= |lines| && (r < |lines| ==> IsKeyIn(lines[r], wanted))
    ensures forall i :: 0 <= i < r ==> !IsKeyIn(lines[i], wanted)
  {
    if lines == [] || IsKeyIn(lines[0], wanted) then 0 else
    assert forall i :: 0 < i < |lines| ==> lines[i] == lines[1..][i - 1];
    1 + FirstOf(lines[1..], wanted)
  }

  function Blanks(n: nat): (r: string)
    ensures |r| == n && forall i :: 0 <= i < n ==> r[i] == ' '
  {
    seq(n, _ => ' ')
  }

  function NestedText(indent: nat, pair: (string, string)): (r: string) {
    Blanks(indent) + (pair.0 + (": " + pair.1))
  }

  function Nested(indent: nat, pairs: Pairs, newline: string): (r: seq<Line>)
    ensures |r| == |pairs|
    ensures forall i :: 0 <= i < |r| ==> r[i] == Line(NestedText(indent, pairs[i]), newline)
  {
    seq(|pairs|, i requires 0 <= i < |pairs| => Line(NestedText(indent, pairs[i]), newline))
  }

  function MetadataLine(newline: string): (r: Line) { Line(METADATA + ":", newline) }

  /** The whole edit on export-safe lines. */
  function Transformed(lines: seq<Line>, wanted: set<string>, newline: string): (r: seq<Line>) {
    var pairs := Only(Keys(lines), wanted);
    var nested := Nested(Indent(Kids(lines, None)), pairs, newline);
    var m := FirstOf(lines, {METADATA});
    if pairs == [] then lines
    else if m < |lines| then Drop(lines[..m + 1], wanted) + nested + Drop(lines[m + 1..], wanted)
    else
      var f := FirstOf(lines, wanted);
      lines[..f] + ([MetadataLine(newline)] + nested) + Drop(lines[f..], wanted)
  }

  // ---------- One nested line ----------

  lemma {:induction false} SkipBlanksBefore(n: nat, rest: string)
    requires rest != "" && !IsBlank(rest[0])
    ensures SkipBlanks(Blanks(n) + rest) == rest && Spaces(Blanks(n) + rest) == n
  {
    if n == 0 {
      assert Blanks(0) + rest == rest;
    } else {
      assert (Blanks(n) + rest)[1..] == Blanks(n - 1) + rest;
      SkipBlanksBefore(n - 1, rest);
    }
  }

  predicate KeyChars(s: string) {
    forall i :: 0 <= i < |s| ==> IsKeyChar(s[i], false)
  }

  lemma {:induction false} KeyEndIs(key: string, rest: string, dots: bool)
    requires KeyChars(key) && rest != "" && rest[0] == ':'
    ensures KeyEnd(key + rest, dots) == |key|
  {
    if key == "" {
      assert key + rest == rest;
    } else {
      assert (key + rest)[1..] == key[1..] + rest && (key + rest)[0] == key[0];
      KeyEndIs(key[1..], rest, dots);
    }
  }

  lemma {:induction false} KeyEndChars(s: string)
    ensures KeyChars(s[..KeyEnd(s, false)])
  {
    if s == "" || !IsKeyChar(s[0], false) {
    } else {
      KeyEndChars(s[1..]);
      assert s[..KeyEnd(s, false)] == [s[0]] + s[1..][..KeyEnd(s[1..], false)];
    }
  }

  /** What is known of a pair found at the top level. */
  predicate PairOk(pair: (string, string)) {
    pair.0 != "" && KeyChars(pair.0) && SkipBlanks(pair.1) == pair.1
  }

  lemma {:induction false} KeysPairOk(lines: seq<Line>)
    ensures forall i :: 0 <= i < |Keys(lines)| ==> PairOk(Keys(lines)[i])
  {
    if lines == [] {
    } else {
      KeysPairOk(lines[1..]);
      KeyEndChars(lines[0].text);
    }
  }

  lemma NestedLine(indent: nat, pair: (string, string))
    requires 0 < indent && PairOk(pair)
    ensures Classify(NestedText(indent, pair)) == Indented
    ensures ChildOf(NestedText(indent, pair)) == Some(Child(indent, pair.0, pair.1))
    ensures Spaces(NestedText(indent, pair)) == indent
  {
    var rest := pair.0 + (": " + pair.1);
    var text := Blanks(indent) + rest;
    assert rest[0] == pair.0[0];
    SkipBlanksBefore(indent, rest);
    assert text[indent..] == rest && text[0] == Blanks(indent)[0];
    KeyEndIs(pair.0, ": " + pair.1, true);
    assert rest[..|pair.0|] == pair.0 && rest[|pair.0|] == ':' && rest[|pair.0| + 1..] == " " + pair.1;
    assert (" " + pair.1)[1..] == pair.1;
  }

  // ---------- Dropping key lines ----------

  lemma {:induction false} KeysDrop(lines: seq<Line>, wanted: set<string>)
    ensures Keys(Drop(lines, wanted)) == Without(Keys(lines), wanted)
  {
    if lines == [] {
    } else {
      KeysDrop(lines[1..], wanted);
      if !IsKeyIn(lines[0], wanted) {
        assert ([lines[0]] + Drop(lines[1..], wanted))[1..] == Drop(lines[1..], wanted);
      }
    }
  }

  lemma {:induction false} DropConcat(a: seq<Line>, b: seq<Line>, wanted: set<string>)
    ensures Drop(a + b, wanted) == Drop(a, wanted) + Drop(b, wanted)
  {
    if a == [] {
      assert a + b == b;
    } else {
      assert (a + b)[1..] == a[1..] + b;
      DropConcat(a[1..], b, wanted);
    }
  }

  lemma {:induction false} DropNone(lines: seq<Line>, wanted: set<string>)
    requires forall i :: 0 <= i < |lines| ==> !IsKeyIn(lines[i], wanted)
    ensures Drop(lines, wanted) == lines
  {
    if lines == [] {
    } else {
      assert !IsKeyIn(lines[0], wanted);
      DropNone(lines[1..], wanted);
    }
  }

  /** A dropped key owns no indented line, so the block and the shape do not notice. */
  lemma {:induction false} DropKeepsShape(
    inline: string -> bool, lines: seq<Line>, wanted: set<string>, owner: Option<string>, other: Option<string>)
    requires METADATA !in wanted && Fits(inline, lines, owner)
    requires owner == other || (owner.Some? && owner.value in wanted)
    ensures Fits(inline, Drop(lines, wanted), other) && Kids(Drop(lines, wanted), other) == Kids(lines, owner)
  {
    if lines == [] {
    } else {
      if !IsKeyIn(lines[0], wanted) {
        assert ([lines[0]] + Drop(lines[1..], wanted))[1..] == Drop(lines[1..], wanted);
      }
      match Classify(lines[0].text)
      case Key(key, _) =>
        if key in wanted {
          DropKeepsShape(inline, lines[1..], wanted, Some(key), other);
        } else {
          DropKeepsShape(inline, lines[1..], wanted, Some(key), Some(key));
        }
      case Filler => DropKeepsShape(inline, lines[1..], wanted, owner, other);
      case Indented => DropKeepsShape(inline, lines[1..], wanted, owner, other);
      case Unsupported =>
    }
  }

  /** Before any metadata key there is no block. */
  lemma {:induction false} NoKids(lines: seq<Line>, owner: Option<string>)
    requires owner != Some(METADATA)
    requires forall i :: 0 <= i < |lines| ==> !IsKeyIn(lines[i], {METADATA})
    ensures Kids(lines, owner) == []
  {
    if lines == [] {
    } else {
      assert !IsKeyIn(lines[0], {METADATA});
      match Classify(lines[0].text)
      case Key(key, _) => NoKids(lines[1..], Some(key));
      case _ => NoKids(lines[1..], owner);
    }
  }

  // ---------- The inserted lines ----------

  predicate AllPairsOk(pairs: Pairs) {
    forall i :: 0 <= i < |pairs| ==> PairOk(pairs[i])
  }

  function Texts(lines: seq<Line>): (r: seq<string>)
    ensures |r| == |lines| && forall i :: 0 <= i < |r| ==> r[i] == lines[i].text
  {
    seq(|lines|, i requires 0 <= i < |lines| => lines[i].text)
  }

  /** Lines that are all indented, below a metadata key, are its block. */
  lemma {:induction false} IndentedBlock(inline: string -> bool, lines: seq<Line>)
    requires forall i :: 0 <= i < |lines| ==> Classify(lines[i].text) == Indented
    ensures Keys(lines) == [] && OwnerAfter(lines, Some(METADATA)) == Some(METADATA)
    ensures Fits(inline, lines, Some(METADATA)) && Kids(lines, Some(METADATA)) == Texts(lines)
  {
    if lines == [] {
    } else {
      assert Classify(lines[0].text) == Indented;
      IndentedBlock(inline, lines[1..]);
      assert Texts(lines) == [lines[0].text] + Texts(lines[1..]);
    }
  }

  lemma NestedBlock(inline: string -> bool, indent: nat, pairs: Pairs, newline: string)
    requires 0 < indent && AllPairsOk(pairs)
    ensures var n := Nested(indent, pairs, newline);
            Keys(n) == [] && OwnerAfter(n, Some(METADATA)) == Some(METADATA) &&
            Fits(inline, n, Some(METADATA)) && Kids(n, Some(METADATA)) == Texts(n)
  {
    var n := Nested(indent, pairs, newline);
    forall i | 0 <= i < |n| ensures Classify(n[i].text) == Indented {
      NestedLine(indent, pairs[i]);
    }
    IndentedBlock(inline, n);
  }

  function NamesOf(pairs: Pairs): (r: set<string>) {
    set i | 0 <= i < |pairs| :: pairs[i].0
  }

  lemma {:induction false} NestedKid(inline: string -> bool, indent: nat, pair: (string, string), text: string)
    requires 0 < indent && PairOk(pair) && inline(pair.1) && text == NestedText(indent, pair)
    ensures KidOk(inline, {}, indent, text) && Spaces(text) == indent
    ensures forall other :: SameChildKey(text, other) <==> ChildOf(other).Some? && ChildOf(other).value.key == pair.0
  {
    NestedLine(indent, pair);
  }

  /** Entries with other keys make one block together. */
  lemma KidsOkConcat(
      inline: string -> bool, reserved: set<string>, indent: nat, a: seq<string>, b: seq<string>)
    requires (forall i :: 0 <= i < |a| ==> KidOk(inline, {}, indent, a[i]) && Spaces(a[i]) == indent)
    requires forall i, j :: 0 <= i < j < |a| ==> !SameChildKey(a[i], a[j])
    requires KidsOk(inline, reserved, b) && indent == Indent(b)
    requires forall i, j :: 0 <= i < |a| && 0 <= j < |b| ==> !SameChildKey(a[i], b[j])
    ensures KidsOk(inline, {}, a + b)
  {
    var all := a + b;
    assert Indent(all) == indent;
    forall i | 0 <= i < |all| ensures KidOk(inline, {}, indent, all[i]) {
      assert i >= |a| ==> KidOk(inline, reserved, indent, b[i - |a|]);
    }
  }

  /** Moved entries in front of a block that reserves their names make a block. */
  lemma NestedKidsOk(inline: string -> bool, pairs: Pairs, kids: seq<string>, newline: string)
    requires AllPairsOk(pairs) && DistinctKeys(pairs) && KidsOk(inline, NamesOf(pairs), kids) && 0 < Indent(kids)
    requires forall i :: 0 <= i < |pairs| ==> inline(pairs[i].1)
    ensures KidsOk(inline, {}, Texts(Nested(Indent(kids), pairs, newline)) + kids)
  {
    var indent := Indent(kids);
    var texts := Texts(Nested(indent, pairs, newline));
    forall i | 0 <= i < |texts|
      ensures KidOk(inline, {}, indent, texts[i]) && Spaces(texts[i]) == indent
      ensures forall other :: SameChildKey(texts[i], other) <==>
                (ChildOf(other).Some? && ChildOf(other).value.key == pairs[i].0)
    {
      NestedKid(inline, indent, pairs[i], texts[i]);
    }
    forall i, j | 0 <= i < |texts| && 0 <= j < |kids| ensures !SameChildKey(texts[i], kids[j]) {
      assert KidOk(inline, NamesOf(pairs), indent, kids[j]) && pairs[i].0 in NamesOf(pairs);
    }
    KidsOkConcat(inline, NamesOf(pairs), indent, texts, kids);
  }

  lemma {:induction false} OnlyIn(keys: Pairs, wanted: set<string>)
    ensures forall p :: p in Only(keys, wanted) <==> p in keys && p.0 in wanted
  {
    if keys == [] {
    } else {
      assert keys == [keys[0]] + keys[1..];
      OnlyIn(keys[1..], wanted);
    }
  }

  lemma {:induction false} WithoutIn(keys: Pairs, wanted: set<string>)
    ensures forall p :: p in Without(keys, wanted) <==> p in keys && p.0 !in wanted
  {
    if keys == [] {
    } else {
      assert keys == [keys[0]] + keys[1..];
      WithoutIn(keys[1..], wanted);
    }
  }

  lemma {:induction false} OnlyEmptyIff(keys: Pairs, wanted: set<string>)
    ensures Only(keys, wanted) == [] <==> forall p :: p in keys ==> p.0 !in wanted
  {
    if keys == [] {
    } else {
      assert keys == [keys[0]] + keys[1..];
      OnlyEmptyIff(keys[1..], wanted);
    }
  }

  lemma DistinctTail(keys: Pairs)
    requires keys != [] && DistinctKeys(keys)
    ensures DistinctKeys(keys[1..]) && forall p :: p in keys[1..] ==> p.0 != keys[0].0
  {
    forall i | 0 <= i < |keys[1..]| ensures keys[1..][i].0 != keys[0].0 {
      assert keys[1..][i] == keys[i + 1];
    }
  }

  lemma DistinctCons(first: (string, string), rest: Pairs)
    requires DistinctKeys(rest) && forall p :: p in rest ==> p.0 != first.0
    ensures DistinctKeys([first] + rest)
  {
    var all := [first] + rest;
    forall i, j | 0 <= i < j < |all| ensures all[i].0 != all[j].0 {
      assert all[j] == rest[j - 1] && rest[j - 1] in rest;
    }
  }

  lemma {:induction false} OnlyDistinct(keys: Pairs, wanted: set<string>)
    requires DistinctKeys(keys)
    ensures DistinctKeys(Only(keys, wanted))
  {
    if keys == [] {
    } else {
      DistinctTail(keys);
      OnlyDistinct(keys[1..], wanted);
      OnlyIn(keys[1..], wanted);
      if keys[0].0 in wanted { DistinctCons(keys[0], Only(keys[1..], wanted)); }
    }
  }

  lemma {:induction false} WithoutDistinct(keys: Pairs, wanted: set<string>)
    requires DistinctKeys(keys)
    ensures DistinctKeys(Without(keys, wanted))
  {
    if keys == [] {
    } else {
      DistinctTail(keys);
      WithoutDistinct(keys[1..], wanted);
      WithoutIn(keys[1..], wanted);
      if keys[0].0 !in wanted { DistinctCons(keys[0], Without(keys[1..], wanted)); }
    }
  }

  lemma {:induction false} FitsInline(inline: string -> bool, lines: seq<Line>, owner: Option<string>)
    requires Fits(inline, lines, owner)
    ensures forall i :: 0 <= i < |Keys(lines)| ==>
              if Keys(lines)[i].0 == METADATA then SkipBlanks(Keys(lines)[i].1) == "" else inline(Keys(lines)[i].1)
  {
    if lines == [] {
    } else {
      match Classify(lines[0].text)
      case Key(key, _) => FitsInline(inline, lines[1..], Some(key));
      case Filler => FitsInline(inline, lines[1..], owner);
      case Indented => FitsInline(inline, lines[1..], owner);
      case Unsupported =>
    }
  }

  lemma {:induction false} WithoutConcat(a: Pairs, b: Pairs, wanted: set<string>)
    ensures Without(a + b, wanted) == Without(a, wanted) + Without(b, wanted)
  {
    if a == [] {
      assert a + b == b;
    } else {
      assert (a + b)[1..] == a[1..] + b;
      WithoutConcat(a[1..], b, wanted);
    }
  }

  /** An export-safe block, when not empty, is indented. */
  lemma {:induction false} KidsIndented(lines: seq<Line>, owner: Option<string>)
    ensures forall i :: 0 <= i < |Kids(lines, owner)| ==> Classify(Kids(lines, owner)[i]) == Indented
  {
    if lines == [] {
    } else {
      match Classify(lines[0].text)
      case Key(key, _) => KidsIndented(lines[1..], Some(key));
      case _ => KidsIndented(lines[1..], owner);
    }
  }

  lemma IndentPositive(inline: string -> bool, reserved: set<string>, kids: seq<string>)
    requires KidsOk(inline, reserved, kids)
    requires forall i :: 0 <= i < |kids| ==> Classify(kids[i]) == Indented
    ensures 0 < Indent(kids)
  {
    if kids != [] {
      assert KidOk(inline, reserved, Indent(kids), kids[0]) && Classify(kids[0]) == Indented;
    }
  }

  // ---------- The edit keeps the shape ----------

  lemma {:induction false} ThreeParts(inline: string -> bool, a: seq<Line>, n: seq<Line>, b: seq<Line>)
    ensures Keys(a + n + b) == Keys(a) + Keys(n) + Keys(b)
    ensures Fits(inline, a + n + b, None) <==>
              (Fits(inline, a, None) && Fits(inline, n, OwnerAfter(a, None)) &&
               Fits(inline, b, OwnerAfter(n, OwnerAfter(a, None))))
    ensures Kids(a + n + b, None) ==
            Kids(a, None) + Kids(n, OwnerAfter(a, None)) + Kids(b, OwnerAfter(n, OwnerAfter(a, None)))
  {
    KeysConcat(a + n, b);
    KeysConcat(a, n);
    FitsConcat(inline, a + n, b, None);
    FitsConcat(inline, a, n, None);
    OwnerConcat(a, n, None);
    KidsConcat(a + n, b, None);
    KidsConcat(a, n, None);
  }

  /** `part` reads the same once the moved lines are dropped, whatever key came before it. */
  ghost predicate DropsWell(
    inline: string -> bool, part: seq<Line>, wanted: set<string>, owner: Option<string>, other: Option<string>)
  {
    Fits(inline, Drop(part, wanted), other) && Kids(Drop(part, wanted), other) == Kids(part, owner) &&
    Keys(Drop(part, wanted)) == Without(Keys(part), wanted)
  }

  lemma {:induction false} PartDrops(
    inline: string -> bool, part: seq<Line>, wanted: set<string>, owner: Option<string>, other: Option<string>)
    requires METADATA !in wanted && Fits(inline, part, owner)
    requires owner == other || (part != [] && IsKeyIn(part[0], wanted))
    ensures DropsWell(inline, part, wanted, owner, other)
  {
    KeysDrop(part, wanted);
    if owner == other {
      DropKeepsShape(inline, part, wanted, owner, other);
    } else {
      DropKeepsShape(inline, part[1..], wanted, Some(Classify(part[0].text).key), other);
    }
  }

  /** Lines that add no key to a metadata block. */
  ghost predicate IsBlock(inline: string -> bool, lines: seq<Line>) {
    Keys(lines) == [] && OwnerAfter(lines, Some(METADATA)) == Some(METADATA) && Fits(inline, lines, Some(METADATA))
  }

  lemma {:induction false} SplitOriginal(
      inline: string -> bool, upTo: seq<Line>, after: seq<Line>, owner: Option<string>)
    requires Fits(inline, upTo + after, None) && owner == OwnerAfter(upTo, None)
    ensures Fits(inline, upTo, None) && Fits(inline, after, owner)
    ensures Keys(upTo + after) == Keys(upTo) + Keys(after)
    ensures Kids(upTo + after, None) == Kids(upTo, None) + Kids(after, owner)
  {
    FitsConcat(inline, upTo, after, None);
    KidsConcat(upTo, after, None);
    KeysConcat(upTo, after);
  }

  lemma EmptyFirst<T>(a: seq<T>, n: seq<T>, b: seq<T>)
    requires a == []
    ensures a + n + b == n + (a + b)
  {
  }

  lemma NothingBetween<T>(a: seq<T>, n: seq<T>, b: seq<T>)
    requires n == []
    ensures a + n + b == a + b
  {
  }

  /** There is a metadata key: the moved entries go right below its line. */
  lemma {:induction false} InsertBelow(
    inline: string -> bool, upTo: seq<Line>, after: seq<Line>, wanted: set<string>, nested: seq<Line>)
    requires METADATA !in wanted && Fits(inline, upTo + after, None) && OwnerAfter(upTo, None) == Some(METADATA)
    requires IsBlock(inline, nested) && Kids(upTo, None) == []
    requires OwnerAfter(Drop(upTo, wanted), None) == Some(METADATA)
    ensures var out := Drop(upTo, wanted) + nested + Drop(after, wanted);
            Fits(inline, out, None) && Keys(out) == Without(Keys(upTo + after), wanted) &&
            Kids(out, None) == Kids(nested, Some(METADATA)) + Kids(upTo + after, None)
  {
    SplitOriginal(inline, upTo, after, Some(METADATA));
    PartDrops(inline, upTo, wanted, None, None);
    PartDrops(inline, after, wanted, Some(METADATA), Some(METADATA));
    WithoutConcat(Keys(upTo), Keys(after), wanted);
    ThreeParts(inline, Drop(upTo, wanted), nested, Drop(after, wanted));
    EmptyFirst(Kids(upTo, None), Kids(nested, Some(METADATA)), Kids(after, Some(METADATA)));
    NothingBetween(Keys(Drop(upTo, wanted)), Keys(nested), Keys(Drop(after, wanted)));
  }

  /** A new metadata key and its block. */
  lemma {:induction false} NewBlock(inline: string -> bool, nested: seq<Line>, newline: string, owner: Option<string>)
    requires IsBlock(inline, nested)
    ensures var block := [MetadataLine(newline)] + nested;
            Keys(block) == [(METADATA, "")] && OwnerAfter(block, owner) == Some(METADATA) &&
            Fits(inline, block, owner) && Kids(block, owner) == Kids(nested, Some(METADATA))
  {
    ClassifyMetadataLine(newline);
    assert ([MetadataLine(newline)] + nested)[1..] == nested;
  }

  /** There is none: a new metadata key with the moved entries takes the place of the first moved line. */
  lemma {:induction false} InsertNew(
    inline: string -> bool, before: seq<Line>, after: seq<Line>, wanted: set<string>, nested: seq<Line>,
    newline: string)
    requires METADATA !in wanted && Fits(inline, before + after, None)
    requires after != [] && IsKeyIn(after[0], wanted)
    requires IsBlock(inline, nested) && Kids(before + after, None) == []
    ensures var out := before + ([MetadataLine(newline)] + nested) + Drop(after, wanted);
            Fits(inline, out, None) &&
            Keys(out) == Keys(before) + [(METADATA, "")] + Without(Keys(after), wanted) &&
            Kids(out, None) == Kids(nested, Some(METADATA))
  {
    var owner := OwnerAfter(before, None);
    SplitOriginal(inline, before, after, owner);
    PartDrops(inline, after, wanted, owner, Some(METADATA));
    NewBlock(inline, nested, newline, owner);
    ThreeParts(inline, before, [MetadataLine(newline)] + nested, Drop(after, wanted));
  }

  lemma ClassifyMetadataLine(newline: string)
    ensures Classify(MetadataLine(newline).text) == Key(METADATA, "")
  {
    KeyLine(METADATA);
  }

  lemma KeyLine(key: string)
    requires key != "" && KeyChars(key)
    ensures Classify(key + ":") == Key(key, "")
  {
    var text := key + ":";
    assert text[0] == key[0];
    KeyEndIs(key, ":", false);
    assert text[..|key|] == key && text[|key| + 1..] == "";
  }

  lemma {:induction false} UpToMetadata(lines: seq<Line>, wanted: set<string>, m: nat)
    requires METADATA !in wanted && m == FirstOf(lines, {METADATA}) < |lines|
    ensures var upTo := lines[..m + 1];
            OwnerAfter(upTo, None) == Some(METADATA) && Kids(upTo, None) == [] &&
            OwnerAfter(Drop(upTo, wanted), None) == Some(METADATA) &&
            Drop(upTo, wanted) == Drop(lines[..m], wanted) + [lines[m]]
  {
    var before, line := lines[..m], [lines[m]];
    assert lines[..m + 1] == before + line;
    NoKids(before, None);
    OwnerConcat(before, line, None);
    KidsConcat(before, line, None);
    DropConcat(before, line, wanted);
    OwnerConcat(Drop(before, wanted), line, None);
    assert line[1..] == [];
    assert Drop(line, wanted) == line;
    assert Kids(line, OwnerAfter(before, None)) == [];
  }

  lemma {:induction false} NoMovedKeys(lines: seq<Line>, wanted: set<string>)
    ensures Only(Keys(lines), wanted) == [] <==> forall i :: 0 <= i < |lines| ==> !IsKeyIn(lines[i], wanted)
  {
    if lines == [] {
    } else {
      NoMovedKeys(lines[1..], wanted);
      assert forall i :: 0 < i < |lines| ==> lines[i] == lines[1..][i - 1];
      if IsKeyIn(lines[0], wanted) { assert Keys(lines)[0].0 in wanted; }
    }
  }

  lemma DistinctInsert(a: Pairs, x: (string, string), b: Pairs)
    requires DistinctKeys(a + b) && forall p :: p in a + b ==> p.0 != x.0
    ensures DistinctKeys(a + [x] + b)
  {
    var all := a + [x] + b;
    forall i, j | 0 <= i < j < |all| ensures all[i].0 != all[j].0 {
      if i == |a| {
        assert all[j] == (a + b)[j - 1] && (a + b)[j - 1] in a + b;
      } else if j == |a| {
        assert all[i] == (a + b)[i] && (a + b)[i] in a + b;
      } else {
        assert all[i] == (a + b)[if i < |a| then i else i - 1] && all[j] == (a + b)[if j < |a| then j else j - 1];
      }
    }
  }

  lemma {:induction false} NoKeyLine(lines: seq<Line>, key: string)
    requires forall i :: 0 <= i < |lines| ==> !IsKeyIn(lines[i], {key})
    ensures forall p :: p in Keys(lines) ==> p.0 != key
  {
    NoMovedKeys(lines, {key});
    OnlyIn(Keys(lines), {key});
  }

  /** A key line found by its key stands for exactly one pair, and metadata's value is empty. */
  lemma {:induction false} MetadataPair(inline: string -> bool, lines: seq<Line>)
    requires Fits(inline, lines, None)
    ensures forall p :: p in Keys(lines) && p.0 == METADATA ==> p == (METADATA, "")
    ensures FirstOf(lines, {METADATA}) < |lines| ==> (METADATA, "") in Keys(lines)
  {
    FitsInline(inline, lines, None);
    KeysPairOk(lines);
    forall p | p in Keys(lines) && p.0 == METADATA ensures p == (METADATA, "") {
      var i :| 0 <= i < |Keys(lines)| && Keys(lines)[i] == p;
      assert PairOk(Keys(lines)[i]);
    }
    if FirstOf(lines, {METADATA}) < |lines| {
      NoMovedKeys(lines, {METADATA});
      OnlyEmptyIff(Keys(lines), {METADATA});
    }
  }

  // ---------- The edit as a whole ----------

  /** Keys after the edit: the unmoved ones, and metadata when something moved. */
  ghost predicate KeysAfter(lines: seq<Line>, wanted: set<string>, out: seq<Line>) {
    DistinctKeys(Keys(out)) &&
    forall p :: p in Keys(out) <==>
      (p in Keys(lines) && p.0 !in wanted) || (Only(Keys(lines), wanted) != [] && p == (METADATA, ""))
  }

  ghost predicate KidsAfter(lines: seq<Line>, wanted: set<string>, newline: string, out: seq<Line>) {
    Kids(out, None) ==
    Texts(Nested(Indent(Kids(lines, None)), Only(Keys(lines), wanted), newline)) + Kids(lines, None)
  }

  /** What the shape of the input says of the lines to be inserted. */
  lemma {:induction false} InsertedBlock(
      inline: string -> bool, lines: seq<Line>, wanted: set<string>, newline: string)
    requires METADATA !in wanted && ExportSafe(inline, NamesOf(Only(Keys(lines), wanted)), lines)
    ensures var nested := Nested(Indent(Kids(lines, None)), Only(Keys(lines), wanted), newline);
            IsBlock(inline, nested) && Kids(nested, Some(METADATA)) == Texts(nested) &&
            KidsOk(inline, {}, Texts(nested) + Kids(lines, None))
  {
    var keys, kids := Keys(lines), Kids(lines, None);
    var pairs := Only(keys, wanted);
    KidsIndented(lines, None);
    IndentPositive(inline, NamesOf(pairs), kids);
    FitsInline(inline, lines, None);
    KeysPairOk(lines);
    OnlyIn(keys, wanted);
    OnlyDistinct(keys, wanted);
    forall i | 0 <= i < |pairs| ensures PairOk(pairs[i]) && inline(pairs[i].1) {
      assert pairs[i] in pairs;
    }
    NestedBlock(inline, Indent(kids), pairs, newline);
    NestedKidsOk(inline, pairs, kids, newline);
  }

  lemma {:induction false} EditBelow(inline: string -> bool, lines: seq<Line>, wanted: set<string>, newline: string)
    requires METADATA !in wanted && ExportSafe(inline, NamesOf(Only(Keys(lines), wanted)), lines)
    requires Only(Keys(lines), wanted) != [] && FirstOf(lines, {METADATA}) < |lines|
    ensures var out := Transformed(lines, wanted, newline);
            Fits(inline, out, None) && KeysAfter(lines, wanted, out) && KidsAfter(lines, wanted, newline, out)
  {
    var m := FirstOf(lines, {METADATA});
    var nested := Nested(Indent(Kids(lines, None)), Only(Keys(lines), wanted), newline);
    assert lines[..m + 1] + lines[m + 1..] == lines;
    InsertedBlock(inline, lines, wanted, newline);
    UpToMetadata(lines, wanted, m);
    InsertBelow(inline, lines[..m + 1], lines[m + 1..], wanted, nested);
    WithoutIn(Keys(lines), wanted);
    WithoutDistinct(Keys(lines), wanted);
    MetadataPair(inline, lines);
  }

  lemma {:induction false} EditNew(inline: string -> bool, lines: seq<Line>, wanted: set<string>, newline: string)
    requires METADATA !in wanted && ExportSafe(inline, NamesOf(Only(Keys(lines), wanted)), lines)
    requires Only(Keys(lines), wanted) != [] && FirstOf(lines, {METADATA}) == |lines|
    ensures var out := Transformed(lines, wanted, newline);
            Fits(inline, out, None) && KeysAfter(lines, wanted, out) && KidsAfter(lines, wanted, newline, out)
  {
    var f := FirstOf(lines, wanted);
    var before, after := lines[..f], lines[f..];
    var nested := Nested(Indent(Kids(lines, None)), Only(Keys(lines), wanted), newline);
    assert before + after == lines;
    InsertedBlock(inline, lines, wanted, newline);
    NoMovedKeys(lines, wanted);
    NoKids(lines, None);
    InsertNew(inline, before, after, wanted, nested, newline);
    KeysConcat(before, after);
    WithoutConcat(Keys(before), Keys(after), wanted);
    DropNone(before, wanted);
    KeysDrop(before, wanted);
    WithoutIn(Keys(lines), wanted);
    WithoutDistinct(Keys(lines), wanted);
    NoKeyLine(lines, METADATA);
    DistinctInsert(Keys(before), (METADATA, ""), Without(Keys(after), wanted));
    NewKeys(Keys(before), Without(Keys(after), wanted));
    assert Texts(nested) + [] == Texts(nested);
  }

  lemma NewKeys(a: Pairs, b: Pairs)
    ensures forall p :: p in a + [(METADATA, "")] + b <==> p in a + b || p == (METADATA, "")
  {
    assert forall p :: p in a + [(METADATA, "")] + b <==> p in a || p in [(METADATA, "")] || p in b;
  }

  /** The edit of an export-safe frontmatter is export-safe, with the keys and the block expected. */
  lemma {:induction false} EditIsSafe(inline: string -> bool, lines: seq<Line>, wanted: set<string>, newline: string)
    requires METADATA !in wanted && ExportSafe(inline, NamesOf(Only(Keys(lines), wanted)), lines)
    ensures var out := Transformed(lines, wanted, newline);
            ExportSafe(inline, {}, out) && KeysAfter(lines, wanted, out) && KidsAfter(lines, wanted, newline, out)
  {
    InsertedBlock(inline, lines, wanted, newline);
    if Only(Keys(lines), wanted) == [] {
      OnlyEmptyIff(Keys(lines), wanted);
      assert Texts(Nested(Indent(Kids(lines, None)), [], newline)) + Kids(lines, None) == Kids(lines, None);
    } else if FirstOf(lines, {METADATA}) < |lines| {
      EditBelow(inline, lines, wanted, newline);
    } else {
      EditNew(inline, lines, wanted, newline);
    }
  }

  /** A second edit has nothing to move. */
  lemma {:induction false} EditIsIdempotent(
      inline: string -> bool, lines: seq<Line>, wanted: set<string>, newline: string, again: string)
    requires METADATA !in wanted && ExportSafe(inline, NamesOf(Only(Keys(lines), wanted)), lines)
    ensures var out := Transformed(lines, wanted, newline);
            Only(Keys(out), wanted) == [] && Transformed(out, wanted, again) == out
  {
    var out := Transformed(lines, wanted, newline);
    EditIsSafe(inline, lines, wanted, newline);
    OnlyEmptyIff(Keys(out), wanted);
  }

  // ---------- Meaning ----------

  /** A value at the top level or directly below metadata. */
  datatype Field = Top(key: string, value: string) | Below(key: string, value: string)

  ghost predicate Has(lines: seq<Line>, f: Field) {
    match f
    case Top(key, value) => key != METADATA && (key, value) in Keys(lines)
    case Below(key, value) => HasKid(Kids(lines, None), key, value)
  }

  ghost predicate HasKid(kids: seq<string>, key: string, value: string) {
    exists i :: 0 <= i < |kids| && IsKid(kids[i], key, value)
  }

  ghost predicate IsKid(text: string, key: string, value: string) {
    match ChildOf(text)
    case Some(child) => child.key == key && child.value == value
    case None => false
  }

  lemma HasKidConcat(a: seq<string>, b: seq<string>, key: string, value: string)
    ensures HasKid(a + b, key, value) <==> HasKid(a, key, value) || HasKid(b, key, value)
  {
    var all := a + b;
    if HasKid(a, key, value) {
      var i :| 0 <= i < |a| && IsKid(a[i], key, value);
      assert all[i] == a[i];
    }
    if HasKid(b, key, value) {
      var i :| 0 <= i < |b| && IsKid(b[i], key, value);
      assert all[|a| + i] == b[i];
    }
    if HasKid(all, key, value) {
      var i :| 0 <= i < |all| && IsKid(all[i], key, value);
      assert if i < |a| then all[i] == a[i] else all[i] == b[i - |a|];
    }
  }

  lemma NestedHas(texts: seq<string>, indent: nat, pairs: Pairs, key: string, value: string)
    requires 0 < indent && AllPairsOk(pairs) && |texts| == |pairs|
    requires forall i :: 0 <= i < |texts| ==> texts[i] == NestedText(indent, pairs[i])
    ensures HasKid(texts, key, value) <==> (key, value) in pairs
  {
    forall i | 0 <= i < |texts| ensures IsKid(texts[i], key, value) <==> pairs[i] == (key, value) {
      NestedLine(indent, pairs[i]);
    }
  }

  lemma KidsOfNested(
      indent: nat, pairs: Pairs, newline: string, kids: seq<string>, key: string, value: string)
    requires 0 < indent && AllPairsOk(pairs)
    ensures HasKid(Texts(Nested(indent, pairs, newline)) + kids, key, value) <==>
            (HasKid(kids, key, value) || (key, value) in pairs)
  {
    var texts := Texts(Nested(indent, pairs, newline));
    NestedHas(texts, indent, pairs, key, value);
    HasKidConcat(texts, kids, key, value);
  }

  /** Every field keeps its value: unmoved ones stay, moved ones are below metadata, and nothing else appears. */
  lemma {:induction false} EveryFieldIsKept(
      inline: string -> bool, lines: seq<Line>, wanted: set<string>, newline: string, f: Field)
    requires METADATA !in wanted && ExportSafe(inline, NamesOf(Only(Keys(lines), wanted)), lines)
    ensures Has(Transformed(lines, wanted, newline), f) <==>
            if f.Top? then f.key !in wanted && Has(lines, f)
            else Has(lines, f) || (f.key in wanted && Has(lines, Top(f.key, f.value)))
  {
    var keys, kids := Keys(lines), Kids(lines, None);
    var pairs := Only(keys, wanted);
    EditIsSafe(inline, lines, wanted, newline);
    OnlyIn(keys, wanted);
    if f.Below? {
      KidsIndented(lines, None);
      IndentPositive(inline, NamesOf(pairs), kids);
      KeysPairOk(lines);
      forall i | 0 <= i < |pairs| ensures PairOk(pairs[i]) { assert pairs[i] in pairs; }
      KidsOfNested(Indent(kids), pairs, newline, kids, f.key, f.value);
    }
  }

  /** Where the insertion goes: below the metadata line, or at the first moved line. */
  function Anchor(lines: seq<Line>, wanted: set<string>): (r: nat)
    ensures r <= |lines|
  {
    var m := FirstOf(lines, {METADATA});
    if m < |lines| then m + 1 else FirstOf(lines, wanted)
  }

  /** The lines inserted there. */
  function Inserted(lines: seq<Line>, wanted: set<string>, newline: string): (r: seq<Line>) {
    var nested := Nested(Indent(Kids(lines, None)), Only(Keys(lines), wanted), newline);
    if FirstOf(lines, {METADATA}) < |lines| then nested else [MetadataLine(newline)] + nested
  }

  /** The anchor is right below the metadata line, which stays. */
  lemma {:induction false} DropToAnchor(lines: seq<Line>, wanted: set<string>)
    requires METADATA !in wanted
    ensures var upTo := Drop(lines[..Anchor(lines, wanted)], wanted);
            FirstOf(lines, {METADATA}) < |lines| ==> upTo != [] && IsKeyIn(upTo[|upTo| - 1], {METADATA})
    ensures FirstOf(lines, {METADATA}) == |lines| ==>
            Drop(lines[..Anchor(lines, wanted)], wanted) == lines[..Anchor(lines, wanted)]
  {
    var n := Anchor(lines, wanted);
    if FirstOf(lines, {METADATA}) < |lines| {
      UpToMetadata(lines, wanted, n - 1);
    } else {
      DropNone(lines[..n], wanted);
    }
  }

  lemma {:induction false} TransformedAtAnchor(
      lines: seq<Line>, wanted: set<string>, newline: string, above: seq<Line>, below: seq<Line>)
    requires METADATA !in wanted && Only(Keys(lines), wanted) != []
    requires above == Drop(lines[..Anchor(lines, wanted)], wanted)
    requires below == Drop(lines[Anchor(lines, wanted)..], wanted)
    ensures Transformed(lines, wanted, newline) == above + Inserted(lines, wanted, newline) + below
  {
    DropToAnchor(lines, wanted);
  }

  /** The unmoved lines, in order, are all there, with the inserted ones in one place among them. */
  lemma UnmovedLinesStay(lines: seq<Line>, wanted: set<string>, newline: string) returns (i: nat)
    requires METADATA !in wanted && Only(Keys(lines), wanted) != []
    ensures i == |Drop(lines[..Anchor(lines, wanted)], wanted)| <= |Drop(lines, wanted)|
    ensures Transformed(lines, wanted, newline) ==
            Drop(lines, wanted)[..i] + Inserted(lines, wanted, newline) + Drop(lines, wanted)[i..]
    ensures FirstOf(lines, {METADATA}) < |lines| ==> 0 < i && IsKeyIn(Drop(lines, wanted)[i - 1], {METADATA})
  {
    var n := Anchor(lines, wanted);
    var a, b := Drop(lines[..n], wanted), Drop(lines[n..], wanted);
    i := |a|;
    DropInTwo(lines, wanted, n);
    InTwo(Drop(lines, wanted), a, b);
    DropToAnchor(lines, wanted);
    TransformedAtAnchor(lines, wanted, newline, a, b);
  }

  lemma {:induction false} DropInTwo(lines: seq<Line>, wanted: set<string>, n: nat)
    requires n <= |lines|
    ensures Drop(lines, wanted) == Drop(lines[..n], wanted) + Drop(lines[n..], wanted)
  {
    assert lines == lines[..n] + lines[n..];
    DropConcat(lines[..n], lines[n..], wanted);
  }

  lemma InTwo<T>(all: seq<T>, a: seq<T>, b: seq<T>)
    requires all == a + b
    ensures all[..|a|] == a && all[|a|..] == b && (a != [] ==> all[|a| - 1] == a[|a| - 1])
  {
    SplitBack(a, b);
  }
}
