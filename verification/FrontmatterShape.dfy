/**
 Which frontmatters can be exported, line by line (scripts/install.py, `_top_level_keys`,
 `_validate_metadata_block` and `_validate_profile_frontmatter_shape`): the sections are found by position here,
 not by reading along.
 */
module FrontmatterShape {
  import opened Outcomes
  import opened Frontmatter
  import FrontmatterExport

  ghost predicate KeyLine(lines: seq<Line>, i: int) {
    0 <= i < |lines| && Classify(lines[i].text).Key?
  }

  /** Line i is in the section of the key at line k. */
  ghost predicate Heads(lines: seq<Line>, k: int, i: int) {
    KeyLine(lines, k) && k < i <= |lines| && forall j :: k < j < i ==> !KeyLine(lines, j)
  }

  /** Line i is a mapping entry in the section of `metadata`. */
  ghost predicate Entry(lines: seq<Line>, i: int) {
    0 <= i < |lines| && Classify(lines[i].text).Indented? &&
    exists k :: Heads(lines, k, i) && Classify(lines[k].text).key == "metadata"
  }

  /** A line of a known kind; a key with an inline value, or with none if it is `metadata`. */
  predicate LineOk(inline: string -> bool, line: Line) {
    match Classify(line.text)
    case Unsupported => false
    case Key(key, value) => if key == "metadata" then SkipBlanks(value) == "" else inline(value)
    case _ => true
  }

  ghost predicate LinesOk(inline: string -> bool, lines: seq<Line>) {
    forall i :: 0 <= i < |lines| ==> LineOk(inline, lines[i])
  }

  ghost predicate KeysOnce(lines: seq<Line>) {
    forall i, j :: i < j && KeyLine(lines, i) && KeyLine(lines, j) ==>
      Classify(lines[i].text).key != Classify(lines[j].text).key
  }

  /** Only `metadata` has indented lines below it. */
  ghost predicate NoOtherBlock(lines: seq<Line>) {
    forall i :: 0 <= i < |lines| && Classify(lines[i].text).Indented? ==> BelowMetadata(lines, i)
  }

  /** Before the first key, or in the section of `metadata`. */
  ghost predicate BelowMetadata(lines: seq<Line>, i: int) {
    forall k :: Heads(lines, k, i) ==> Classify(lines[k].text).key == "metadata"
  }

  /** The entries of `metadata` are flat, equally indented, with inline values under different keys, none reserved. */
  ghost predicate BlockOk(inline: string -> bool, reserved: set<string>, lines: seq<Line>) {
    (forall i :: Entry(lines, i) ==> EntryOk(inline, reserved, lines[i].text)) &&
    forall i, j :: i < j && Entry(lines, i) && Entry(lines, j) ==> Beside(lines[i].text, lines[j].text)
  }

  predicate EntryOk(inline: string -> bool, reserved: set<string>, text: string) {
    match ChildOf(text)
    case None => false
    case Some(child) => inline(child.value) && child.key !in reserved
  }

  predicate Beside(a: string, b: string) {
    Spaces(a) == Spaces(b) && !SameChildKey(a, b)
  }

  // ---------- Sections ----------

  function OwnerOf(lines: seq<Line>, i: nat): (r: Option<string>)
    requires i <= |lines|
  {
    OwnerAfter(lines[..i], None)
  }

  lemma OwnerNext(lines: seq<Line>, i: nat)
    requires i < |lines|
    ensures OwnerOf(lines, i + 1) ==
            if KeyLine(lines, i) then Some(Classify(lines[i].text).key) else OwnerOf(lines, i)
  {
    assert lines[..i + 1] == lines[..i] + [lines[i]];
    OwnerConcat(lines[..i], [lines[i]], None);
  }

  lemma OwnerIff(lines: seq<Line>, i: nat, key: string)
    requires i <= |lines|
    ensures OwnerOf(lines, i) == Some(key) <==> exists k :: Heads(lines, k, i) && Classify(lines[k].text).key == key
    ensures OwnerOf(lines, i) == None <==> forall k :: 0 <= k < i ==> !KeyLine(lines, k)
  {
    if i == 0 {
      assert lines[..0] == [];
    } else {
      OwnerNext(lines, i - 1);
      OwnerIff(lines, i - 1, key);
      HeadsNext(lines, i - 1, i);
    }
  }

  lemma HeadsNext(lines: seq<Line>, i: nat, next: nat)
    requires i < |lines| && next == i + 1
    ensures KeyLine(lines, i) ==> Heads(lines, i, next) && forall k :: Heads(lines, k, next) ==> k == i
    ensures !KeyLine(lines, i) ==> forall k :: Heads(lines, k, next) <==> Heads(lines, k, i)
  {
  }

  lemma FitsNext(inline: string -> bool, lines: seq<Line>, i: nat)
    requires i < |lines|
    ensures Fits(inline, lines[..i + 1], None) <==>
            Fits(inline, lines[..i], None) && Fits(inline, [lines[i]], OwnerOf(lines, i))
  {
    assert lines[..i + 1] == lines[..i] + [lines[i]];
    FitsConcat(inline, lines[..i], [lines[i]], None);
  }

  /** What is asked of one line, given the section it is in. */
  ghost predicate LineFits(inline: string -> bool, lines: seq<Line>, i: int) {
    0 <= i < |lines| && Fits(inline, [lines[i]], OwnerOf(lines, i))
  }

  lemma FitsByLine(inline: string -> bool, lines: seq<Line>, n: nat)
    requires n <= |lines|
    ensures Fits(inline, lines[..n], None) <==> forall i :: 0 <= i < n ==> LineFits(inline, lines, i)
  {
    if n == 0 {
      assert lines[..0] == [];
    } else {
      FitsByLine(inline, lines, n - 1);
      FitsNext(inline, lines, n - 1);
      assert LineFits(inline, lines, n - 1) <==> Fits(inline, [lines[n - 1]], OwnerOf(lines, n - 1));
    }
  }

  lemma {:induction false} OneLineFits(inline: string -> bool, line: Line, owner: Option<string>)
    ensures Fits(inline, [line], owner) <==>
            LineOk(inline, line) && (Classify(line.text).Indented? ==> owner == None || owner == Some("metadata"))
  {
    assert [line][1..] == [];
  }

  lemma OwnedByMetadata(lines: seq<Line>, i: nat)
    requires i < |lines|
    ensures OwnerOf(lines, i) == None || OwnerOf(lines, i) == Some("metadata") <==> BelowMetadata(lines, i)
    ensures Classify(lines[i].text).Indented? ==> (OwnerOf(lines, i) == Some("metadata") <==> Entry(lines, i))
  {
    OwnerIff(lines, i, "metadata");
    if OwnerOf(lines, i).Some? {
      var key := OwnerOf(lines, i).value;
      OwnerIff(lines, i, key);
      var k :| Heads(lines, k, i) && Classify(lines[k].text).key == key;
      forall l | Heads(lines, l, i) ensures l == k { assert KeyLine(lines, l) && KeyLine(lines, k); }
    }
  }

  lemma LineFitsIff(inline: string -> bool, lines: seq<Line>, i: nat)
    requires i < |lines|
    ensures LineFits(inline, lines, i) <==>
            LineOk(inline, lines[i]) && (Classify(lines[i].text).Indented? ==> BelowMetadata(lines, i))
  {
    OneLineFits(inline, lines[i], OwnerOf(lines, i));
    OwnedByMetadata(lines, i);
  }

  lemma {:induction false} FitsIff(inline: string -> bool, lines: seq<Line>)
    ensures Fits(inline, lines, None) <==> LinesOk(inline, lines) && NoOtherBlock(lines)
  {
    assert lines[..|lines|] == lines;
    FitsByLine(inline, lines, |lines|);
    forall i | 0 <= i < |lines|
      ensures LineFits(inline, lines, i) <==>
              LineOk(inline, lines[i]) && (Classify(lines[i].text).Indented? ==> BelowMetadata(lines, i))
    {
      LineFitsIff(inline, lines, i);
    }
  }

  // ---------- Keys and entries by position ----------

  /** `at` lists, in order, the lines below n that `picked` holds of. */
  ghost predicate Lists(at: seq<nat>, n: nat, picked: nat -> bool) {
    (forall a :: 0 <= a < |at| ==> at[a] < n && picked(at[a])) &&
    (forall a, b :: 0 <= a < b < |at| ==> at[a] < at[b]) &&
    forall i: nat :: i < n && picked(i) ==> i in at
  }

  lemma ListsNext(at: seq<nat>, n: nat, picked: nat -> bool)
    requires Lists(at, n, picked)
    ensures Lists(if picked(n) then at + [n] else at, n + 1, picked)
  {
  }

  lemma KidsNext(lines: seq<Line>, n: nat)
    requires n < |lines|
    ensures Kids(lines[..n + 1], None) == Kids(lines[..n], None) + (if Entry(lines, n) then [lines[n].text] else [])
  {
    assert lines[..n + 1] == lines[..n] + [lines[n]];
    assert [lines[n]][1..] == [];
    KidsConcat(lines[..n], [lines[n]], None);
    OwnedByMetadata(lines, n);
  }

  /** The texts of these lines. */
  ghost predicate TextsAt(lines: seq<Line>, at: seq<nat>, texts: seq<string>) {
    |at| == |texts| && forall a :: 0 <= a < |at| ==> at[a] < |lines| && texts[a] == lines[at[a]].text
  }

  lemma TextsNext(
    lines: seq<Line>, at: seq<nat>, texts: seq<string>, n: nat, more: seq<string>, entry: nat -> bool)
    requires Lists(at, n, entry) && TextsAt(lines, at, texts) && n < |lines|
    requires more == texts + (if entry(n) then [lines[n].text] else [])
    ensures var next := if entry(n) then at + [n] else at;
            Lists(next, n + 1, entry) && TextsAt(lines, next, more)
  {
    ListsNext(at, n, entry);
    assert texts + [] == texts;
  }

  lemma KidsAt(lines: seq<Line>, n: nat, entry: nat -> bool) returns (at: seq<nat>)
    requires n <= |lines| && forall i: nat :: entry(i) <==> Entry(lines, i)
    ensures Lists(at, n, entry) && TextsAt(lines, at, Kids(lines[..n], None))
  {
    if n == 0 {
      at := [];
    } else {
      at := KidsAt(lines, n - 1, entry);
      assert entry(n - 1) <==> Entry(lines, n - 1);
      KidsNext(lines, n - 1);
      TextsNext(lines, at, Kids(lines[..n - 1], None), n - 1, Kids(lines[..n], None), entry);
      if entry(n - 1) { at := at + [n - 1]; }
    }
  }

  /** The keys of these lines. */
  ghost predicate NamesAt(lines: seq<Line>, at: seq<nat>, keys: seq<(string, string)>) {
    |at| == |keys| &&
    forall a :: 0 <= a < |at| ==> KeyLine(lines, at[a]) && keys[a].0 == Classify(lines[at[a]].text).key
  }

  lemma NamesNext(
    lines: seq<Line>, at: seq<nat>, keys: seq<(string, string)>, n: nat, more: seq<(string, string)>,
    isKey: nat -> bool)
    requires Lists(at, n, isKey) && NamesAt(lines, at, keys) && n < |lines| && (isKey(n) <==> KeyLine(lines, n))
    requires more == keys +
                     (if KeyLine(lines, n) then [(Classify(lines[n].text).key, Classify(lines[n].text).value)] else [])
    ensures var next := if isKey(n) then at + [n] else at;
            Lists(next, n + 1, isKey) && NamesAt(lines, next, more)
  {
    ListsNext(at, n, isKey);
    assert keys + [] == keys;
  }

  lemma KeysAt(lines: seq<Line>, n: nat, isKey: nat -> bool) returns (at: seq<nat>)
    requires n <= |lines| && forall i: nat :: isKey(i) <==> KeyLine(lines, i)
    ensures Lists(at, n, isKey) && NamesAt(lines, at, Keys(lines[..n]))
  {
    if n == 0 {
      at := [];
    } else {
      at := KeysAt(lines, n - 1, isKey);
      assert isKey(n - 1) <==> KeyLine(lines, n - 1);
      FrontmatterExport.KeysSnoc(lines, n - 1);
      NamesNext(lines, at, Keys(lines[..n - 1]), n - 1, Keys(lines[..n]), isKey);
      if isKey(n - 1) { at := at + [n - 1]; }
    }
  }

  lemma {:induction false} KeysOnceIff(lines: seq<Line>)
    ensures DistinctKeys(Keys(lines)) <==> KeysOnce(lines)
  {
    ghost var isKey := (i: nat) => KeyLine(lines, i);
    var at := KeysAt(lines, |lines|, isKey);
    var keys := Keys(lines);
    assert lines[..|lines|] == lines;
    if DistinctKeys(keys) {
      forall i, j | i < j && KeyLine(lines, i) && KeyLine(lines, j)
        ensures Classify(lines[i].text).key != Classify(lines[j].text).key
      {
        assert isKey(i) && isKey(j);
        var a :| 0 <= a < |at| && at[a] == i;
        var b :| 0 <= b < |at| && at[b] == j;
        assert a < b && keys[a].0 != keys[b].0;
      }
    }
    if KeysOnce(lines) {
      forall a, b | 0 <= a < b < |keys| ensures keys[a].0 != keys[b].0 {
        assert isKey(at[a]) && isKey(at[b]) && at[a] < at[b];
      }
    }
  }

  lemma {:induction false} BlockOkIff(inline: string -> bool, reserved: set<string>, lines: seq<Line>)
    ensures KidsOk(inline, reserved, Kids(lines, None)) <==> BlockOk(inline, reserved, lines)
  {
    ghost var entry := (i: nat) => Entry(lines, i);
    var at := KidsAt(lines, |lines|, entry);
    assert lines[..|lines|] == lines;
    var kids := Kids(lines, None);
    if KidsOk(inline, reserved, kids) { KidsAreEntries(inline, reserved, lines, kids, at, entry); }
    if BlockOk(inline, reserved, lines) { EntriesAreKids(inline, reserved, lines, kids, at, entry); }
  }

  lemma KidsAreEntries(
    inline: string -> bool, reserved: set<string>, lines: seq<Line>, kids: seq<string>, at: seq<nat>,
    entry: nat -> bool)
    requires (forall i: nat :: entry(i) <==> Entry(lines, i)) && Lists(at, |lines|, entry) && TextsAt(lines, at, kids)
    requires KidsOk(inline, reserved, kids)
    ensures BlockOk(inline, reserved, lines)
  {
    forall i | Entry(lines, i) ensures EntryOk(inline, reserved, lines[i].text) {
      assert entry(i);
      var a :| 0 <= a < |at| && at[a] == i;
      assert KidOk(inline, reserved, Indent(kids), kids[a]);
    }
    forall i, j | i < j && Entry(lines, i) && Entry(lines, j) ensures Beside(lines[i].text, lines[j].text) {
      assert entry(i) && entry(j);
      var a :| 0 <= a < |at| && at[a] == i;
      var b :| 0 <= b < |at| && at[b] == j;
      assert a < b;
      KidsBeside(inline, reserved, kids, a, b);
    }
  }

  lemma KidsBeside(
    inline: string -> bool, reserved: set<string>, kids: seq<string>, a: nat, b: nat)
    requires KidsOk(inline, reserved, kids) && a < b < |kids|
    ensures Beside(kids[a], kids[b])
  {
    assert KidOk(inline, reserved, Indent(kids), kids[a]) && KidOk(inline, reserved, Indent(kids), kids[b]);
  }

  lemma EntriesAreKids(
    inline: string -> bool, reserved: set<string>, lines: seq<Line>, kids: seq<string>, at: seq<nat>,
    entry: nat -> bool)
    requires (forall i: nat :: entry(i) <==> Entry(lines, i)) && Lists(at, |lines|, entry) && TextsAt(lines, at, kids)
    requires BlockOk(inline, reserved, lines)
    ensures KidsOk(inline, reserved, kids)
  {
    forall a, b | 0 <= a < b < |kids| ensures Beside(kids[a], kids[b]) {
      assert entry(at[a]) && entry(at[b]) && at[a] < at[b];
    }
    forall a | 0 <= a < |kids| ensures KidOk(inline, reserved, Indent(kids), kids[a]) {
      assert entry(at[a]) && Entry(lines, at[a]);
      assert EntryOk(inline, reserved, kids[a]);
      if a > 0 { assert Beside(kids[0], kids[a]); }
    }
    forall a, b | 0 <= a < b < |kids| ensures !SameChildKey(kids[a], kids[b]) { assert Beside(kids[a], kids[b]); }
  }

  /** Export-safe is, line by line and section by section, exactly this. */
  lemma ExportSafeIff(inline: string -> bool, reserved: set<string>, lines: seq<Line>)
    ensures ExportSafe(inline, reserved, lines) <==>
            LinesOk(inline, lines) && KeysOnce(lines) && NoOtherBlock(lines) && BlockOk(inline, reserved, lines)
  {
    FitsIff(inline, lines);
    KeysOnceIff(lines);
    BlockOkIff(inline, reserved, lines);
  }
}
