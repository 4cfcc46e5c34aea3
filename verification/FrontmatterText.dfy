/**
 What a line of frontmatter says, character by character (scripts/install.py, `TOP_LEVEL_KEY_RE`,
 `_strip_plain_yaml_comment` and `_validate_inline_yaml_scalar`), and the line endings of what is exported.
 */
module FrontmatterText {
  import opened Outcomes
  import opened Frontmatter
  import opened FrontmatterExport
  import opened FrontmatterTransform

  // ---------- Blanks ----------

  predicate AllBlank(s: string) {
    forall i :: 0 <= i < |s| ==> s[i] == ' ' || s[i] == '\t'
  }

  /** Does not begin with a blank. */
  predicate Flush(s: string) {
    s == "" || (s[0] != ' ' && s[0] != '\t')
  }

  /** Text that neither begins nor ends with a blank. */
  predicate Trimmed(s: string) {
    s != "" && Flush(s) && s[|s| - 1] != ' ' && s[|s| - 1] != '\t'
  }

  lemma {:induction false} SkipsBlanks(s: string, n: nat)
    requires n <= |s| && AllBlank(s[..n]) && Flush(s[n..])
    ensures SkipBlanks(s) == s[n..]
  {
    if n == 0 {
      assert s[0..] == s;
    } else {
      assert s[0] == s[..n][0];
      assert s[1..][..n - 1] == s[..n][1..] && s[1..][n - 1..] == s[n..];
      SkipsBlanks(s[1..], n - 1);
    }
  }

  lemma {:induction false} BlanksBefore(s: string)
    ensures var n := |s| - |SkipBlanks(s)|;
            AllBlank(s[..n]) && s[n..] == SkipBlanks(s) && Flush(SkipBlanks(s))
  {
    if s != "" && IsBlank(s[0]) {
      BlanksBefore(s[1..]);
      var n := |s| - |SkipBlanks(s)|;
      assert s[..n] == [s[0]] + s[1..][..n - 1] && s[n..] == s[1..][n - 1..];
    } else {
      assert s[0..] == s;
    }
  }

  lemma {:induction false} StripsEnd(s: string, n: nat)
    requires n <= |s| && AllBlank(s[n..]) && (n > 0 ==> s[n - 1] != ' ' && s[n - 1] != '\t')
    ensures StripEnd(s) == s[..n]
  {
    if n == |s| {
      assert s[..n] == s;
    } else {
      var m := |s| - 1;
      assert s[m] == s[n..][m - n];
      assert s[..m][n..] == s[n..][..m - n] && s[..m][..n] == s[..n];
      StripsEnd(s[..m], n);
    }
  }

  lemma {:induction false} BlanksAfter(s: string)
    ensures StripEnd(s) <= s && AllBlank(s[|StripEnd(s)|..])
    ensures StripEnd(s) != "" ==> var last := StripEnd(s)[|StripEnd(s)| - 1]; last != ' ' && last != '\t'
  {
    if s != "" && IsBlank(s[|s| - 1]) {
      var front, n := s[..|s| - 1], |StripEnd(s)|;
      BlanksAfter(front);
      assert s[n..] == front[n..] + [s[|s| - 1]];
    }
  }

  // ---------- Keys ----------

  /** `[A-Za-z0-9_-]`, and dots below metadata. */
  predicate NameChar(c: char, dots: bool) {
    'A' <= c <= 'Z' || 'a' <= c <= 'z' || '0' <= c <= '9' || c == '_' || c == '-' || (dots && c == '.')
  }

  /** `key:`, blanks, and the value to the end of the line. */
  predicate Reads(s: string, dots: bool, key: string, value: string) {
    key != "" && (forall i :: 0 <= i < |key| ==> NameChar(key[i], dots)) && Flush(value) &&
    |key| + 1 + |value| <= |s| && key <= s && s[|key|] == ':' &&
    AllBlank(s[|key| + 1..|s| - |value|]) && s[|s| - |value|..] == value
  }

  lemma {:induction false} KeyEndAt(s: string, n: nat, dots: bool)
    requires n <= |s| && (forall i :: 0 <= i < n ==> NameChar(s[i], dots)) && (n < |s| ==> !NameChar(s[n], dots))
    ensures KeyEnd(s, dots) == n
  {
    if n > 0 { KeyEndAt(s[1..], n - 1, dots); }
  }

  lemma {:induction false} KeyEndMeans(s: string, dots: bool)
    ensures var n := KeyEnd(s, dots);
            (forall i :: 0 <= i < n ==> NameChar(s[i], dots)) && (n < |s| ==> !NameChar(s[n], dots))
  {
    if s != "" && IsKeyChar(s[0], dots) {
      KeyEndMeans(s[1..], dots);
      forall i | 0 <= i < KeyEnd(s, dots) ensures NameChar(s[i], dots) {
        if i > 0 { assert s[i] == s[1..][i - 1]; }
      }
    }
  }

  lemma MappingReads(s: string, dots: bool, key: string, value: string)
    requires Mapping(s, dots) == Some((key, value))
    ensures Reads(s, dots, key, value)
  {
    KeyEndMeans(s, dots);
    ValueStands(s, |key|, value);
  }

  /** The value after the colon at n, in terms of the whole line. */
  lemma ValueStands(s: string, n: nat, value: string)
    requires n < |s| && value == SkipBlanks(s[n + 1..])
    ensures n + 1 + |value| <= |s| && AllBlank(s[n + 1..|s| - |value|]) && s[|s| - |value|..] == value && Flush(value)
  {
    var after := s[n + 1..];
    BlanksBefore(after);
    assert after[..|after| - |value|] == s[n + 1..|s| - |value|];
    assert s[|s| - |value|..] == after[|after| - |value|..];
  }

  lemma ReadsMapping(s: string, dots: bool, key: string, value: string)
    requires Reads(s, dots, key, value)
    ensures Mapping(s, dots) == Some((key, value))
  {
    var n := |key|;
    assert forall i :: 0 <= i < n ==> s[i] == key[i];
    KeyEndAt(s, n, dots);
    assert s[..n] == key;
    var after := s[n + 1..];
    var k := |after| - |value|;
    assert after[..k] == s[n + 1..|s| - |value|] && after[k..] == value;
    SkipsBlanks(after, k);
  }

  lemma MappingIff(s: string, dots: bool, key: string, value: string)
    ensures Mapping(s, dots) == Some((key, value)) <==> Reads(s, dots, key, value)
  {
    if Mapping(s, dots) == Some((key, value)) { MappingReads(s, dots, key, value); }
    if Reads(s, dots, key, value) { ReadsMapping(s, dots, key, value); }
  }

  /** Blank, or a comment after blanks. */
  ghost predicate BlankOrComment(s: string) {
    exists n :: 0 <= n <= |s| && AllBlank(s[..n]) && (n == |s| || s[n] == '#')
  }

  /** The four kinds of lines. */
  lemma ClassifyIff(text: string, key: string, value: string)
    ensures Classify(text) == Filler <==> BlankOrComment(text)
    ensures Classify(text) == Key(key, value) <==> Reads(text, false, key, value)
    ensures Classify(text) == Indented <==>
            !BlankOrComment(text) && text != "" && (text[0] == ' ' || text[0] == '\t')
  {
    BlanksBefore(text);
    MappingIff(text, false, key, value);
    var content := SkipBlanks(text);
    var n := |text| - |content|;
    if content == "" || content[0] == '#' { assert AllBlank(text[..n]); }
    if BlankOrComment(text) {
      var m :| 0 <= m <= |text| && AllBlank(text[..m]) && (m == |text| || text[m] == '#');
      SkipsBlanks(text, m);
    }
    if Reads(text, false, key, value) {
      assert NameChar(key[0], false) && text[0] == key[0];
      assert text[0..] == text;
      SkipsBlanks(text, 0);
    }
  }

  /** An entry below metadata: spaces only, then `key:`, where the key may hold dots. */
  lemma ChildIff(text: string, indent: nat, key: string, value: string)
    ensures ChildOf(text) == Some(Child(indent, key, value)) <==>
            indent <= |text| && (forall i :: 0 <= i < indent ==> text[i] == ' ') &&
            Reads(text[indent..], true, key, value)
  {
    SpacesMeans(text);
    var n := Spaces(text);
    MappingIff(text[n..], true, key, value);
    if indent <= |text| && (forall i :: 0 <= i < indent ==> text[i] == ' ') && Reads(text[indent..], true, key, value) {
      assert NameChar(key[0], true) && text[indent] == text[indent..][0] == key[0];
      assert n == indent;
      SkipsBlanks(text, indent);
    }
  }

  lemma {:induction false} SpacesMeans(s: string)
    ensures forall i :: 0 <= i < Spaces(s) ==> s[i] == ' '
    ensures Spaces(s) < |s| ==> s[Spaces(s)] != ' '
  {
    if s != "" && s[0] == ' ' {
      SpacesMeans(s[1..]);
      forall i | 0 <= i < Spaces(s) ensures s[i] == ' ' {
        if i > 0 { assert s[i] == s[1..][i - 1]; }
      }
    }
  }

  // ---------- Scalars ----------

  /** Every single quote twice. */
  function Doubled(t: string): (r: string) {
    if t == "" then "" else (if t[0] == '\'' then "''" else [t[0]]) + Doubled(t[1..])
  }

  lemma {:induction false} DoubledIsOk(t: string)
    ensures QuotesDoubled(Doubled(t))
  {
    if t == "" {
    } else {
      DoubledIsOk(t[1..]);
      var s, rest := Doubled(t), Doubled(t[1..]);
      if t[0] == '\'' { assert s[0] == '\'' && s[1] == '\'' && s[2..] == rest; } else { assert s[1..] == rest; }
    }
  }

  lemma Undoubled(s: string) returns (t: string)
    requires QuotesDoubled(s)
    ensures Doubled(t) == s
  {
    if s == "" {
      t := "";
    } else if s[0] == '\'' {
      var rest := Undoubled(s[2..]);
      t := "'" + rest;
      assert t[1..] == rest && s == "''" + s[2..];
    } else {
      var rest := Undoubled(s[1..]);
      t := [s[0]] + rest;
      assert t[1..] == rest && s == [s[0]] + s[1..];
    }
  }

  /** Blanks around a value do not matter, and a value of blanks alone is refused. */
  lemma ScalarIsTrimmed(isJsonString: string -> bool, value: string, from: nat, to: nat)
    requires from < to <= |value| && Trimmed(value[from..to]) && AllBlank(value[..from]) && AllBlank(value[to..])
    ensures InlineScalar(isJsonString, value) <==> InlineScalar(isJsonString, value[from..to])
  {
    var s := value[from..to];
    assert Flush(value[from..]) by { assert value[from..][0] == s[0]; }
    SkipsBlanks(value, from);
    var rest := value[from..];
    assert rest[..to - from] == s && rest[to - from..] == value[to..];
    assert rest[to - from - 1] == s[|s| - 1];
    StripsEnd(rest, to - from);
    assert s[0..] == s && s[..|s|] == s && s[|s|..] == "";
    SkipsBlanks(s, 0);
    StripsEnd(s, |s|);
  }

  lemma BlankIsNoScalar(isJsonString: string -> bool, value: string)
    requires AllBlank(value)
    ensures !InlineScalar(isJsonString, value)
  {
    assert value[..|value|] == value && value[|value|..] == "";
    SkipsBlanks(value, |value|);
  }

  lemma {:induction false} TrimmedStays(s: string)
    requires Trimmed(s)
    ensures StripEnd(SkipBlanks(s)) == s
  {
    assert s[0..] == s && s[..|s|] == s && s[|s|..] == "";
    SkipsBlanks(s, 0);
    StripsEnd(s, |s|);
  }

  lemma DoubleQuotedIff(isJsonString: string -> bool, s: string)
    requires Trimmed(s) && s[0] == '"'
    ensures InlineScalar(isJsonString, s) <==> isJsonString(s)
  {
    TrimmedStays(s);
  }

  /** A single-quoted value is some text with its quotes doubled, between quotes. */
  lemma SingleQuotedIff(isJsonString: string -> bool, s: string)
    requires Trimmed(s) && s[0] == '\''
    ensures InlineScalar(isJsonString, s) <==> exists t :: s == "'" + Doubled(t) + "'"
  {
    TrimmedStays(s);
    if InlineScalar(isJsonString, s) {
      var t := Undoubled(s[1..|s| - 1]);
      assert s == "'" + Doubled(t) + "'";
    }
    if t :| s == "'" + Doubled(t) + "'" {
      DoubledIsOk(t);
      assert s[1..|s| - 1] == Doubled(t);
    }
  }

  /** The comment of a value starts at k, or there is none and k is its length. */
  ghost predicate CommentAt(s: string, k: int) {
    0 <= k <= |s| && (k < |s| ==> StartsComment(s, k)) && forall i :: 0 <= i < k ==> !StartsComment(s, i)
  }

  predicate StartsComment(s: string, i: int)
    requires 0 <= i < |s|
  {
    s[i] == '#' && (i == 0 || s[i - 1] == ' ' || s[i - 1] == '\t')
  }

  lemma {:induction false} CommentStripped(s: string, from: nat, k: nat)
    requires from <= k && CommentAt(s, k)
    ensures StripComment(s, from) == StripEnd(s[..k])
    decreases k - from
  {
    if from == |s| {
      assert s[..k] == s;
    } else if from < k {
      assert !StartsComment(s, from);
      CommentStripped(s, from + 1, k);
    } else {
      assert StartsComment(s, k);
    }
  }

  /** A colon and a space with more text after them, before k. */
  ghost predicate Ambiguous(s: string, k: int)
    requires 0 <= k <= |s|
  {
    exists i, j :: 0 <= i && i + 1 < j < k && s[i] == ':' && s[i + 1] == ' ' && s[j] != ' ' && s[j] != '\t'
  }

  /** An unquoted value starts with none of YAML's indicators and has no `: ` before its comment. */
  lemma PlainIff(isJsonString: string -> bool, s: string, k: nat)
    requires Trimmed(s) && s[0] != '"' && s[0] != '\'' && CommentAt(s, k)
    ensures InlineScalar(isJsonString, s) <==>
            s[0] !in {'[', '{', '|', '>', '&', '*', '!', '@', '`', '#'} && !Ambiguous(s, k)
  {
    TrimmedStays(s);
    CommentStripped(s, 0, k);
    var plain := StripEnd(s[..k]);
    BlanksAfter(s[..k]);
    if s[0] == '#' {
      assert k == 0;
    } else {
      assert k > 0 && plain != "";
      PlainAmbiguous(s, k, plain);
    }
  }

  lemma PlainAmbiguous(s: string, k: nat, plain: string)
    requires k <= |s| && plain <= s[..k] && plain != "" && AllBlank(s[..k][|plain|..])
    requires plain[|plain| - 1] != ' ' && plain[|plain| - 1] != '\t'
    ensures Ambiguous(s, k) <==> exists i :: 0 <= i < |plain| - 1 && plain[i] == ':' && plain[i + 1] == ' '
  {
    assert forall i :: 0 <= i < |plain| ==> plain[i] == s[i];
    forall i | |plain| <= i < k ensures s[i] == ' ' || s[i] == '\t' {
      assert s[..k][|plain|..][i - |plain|] == s[i];
    }
    if i :| 0 <= i < |plain| - 1 && plain[i] == ':' && plain[i + 1] == ' ' {
      var j := |plain| - 1;
      assert i + 1 < j && s[j] == plain[j];
    }
    if i, j :| 0 <= i && i + 1 < j < k && s[i] == ':' && s[i + 1] == ' ' && s[j] != ' ' && s[j] != '\t' {
      assert j < |plain|;
      assert plain[i] == ':' && plain[i + 1] == ' ';
    }
  }

  // ---------- Line endings ----------

  ghost predicate AllEnd(lines: seq<Line>, eol: string) {
    forall i :: 0 <= i < |lines| ==> lines[i].eol == eol
  }

  lemma {:induction false} DropEnds(lines: seq<Line>, wanted: set<string>, eol: string)
    requires AllEnd(lines, eol)
    ensures AllEnd(Drop(lines, wanted), eol)
  {
    if lines == [] {
    } else {
      DropEnds(lines[1..], wanted, eol);
    }
  }

  lemma TransformedEnds(lines: seq<Line>, wanted: set<string>, eol: string)
    requires AllEnd(lines, eol)
    ensures AllEnd(Transformed(lines, wanted, eol), eol)
  {
    var m, f := FirstOf(lines, {METADATA}), FirstOf(lines, wanted);
    if m < |lines| {
      DropEnds(lines[..m + 1], wanted, eol);
      DropEnds(lines[m + 1..], wanted, eol);
    }
    DropEnds(lines[f..], wanted, eol);
  }

  /** A document whose lines all end in LF, or all in CRLF, is exported as one. */
  lemma ExportKeepsLineEnds(doc: seq<Line>, profile: Profile, eol: string)
    requires Split(doc).Some? && AllEnd(doc, eol) && (eol == "\n" || eol == "\r\n")
    ensures AllEnd(Exported(doc, profile), eol)
  {
    var d := Split(doc).value;
    assert doc[0].eol == eol && d.newline == eol;
    TransformedEnds(d.front, profile.toMetadata, eol);
  }
}
