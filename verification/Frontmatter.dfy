/**
 Frontmatter of a skill for a strict harness (scripts/install.py, `_top_level_keys` to
 `transform_frontmatter_for_profile`): what the lines mean and which frontmatters are export-safe.
 White space within a line is space or tab.
 */
module Frontmatter {
  import opened Outcomes

  /** A physical line without and with its line ending. */
  datatype Line = Line(text: string, eol: string)

  /** What a line is: blank or comment, a top-level key, an indented line, or none of these. */
  datatype Kind = Filler | Key(key: string, value: string) | Indented | Unsupported

  /** A line of a flat mapping below `metadata:`. */
  datatype Child = Child(indent: nat, key: string, value: string)

  const METADATA := "metadata"

  // ---------- Characters and lines ----------

  predicate IsBlank(c: char) { c == ' ' || c == '\t' }

  predicate IsKeyChar(c: char, dots: bool) {
    'A' <= c <= 'Z' || 'a' <= c <= 'z' || '0' <= c <= '9' || c == '_' || c == '-' || (dots && c == '.')
  }

  function SkipBlanks(s: string): (r: string)
    ensures |r| <= |s| && (r != "" ==> !IsBlank(r[0]))
  {
    if s != "" && IsBlank(s[0]) then SkipBlanks(s[1..]) else s
  }

  /** The number of leading spaces. */
  function Spaces(s: string): (r: nat)
    ensures r <= |s|
  {
    if s != "" && s[0] == ' ' then 1 + Spaces(s[1..]) else 0
  }

  /** The number of leading key characters. */
  function KeyEnd(s: string, dots: bool): (r: nat)
    ensures r <= |s|
  {
    if s != "" && IsKeyChar(s[0], dots) then 1 + KeyEnd(s[1..], dots) else 0
  }

  /** `key: value`, the value without leading blanks. */
  function Mapping(s: string, dots: bool): (r: Option<(string, string)>) {
    var n := KeyEnd(s, dots);
    if 0 < n < |s| && s[n] == ':' then Some((s[..n], SkipBlanks(s[n + 1..]))) else None
  }

  function Classify(text: string): (r: Kind) {
    var content := SkipBlanks(text);
    if content == "" || content[0] == '#' then Filler
    else if IsBlank(text[0]) then Indented
    else match Mapping(text, false)
      case Some((key, value)) => Key(key, value)
      case None => Unsupported
  }

  function ChildOf(text: string): (r: Option<Child>) {
    var n := Spaces(text);
    if |SkipBlanks(text)| < |text| - n then None
    else match Mapping(text[n..], true)
      case Some((key, value)) => Some(Child(n, key, value))
      case None => None
  }

  // ---------- Scalars ----------

  function StripEnd(s: string): (r: string) {
    if s != "" && IsBlank(s[|s| - 1]) then StripEnd(s[..|s| - 1]) else s
  }

  /** Up to a `#` that starts the value or follows a blank. */
  function StripComment(s: string, from: nat): (r: string)
    requires from <= |s|
    decreases |s| - from
  {
    if from == |s| then StripEnd(s)
    else if s[from] == '#' && (from == 0 || IsBlank(s[from - 1])) then StripEnd(s[..from])
    else StripComment(s, from + 1)
  }

  predicate QuotesDoubled(s: string) {
    if s == "" then true
    else if s[0] != '\'' then QuotesDoubled(s[1..])
    else |s| >= 2 && s[1] == '\'' && QuotesDoubled(s[2..])
  }

  /** `_validate_inline_yaml_scalar`; `isJsonString` decides the double-quoted form. */
  predicate InlineScalar(isJsonString: string -> bool, value: string) {
    var s := StripEnd(SkipBlanks(value));
    if s == "" then false
    else if s[0] == '"' then isJsonString(s)
    else if s[0] == '\'' then |s| >= 2 && s[|s| - 1] == '\'' && QuotesDoubled(s[1..|s| - 1])
    else
      s[0] !in "[{|>&*!@`" &&
      var plain := StripComment(s, 0);
      plain != "" && forall i :: 0 <= i < |plain| - 1 ==> !(plain[i] == ':' && plain[i + 1] == ' ')
  }

  // ---------- Frontmatters ----------

  /** Top-level keys and values, in order. */
  function Keys(lines: seq<Line>): (r: seq<(string, string)>) {
    if lines == [] then []
    else
      var rest := Keys(lines[1..]);
      match Classify(lines[0].text)
      case Key(key, value) => [(key, value)] + rest
      case _ => rest
  }

  /** The key in force after these lines. */
  function OwnerAfter(lines: seq<Line>, owner: Option<string>): (r: Option<string>) {
    if lines == [] then owner
    else
      match Classify(lines[0].text)
      case Key(key, _) => OwnerAfter(lines[1..], Some(key))
      case _ => OwnerAfter(lines[1..], owner)
  }

  /** The indented lines of the metadata block. */
  function Kids(lines: seq<Line>, owner: Option<string>): (r: seq<string>) {
    if lines == [] then []
    else
      match Classify(lines[0].text)
      case Key(key, _) => Kids(lines[1..], Some(key))
      case Indented => (if owner == Some(METADATA) then [lines[0].text] else []) + Kids(lines[1..], owner)
      case _ => Kids(lines[1..], owner)
  }

  /** Line by line: supported, inline values, an empty metadata value, and no block below any other key. */
  predicate Fits(inline: string -> bool, lines: seq<Line>, owner: Option<string>) {
    lines == [] ||
    match Classify(lines[0].text)
    case Key(key, value) =>
      (if key == METADATA then SkipBlanks(value) == "" else inline(value)) && Fits(inline, lines[1..], Some(key))
    case Indented => (owner == None || owner == Some(METADATA)) && Fits(inline, lines[1..], owner)
    case Filler => Fits(inline, lines[1..], owner)
    case Unsupported => false
  }

  predicate DistinctKeys(keys: seq<(string, string)>) {
    forall i, j :: 0 <= i < j < |keys| ==> keys[i].0 != keys[j].0
  }

  predicate KidOk(inline: string -> bool, reserved: set<string>, indent: nat, text: string) {
    match ChildOf(text)
    case None => false
    case Some(child) => child.indent == indent && inline(child.value) && child.key !in reserved
  }

  predicate SameChildKey(a: string, b: string) {
    ChildOf(a).Some? && ChildOf(b).Some? && ChildOf(a).value.key == ChildOf(b).value.key
  }

  /** The indentation of the block, two when it is empty. */
  function Indent(kids: seq<string>): (r: nat) {
    if kids == [] then 2 else Spaces(kids[0])
  }

  predicate KidsOk(inline: string -> bool, reserved: set<string>, kids: seq<string>) {
    (forall i :: 0 <= i < |kids| ==> KidOk(inline, reserved, Indent(kids), kids[i])) &&
    forall i, j :: 0 <= i < j < |kids| ==> !SameChildKey(kids[i], kids[j])
  }

  /** The shape `_validate_profile_frontmatter_shape` accepts, once the keys are known to be distinct. */
  predicate ExportSafe(inline: string -> bool, reserved: set<string>, lines: seq<Line>) {
    Fits(inline, lines, None) && DistinctKeys(Keys(lines)) && KidsOk(inline, reserved, Kids(lines, None))
  }

  // ---------- Concatenation ----------

  lemma {:induction false} KeysConcat(a: seq<Line>, b: seq<Line>)
    ensures Keys(a + b) == Keys(a) + Keys(b)
  {
    if a == [] {
      assert a + b == b;
    } else {
      assert (a + b)[1..] == a[1..] + b;
      KeysConcat(a[1..], b);
    }
  }

  lemma {:induction false} OwnerConcat(a: seq<Line>, b: seq<Line>, owner: Option<string>)
    ensures OwnerAfter(a + b, owner) == OwnerAfter(b, OwnerAfter(a, owner))
  {
    if a == [] {
      assert a + b == b;
    } else {
      assert (a + b)[1..] == a[1..] + b;
      match Classify(a[0].text)
      case Key(key, _) => OwnerConcat(a[1..], b, Some(key));
      case _ => OwnerConcat(a[1..], b, owner);
    }
  }

  lemma {:induction false} KidsConcat(a: seq<Line>, b: seq<Line>, owner: Option<string>)
    ensures Kids(a + b, owner) == Kids(a, owner) + Kids(b, OwnerAfter(a, owner))
  {
    if a == [] {
      assert a + b == b;
    } else {
      assert (a + b)[1..] == a[1..] + b;
      match Classify(a[0].text)
      case Key(key, _) => KidsConcat(a[1..], b, Some(key));
      case _ => KidsConcat(a[1..], b, owner);
    }
  }

  lemma {:induction false} FitsConcat(inline: string -> bool, a: seq<Line>, b: seq<Line>, owner: Option<string>)
    ensures Fits(inline, a + b, owner) <==> Fits(inline, a, owner) && Fits(inline, b, OwnerAfter(a, owner))
  {
    if a == [] {
      assert a + b == b;
    } else {
      assert (a + b)[1..] == a[1..] + b;
      match Classify(a[0].text)
      case Key(key, _) => FitsConcat(inline, a[1..], b, Some(key));
      case _ => FitsConcat(inline, a[1..], b, owner);
    }
  }
}
