/**
 The mapping-only YAML reader (scripts/validate_skills.py, `parse_simple_yaml`), at the level of
 lines: what a line list means as a nested mapping, and which line lists mean one. Scalars are taken
 as parsed.
 */
module SimpleYaml {
  import opened Outcomes
  import opened Sequences

  /** A content line; without a value it opens a mapping. */
  datatype Entry<V> = Entry(indent: nat, key: string, value: Option<V>)

  datatype Value<V> = Scalar(scalar: V) | Mapping(entries: seq<Pair<V>>)
  datatype Pair<V> = Pair(key: string, value: Value<V>)

  // ---------- Trees and lines ----------

  /** The lines of a mapping, in preorder. */
  function Flatten<V>(entries: seq<Pair<V>>, indent: nat): (r: seq<Entry<V>>)
    decreases entries, 0
  {
    if entries == [] then []
    else Flatten(entries[..|entries| - 1], indent) + Lines(entries[|entries| - 1], indent)
  }

  function Lines<V>(pair: Pair<V>, indent: nat): (r: seq<Entry<V>>)
    ensures r != [] && r[0].indent == indent && r[0].key == pair.key
    decreases pair, 1
  {
    match pair.value
    case Scalar(v) => [Entry(indent, pair.key, Some(v))]
    case Mapping(entries) => [Entry(indent, pair.key, None)] + Flatten(entries, indent + 2)
  }

  ghost predicate DistinctPairs<V>(entries: seq<Pair<V>>) {
    forall i, j :: 0 <= i < j < |entries| ==> entries[i].key != entries[j].key
  }

  /** Keys are distinct in the mapping and in every mapping below it. */
  ghost predicate DistinctTree<V>(entries: seq<Pair<V>>)
    decreases entries
  {
    DistinctPairs(entries) &&
    forall i :: 0 <= i < |entries| && entries[i].value.Mapping? ==> DistinctTree(entries[i].value.entries)
  }

  // ---------- Accepted line lists ----------

  /** A key at this indentation is in the block still open after these lines. */
  ghost predicate Taken<V>(lines: seq<Entry<V>>, indent: nat, key: string) {
    exists i :: 0 <= i < |lines| && lines[i].indent == indent && lines[i].key == key && OpenFrom(lines, i)
  }

  /** No later line is less indented than line i. */
  ghost predicate OpenFrom<V>(lines: seq<Entry<V>>, i: nat)
    requires i < |lines|
  {
    forall m :: i <= m < |lines| ==> lines[i].indent <= lines[m].indent
  }

  /** The line may follow: it opens a block below a line without value, or continues an open one. */
  ghost predicate MayFollow<V>(lines: seq<Entry<V>>, e: Entry<V>) {
    e.indent % 2 == 0 &&
    (if lines == [] then e.indent == 0
     else
       var last := lines[|lines| - 1];
       e.indent <= last.indent || (e.indent == last.indent + 2 && last.value.None?)) &&
    !Taken(lines, e.indent, e.key)
  }

  ghost predicate WellFormed<V>(lines: seq<Entry<V>>) {
    lines == [] || (WellFormed(lines[..|lines| - 1]) && MayFollow(lines[..|lines| - 1], lines[|lines| - 1]))
  }

  lemma {:induction false} WellFormedPrefix<V>(lines: seq<Entry<V>>, n: nat)
    requires WellFormed(lines) && n <= |lines|
    ensures WellFormed(lines[..n])
    decreases |lines|
  {
    if n == |lines| {
      assert lines[..n] == lines;
    } else {
      WellFormedPrefix(lines[..|lines| - 1], n);
      assert lines[..|lines| - 1][..n] == lines[..n];
    }
  }

  lemma {:induction false} WellFormedSnoc<V>(lines: seq<Entry<V>>, e: Entry<V>)
    ensures WellFormed(lines + [e]) <==> WellFormed(lines) && MayFollow(lines, e)
  {
    assert (lines + [e])[..|lines|] == lines;
  }

  // ---------- Printing is accepted ----------

  ghost predicate AtLeast<V>(lines: seq<Entry<V>>, indent: nat) {
    forall i :: 0 <= i < |lines| ==> indent <= lines[i].indent
  }

  lemma AtLeastConcat<V>(a: seq<Entry<V>>, b: seq<Entry<V>>, indent: nat)
    requires AtLeast(a, indent) && AtLeast(b, indent)
    ensures AtLeast(a + b, indent)
  {
  }

  lemma {:induction false} FlattenIndents<V>(entries: seq<Pair<V>>, indent: nat)
    ensures AtLeast(Flatten(entries, indent), indent)
    decreases entries, 0
  {
    if entries == [] {
    } else {
      FlattenIndents(entries[..|entries| - 1], indent);
      LinesIndents(entries[|entries| - 1], indent);
      AtLeastConcat(Flatten(entries[..|entries| - 1], indent), Lines(entries[|entries| - 1], indent), indent);
    }
  }

  lemma {:induction false} LinesIndents<V>(pair: Pair<V>, indent: nat)
    ensures AtLeast(Lines(pair, indent)[1..], indent + 1) && AtLeast(Lines(pair, indent), indent)
    decreases pair, 1
  {
    match pair.value
    case Scalar(_) =>
    case Mapping(entries) =>
      FlattenIndents(entries, indent + 2);
      assert Lines(pair, indent)[1..] == Flatten(entries, indent + 2);
      assert Lines(pair, indent) == Lines(pair, indent)[..1] + Lines(pair, indent)[1..];
  }

  ghost predicate HasLine<V>(lines: seq<Entry<V>>, indent: nat, key: string) {
    exists i :: 0 <= i < |lines| && lines[i].indent == indent && lines[i].key == key
  }

  ghost predicate HasPair<V>(entries: seq<Pair<V>>, key: string) {
    exists k :: 0 <= k < |entries| && entries[k].key == key
  }

  lemma HasLineConcat<V>(a: seq<Entry<V>>, b: seq<Entry<V>>, indent: nat, key: string)
    ensures HasLine(a + b, indent, key) <==> HasLine(a, indent, key) || HasLine(b, indent, key)
  {
    var all := a + b;
    if HasLine(a, indent, key) {
      var i :| 0 <= i < |a| && a[i].indent == indent && a[i].key == key;
      assert all[i] == a[i];
    }
    if HasLine(b, indent, key) {
      var i :| 0 <= i < |b| && b[i].indent == indent && b[i].key == key;
      assert all[|a| + i] == b[i];
    }
    if HasLine(all, indent, key) {
      var i :| 0 <= i < |all| && all[i].indent == indent && all[i].key == key;
      assert if i < |a| then all[i] == a[i] else all[i] == b[i - |a|];
    }
  }

  lemma HasPairSnoc<V>(entries: seq<Pair<V>>, key: string)
    requires entries != []
    ensures HasPair(entries, key) <==> HasPair(entries[..|entries| - 1], key) || entries[|entries| - 1].key == key
  {
    var front := entries[..|entries| - 1];
    if HasPair(front, key) {
      var k :| 0 <= k < |front| && front[k].key == key;
      assert entries[k].key == key;
    }
  }

  lemma {:induction false} LinesHave<V>(pair: Pair<V>, indent: nat, key: string)
    ensures HasLine(Lines(pair, indent), indent, key) <==> pair.key == key
  {
    LinesIndents(pair, indent);
    var lines := Lines(pair, indent);
    assert forall i :: 0 < i < |lines| ==> lines[i] == lines[1..][i - 1];
    assert lines[0].indent == indent;
  }

  /** The keys on the mapping's own level are the lines at its own indentation. */
  lemma {:induction false} FlattenKeys<V>(entries: seq<Pair<V>>, indent: nat, key: string)
    ensures HasLine(Flatten(entries, indent), indent, key) <==> HasPair(entries, key)
    decreases |entries|
  {
    if entries == [] {
    } else {
      var front, last := entries[..|entries| - 1], entries[|entries| - 1];
      FlattenKeys(front, indent, key);
      HasPairSnoc(entries, key);
      HasLineConcat(Flatten(front, indent), Lines(last, indent), indent, key);
      LinesHave(last, indent, key);
    }
  }

  /** Lines below which a block at `indent` may start. */
  ghost predicate Below<V>(lines: seq<Entry<V>>, indent: nat) {
    indent % 2 == 0 &&
    if lines == [] then indent == 0
    else lines[|lines| - 1].indent + 2 == indent && lines[|lines| - 1].value.None?
  }

  lemma NotOpenAcross<V>(lines: seq<Entry<V>>, block: seq<Entry<V>>, indent: nat, i: nat)
    requires Below(lines, indent) && i < |lines| && lines[i].indent == indent
    ensures !OpenFrom(lines + block, i)
  {
    assert (lines + block)[|lines| - 1] == lines[|lines| - 1];
  }

  /** Nothing at `indent` before the block counts as open. */
  lemma TakenInBlock<V>(lines: seq<Entry<V>>, block: seq<Entry<V>>, indent: nat, key: string)
    requires Below(lines, indent) && Taken(lines + block, indent, key)
    ensures HasLine(block, indent, key)
  {
    var all := lines + block;
    forall i | 0 <= i < |lines| && lines[i].indent == indent ensures !OpenFrom(all, i) {
      NotOpenAcross(lines, block, indent, i);
    }
    var i :| 0 <= i < |all| && all[i].indent == indent && all[i].key == key && OpenFrom(all, i);
    assert block[i - |lines|] == all[i];
  }

  lemma {:induction false} FlattenMayFollow<V>(lines: seq<Entry<V>>, entries: seq<Pair<V>>, indent: nat)
    requires Below(lines, indent) && entries != [] && DistinctPairs(entries)
    ensures var last := entries[|entries| - 1];
            MayFollow(lines + Flatten(entries[..|entries| - 1], indent), Lines(last, indent)[0])
  {
    var front, last := entries[..|entries| - 1], entries[|entries| - 1];
    var block := Flatten(front, indent);
    FlattenIndents(front, indent);
    if Taken(lines + block, indent, last.key) {
      TakenInBlock(lines, block, indent, last.key);
      FlattenKeys(front, indent, last.key);
    }
    if block == [] { assert lines + block == lines; }
  }

  /** The first line of the last entry is accepted after the entries before it. */
  lemma {:induction false} FirstLineAccepted<V>(lines: seq<Entry<V>>, entries: seq<Pair<V>>, indent: nat)
    requires Below(lines, indent) && entries != [] && DistinctPairs(entries)
    requires WellFormed(lines + Flatten(entries[..|entries| - 1], indent))
    ensures WellFormed(lines + Flatten(entries[..|entries| - 1], indent) + [Lines(entries[|entries| - 1], indent)[0]])
  {
    FlattenMayFollow(lines, entries, indent);
    WellFormedSnoc(lines + Flatten(entries[..|entries| - 1], indent), Lines(entries[|entries| - 1], indent)[0]);
  }

  lemma AppendParts<T>(a: seq<T>, b: seq<T>, x: T, c: seq<T>)
    ensures a + (b + ([x] + c)) == a + b + [x] + c
  {
  }

  lemma FlattenByParts<V>(lines: seq<Entry<V>>, entries: seq<Pair<V>>, indent: nat)
    returns (before: seq<Entry<V>>)
    requires entries != [] && indent % 2 == 0
    ensures before == lines + Flatten(entries[..|entries| - 1], indent) + [Lines(entries[|entries| - 1], indent)[0]]
    ensures var last := entries[|entries| - 1];
            if last.value.Mapping?
            then lines + Flatten(entries, indent) == before + Flatten(last.value.entries, indent + 2) &&
                 Below(before, indent + 2)
            else lines + Flatten(entries, indent) == before
  {
    var front, last := Flatten(entries[..|entries| - 1], indent), entries[|entries| - 1];
    var first := Lines(last, indent)[0];
    var below := if last.value.Mapping? then Flatten(last.value.entries, indent + 2) else [];
    assert Lines(last, indent) == [first] + below;
    AppendParts(lines, front, first, below);
    before := lines + front + [first];
  }

  lemma DistinctParts<V>(entries: seq<Pair<V>>)
    requires entries != [] && DistinctTree(entries)
    ensures DistinctPairs(entries) && DistinctTree(entries[..|entries| - 1])
    ensures var last := entries[|entries| - 1]; last.value.Mapping? ==> DistinctTree(last.value.entries)
  {
  }

  /** The lines of any mapping with distinct keys are accepted. */
  lemma {:induction false} FlattenIsWellFormed<V>(lines: seq<Entry<V>>, entries: seq<Pair<V>>, indent: nat)
    requires WellFormed(lines) && Below(lines, indent) && DistinctTree(entries)
    ensures WellFormed(lines + Flatten(entries, indent))
    decreases entries
  {
    if entries == [] {
      assert lines + Flatten(entries, indent) == lines;
    } else {
      DistinctParts(entries);
      FlattenIsWellFormed(lines, entries[..|entries| - 1], indent);
      FirstLineAccepted(lines, entries, indent);
      var before := FlattenByParts(lines, entries, indent);
      var last := entries[|entries| - 1];
      if last.value.Mapping? {
        FlattenIsWellFormed(before, last.value.entries, indent + 2);
      }
    }
  }

  // ---------- Printing loses nothing ----------

  lemma {:induction false} FlattenNonempty<V>(entries: seq<Pair<V>>, indent: nat)
    ensures Flatten(entries, indent) == [] <==> entries == []
  {
  }

  /** Where the last entry's lines begin. */
  lemma {:induction false} LastStart<V>(entries: seq<Pair<V>>, indent: nat)
    requires entries != []
    ensures var start := |Flatten(entries[..|entries| - 1], indent)|;
            var all := Flatten(entries, indent);
            start < |all| && all[start].indent == indent && forall i :: start < i < |all| ==> indent < all[i].indent
  {
    var front, lines := Flatten(entries[..|entries| - 1], indent), Lines(entries[|entries| - 1], indent);
    LinesIndents(entries[|entries| - 1], indent);
    var all: seq<Entry<V>> := front + lines;
    forall i | |front| < i < |all| ensures indent < all[i].indent {
      assert all[i] == lines[1..][i - |front| - 1];
    }
  }

  /** Two mappings with the same lines are the same. */
  lemma {:induction false} FlattenIsInjective<V>(a: seq<Pair<V>>, b: seq<Pair<V>>, indent: nat)
    requires Flatten(a, indent) == Flatten(b, indent)
    ensures a == b
    decreases a
  {
    FlattenNonempty(a, indent);
    FlattenNonempty(b, indent);
    if a == [] {
    } else {
      var fa, la, fb, lb := a[..|a| - 1], a[|a| - 1], b[..|b| - 1], b[|b| - 1];
      LastStart(a, indent);
      LastStart(b, indent);
      var all := Flatten(a, indent);
      assert |Flatten(fa, indent)| == |Flatten(fb, indent)|;
      SplitBack(Flatten(fa, indent), Lines(la, indent));
      SplitBack(Flatten(fb, indent), Lines(lb, indent));
      FlattenIsInjective(fa, fb, indent);
      LinesAreInjective(la, lb, indent);
      assert a == fa + [la] && b == fb + [lb];
    }
  }

  lemma {:induction false} LinesAreInjective<V>(a: Pair<V>, b: Pair<V>, indent: nat)
    requires Lines(a, indent) == Lines(b, indent)
    ensures a == b
    decreases a
  {
    assert Lines(a, indent)[0] == Lines(b, indent)[0];
    if a.value.Mapping? {
      assert Lines(a, indent)[1..] == Flatten(a.value.entries, indent + 2);
      assert Lines(b, indent)[1..] == Flatten(b.value.entries, indent + 2);
      FlattenIsInjective(a.value.entries, b.value.entries, indent + 2);
    }
  }
}
