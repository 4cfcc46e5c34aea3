/** `parse_simple_yaml` itself (scripts/validate_skills.py): the loop over lines with its table of open mappings. */
module SimpleYamlParser {
  import opened Outcomes
  import opened SimpleYaml
  import opened SimpleYamlStore

  /** A physical line: blank or comment, a content line, or one refused on its own. */
  datatype Raw<V> = Blank | Content(entry: Entry<V>) | Refused

  datatype YamlError =
    | LineRefused | OddIndent | IndentedTop | IndentJump | BlockBelowScalar | DedentMismatch | DuplicateKey

  function Contents<V>(raws: seq<Raw<V>>): (r: seq<Entry<V>>) {
    if raws == [] then []
    else
      Contents(raws[..|raws| - 1]) +
      (if raws[|raws| - 1].Content? then [raws[|raws| - 1].entry] else [])
  }

  lemma {:induction false} ContentsPrefix<V>(raws: seq<Raw<V>>, n: nat)
    requires n <= |raws|
    ensures Contents(raws[..n]) <= Contents(raws)
    decreases |raws|
  {
    if n == |raws| {
      assert raws[..n] == raws;
    } else {
      ContentsPrefix(raws[..|raws| - 1], n);
      assert raws[..|raws| - 1][..n] == raws[..n];
    }
  }

  /** The parser's variables, with the open dictionaries they stand for. */
  datatype Machine<V> = Machine(
    store: Store<V>, mappings: map<nat, nat>, previousIndent: Option<nat>, previousChild: Option<nat>)

  /** Exactly the levels 0, 2, ..., `top` are open, and they are the first ones of the spine. */
  ghost predicate OpenLevels(mappings: map<nat, nat>, ids: seq<nat>, top: nat) {
    (forall k: nat :: k in mappings <==> k <= top && k % 2 == 0) &&
    forall k: nat :: k in mappings ==> k / 2 < |ids| && mappings[k] == ids[k / 2]
  }

  ghost predicate Running<V>(m: Machine<V>, ids: seq<nat>, lines: seq<Entry<V>>) {
    Spine(m.store, ids) && DistinctStore(m.store) && Whole(m.store, 0, 0) == lines && WellFormed(lines) &&
    match m.previousIndent
    case None => lines == [] && |ids| == 1 && m.previousChild == None && OpenLevels(m.mappings, ids, 0)
    case Some(p) =>
      lines != [] && lines[|lines| - 1].indent == p && p % 2 == 0 &&
      (lines[|lines| - 1].value.None? <==> m.previousChild.Some?) &&
      |ids| == p / 2 + 1 + (if m.previousChild.Some? then 1 else 0) &&
      (m.previousChild.Some? ==> m.previousChild.value == ids[p / 2 + 1]) &&
      OpenLevels(m.mappings, ids, p)
  }

  /** The levels left open for a line at this indentation. */
  function Reopened(mappings: map<nat, nat>, indent: nat): (r: map<nat, nat>) {
    map k | k in mappings && k <= indent :: mappings[k]
  }

  method CloseDeeper(mappings: map<nat, nat>, indent: nat) returns (r: map<nat, nat>)
    ensures r == Reopened(mappings, indent)
  {
    r := mappings;
    var active := mappings.Keys;
    while active != {}
      invariant active <= mappings.Keys
      invariant forall k :: k in r <==> k in mappings && (k <= indent || k in active)
      invariant forall k :: k in r ==> r[k] == mappings[k]
      decreases |active|
    {
      var k :| k in active;
      if k > indent { r := r - {k}; }
      active := active - {k};
    }
  }

  /** The machine after a line that may follow. */
  function Next<V>(m: Machine<V>, mappings: map<nat, nat>, e: Entry<V>): (r: Machine<V>)
    requires e.indent in mappings && mappings[e.indent] < |m.store|
  {
    Machine(Extended(m.store, mappings[e.indent], e.key, e.value), mappings, Some(e.indent),
            if e.value.None? then Some(|m.store|) else None)
  }

  lemma DistinctExtended<V>(store: Store<V>, p: nat, key: string, value: Option<V>)
    requires DistinctStore(store) && p < |store| && !HasItem(store[p], key)
    ensures DistinctStore(Extended(store, p, key, value))
  {
    var after := Extended(store, p, key, value);
    forall id | 0 <= id < |after| ensures DistinctDict(after[id]) {
      if id < |store| { assert DistinctDict(store[id]); }
    }
  }

  lemma LevelsKept(mappings: map<nat, nat>, ids: seq<nat>, short: seq<nat>, after: seq<nat>, top: nat)
    requires top % 2 == 0 && top / 2 < |ids| && OpenLevels(mappings, ids, top)
    requires short == ids[..top / 2 + 1] && short <= after
    ensures OpenLevels(mappings, after, top)
  {
  }

  /** The open level count and the new child after the line. */
  lemma NextOpen<V>(m: Machine<V>, mappings: map<nat, nat>, short: seq<nat>, d: nat, e: Entry<V>)
    requires e.indent == 2 * d && |short| == d + 1
    requires e.indent in mappings && mappings[e.indent] < |m.store|
    ensures var next, after := Next(m, mappings, e), SpineAfter(m.store, short, e.value);
            next.previousIndent == Some(e.indent) && (e.value.None? <==> next.previousChild.Some?) &&
            |after| == e.indent / 2 + 1 + (if next.previousChild.Some? then 1 else 0) &&
            (next.previousChild.Some? ==> next.previousChild.value == after[e.indent / 2 + 1])
  {
  }

  /** The store after the line. */
  lemma NextStore<V>(store: Store<V>, ids: seq<nat>, short: seq<nat>, d: nat, lines: seq<Entry<V>>, e: Entry<V>)
    requires Spine(store, ids) && DistinctStore(store) && Whole(store, 0, 0) == lines
    requires d < |ids| && short == ids[..d + 1] && e.indent == 2 * d && !HasItem(store[ids[d]], e.key)
    ensures ids[d] < |store|
    ensures var next := Extended(store, ids[d], e.key, e.value);
            Spine(next, SpineAfter(store, short, e.value)) && DistinctStore(next) && Whole(next, 0, 0) == lines + [e]
  {
    SpinePrefix(store, ids, d);
    ExtendedSpine(store, short, e.key, e.value);
    ExtendedWhole(store, short, e.key, e.value, 0);
    DistinctExtended(store, ids[d], e.key, e.value);
  }

  /** One accepted line: the open levels are again 0, 2, ..., its own indentation. */
  lemma Follows<V>(
      m: Machine<V>, ids: seq<nat>, lines: seq<Entry<V>>, mappings: map<nat, nat>, e: Entry<V>)
    returns (after: seq<nat>)
    requires Spine(m.store, ids) && DistinctStore(m.store) && Whole(m.store, 0, 0) == lines && WellFormed(lines)
    requires e.indent % 2 == 0 && e.indent / 2 < |ids| && OpenLevels(mappings, ids, e.indent)
    requires MayFollow(lines, e) && !HasItem(m.store[ids[e.indent / 2]], e.key)
    ensures e.indent in mappings && mappings[e.indent] < |m.store|
    ensures Running(Next(m, mappings, e), after, lines + [e])
  {
    var d := e.indent / 2;
    var short := ids[..d + 1];
    assert e.indent in mappings && mappings[e.indent] == ids[d];
    NextStore(m.store, ids, short, d, lines, e);
    WellFormedSnoc(lines, e);
    after := SpineAfter(m.store, short, e.value);
    NextOpen(m, mappings, short, d, e);
    LevelsKept(mappings, ids, short, after, e.indent);
  }

  lemma {:induction false} ContentsNext<V>(raws: seq<Raw<V>>, i: nat)
    requires i < |raws|
    ensures Contents(raws[..i + 1]) <= Contents(raws)
    ensures Contents(raws[..i + 1]) ==
            if raws[i].Content? then Contents(raws[..i]) + [raws[i].entry] else Contents(raws[..i])
  {
    assert raws[..i + 1][..i] == raws[..i];
    ContentsPrefix(raws, i + 1);
  }

  lemma {:induction false} Refuted<V>(all: seq<Entry<V>>, lines: seq<Entry<V>>, e: Entry<V>)
    requires lines + [e] <= all && !MayFollow(lines, e)
    ensures !WellFormed(all)
  {
    if WellFormed(all) {
      WellFormedPrefix(all, |lines| + 1);
      assert all[..|lines| + 1] == lines + [e];
      WellFormedSnoc(lines, e);
    }
  }

  /** The tree that the parser returns. */
  lemma {:induction false} TreeOfLines<V>(m: Machine<V>, ids: seq<nat>, lines: seq<Entry<V>>)
    requires Running(m, ids, lines)
    ensures m.store != [] && WellFormed(lines)
    ensures Flatten(Tree(m.store, 0, |m.store[0]|), 0) == lines && DistinctTree(Tree(m.store, 0, |m.store[0]|))
  {
    TreeIsFlat(m.store, 0, |m.store[0]|, 0);
    TreeIsDistinct(m.store, 0, |m.store[0]|);
  }

  /** One content line. */
  method Feed<V(!new)>(m: Machine<V>, ghost ids: seq<nat>, ghost lines: seq<Entry<V>>, e: Entry<V>)
    returns (r: Result<Machine<V>, YamlError>, ghost after: seq<nat>)
    requires Running(m, ids, lines)
    ensures r.Ok? <==> MayFollow(lines, e)
    ensures r.Ok? ==> Running(r.value, after, lines + [e])
    ensures r != Err(DedentMismatch)
  {
    var mappings := m.mappings;
    if e.indent % 2 != 0 { return Err(OddIndent), ids; }
    if m.previousIndent.None? && e.indent != 0 { return Err(IndentedTop), ids; }
    if m.previousIndent.Some? && e.indent > m.previousIndent.value {
      if e.indent != m.previousIndent.value + 2 { return Err(IndentJump), ids; }
      if m.previousChild.None? { return Err(BlockBelowScalar), ids; }
      mappings := mappings[e.indent := m.previousChild.value];
    } else if e.indent !in mappings {
      return Err(DedentMismatch), ids;
    }
    mappings := CloseDeeper(mappings, e.indent);
    assert OpenLevels(mappings, ids, e.indent);
    TakenIffHasItem(m.store, ids, e.indent / 2, e.key);
    var parent := mappings[e.indent];
    if HasItem(m.store[parent], e.key) { return Err(DuplicateKey), ids; }
    after := Follows(m, ids, lines, mappings, e);
    return Ok(Next(m, mappings, e)), after;
  }

  lemma Starts<V>(m: Machine<V>)
    requires m == Machine([[]], map[0 := 0], None, None)
    ensures Running(m, [0], [])
  {
  }

  /** One physical line. */
  method Turn<V(!new)>(m: Machine<V>, ghost ids: seq<nat>, raws: seq<Raw<V>>, i: nat)
    returns (r: Result<Machine<V>, YamlError>, ghost after: seq<nat>)
    requires i < |raws| && Running(m, ids, Contents(raws[..i]))
    ensures r.Ok? ==> !raws[i].Refused? && Running(r.value, after, Contents(raws[..i + 1]))
    ensures r.Err? ==> raws[i].Refused? || !WellFormed(Contents(raws))
    ensures r != Err(DedentMismatch)
  {
    ContentsNext(raws, i);
    if raws[i].Refused? { return Err(LineRefused), ids; }
    if raws[i].Blank? { return Ok(m), ids; }
    r, after := Feed(m, ids, Contents(raws[..i]), raws[i].entry);
    if r.Err? { Refuted(Contents(raws), Contents(raws[..i]), raws[i].entry); }
  }

  /** Reads a line list; accepts exactly the well-formed ones and returns the mapping they print. */
  method Parse<V(!new)>(raws: seq<Raw<V>>) returns (r: Result<seq<Pair<V>>, YamlError>)
    ensures r.Ok? <==> ((forall i :: 0 <= i < |raws| ==> !raws[i].Refused?) && WellFormed(Contents(raws)))
    ensures r.Ok? ==> Flatten(r.value, 0) == Contents(raws) && DistinctTree(r.value)
    ensures r != Err(DedentMismatch)
  {
    var m: Machine<V> := Machine([[]], map[0 := 0], None, None);
    ghost var ids := [0];
    Starts(m);
    for i := 0 to |raws|
      invariant forall j :: 0 <= j < i ==> !raws[j].Refused?
      invariant Running(m, ids, Contents(raws[..i]))
    {
      var turn, after := Turn(m, ids, raws, i);
      if turn.Err? { return Err(turn.error); }
      m, ids := turn.value, after;
    }
    assert raws[..|raws|] == raws;
    TreeOfLines(m, ids, Contents(raws));
    return Ok(Tree(m.store, 0, |m.store[0]|));
  }

  // ---------- Round trips ----------

  ghost predicate Reads<V>(lines: seq<Entry<V>>, tree: seq<Pair<V>>) {
    WellFormed(lines) && Flatten(tree, 0) == lines && DistinctTree(tree)
  }

  /** Every mapping with distinct keys has exactly one reading of its lines: itself. */
  lemma {:induction false} PrintThenRead<V>(tree: seq<Pair<V>>, read: seq<Pair<V>>)
    requires DistinctTree(tree)
    ensures WellFormed(Flatten(tree, 0))
    ensures Reads(Flatten(tree, 0), read) <==> read == tree
  {
    assert [] + Flatten(tree, 0) == Flatten(tree, 0);
    FlattenIsWellFormed([], tree, 0);
    if Reads(Flatten(tree, 0), read) { FlattenIsInjective(read, tree, 0); }
  }
}
