/**
 The mutable maps of `parse_simple_yaml` (scripts/validate_skills.py): dictionaries live in a store
 and hold one another by reference, so the parser extends a mapping deep inside the result through
 its own table of open mappings. This module says how such a store reads as lines and as a tree, and
 that extending an open dictionary appends one line at the end.
 */
module SimpleYamlStore {
  import opened Outcomes
  import opened SimpleYaml

  datatype Cell<V> = Text(scalar: V) | Sub(id: nat)
  datatype Item<V> = Item(key: string, cell: Cell<V>)
  type Dict<V> = seq<Item<V>>
  type Store<V> = seq<Dict<V>>

  // ---------- Reading a store ----------

  /** Every reference from `id` on leads upward and stays below `hi`. */
  ghost predicate Closed<V>(store: Store<V>, id: nat, hi: nat)
    decreases hi - id
  {
    id < hi <= |store| && forall n :: 0 <= n < |store[id]| ==> ItemClosed(store, store[id][n], id, hi)
  }

  ghost predicate ItemClosed<V>(store: Store<V>, item: Item<V>, id: nat, hi: nat)
    decreases hi - id, 0
  {
    match item.cell
    case Text(_) => true
    case Sub(j) => id < j < hi && Closed(store, j, hi)
  }

  /** The lines of the first n items of a dictionary. */
  function Flat<V>(store: Store<V>, id: nat, n: nat, indent: nat): (r: seq<Entry<V>>)
    decreases |store| - id, n, 0
  {
    if id >= |store| || n == 0 || n > |store[id]| then []
    else Flat(store, id, n - 1, indent) + ItemLines(store, id, store[id][n - 1], indent)
  }

  function ItemLines<V>(store: Store<V>, id: nat, item: Item<V>, indent: nat): (r: seq<Entry<V>>)
    requires id < |store|
    ensures r != [] && r[0].indent == indent && r[0].key == item.key
    decreases |store| - id, 0, 1
  {
    match item.cell
    case Text(v) => [Entry(indent, item.key, Some(v))]
    case Sub(j) =>
      [Entry(indent, item.key, None)] +
      if id < j < |store| then Flat(store, j, |store[j]|, indent + 2) else []
  }

  /** The tree of the first n items of a dictionary. */
  function Tree<V>(store: Store<V>, id: nat, n: nat): (r: seq<Pair<V>>)
    decreases |store| - id, n, 0
  {
    if id >= |store| || n == 0 || n > |store[id]| then []
    else Tree(store, id, n - 1) + [TreeItem(store, id, store[id][n - 1])]
  }

  function TreeItem<V>(store: Store<V>, id: nat, item: Item<V>): (r: Pair<V>)
    requires id < |store|
    ensures r.key == item.key
    decreases |store| - id, 0, 1
  {
    match item.cell
    case Text(v) => Pair(item.key, Scalar(v))
    case Sub(j) => Pair(item.key, Mapping(if id < j < |store| then Tree(store, j, |store[j]|) else []))
  }

  lemma {:induction false} TreeKeys<V>(store: Store<V>, id: nat, n: nat)
    requires id < |store| && n <= |store[id]|
    ensures |Tree(store, id, n)| == n && forall i :: 0 <= i < n ==> Tree(store, id, n)[i].key == store[id][i].key
  {
    if n == 0 {
    } else {
      TreeKeys(store, id, n - 1);
    }
  }

  /** The tree has the lines of the store. */
  lemma {:induction false} TreeIsFlat<V>(store: Store<V>, id: nat, n: nat, indent: nat)
    ensures Flatten(Tree(store, id, n), indent) == Flat(store, id, n, indent)
    decreases |store| - id, n, 0
  {
    if id >= |store| || n == 0 || |store[id]| < n {
    } else {
      var t := Tree(store, id, n);
      assert t[..|t| - 1] == Tree(store, id, n - 1);
      TreeIsFlat(store, id, n - 1, indent);
      ItemIsFlat(store, id, store[id][n - 1], indent);
    }
  }

  lemma {:induction false} ItemIsFlat<V>(store: Store<V>, id: nat, item: Item<V>, indent: nat)
    requires id < |store|
    ensures Lines(TreeItem(store, id, item), indent) == ItemLines(store, id, item, indent)
    decreases |store| - id, 0, 1
  {
    match item.cell
    case Text(_) =>
    case Sub(j) =>
      if id < j < |store| { TreeIsFlat(store, j, |store[j]|, indent + 2); }
  }

  ghost predicate DistinctDict<V>(dict: Dict<V>) {
    forall i, j :: 0 <= i < j < |dict| ==> dict[i].key != dict[j].key
  }

  ghost predicate DistinctStore<V>(store: Store<V>) {
    forall id :: 0 <= id < |store| ==> DistinctDict(store[id])
  }

  lemma {:induction false} TreeIsDistinct<V>(store: Store<V>, id: nat, n: nat)
    requires DistinctStore(store)
    ensures DistinctTree(Tree(store, id, n))
    decreases |store| - id, n
  {
    if id >= |store| || n == 0 || |store[id]| < n {
    } else {
      var t := Tree(store, id, n);
      TreeIsDistinct(store, id, n - 1);
      TreeKeys(store, id, n);
      assert DistinctDict(store[id]);
      assert t[..n - 1] == Tree(store, id, n - 1);
      match store[id][n - 1].cell
      case Text(_) =>
      case Sub(j) =>
        if id < j < |store| { TreeIsDistinct(store, j, |store[j]|); }
    }
  }

  // ---------- Locality ----------

  ghost predicate Agree<V>(a: Store<V>, b: Store<V>, lo: nat, hi: nat) {
    hi <= |a| && hi <= |b| && forall k :: lo <= k < hi ==> a[k] == b[k]
  }

  /** A closed dictionary reads the same wherever the stores agree on its range. */
  lemma {:induction false} ClosedLocal<V>(a: Store<V>, b: Store<V>, id: nat, hi: nat)
    requires Closed(a, id, hi) && Agree(a, b, id, hi)
    ensures Closed(b, id, hi)
    decreases hi - id
  {
    forall n | 0 <= n < |b[id]| ensures ItemClosed(b, b[id][n], id, hi) {
      assert ItemClosed(a, a[id][n], id, hi);
      match a[id][n].cell
      case Text(_) =>
      case Sub(j) => ClosedLocal(a, b, j, hi);
    }
  }

  lemma {:induction false} FlatLocal<V>(a: Store<V>, b: Store<V>, id: nat, hi: nat, n: nat, indent: nat)
    requires Closed(a, id, hi) && Agree(a, b, id, hi)
    ensures Flat(a, id, n, indent) == Flat(b, id, n, indent)
    decreases hi - id, n
  {
    assert a[id] == b[id];
    if n == 0 || |a[id]| < n {
    } else {
      FlatLocal(a, b, id, hi, n - 1, indent);
      assert ItemClosed(a, a[id][n - 1], id, hi);
      ItemLocal(a, b, id, a[id][n - 1], hi, indent);
    }
  }

  lemma {:induction false} ItemLocal<V>(a: Store<V>, b: Store<V>, id: nat, item: Item<V>, hi: nat, indent: nat)
    requires id < hi && ItemClosed(a, item, id, hi) && Agree(a, b, id + 1, hi) && id < |a| && id < |b|
    ensures ItemLines(a, id, item, indent) == ItemLines(b, id, item, indent)
    decreases hi - id, 0
  {
    match item.cell
    case Text(_) =>
    case Sub(j) => FlatLocal(a, b, j, hi, |a[j]|, indent + 2);
  }

  lemma {:induction false} ClosedWider<V>(store: Store<V>, id: nat, hi: nat, wider: nat)
    requires Closed(store, id, hi) && hi <= wider <= |store|
    ensures Closed(store, id, wider)
    decreases hi - id
  {
    forall n | 0 <= n < |store[id]| ensures ItemClosed(store, store[id][n], id, wider) {
      assert ItemClosed(store, store[id][n], id, hi);
      match store[id][n].cell
      case Text(_) =>
      case Sub(j) => ClosedWider(store, j, hi, wider);
    }
  }

  // ---------- The open mappings ----------

  /** `child` is the value of the last item of `parent`, and the items before it are finished. */
  ghost predicate Link<V>(store: Store<V>, parent: nat, child: nat) {
    parent < child < |store| && store[parent] != [] && store[parent][|store[parent]| - 1].cell == Sub(child) &&
    forall n :: 0 <= n < |store[parent]| - 1 ==> ItemClosed(store, store[parent][n], parent, child)
  }

  /** The dictionaries along the right edge of the tree, from the root down. */
  ghost predicate Spine<V>(store: Store<V>, ids: seq<nat>) {
    ids != [] && ids[0] == 0 && (forall i :: 0 <= i < |ids| ==> ids[i] < |store|) &&
    (forall i, j :: 0 <= i < |ids| && j == i + 1 && j < |ids| ==> Link(store, ids[i], ids[j])) &&
    Closed(store, ids[|ids| - 1], |store|)
  }

  lemma {:induction false} SpineClosed<V>(store: Store<V>, ids: seq<nat>, i: nat)
    requires Spine(store, ids) && i < |ids|
    ensures Closed(store, ids[i], |store|)
    decreases |ids| - i
  {
    if i + 1 == |ids| {
    } else {
      var p, c := ids[i], ids[i + 1];
      SpineClosed(store, ids, i + 1);
      assert Link(store, p, c);
      forall n | 0 <= n < |store[p]| ensures ItemClosed(store, store[p][n], p, |store|) {
        if n < |store[p]| - 1 { ItemWider(store, store[p][n], p, c); }
      }
    }
  }

  lemma {:induction false} ItemWider<V>(store: Store<V>, item: Item<V>, id: nat, hi: nat)
    requires ItemClosed(store, item, id, hi) && hi <= |store|
    ensures ItemClosed(store, item, id, |store|)
  {
    match item.cell
    case Text(_) =>
    case Sub(j) => ClosedWider(store, j, hi, |store|);
  }

  /** Closing the deeper mappings leaves a shorter spine. */
  lemma SpinePrefix<V>(store: Store<V>, ids: seq<nat>, d: nat)
    requires Spine(store, ids) && d < |ids|
    ensures Spine(store, ids[..d + 1])
  {
    SpineClosed(store, ids, d);
    var short := ids[..d + 1];
    forall i, j | 0 <= i < |short| && j == i + 1 && j < |short| ensures Link(store, short[i], short[j]) {
      assert Link(store, ids[i], ids[j]);
    }
  }

  /** The store with one item more in `p`, and one dictionary more when the item opens one. */
  function Extended<V>(store: Store<V>, p: nat, key: string, value: Option<V>): (r: Store<V>)
    requires p < |store|
  {
    match value
    case Some(v) => store[p := store[p] + [Item(key, Text(v))]]
    case None => store[p := store[p] + [Item(key, Sub(|store|))]] + [[]]
  }

  function SpineAfter<V>(store: Store<V>, ids: seq<nat>, value: Option<V>): (r: seq<nat>) {
    if value.None? then ids + [|store|] else ids
  }

  lemma {:induction false} ItemClosedLocal<V>(a: Store<V>, b: Store<V>, item: Item<V>, id: nat, hi: nat)
    requires ItemClosed(a, item, id, hi) && Agree(a, b, id + 1, hi)
    ensures ItemClosed(b, item, id, hi)
  {
    match item.cell
    case Text(_) =>
    case Sub(j) => ClosedLocal(a, b, j, hi);
  }

  lemma LinkLocal<V>(a: Store<V>, b: Store<V>, parent: nat, child: nat)
    requires Link(a, parent, child) && |a| <= |b| && Agree(a, b, parent, child)
    ensures Link(b, parent, child)
  {
    forall n | 0 <= n < |b[parent]| - 1 ensures ItemClosed(b, b[parent][n], parent, child) {
      assert ItemClosed(a, a[parent][n], parent, child);
      ItemClosedLocal(a, b, a[parent][n], parent, child);
    }
  }

  /** The deepest open dictionary, extended, is closed up to the old end of the store. */
  lemma {:induction false} ExtendedItems<V>(store: Store<V>, p: nat, key: string, value: Option<V>, n: nat)
    requires Closed(store, p, |store|) && n < |store[p]|
    ensures ItemClosed(Extended(store, p, key, value), store[p][n], p, |store|)
  {
    var after := Extended(store, p, key, value);
    assert ItemClosed(store, store[p][n], p, |store|);
    ItemClosedLocal(store, after, store[p][n], p, |store|);
  }

  lemma {:induction false} ExtendedBottom<V>(store: Store<V>, p: nat, key: string, value: Option<V>)
    requires Closed(store, p, |store|)
    ensures var after := Extended(store, p, key, value);
            if value.Some? then Closed(after, p, |after|)
            else Link(after, p, |store|) && Closed(after, |store|, |after|)
  {
    var after := Extended(store, p, key, value);
    forall n | 0 <= n < |store[p]| ensures ItemClosed(after, after[p][n], p, |store|) {
      ExtendedItems(store, p, key, value, n);
      assert after[p][n] == store[p][n];
    }
  }

  /** Extending the deepest open dictionary keeps a spine. */
  lemma ExtendedSpine<V>(store: Store<V>, ids: seq<nat>, key: string, value: Option<V>)
    requires Spine(store, ids)
    ensures Spine(Extended(store, ids[|ids| - 1], key, value), SpineAfter(store, ids, value))
  {
    var p := ids[|ids| - 1];
    var after, next := Extended(store, p, key, value), SpineAfter(store, ids, value);
    ExtendedBottom(store, p, key, value);
    forall i, j | 0 <= i < |next| && j == i + 1 && j < |next| ensures Link(after, next[i], next[j]) {
      if j < |ids| {
        assert Link(store, ids[i], ids[j]);
        SpineIncreases(store, ids, j);
        LinkLocal(store, after, ids[i], ids[j]);
      }
    }
  }

  lemma SpineIncreases<V>(store: Store<V>, ids: seq<nat>, j: nat)
    requires Spine(store, ids) && j < |ids|
    ensures ids[j] <= ids[|ids| - 1]
    decreases |ids| - j
  {
    if j + 1 == |ids| {
    } else {
      assert Link(store, ids[j], ids[j + 1]);
      SpineIncreases(store, ids, j + 1);
    }
  }

  // ---------- Lines along the spine ----------

  /** All lines of a dictionary. */
  function Whole<V>(store: Store<V>, id: nat, indent: nat): (r: seq<Entry<V>>) {
    if id < |store| then Flat(store, id, |store[id]|, indent) else []
  }

  lemma FlatPrefix<V>(a: Store<V>, b: Store<V>, p: nat, n: nat, hi: nat, indent: nat)
    requires p < |a| && p < |b| && p < hi && n <= |a[p]| && n <= |b[p]| && Agree(a, b, p + 1, hi)
    requires forall k :: 0 <= k < n ==> a[p][k] == b[p][k] && ItemClosed(a, a[p][k], p, hi)
    ensures Flat(a, p, n, indent) == Flat(b, p, n, indent)
    decreases n
  {
    if n == 0 {
    } else {
      FlatPrefix(a, b, p, n - 1, hi, indent);
      assert ItemClosed(a, a[p][n - 1], p, hi);
      ItemLocal(a, b, p, a[p][n - 1], hi, indent);
    }
  }

  /** A linked dictionary ends in the line of its child and then the child's own lines. */
  lemma WholeOfLink<V>(store: Store<V>, parent: nat, child: nat, indent: nat)
    requires Link(store, parent, child)
    ensures Whole(store, parent, indent) ==
            Flat(store, parent, |store[parent]| - 1, indent) +
            ([Entry(indent, store[parent][|store[parent]| - 1].key, None)] + Whole(store, child, indent + 2))
  {
    var n := |store[parent]|;
    var item := store[parent][n - 1];
    assert ItemLines(store, parent, item, indent) == [Entry(indent, item.key, None)] + Whole(store, child, indent + 2);
    assert Flat(store, parent, n, indent) == Flat(store, parent, n - 1, indent) +
           ItemLines(store, parent, item, indent);
  }

  lemma {:induction false} ExtendedWholeBottom<V>(store: Store<V>, p: nat, key: string, value: Option<V>, indent: nat)
    requires Closed(store, p, |store|)
    ensures Whole(Extended(store, p, key, value), p, indent) == Whole(store, p, indent) + [Entry(indent, key, value)]
  {
    var after, n := Extended(store, p, key, value), |store[p]|;
    assert forall k :: 0 <= k < n ==> after[p][k] == store[p][k];
    FlatPrefix(store, after, p, n, |store|, indent);
    assert ItemLines(after, p, after[p][n], indent) == [Entry(indent, key, value)];
    assert Flat(after, p, n + 1, indent) == Flat(after, p, n, indent) + ItemLines(after, p, after[p][n], indent);
  }

  lemma ExtendedWholeAbove<V>(
      store: Store<V>, after: Store<V>, parent: nat, child: nat, e: Entry<V>, indent: nat)
    requires Link(store, parent, child) && |store| <= |after| && Agree(store, after, parent, child)
    requires Whole(after, child, indent + 2) == Whole(store, child, indent + 2) + [e]
    ensures Whole(after, parent, indent) == Whole(store, parent, indent) + [e]
  {
    LinkLocal(store, after, parent, child);
    WholeOfLink(store, parent, child, indent);
    WholeOfLink(after, parent, child, indent);
    FlatPrefix(store, after, parent, |store[parent]| - 1, child, indent);
  }

  /** Extending the deepest open dictionary appends one line to every dictionary above it. */
  lemma ExtendedWhole<V>(store: Store<V>, ids: seq<nat>, key: string, value: Option<V>, i: nat)
    requires Spine(store, ids) && i < |ids|
    ensures Whole(Extended(store, ids[|ids| - 1], key, value), ids[i], 2 * i) ==
            Whole(store, ids[i], 2 * i) + [Entry(2 * (|ids| - 1), key, value)]
    decreases |ids| - i
  {
    var p := ids[|ids| - 1];
    if i == |ids| - 1 {
      ExtendedWholeBottom(store, p, key, value, 2 * i);
    } else {
      ExtendedWhole(store, ids, key, value, i + 1);
      assert Link(store, ids[i], ids[i + 1]);
      SpineIncreases(store, ids, i + 1);
      var line := Entry(2 * (|ids| - 1), key, value);
      ExtendedWholeAbove(store, Extended(store, p, key, value), ids[i], ids[i + 1], line, 2 * i);
    }
  }

  lemma BelowLink<V>(store: Store<V>, parent: nat, child: nat, indent: nat, deeper: nat, earlier: seq<Entry<V>>)
    returns (before: seq<Entry<V>>)
    requires Link(store, parent, child) && indent % 2 == 0 && deeper == indent + 2
    ensures earlier + Whole(store, parent, indent) == before + Whole(store, child, deeper)
    ensures Below(before, deeper)
  {
    WholeOfLink(store, parent, child, indent);
    var line := Entry(indent, store[parent][|store[parent]| - 1].key, None);
    var finished := Flat(store, parent, |store[parent]| - 1, indent);
    before := earlier + finished + [line];
    AppendParts(earlier, finished, line, Whole(store, child, deeper));
  }

  /** The lines end with the block of any open dictionary, right below the line that opened it. */
  lemma SpineSuffix<V>(store: Store<V>, ids: seq<nat>, i: nat, indent: nat) returns (before: seq<Entry<V>>)
    requires Spine(store, ids) && i < |ids| && indent == 2 * i
    ensures Whole(store, 0, 0) == before + Whole(store, ids[i], indent) && Below(before, indent)
  {
    if i == 0 {
      before := [];
      assert Whole(store, 0, 0) == before + Whole(store, 0, 0);
    } else {
      var earlier := SpineSuffix(store, ids, i - 1, indent - 2);
      assert Link(store, ids[i - 1], ids[i]);
      before := BelowLink(store, ids[i - 1], ids[i], indent - 2, indent, earlier);
    }
  }

  predicate HasItem<V>(dict: Dict<V>, key: string) {
    exists k :: 0 <= k < |dict| && dict[k].key == key
  }

  /** A key is taken in an open block exactly when the dictionary there has it. */
  lemma TakenIffHasItem<V>(store: Store<V>, ids: seq<nat>, i: nat, key: string)
    requires Spine(store, ids) && i < |ids|
    ensures Taken(Whole(store, 0, 0), 2 * i, key) <==> HasItem(store[ids[i]], key)
  {
    var before := SpineSuffix(store, ids, i, 2 * i);
    var id, indent := ids[i], 2 * i;
    var block, tree := Whole(store, id, indent), Tree(store, id, |store[id]|);
    TreeIsFlat(store, id, |store[id]|, indent);
    TreeKeys(store, id, |store[id]|);
    FlattenKeys(tree, indent, key);
    FlattenIndents(tree, indent);
    BlockTaken(before, block, indent, key);
    SameKeys(tree, store[id], key);
  }

  lemma SameKeys<V>(tree: seq<Pair<V>>, dict: Dict<V>, key: string)
    requires |tree| == |dict| && forall i :: 0 <= i < |tree| ==> tree[i].key == dict[i].key
    ensures HasPair(tree, key) <==> HasItem(dict, key)
  {
    if HasPair(tree, key) {
      var i :| 0 <= i < |tree| && tree[i].key == key;
      assert dict[i].key == key;
    }
    if HasItem(dict, key) {
      var i :| 0 <= i < |dict| && dict[i].key == key;
      assert tree[i].key == key;
    }
  }

  lemma BlockTaken<V>(before: seq<Entry<V>>, block: seq<Entry<V>>, indent: nat, key: string)
    requires Below(before, indent) && AtLeast(block, indent)
    ensures Taken(before + block, indent, key) <==> HasLine(block, indent, key)
  {
    var all := before + block;
    if Taken(all, indent, key) { TakenInBlock(before, block, indent, key); }
    if HasLine(block, indent, key) {
      var i :| 0 <= i < |block| && block[i].indent == indent && block[i].key == key;
      forall m | |before| + i <= m < |all| ensures all[|before| + i].indent <= all[m].indent {
        assert all[m] == block[m - |before|];
      }
      assert OpenFrom(all, |before| + i);
    }
  }
}
