/** Sequence operations that several modules use. */
module Sequences {

  /** The pieces between occurrences of a separator. */
  function Split(s: string, separator: char): (r: seq<string>)
    ensures r != []
  {
    if s == "" then [""]
    else
      var rest := Split(s[1..], separator);
      if s[0] == separator then [""] + rest else [[s[0]] + rest[0]] + rest[1..]
  }

  lemma {:induction false} SplitPiece(piece: string, separator: char)
    requires separator !in piece
    ensures Split(piece, separator) == [piece]
  {
    if piece == "" {
    } else {
      SplitPiece(piece[1..], separator);
      assert piece == [piece[0]] + piece[1..];
    }
  }

  lemma Assoc<T>(a: seq<T>, b: seq<T>, c: seq<T>)
    ensures (a + b) + c == a + (b + c)
  {
  }

  lemma SplitBack<T>(a: seq<T>, b: seq<T>)
    ensures (a + b)[..|a|] == a && (a + b)[|a|..] == b
  {
  }

  /** `len(values) == len(set(values))` */
  predicate CountsAsSet<T(==)>(values: seq<T>) {
    |(set v | v in values)| == |values|
  }

  lemma CountsAsSetIsDistinct<T>(values: seq<T>)
    ensures |(set v | v in values)| <= |values|
    ensures CountsAsSet(values) <==> forall i, j :: 0 <= i < j < |values| ==> values[i] != values[j]
  {
    if values == [] {
    } else {
      var front, last := values[..|values| - 1], values[|values| - 1];
      CountsAsSetIsDistinct(front);
      assert values == front + [last];
      assert (set v | v in values) == (set v | v in front) + {last};
      if last in front {
        var i :| 0 <= i < |front| && front[i] == last;
        assert values[i] == values[|values| - 1];
        assert (set v | v in values) == (set v | v in front);
      } else {
        assert forall i :: 0 <= i < |front| ==> values[i] == front[i];
      }
    }
  }
}
