/**
 Joining sequences that are linked by one relation, each of which meets the end of the one
 before it somewhere inside.
 */
module Splicing {

  ghost predicate Linked<T(!new)>(rel: (T, T) -> bool, s: seq<T>) {
    forall i, j :: 0 <= i < j < |s| && j == i + 1 ==> rel(s[i], s[j])
  }

  function Drop<T>(s: seq<T>, k: int): (r: seq<T>) {
    if 0 <= k <= |s| then s[k..] else []
  }

  /** Segment 0, then of every later segment `i` what comes after position `meets[i]`. */
  function Splice<T>(segments: seq<seq<T>>, meets: seq<int>): (r: seq<T>)
    requires |meets| == |segments|
  {
    var n := |segments|;
    if n == 0 then []
    else if n == 1 then segments[0]
    else Splice(segments[..n - 1], meets[..n - 1]) + Drop(segments[n - 1], meets[n - 1] + 1)
  }

  /** Every segment is linked, and from the second on contains the end of its predecessor at `meets`. */
  ghost predicate Meet<T(!new)>(rel: (T, T) -> bool, segments: seq<seq<T>>, meets: seq<int>) {
    |meets| == |segments| > 0 &&
    forall i {:trigger SegmentAt(rel, segments, meets, i)} :: 0 <= i < |segments| ==> SegmentAt(rel, segments, meets, i)
  }

  ghost predicate SegmentAt<T(!new)>(rel: (T, T) -> bool, segments: seq<seq<T>>, meets: seq<int>, i: int)
    requires 0 <= i < |segments| == |meets|
  {
    segments[i] != [] && Linked(rel, segments[i]) && (i > 0 ==> MeetsAt(segments[i - 1], segments[i], meets[i]))
  }

  ghost predicate MeetsAt<T>(a: seq<T>, b: seq<T>, k: int) {
    a != [] && 0 <= k < |b| && b[k] == a[|a| - 1]
  }

  /** A linked sequence from one element to another. */
  ghost predicate Spans<T(!new)>(rel: (T, T) -> bool, s: seq<T>, first: T, last: T) {
    s != [] && Linked(rel, s) && s[0] == first && s[|s| - 1] == last
  }

  lemma JoinLinked<T(!new)>(rel: (T, T) -> bool, a: seq<T>, b: seq<T>, k: int, first: T)
    requires Linked(rel, b) && 0 <= k < |b| && Spans(rel, a, first, b[k])
    ensures Spans(rel, a + Drop(b, k + 1), first, b[|b| - 1])
  {
    var joined := a + Drop(b, k + 1);
    forall i, j | 0 <= i < j < |joined| && j == i + 1 ensures rel(joined[i], joined[j]) {
      if j < |a| {
        assert joined[i] == a[i] && joined[j] == a[j];
      } else {
        var m := i - |a| + k + 1;
        assert joined[i] == b[m] && joined[j] == b[m + 1];
      }
    }
  }

  lemma MeetPrefix<T(!new)>(rel: (T, T) -> bool, segments: seq<seq<T>>, meets: seq<int>, n: nat)
    requires Meet(rel, segments, meets) && 0 < n <= |segments|
    ensures Meet(rel, segments[..n], meets[..n])
  {
    forall i | 0 <= i < n ensures SegmentAt(rel, segments[..n], meets[..n], i) {
      assert SegmentAt(rel, segments, meets, i);
    }
  }

  lemma SegmentFacts<T(!new)>(
      rel: (T, T) -> bool, segments: seq<seq<T>>, meets: seq<int>, i: nat, segment: seq<T>)
    requires Meet(rel, segments, meets) && i < |segments| && segment == segments[i]
    ensures segment != [] && Linked(rel, segment) && (i > 0 ==> MeetsAt(segments[i - 1], segment, meets[i]))
  {
    assert SegmentAt(rel, segments, meets, i);
  }

  lemma SpliceStep<T(!new)>(
      rel: (T, T) -> bool, front: seq<T>, before: seq<T>, segment: seq<T>, meet: int, first: T, spliced: seq<T>)
    requires before != [] && Spans(rel, front, first, before[|before| - 1])
    requires MeetsAt(before, segment, meet) && Linked(rel, segment) && spliced == front + Drop(segment, meet + 1)
    ensures Spans(rel, spliced, first, segment[|segment| - 1])
  {
    JoinLinked(rel, front, segment, meet, first);
  }

  /** The splice is linked, and runs from the start of the first segment to the end of the last. */
  lemma {:induction false} SpliceLinked<T(!new)>(rel: (T, T) -> bool, segments: seq<seq<T>>, meets: seq<int>)
    requires Meet(rel, segments, meets)
    ensures segments[0] != [] && segments[|segments| - 1] != []
    ensures var last := segments[|segments| - 1];
            Spans(rel, Splice(segments, meets), segments[0][0], last[|last| - 1])
  {
    var n := |segments|;
    var last := segments[n - 1];
    SegmentFacts(rel, segments, meets, 0, segments[0]);
    SegmentFacts(rel, segments, meets, n - 1, last);
    if n == 1 {
    } else {
      var init, before := segments[..n - 1], segments[n - 2];
      var front := Splice(init, meets[..n - 1]);
      MeetPrefix(rel, segments, meets, n - 1);
      SpliceLinked(rel, init, meets[..n - 1]);
      assert init[0] == segments[0] && init[|init| - 1] == before;
      SpliceStep(rel, front, before, last, meets[n - 1], segments[0][0], Splice(segments, meets));
    }
  }

  /** Later segments only append to the splice of the earlier ones. */
  lemma {:induction false} SpliceGrows<T(!new)>(segments: seq<seq<T>>, meets: seq<int>, n: nat)
    requires |meets| == |segments| && 0 < n <= |segments|
    ensures Splice(segments[..n], meets[..n]) <= Splice(segments, meets)
    decreases |segments| - n
  {
    if n == |segments| {
      assert segments[..n] == segments && meets[..n] == meets;
    } else {
      SpliceGrows(segments, meets, n + 1);
      assert segments[..n + 1][..n] == segments[..n] && meets[..n + 1][..n] == meets[..n];
    }
  }

  /** The end of every segment lies on the splice. */
  lemma SegmentEndOnSplice<T(!new)>(
      rel: (T, T) -> bool, segments: seq<seq<T>>, meets: seq<int>, k: nat)
    returns (i: nat)
    requires Meet(rel, segments, meets) && k < |segments|
    ensures segments[k] != []
    ensures i < |Splice(segments, meets)| && Splice(segments, meets)[i] == segments[k][|segments[k]| - 1]
  {
    var front, upToK := segments[..k + 1], Splice(segments[..k + 1], meets[..k + 1]);
    MeetPrefix(rel, segments, meets, k + 1);
    SpliceEnds(rel, front, meets[..k + 1], front[k], upToK);
    SpliceGrows(segments, meets, k + 1);
    i := |upToK| - 1;
    assert upToK[i] == Splice(segments, meets)[i];
  }

  lemma {:induction false} SpliceEnds<T(!new)>(
      rel: (T, T) -> bool, segments: seq<seq<T>>, meets: seq<int>, last: seq<T>, spliced: seq<T>)
    requires Meet(rel, segments, meets) && last == segments[|segments| - 1] && spliced == Splice(segments, meets)
    ensures last != [] && spliced != [] && spliced[|spliced| - 1] == last[|last| - 1]
  {
    SpliceLinked(rel, segments, meets);
  }
}
