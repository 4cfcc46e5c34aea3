/**
 The hash-chained ledger (skills/archipelago/protocol/scripts/loop.py, `ledger_append` and
 `ledger_verify`). `hash` stands for SHA-256 of the sorted JSON of an entry without its entryHash:
 a function of the event, with its timestamp, and of prevHash.
 */
module Ledger {
  import opened Outcomes

  type Hash = string

  const GENESIS: Hash := "0000000000000000000000000000000000000000000000000000000000000000"

  /** A line of ledger.jsonl; `Unhashed` when it has no entry hash, `Unreadable` when it has no prevHash either. */
  datatype Line<E> = Entry(event: E, prev: Hash, hash: Hash) | Unhashed(prev: Hash) | Unreadable

  datatype Fault = ChainBreak(at: nat) | Tampered(at: nat) | Malformed(at: nat)

  /** The hash an entry appended after these lines takes as its predecessor's. */
  function Tip<E>(genesis: Hash, lines: seq<Line<E>>): (r: Option<Hash>) {
    if lines == [] then Some(genesis)
    else if lines[|lines| - 1].Entry? then Some(lines[|lines| - 1].hash)
    else None
  }

  predicate Links<E>(hash: (E, Hash) -> Hash, prev: Option<Hash>, line: Line<E>) {
    line.Entry? && Some(line.prev) == prev && line.hash == hash(line.event, line.prev)
  }

  /** Each line follows from the ones before it. */
  ghost predicate Chained<E>(hash: (E, Hash) -> Hash, genesis: Hash, lines: seq<Line<E>>) {
    lines == [] ||
    (Chained(hash, genesis, lines[..|lines| - 1]) &&
     Links(hash, Tip(genesis, lines[..|lines| - 1]), lines[|lines| - 1]))
  }

  lemma {:induction false} ChainedPrefix<E>(hash: (E, Hash) -> Hash, genesis: Hash, lines: seq<Line<E>>, k: nat)
    requires Chained(hash, genesis, lines) && k <= |lines|
    ensures Chained(hash, genesis, lines[..k])
    decreases |lines|
  {
    if k == |lines| {
      assert lines[..k] == lines;
    } else {
      ChainedPrefix(hash, genesis, lines[..|lines| - 1], k);
      assert lines[..|lines| - 1][..k] == lines[..k];
    }
  }

  /** What verification says of line `at`, given the hash expected before it. */
  function Judge<E>(hash: (E, Hash) -> Hash, prev: Hash, line: Line<E>, at: nat): (r: Result<(), Fault>) {
    match line
    case Unreadable => Err(Malformed(at))
    case Unhashed(p) => Err(if p != prev then ChainBreak(at) else Malformed(at))
    case Entry(event, p, h) =>
      if p != prev then Err(ChainBreak(at)) else if hash(event, p) != h then Err(Tampered(at)) else Ok(())
  }

  /** The verdict on a whole ledger: the fault of its first line that does not follow. */
  ghost function Verdict<E>(hash: (E, Hash) -> Hash, genesis: Hash, lines: seq<Line<E>>): (r: Result<(), Fault>)
    ensures r.Ok? <==> Chained(hash, genesis, lines)
    ensures r.Err? ==>
              r.error.at < |lines| && Chained(hash, genesis, lines[..r.error.at]) &&
              !Links(hash, Tip(genesis, lines[..r.error.at]), lines[r.error.at])
  {
    if lines == [] then Ok(())
    else
      var front := lines[..|lines| - 1];
      match Verdict(hash, genesis, front)
      case Err(fault) =>
        assert front[..fault.at] == lines[..fault.at];
        Err(fault)
      case Ok(_) =>
        Judge(hash, Tip(genesis, front).value, lines[|lines| - 1], |lines| - 1)
  }

  ghost predicate Appended<E>(hash: (E, Hash) -> Hash, genesis: Hash, before: seq<Line<E>>, after: seq<Line<E>>) {
    |after| == |before| + 1 && after[..|before|] == before && Links(hash, Tip(genesis, before), after[|before|])
  }

  class LedgerFile<E> {
    var lines: seq<Line<E>>

    constructor ()
      ensures lines == []
    {
      lines := [];
    }

    /** Reads no more than the tip; a tip without a hash is refused. */
    method Append(hash: (E, Hash) -> Hash, event: E) returns (r: Option<Hash>)
      modifies this
      ensures r.Some? <==> Tip(GENESIS, old(lines)).Some?
      ensures r.None? ==> lines == old(lines)
      ensures r.Some? ==>
                Appended(hash, GENESIS, old(lines), lines) && Tip(GENESIS, lines) == r &&
                lines[|old(lines)|].event == event
    {
      var prev := GENESIS;
      if lines != [] {
        var last := lines[|lines| - 1];
        if !last.Entry? { return None; }
        prev := last.hash;
      }
      var entryHash := hash(event, prev);
      lines := lines + [Entry(event, prev, entryHash)];
      return Some(entryHash);
    }

    method Verify(hash: (E, Hash) -> Hash) returns (r: Result<(), Fault>)
      ensures r == Verdict(hash, GENESIS, lines)
    {
      var prev := GENESIS;
      for i := 0 to |lines|
        invariant Verdict(hash, GENESIS, lines[..i]).Ok? && Tip(GENESIS, lines[..i]) == Some(prev)
      {
        var e := lines[i];
        SettledBy(hash, GENESIS, lines, i + 1);
        assert lines[..i + 1][..i] == lines[..i];
        if e.Unreadable? { return Err(Malformed(i)); }
        if e.prev != prev { return Err(ChainBreak(i)); }
        if e.Unhashed? { return Err(Malformed(i)); }
        if hash(e.event, e.prev) != e.hash { return Err(Tampered(i)); }
        prev := e.hash;
      }
      assert lines[..|lines|] == lines;
      return Ok(());
    }
  }

  /** A fault found among the first lines is the verdict. */
  lemma {:induction false} SettledBy<E>(hash: (E, Hash) -> Hash, genesis: Hash, lines: seq<Line<E>>, k: nat)
    requires k <= |lines|
    ensures Verdict(hash, genesis, lines[..k]).Err? ==>
              Verdict(hash, genesis, lines) == Verdict(hash, genesis, lines[..k])
    decreases |lines|
  {
    if k == |lines| {
      assert lines[..k] == lines;
    } else {
      SettledBy(hash, genesis, lines[..|lines| - 1], k);
      assert lines[..|lines| - 1][..k] == lines[..k];
    }
  }

  /** A wrong predecessor is a chain break, only a wrong hash is tampering, a missing one of them is malformed. */
  lemma {:induction false} FaultKinds<E>(hash: (E, Hash) -> Hash, genesis: Hash, lines: seq<Line<E>>)
    requires Verdict(hash, genesis, lines).Err?
    ensures var fault := Verdict(hash, genesis, lines).error;
            var line, prev := lines[fault.at], Tip(genesis, lines[..fault.at]);
            prev.Some? &&
            (fault.ChainBreak? <==> !line.Unreadable? && line.prev != prev.value) &&
            (fault.Tampered? <==>
               line.Entry? && line.prev == prev.value && line.hash != hash(line.event, line.prev)) &&
            (fault.Malformed? <==> line.Unreadable? || (line.Unhashed? && line.prev == prev.value))
  {
    var k := Verdict(hash, genesis, lines).error.at;
    var upTo := lines[..k + 1];
    assert upTo[..k] == lines[..k];
    SettledBy(hash, genesis, lines, k + 1);
    SettledBy(hash, genesis, lines, k);
  }

  // ---------- What the chain protects ----------

  /** Any number of entries appended, each linked to the tip it found. */
  ghost predicate Extends<E>(hash: (E, Hash) -> Hash, genesis: Hash, before: seq<Line<E>>, after: seq<Line<E>>)
    decreases |after|
  {
    before == after ||
    (|before| < |after| && Extends(hash, genesis, before, after[..|after| - 1]) &&
     Appended(hash, genesis, after[..|after| - 1], after))
  }

  /** However much is appended, the verdict stays: intact, or the same fault at the same line. */
  lemma {:induction false} AppendNeverRepairs<E>(
      hash: (E, Hash) -> Hash, genesis: Hash, before: seq<Line<E>>, after: seq<Line<E>>)
    requires Extends(hash, genesis, before, after)
    ensures Verdict(hash, genesis, after) == Verdict(hash, genesis, before)
    decreases |after|
  {
    if before == after {
    } else {
      AppendNeverRepairs(hash, genesis, before, after[..|after| - 1]);
    }
  }

  ghost predicate Injective<E(!new)>(hash: (E, Hash) -> Hash, genesis: Hash) {
    (forall e, p :: hash(e, p) != genesis) &&
    forall e, p, f, q :: hash(e, p) == hash(f, q) ==> e == f && p == q
  }

  /** The tip determines the whole ledger. */
  lemma {:induction false} TipDeterminesLedger<E(!new)>(
    hash: (E, Hash) -> Hash, genesis: Hash, a: seq<Line<E>>, b: seq<Line<E>>)
    requires Injective(hash, genesis)
    requires Chained(hash, genesis, a) && Chained(hash, genesis, b)
    requires Tip(genesis, a) == Tip(genesis, b)
    ensures a == b
    decreases |a|
  {
    if a == [] || b == [] {
    } else {
      var last, other := a[|a| - 1], b[|b| - 1];
      assert hash(last.event, last.prev) == hash(other.event, other.prev);
      TipDeterminesLedger(hash, genesis, a[..|a| - 1], b[..|b| - 1]);
      assert a == a[..|a| - 1] + [last] && b == b[..|b| - 1] + [other];
    }
  }

  lemma UpTo<E>(
      hash: (E, Hash) -> Hash, genesis: Hash, lines: seq<Line<E>>, i: nat)
    returns (r: seq<Line<E>>)
    requires Chained(hash, genesis, lines) && i < |lines|
    ensures r == lines[..i + 1] && |r| == i + 1 && r[i] == lines[i] && Chained(hash, genesis, r)
  {
    ChainedPrefix(hash, genesis, lines, i + 1);
    r := lines[..i + 1];
  }

  /** A recorded entry hash fixes everything up to that entry, in any two intact ledgers. */
  lemma {:induction false} RecordedHashFixesHistory<E(!new)>(
    hash: (E, Hash) -> Hash, genesis: Hash, a: seq<Line<E>>, b: seq<Line<E>>, i: nat, j: nat)
    requires Injective(hash, genesis)
    requires Chained(hash, genesis, a) && Chained(hash, genesis, b)
    requires i < |a| && j < |b| && a[i].Entry? && b[j].Entry? && a[i].hash == b[j].hash
    ensures i == j && a[..i + 1] == b[..j + 1]
  {
    var upToI := UpTo(hash, genesis, a, i);
    var upToJ := UpTo(hash, genesis, b, j);
    SameLastHash(hash, genesis, upToI, upToJ);
  }

  lemma {:induction false} SameLastHash<E(!new)>(
      hash: (E, Hash) -> Hash, genesis: Hash, a: seq<Line<E>>, b: seq<Line<E>>)
    requires Injective(hash, genesis)
    requires Chained(hash, genesis, a) && Chained(hash, genesis, b) && a != [] && b != []
    requires a[|a| - 1].Entry? && b[|b| - 1].Entry? && a[|a| - 1].hash == b[|b| - 1].hash
    ensures |a| == |b| && a == b
  {
    TipDeterminesLedger(hash, genesis, a, b);
  }
}
