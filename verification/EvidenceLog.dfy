/**
 The bounded evidence log of a gate (skills/archipelago/protocol/scripts/loop.py, `stream_gate_pipe`):
 two reader threads hand chunks to one file under one lock. A run is the sequence of chunks in the
 order in which the lock was taken; characters stand for bytes.
 */
module EvidenceLog {
  import opened Outcomes

  const MAX_GATE_OUTPUT_BYTES := 1024 * 1024
  const READ_BYTES := 64 * 1024
  const FRAME_BYTES := 16
  const MAX_FRAMED_BYTES := FRAME_BYTES + READ_BYTES

  datatype Stream = Stdout | Stderr

  /** A chunk read from a pipe. With `fault == Some(n)` the write or flush raises after n bytes reached the file. */
  datatype Chunk = Chunk(stream: Stream, data: string, fault: Option<nat>)

  /** One number for each stream. */
  datatype Tally = Tally(stdout: int, stderr: int) {
    function Of(s: Stream): (r: int) { if s.Stdout? then stdout else stderr }

    function Plus(s: Stream, n: int): (r: Tally) {
      if s.Stdout? then Tally(stdout + n, stderr) else Tally(stdout, stderr + n)
    }

    function Total(): (r: int) { stdout + stderr }
  }

  /** `failed` holds the streams whose reader has stopped on an error. */
  datatype Log = Log(bytes: string, written: int, seen: Tally, kept: Tally, failed: set<Stream>)

  const START: Log := Log("", 0, Tally(0, 0), Tally(0, 0), {})

  function Prefix(stream: Stream): (r: string)
    ensures |r| == FRAME_BYTES
  {
    if stream.Stdout? then "\n--- stdout ---\n" else "\n--- stderr ---\n"
  }

  function Take<T>(s: seq<T>, n: int): (r: seq<T>) {
    if n <= 0 then [] else if |s| <= n then s else s[..n]
  }

  function Max(a: int, b: int): (r: int) { if a < b then b else a }

  function Min(a: int, b: int): (r: int) { if a < b then a else b }

  /** One chunk handled under the lock; `limit` is the budget. */
  function Step(limit: int, log: Log, c: Chunk): (r: Log) {
    if c.stream in log.failed then log
    else
      var counted := log.(seen := log.seen.Plus(c.stream, |c.data|));
      if limit <= log.written then counted
      else
        var accepted := Take(Prefix(c.stream) + c.data, limit - log.written);
        match c.fault
        case None =>
          counted.(bytes := log.bytes + accepted, written := log.written + |accepted|,
                   kept := log.kept.Plus(c.stream, Max(0, |accepted| - |Prefix(c.stream)|)))
        case Some(n) => counted.(bytes := log.bytes + Take(accepted, n), failed := log.failed + {c.stream})
  }

  function Run(limit: int, chunks: seq<Chunk>): (r: Log) {
    if chunks == [] then START
    else Step(limit, Run(limit, chunks[..|chunks| - 1]), chunks[|chunks| - 1])
  }

  /** The two threads' shared state; a call of `Receive` is one stay inside the lock. */
  class Evidence {
    var bytes: string
    var written: int
    var seen: Tally
    var kept: Tally
    var failed: set<Stream>

    ghost function Value(): (r: Log)
      reads this
    {
      Log(bytes, written, seen, kept, failed)
    }

    constructor ()
      ensures Value() == START
    {
      bytes, written, seen, kept, failed := "", 0, Tally(0, 0), Tally(0, 0), {};
    }

    method Receive(c: Chunk)
      modifies this
      ensures Value() == Step(MAX_GATE_OUTPUT_BYTES, old(Value()), c)
    {
      if c.stream in failed { return; }
      seen := seen.Plus(c.stream, |c.data|);
      var remaining := MAX_GATE_OUTPUT_BYTES - written;
      if remaining <= 0 { return; }
      var prefix := Prefix(c.stream);
      var framed := prefix + c.data;
      var accepted := Take(framed, remaining);
      if c.fault.Some? {
        bytes := bytes + Take(accepted, c.fault.value);
        failed := failed + {c.stream};
        return;
      }
      bytes := bytes + accepted;
      written := written + |accepted|;
      kept := kept.Plus(c.stream, Max(0, |accepted| - |prefix|));
    }

    /** Any schedule of the two readers. */
    method ReceiveAll(chunks: seq<Chunk>)
      requires Value() == START
      modifies this
      ensures Value() == Run(MAX_GATE_OUTPUT_BYTES, chunks)
    {
      for i := 0 to |chunks|
        invariant Value() == Run(MAX_GATE_OUTPUT_BYTES, chunks[..i])
      {
        Receive(chunks[i]);
        assert chunks[..i + 1][..i] == chunks[..i];
      }
      assert chunks[..|chunks|] == chunks;
    }
  }

  // ---------- Every schedule, faults included ----------

  /** What `pipe.read` can return before the end of the stream. */
  predicate ReadSized(c: Chunk) { 0 < |c.data| <= READ_BYTES }

  ghost predicate Readable(chunks: seq<Chunk>) {
    forall i :: 0 <= i < |chunks| ==> ReadSized(chunks[i])
  }

  /** One framed chunk for each failed stream. */
  function Uncounted(failed: set<Stream>): (r: nat) {
    (if Stdout in failed then MAX_FRAMED_BYTES else 0) + (if Stderr in failed then MAX_FRAMED_BYTES else 0)
  }

  ghost predicate Safe(limit: nat, log: Log) {
    0 <= log.written <= limit && log.written <= |log.bytes| &&
    (forall s: Stream :: 0 <= log.kept.Of(s) <= log.seen.Of(s)) &&
    |log.bytes| <= log.written + Uncounted(log.failed) && |log.bytes| <= limit + MAX_FRAMED_BYTES
  }

  lemma StepKeepsSafe(limit: nat, log: Log, c: Chunk)
    requires Safe(limit, log) && ReadSized(c)
    ensures Safe(limit, Step(limit, log, c))
  {
    var next := Step(limit, log, c);
    assert 0 <= log.kept.Of(Stdout) <= log.seen.Of(Stdout) && 0 <= log.kept.Of(Stderr) <= log.seen.Of(Stderr);
    if c.stream !in log.failed && log.written < limit {
      var accepted := Take(Prefix(c.stream) + c.data, limit - log.written);
      assert |accepted| <= limit - log.written && |accepted| <= MAX_FRAMED_BYTES;
      assert |log.bytes| <= log.written + MAX_FRAMED_BYTES;
    }
    assert 0 <= next.kept.stdout <= next.seen.stdout && 0 <= next.kept.stderr <= next.seen.stderr;
  }

  /**
   However the readers interleave and fail: the counters stay in bounds, each failed stream leaves at
   most one framed chunk uncounted, and the file exceeds the limit by at most one framed chunk.
   */
  lemma {:induction false} RunIsSafe(limit: nat, chunks: seq<Chunk>)
    requires Readable(chunks)
    ensures Safe(limit, Run(limit, chunks))
  {
    if chunks == [] {
    } else {
      RunIsSafe(limit, chunks[..|chunks| - 1]);
      StepKeepsSafe(limit, Run(limit, chunks[..|chunks| - 1]), chunks[|chunks| - 1]);
    }
  }

  /** The chunk is written, whole or cut to the budget, and the write raises. */
  predicate Fails(limit: nat, log: Log, c: Chunk) {
    c.stream !in log.failed && log.written < limit && c.fault.Some?
  }

  /** Bytes that handling this chunk leaves in the file uncounted. */
  function LostBy(limit: nat, log: Log, c: Chunk): (r: nat) {
    if Fails(limit, log, c) then |Take(Take(Prefix(c.stream) + c.data, limit - log.written), c.fault.value)| else 0
  }

  /** Bytes that failed writes left in the file. */
  function Lost(limit: nat, chunks: seq<Chunk>): (r: nat) {
    if chunks == [] then 0
    else
      var log, c := Run(limit, chunks[..|chunks| - 1]), chunks[|chunks| - 1];
      Lost(limit, chunks[..|chunks| - 1]) + LostBy(limit, log, c)
  }

  /** The chunks that a reader handled without an error, in lock order. */
  function Counted(limit: nat, chunks: seq<Chunk>): (r: seq<Chunk>) {
    if chunks == [] then []
    else
      var log, c := Run(limit, chunks[..|chunks| - 1]), chunks[|chunks| - 1];
      Counted(limit, chunks[..|chunks| - 1]) + if c.stream in log.failed || Fails(limit, log, c) then [] else [c]
  }

  lemma {:induction false} FramedSnoc(front: seq<Chunk>, c: Chunk)
    ensures |Framed(front + [c])| == |Framed(front)| + FRAME_BYTES + |c.data|
  {
    assert (front + [c])[..|front|] == front;
  }

  lemma {:induction false} RunSnoc(limit: nat, front: seq<Chunk>, c: Chunk)
    ensures var log := Run(limit, front);
            Run(limit, front + [c]) == Step(limit, log, c) &&
            Lost(limit, front + [c]) == Lost(limit, front) + LostBy(limit, log, c) &&
            Counted(limit, front + [c]) == Counted(limit, front) +
              if c.stream in log.failed || Fails(limit, log, c) then [] else [c]
  {
    assert (front + [c])[..|front|] == front;
  }

  lemma FileSizeStep(limit: nat, log: Log, c: Chunk, framed: nat, lost: nat)
    requires log.written == Min(limit, framed) && |log.bytes| == log.written + lost
    ensures var next, kept := Step(limit, log, c), !(c.stream in log.failed || Fails(limit, log, c));
            next.written == Min(limit, if kept then framed + FRAME_BYTES + |c.data| else framed) &&
            |next.bytes| == next.written + lost + LostBy(limit, log, c)
  {
  }

  /** The file holds the counted bytes, cut at the limit, and the lost ones. */
  lemma {:induction false} FileSize(limit: nat, chunks: seq<Chunk>)
    ensures Run(limit, chunks).written == Min(limit, |Framed(Counted(limit, chunks))|)
    ensures |Run(limit, chunks).bytes| == Run(limit, chunks).written + Lost(limit, chunks)
  {
    if chunks == [] {
    } else {
      var front, c := chunks[..|chunks| - 1], chunks[|chunks| - 1];
      FileSize(limit, front);
      FileSizeStep(limit, Run(limit, front), c, |Framed(Counted(limit, front))|, Lost(limit, front));
      FramedSnoc(Counted(limit, front), c);
      assert Counted(limit, front) + [] == Counted(limit, front);
    }
  }

  /** The file exceeds the limit exactly when bytes were lost and, with the counted ones, are too many. */
  lemma {:induction false} FileExceedsLimitIff(limit: nat, chunks: seq<Chunk>)
    ensures |Run(limit, chunks).bytes| > limit <==>
            (Lost(limit, chunks) > 0 && |Framed(Counted(limit, chunks))| + Lost(limit, chunks) > limit)
  {
    FileSize(limit, chunks);
  }

  /** Standard output fails after a whole framed chunk; standard error goes on for n chunks. */
  function Overflow(data: string, n: nat): (r: seq<Chunk>) {
    [Chunk(Stdout, data, Some(MAX_FRAMED_BYTES))] + Repeat(Chunk(Stderr, data, None), n)
  }

  /** The bytes of n framed chunks of full size. */
  function FullFrames(n: nat): (r: nat) {
    if n == 0 then 0 else FullFrames(n - 1) + MAX_FRAMED_BYTES
  }

  lemma FourMore(n: nat)
    ensures FullFrames(n + 4) == FullFrames(n) + 4 * MAX_FRAMED_BYTES
  {
    assert FullFrames(n + 2) == FullFrames(n + 1) + MAX_FRAMED_BYTES;
    assert FullFrames(n + 4) == FullFrames(n + 3) + MAX_FRAMED_BYTES;
  }

  lemma {:induction false} OverflowStarts(limit: nat, data: string)
    requires |data| == READ_BYTES && MAX_FRAMED_BYTES <= limit
    ensures Run(limit, Overflow(data, 0)).failed == {Stdout}
    ensures Lost(limit, Overflow(data, 0)) == MAX_FRAMED_BYTES && Counted(limit, Overflow(data, 0)) == []
  {
    var first := Chunk(Stdout, data, Some(MAX_FRAMED_BYTES));
    assert Overflow(data, 0) == [] + [first];
    RunSnoc(limit, [], first);
    assert |Prefix(Stdout) + data| == MAX_FRAMED_BYTES;
  }

  lemma OverflowSnoc(data: string, n: nat)
    requires n > 0
    ensures Overflow(data, n) == Overflow(data, n - 1) + [Chunk(Stderr, data, None)]
  {
  }

  /** A chunk of the reader that has not failed. */
  lemma {:induction false} OtherReaderContinues(limit: nat, front: seq<Chunk>, c: Chunk)
    requires c.stream !in Run(limit, front).failed && c.fault.None?
    ensures Run(limit, front + [c]).failed == Run(limit, front).failed
    ensures Lost(limit, front + [c]) == Lost(limit, front)
    ensures |Framed(Counted(limit, front + [c]))| == |Framed(Counted(limit, front))| + FRAME_BYTES + |c.data|
  {
    RunSnoc(limit, front, c);
    FramedSnoc(Counted(limit, front), c);
  }

  lemma {:induction false} OverflowRun(limit: nat, data: string, n: nat)
    requires |data| == READ_BYTES && MAX_FRAMED_BYTES <= limit
    ensures Run(limit, Overflow(data, n)).failed == {Stdout}
    ensures Lost(limit, Overflow(data, n)) == MAX_FRAMED_BYTES
    ensures |Framed(Counted(limit, Overflow(data, n)))| == FullFrames(n)
  {
    if n == 0 {
      OverflowStarts(limit, data);
    } else {
      OverflowRun(limit, data, n - 1);
      OverflowSnoc(data, n);
      OtherReaderContinues(limit, Overflow(data, n - 1), Chunk(Stderr, data, None));
    }
  }

  /** The bound of `RunIsSafe` is reached, by chunks the readers can read. */
  lemma FileCanExceedLimit(data: string)
    requires |data| == READ_BYTES
    ensures Readable(Overflow(data, 16))
    ensures |Run(MAX_GATE_OUTPUT_BYTES, Overflow(data, 16)).bytes| == MAX_GATE_OUTPUT_BYTES + MAX_FRAMED_BYTES
  {
    FourMore(0); FourMore(4); FourMore(8); FourMore(12);
    OverflowRun(MAX_GATE_OUTPUT_BYTES, data, 16);
    FileSize(MAX_GATE_OUTPUT_BYTES, Overflow(data, 16));
  }

  // ---------- Schedules without faults ----------

  /** Everything received, framed, in lock order. */
  function Framed(chunks: seq<Chunk>): (r: string) {
    if chunks == [] then ""
    else
      var c := chunks[|chunks| - 1];
      Framed(chunks[..|chunks| - 1]) + (Prefix(c.stream) + c.data)
  }

  lemma {:induction false} FramedConcat(a: seq<Chunk>, b: seq<Chunk>)
    ensures Framed(a + b) == Framed(a) + Framed(b)
    decreases |b|
  {
    if b == [] {
      assert a + b == a;
    } else {
      var front, c := b[..|b| - 1], b[|b| - 1];
      assert (a + b)[..|a + b| - 1] == a + front && (a + b)[|a + b| - 1] == c;
      FramedConcat(a, front);
      assert Framed(a) + (Framed(front) + (Prefix(c.stream) + c.data)) ==
             Framed(a) + Framed(front) + (Prefix(c.stream) + c.data);
    }
  }

  lemma {:induction false} FramedAround(before: seq<Chunk>, c: Chunk, after: seq<Chunk>, frame: string)
    requires frame == Prefix(c.stream)
    ensures Framed(before + [c] + after) == Framed(before) + frame + c.data + Framed(after)
  {
    FramedConcat(before + [c], after);
    FramedConcat(before, [c]);
    assert Framed([c]) == Framed([]) + (frame + c.data);
    assert Framed(before) + (frame + c.data) == Framed(before) + frame + c.data;
  }

  /** Each chunk stands in the log behind the label of its own stream. */
  lemma {:induction false} ChunkBehindLabel(before: seq<Chunk>, c: Chunk, after: seq<Chunk>)
    ensures c.stream == Stdout ==>
              Framed(before + [c] + after) == Framed(before) + "\n--- stdout ---\n" + c.data + Framed(after)
    ensures c.stream == Stderr ==>
              Framed(before + [c] + after) == Framed(before) + "\n--- stderr ---\n" + c.data + Framed(after)
  {
    FramedAround(before, c, after, Prefix(c.stream));
  }

  function Repeat<T>(x: T, n: nat): (r: seq<T>)
    ensures |r| == n && forall i :: 0 <= i < n ==> r[i] == x
  {
    seq(n, _ => x)
  }

  function Owner(c: Chunk): (r: seq<Option<Stream>>) {
    Repeat(None, |Prefix(c.stream)|) + Repeat(Some(c.stream), |c.data|)
  }

  /** For each byte of `Framed`, the stream it is payload of; `None` for framing. */
  function Owners(chunks: seq<Chunk>): (r: seq<Option<Stream>>)
    ensures |r| == |Framed(chunks)|
  {
    if chunks == [] then []
    else Owners(chunks[..|chunks| - 1]) + Owner(chunks[|chunks| - 1])
  }

  function Count(s: Stream, owners: seq<Option<Stream>>): (r: nat)
    ensures r <= |owners|
  {
    if owners == [] then 0
    else Count(s, owners[..|owners| - 1]) + (if owners[|owners| - 1] == Some(s) then 1 else 0)
  }

  lemma {:induction false} CountConcat(s: Stream, a: seq<Option<Stream>>, b: seq<Option<Stream>>)
    ensures Count(s, a + b) == Count(s, a) + Count(s, b)
    decreases |b|
  {
    if b == [] {
      assert a + b == a;
    } else {
      CountConcat(s, a, b[..|b| - 1]);
      assert (a + b)[..|a + b| - 1] == a + b[..|b| - 1];
    }
  }

  lemma {:induction false} CountRepeat(s: Stream, x: Option<Stream>, n: nat)
    ensures Count(s, Repeat(x, n)) == if x == Some(s) then n else 0
  {
    if n == 0 {
    } else {
      assert Repeat(x, n)[..n - 1] == Repeat(x, n - 1);
      CountRepeat(s, x, n - 1);
    }
  }

  lemma TakeConcat<T>(a: seq<T>, b: seq<T>, n: int)
    ensures Take(a + b, n) == if n <= |a| then Take(a, n) else a + Take(b, n - |a|)
  {
  }

  /** How many payload bytes the first n bytes of one framed chunk hold. */
  lemma {:induction false} CountOwner(s: Stream, c: Chunk, n: int)
    ensures Count(s, Take(Owner(c), n)) ==
            if s != c.stream then 0 else Max(0, |Take(Prefix(s) + c.data, n)| - |Prefix(s)|)
  {
    var p, d := |Prefix(c.stream)|, |c.data|;
    TakeConcat(Repeat<Option<Stream>>(None, p), Repeat(Some(c.stream), d), n);
    if 0 < n <= p {
      assert Take(Repeat<Option<Stream>>(None, p), n) == Repeat(None, n);
      CountRepeat(s, None, n);
    } else if p < n {
      var k := if d <= n - p then d else n - p;
      assert Take(Repeat(Some(c.stream), d), n - p) == Repeat(Some(c.stream), k);
      CountRepeat(s, None, p);
      CountRepeat(s, Some(c.stream), k);
      CountConcat(s, Repeat(None, p), Repeat(Some(c.stream), k));
    }
  }

  ghost predicate Faultless(chunks: seq<Chunk>) {
    forall i :: 0 <= i < |chunks| ==> chunks[i].fault.None?
  }

  /** The log holds exactly the first `limit` bytes of the framed chunks, and counts their payload. */
  ghost predicate Exact(limit: int, log: Log, chunks: seq<Chunk>) {
    log.bytes == Take(Framed(chunks), limit) && log.written == |log.bytes| && log.failed == {} &&
    forall s: Stream ::
      log.seen.Of(s) == Count(s, Owners(chunks)) && log.kept.Of(s) == Count(s, Take(Owners(chunks), limit))
  }

  lemma {:induction false} CountStep(limit: int, s: Stream, owners: seq<Option<Stream>>, c: Chunk)
    ensures Count(s, owners + Owner(c)) == Count(s, owners) + (if s == c.stream then |c.data| else 0)
    ensures Count(s, Take(owners + Owner(c), limit)) ==
            Count(s, Take(owners, limit)) +
            (if |owners| < limit && s == c.stream
             then Max(0, |Take(Prefix(s) + c.data, limit - |owners|)| - |Prefix(s)|) else 0)
  {
    CountConcat(s, owners, Owner(c));
    CountOwner(s, c, |Owner(c)|);
    assert Take(Owner(c), |Owner(c)|) == Owner(c);
    TakeConcat(owners, Owner(c), limit);
    if |owners| < limit {
      CountConcat(s, owners, Take(Owner(c), limit - |owners|));
      CountOwner(s, c, limit - |owners|);
    }
  }

  lemma StepBytes(limit: nat, log: Log, framed: string, c: Chunk)
    requires log.bytes == Take(framed, limit) && log.written == |log.bytes| && log.failed == {} && c.fault.None?
    ensures var next := Step(limit, log, c);
            next.bytes == Take(framed + (Prefix(c.stream) + c.data), limit) &&
            next.written == |next.bytes| && next.failed == {}
  {
    TakeConcat(framed, Prefix(c.stream) + c.data, limit);
  }

  lemma StepCounts(limit: nat, log: Log, c: Chunk, s: Stream)
    requires 0 <= log.written <= limit && log.failed == {} && c.fault.None?
    ensures var next := Step(limit, log, c);
            next.seen.Of(s) == log.seen.Of(s) + (if s == c.stream then |c.data| else 0) &&
            next.kept.Of(s) == log.kept.Of(s) +
              (if log.written < limit && s == c.stream
               then Max(0, |Take(Prefix(s) + c.data, limit - log.written)| - |Prefix(s)|) else 0)
  {
  }

  lemma {:induction false} StepIsExact(limit: nat, log: Log, owners: seq<Option<Stream>>, c: Chunk, s: Stream)
    requires log.failed == {} && c.fault.None?
    requires log.written == if |owners| < limit then |owners| else limit
    requires log.seen.Of(s) == Count(s, owners) && log.kept.Of(s) == Count(s, Take(owners, limit))
    ensures Step(limit, log, c).seen.Of(s) == Count(s, owners + Owner(c))
    ensures Step(limit, log, c).kept.Of(s) == Count(s, Take(owners + Owner(c), limit))
  {
    StepCounts(limit, log, c, s);
    CountStep(limit, s, owners, c);
  }

  lemma {:induction false} FaultlessRunIsExact(limit: nat, chunks: seq<Chunk>)
    requires Faultless(chunks)
    ensures Exact(limit, Run(limit, chunks), chunks)
  {
    if chunks == [] {
    } else {
      var front, c := chunks[..|chunks| - 1], chunks[|chunks| - 1];
      FaultlessRunIsExact(limit, front);
      StepBytes(limit, Run(limit, front), Framed(front), c);
      forall s: Stream { StepIsExact(limit, Run(limit, front), Owners(front), c, s); }
    }
  }

  /** The log is a prefix of the framed chunks, and all of them when they fit. */
  lemma {:induction false} FaultlessIsPrefix(limit: nat, chunks: seq<Chunk>)
    requires Faultless(chunks)
    ensures var log := Run(limit, chunks);
            log.bytes <= Framed(chunks) && |log.bytes| == log.written <= limit &&
            (|log.bytes| == limit || log.bytes == Framed(chunks))
  {
    FaultlessRunIsExact(limit, chunks);
  }

  lemma {:induction false} CountBySplit(s: Stream, owners: seq<Option<Stream>>, n: nat)
    requires n <= |owners|
    ensures Count(s, owners) == Count(s, owners[..n]) + Count(s, owners[n..])
  {
    assert owners == owners[..n] + owners[n..];
    CountConcat(s, owners[..n], owners[n..]);
  }

  lemma {:induction false} CountPositive(s: Stream, owners: seq<Option<Stream>>)
    ensures 0 < Count(s, owners) <==> exists i :: 0 <= i < |owners| && owners[i] == Some(s)
  {
    if owners == [] {
    } else {
      var front := owners[..|owners| - 1];
      CountPositive(s, front);
      if i :| 0 <= i < |owners| && owners[i] == Some(s) && i < |front| {
        assert front[i] == Some(s);
      }
    }
  }

  lemma {:induction false} DroppedIffBeyond(s: Stream, owners: seq<Option<Stream>>, limit: nat)
    ensures Count(s, Take(owners, limit)) <= Count(s, owners)
    ensures Count(s, Take(owners, limit)) < Count(s, owners) <==>
            exists i :: limit <= i < |owners| && owners[i] == Some(s)
  {
    if limit <= |owners| {
      assert Take(owners, limit) == owners[..limit];
      CountBySplit(s, owners, limit);
      CountPositive(s, owners[limit..]);
      if i :| limit <= i < |owners| && owners[i] == Some(s) {
        assert owners[limit..][i - limit] == Some(s);
      }
    }
  }

  ghost predicate PayloadBeyond(limit: nat, chunks: seq<Chunk>) {
    exists i :: limit <= i < |Owners(chunks)| && Owners(chunks)[i] != None
  }

  /** Without faults, `truncated` is reported exactly when some payload byte lies beyond the limit. */
  lemma {:induction false} TruncatedIffPayloadDropped(limit: nat, chunks: seq<Chunk>)
    requires Faultless(chunks)
    ensures Run(limit, chunks).seen.Total() > Run(limit, chunks).kept.Total() <==> PayloadBeyond(limit, chunks)
  {
    FaultlessRunIsExact(limit, chunks);
    DroppedIffBeyond(Stdout, Owners(chunks), limit);
    DroppedIffBeyond(Stderr, Owners(chunks), limit);
    BeyondByStream(limit, Owners(chunks));
  }

  lemma BeyondByStream(limit: nat, owners: seq<Option<Stream>>)
    ensures (exists i :: limit <= i < |owners| && owners[i] != None) <==>
            ((exists i :: limit <= i < |owners| && owners[i] == Some(Stdout)) ||
             (exists i :: limit <= i < |owners| && owners[i] == Some(Stderr)))
  {
    if i :| limit <= i < |owners| && owners[i] != None {
      match owners[i].value
      case Stdout => assert owners[i] == Some(Stdout);
      case Stderr => assert owners[i] == Some(Stderr);
    }
  }

  /** Faults or not, a log not reported as truncated holds every byte that was read. */
  lemma {:induction false} NotTruncatedIsComplete(limit: nat, chunks: seq<Chunk>)
    requires Readable(chunks)
    requires Run(limit, chunks).seen.Total() == Run(limit, chunks).kept.Total()
    ensures Run(limit, chunks).failed == {} && Run(limit, chunks).bytes == Framed(chunks)
  {
    if chunks == [] {
    } else {
      var front, c := chunks[..|chunks| - 1], chunks[|chunks| - 1];
      RunIsSafe(limit, front);
      var log := Run(limit, front);
      assert 0 <= log.kept.Of(Stdout) <= log.seen.Of(Stdout) && 0 <= log.kept.Of(Stderr) <= log.seen.Of(Stderr);
      CompleteStep(limit, log, c);
      NotTruncatedIsComplete(limit, front);
    }
  }

  lemma CompleteStep(limit: nat, log: Log, c: Chunk)
    requires c.data != "" && log.kept.Total() <= log.seen.Total()
    requires Step(limit, log, c).seen.Total() == Step(limit, log, c).kept.Total()
    ensures log.seen.Total() == log.kept.Total()
    ensures log.failed == {} ==>
              Step(limit, log, c).failed == {} && Step(limit, log, c).bytes == log.bytes + (Prefix(c.stream) + c.data)
  {
  }
}
