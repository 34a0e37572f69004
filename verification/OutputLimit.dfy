/** internal/runner/output.go: one byte budget shared by the two output streams of a process. */
module OutputLimit {

  datatype Stream = Stdout | Stderr

  /** One call to Write on one of the two streams.  A sequence of these is one interleaving. */
  datatype Chunk = Chunk(to: Stream, data: string)

  function Budget(maxBytes: int): (b: nat)
    ensures b >= 1 && b >= maxBytes && (b == 1 || b == maxBytes)
  {
    if maxBytes <= 0 then 1 else maxBytes
  }

  class OutputLimiter {
    var remaining: int
    var truncated: bool

    constructor (maxBytes: int)
      ensures remaining == Budget(maxBytes) && !truncated
    {
      remaining := Budget(maxBytes);
      truncated := false;
    }
  }

  class LimitedStream {
    const limiter: OutputLimiter
    var buf: string

    constructor (l: OutputLimiter)
      ensures limiter == l && buf == ""
    {
      limiter := l;
      buf := "";
    }

    method Write(p: string) returns (n: int)
      modifies this, limiter
      ensures n == |p|
      ensures var before := Capture(old(buf), "", old(limiter.remaining), old(limiter.truncated));
              Capture(buf, "", limiter.remaining, limiter.truncated) == Step(before, Chunk(Stdout, p))
    {
      if limiter.remaining <= 0 {
        limiter.truncated := true;
        return |p|;
      }
      var kept := |p|;
      if kept > limiter.remaining {
        kept := limiter.remaining;
        limiter.truncated := true;
      }
      buf := buf + p[..kept];
      limiter.remaining := limiter.remaining - kept;
      n := |p|;
    }
  }

  // ----- the same state as a value, and runs over it -----

  datatype Capture = Capture(out: string, err: string, remaining: int, truncated: bool)

  function Kept(remaining: int, size: nat): (n: nat)
    ensures n <= size
  {
    if remaining <= 0 then 0 else if size > remaining then remaining else size
  }

  function Step(c: Capture, w: Chunk): Capture {
    var n := Kept(c.remaining, |w.data|);
    Capture(
      if w.to.Stdout? then c.out + w.data[..n] else c.out,
      if w.to.Stderr? then c.err + w.data[..n] else c.err,
      c.remaining - n,
      c.truncated || c.remaining <= 0 || |w.data| > c.remaining)
  }

  function Run(budget: nat, chunks: seq<Chunk>): Capture {
    if chunks == [] then Capture("", "", budget, false)
    else Step(Run(budget, chunks[..|chunks| - 1]), chunks[|chunks| - 1])
  }

  // ----- the simple specification: one merged, tagged byte sequence -----

  datatype Tagged = Tagged(of: Stream, byte: char)

  function TagAll(to: Stream, data: string): (r: seq<Tagged>)
    ensures |r| == |data|
  {
    seq(|data|, i requires 0 <= i < |data| => Tagged(to, data[i]))
  }

  function Merged(chunks: seq<Chunk>): seq<Tagged> {
    if chunks == [] then []
    else Merged(chunks[..|chunks| - 1]) + TagAll(chunks[|chunks| - 1].to, chunks[|chunks| - 1].data)
  }

  function Project(bytes: seq<Tagged>, s: Stream): string {
    if bytes == [] then ""
    else Project(bytes[..|bytes| - 1], s)
         + if bytes[|bytes| - 1].of == s then [bytes[|bytes| - 1].byte] else ""
  }

  function Clip(bytes: seq<Tagged>, budget: nat): seq<Tagged> {
    if |bytes| <= budget then bytes else bytes[..budget]
  }

  /** An empty write that arrives when the budget is already used up. */
  ghost predicate LateEmptyWrite(budget: nat, chunks: seq<Chunk>) {
    exists k :: LateEmptyAt(budget, chunks, k)
  }

  lemma ProjectOne(a: seq<Tagged>, t: Tagged, s: Stream)
    ensures Project(a + [t], s) == Project(a, s) + if t.of == s then [t.byte] else ""
  {
  }

  lemma {:induction false} ProjectAppend(a: seq<Tagged>, to: Stream, data: string, s: Stream)
    ensures Project(a + TagAll(to, data), s) == Project(a, s) + if to == s then data else ""
    decreases |data|
  {
    if data == "" {
      assert a + TagAll(to, data) == a;
    } else {
      var m := |data| - 1;
      var front := a + TagAll(to, data[..m]);
      assert a + TagAll(to, data) == front + [Tagged(to, data[m])];
      ProjectAppend(a, to, data[..m], s);
      ProjectOne(front, Tagged(to, data[m]), s);
      assert data == data[..m] + [data[m]];
    }
  }

  lemma {:induction false} ProjectSplitsBytes(bytes: seq<Tagged>)
    ensures |Project(bytes, Stdout)| + |Project(bytes, Stderr)| == |bytes|
  {
    if bytes != [] { ProjectSplitsBytes(bytes[..|bytes| - 1]); }
  }

  /** The limiter refines the specification: for every interleaving of writes the two buffers
      are the per-stream projections of the first `budget` bytes of the merged input, and
      captured bytes plus what remains is always the budget. */
  lemma {:induction false} LimiterRefinesMergedPrefix(budget: nat, chunks: seq<Chunk>)
    ensures var c := Run(budget, chunks); var first := Clip(Merged(chunks), budget);
            && c.out == Project(first, Stdout)
            && c.err == Project(first, Stderr)
            && c.remaining == budget - |first|
            && |c.out| + |c.err| + c.remaining == budget
  {
    ProjectSplitsBytes(Clip(Merged(chunks), budget));
    if chunks != [] {
      var m := |chunks| - 1;
      var prior, w := Merged(chunks[..m]), chunks[m];
      LimiterRefinesMergedPrefix(budget, chunks[..m]);
      var n := Kept(Run(budget, chunks[..m]).remaining, |w.data|);
      assert Clip(Merged(chunks), budget) == Clip(prior, budget) + TagAll(w.to, w.data[..n]);
      ProjectAppend(Clip(prior, budget), w.to, w.data[..n], Stdout);
      ProjectAppend(Clip(prior, budget), w.to, w.data[..n], Stderr);
    }
  }

  ghost predicate LateEmptyAt(budget: nat, chunks: seq<Chunk>, k: int) {
    0 <= k < |chunks| && chunks[k].data == "" && |Merged(chunks[..k])| >= budget
  }

  lemma LateEmptyWriteStep(budget: nat, chunks: seq<Chunk>)
    requires chunks != []
    ensures var m := |chunks| - 1;
            LateEmptyWrite(budget, chunks) <==> LateEmptyWrite(budget, chunks[..m]) || LateEmptyAt(budget, chunks, m)
  {
    var m := |chunks| - 1;
    forall k | 0 <= k < m ensures LateEmptyAt(budget, chunks, k) == LateEmptyAt(budget, chunks[..m], k) {
      assert chunks[..m][..k] == chunks[..k];
    }
    assert LateEmptyWrite(budget, chunks[..m]) ==> exists k :: 0 <= k < m && LateEmptyAt(budget, chunks, k);
  }

  /** Exactly when the truncation flag is set: the input exceeds the budget, or an empty write
      came after the budget was used up. */
  lemma {:induction false} TruncatedExactly(budget: nat, chunks: seq<Chunk>)
    ensures Run(budget, chunks).truncated <==>
            |Merged(chunks)| > budget || LateEmptyWrite(budget, chunks)
  {
    if chunks != [] {
      var m := |chunks| - 1;
      TruncatedExactly(budget, chunks[..m]);
      LimiterRefinesMergedPrefix(budget, chunks[..m]);
      LateEmptyWriteStep(budget, chunks);
    }
  }

  /** For writes that carry at least one byte the flag means what its name says. */
  lemma TruncatedMeansOverBudget(budget: nat, chunks: seq<Chunk>)
    requires forall k :: 0 <= k < |chunks| ==> chunks[k].data != ""
    ensures Run(budget, chunks).truncated <==> |Merged(chunks)| > budget
  {
    TruncatedExactly(budget, chunks);
  }

  /** The flag can be set although nothing was cut off. */
  lemma EmptyWriteSetsTruncated()
    ensures var chunks := [Chunk(Stdout, "a"), Chunk(Stderr, "")];
            Run(1, chunks).truncated && |Merged(chunks)| == 1
  {
  }

  /** A process run: both streams are made over one limiter, the process writes in some order,
      and the buffers and the flag are read at the end. */
  method CaptureOutput(maxBytes: int, chunks: seq<Chunk>) returns (out: string, err: string, truncated: bool)
    ensures out == Project(Clip(Merged(chunks), Budget(maxBytes)), Stdout)
    ensures err == Project(Clip(Merged(chunks), Budget(maxBytes)), Stderr)
    ensures |out| + |err| <= Budget(maxBytes)
    ensures truncated <==>
            |Merged(chunks)| > Budget(maxBytes) || LateEmptyWrite(Budget(maxBytes), chunks)
  {
    var budget := Budget(maxBytes);
    var limiter := new OutputLimiter(maxBytes);
    var stdout := new LimitedStream(limiter);
    var stderr := new LimitedStream(limiter);
    for i := 0 to |chunks|
      invariant stdout.limiter == limiter && stderr.limiter == limiter && stdout != stderr
      invariant Capture(stdout.buf, stderr.buf, limiter.remaining, limiter.truncated) == Run(budget, chunks[..i])
    {
      assert chunks[..i + 1][..i] == chunks[..i];
      var n;
      match chunks[i].to {
        case Stdout => n := stdout.Write(chunks[i].data);
        case Stderr => n := stderr.Write(chunks[i].data);
      }
    }
    assert chunks[..|chunks|] == chunks;
    LimiterRefinesMergedPrefix(budget, chunks);
    TruncatedExactly(budget, chunks);
    out, err, truncated := stdout.buf, stderr.buf, limiter.truncated;
  }
}
