/**
 * The windowing engine (`Window` in audio_preprocessing/transforms/_window.py).
 *
 * The waveform enters only through its length `n`; the chunk size `c` and the
 * context size `x` are sample counts. `W = c + x` is the full window width.
 * The tensor expressions of the source are functions here; the stage itself is
 * the class `Window`, whose `Apply` writes the snippet fields of a sample.
 */
module Windowing {
  import opened Wrappers
  import opened SampleRecord

  /** Errors raised by `Window.__call__`. */
  datatype WindowError =
    | SampleRateMismatch(found: int, expected: int)  // the sample-rate assertion
    | ScalarWaveform                                  // a one-sample waveform squeezes to a 0-dim tensor, which has no `shape[0]`
    | NoSnippets(length: nat)                         // the ValueError: no end-points at all
    | NoSnippetLength                                 // indexing the empty span tensor under full context

  function Max0(v: int): nat { if v > 0 then v else 0 }

  /** `torch.cat` of a list of one-dimensional tensors; also a batch list read back as one list. */
  function Concat<T>(parts: seq<seq<T>>): seq<T>
  {
    if parts == [] then [] else parts[0] + Concat(parts[1..])
  }

  lemma {:induction false} ConcatAppend<T>(a: seq<seq<T>>, b: seq<seq<T>>)
    ensures Concat(a + b) == Concat(a) + Concat(b)
  {
    if a == [] {
      assert a + b == b;
    } else {
      assert (a + b)[1..] == a[1..] + b;
      ConcatAppend(a[1..], b);
    }
  }

  /** End values are strictly increasing. */
  ghost predicate Increasing(s: seq<int>)
  {
    forall i, j :: 0 <= i < j < |s| ==> s[i] < s[j]
  }

  /** Snippet ends are strictly increasing. */
  ghost predicate EndsIncreasing(ts: seq<Span>)
  {
    forall i, j :: 0 <= i < j < |ts| ==> ts[i].end < ts[j].end
  }

  /** Every snippet of the list has the same span. */
  ghost predicate UniformSpan(ts: seq<Span>)
  {
    forall t, u :: t in ts && u in ts ==> t.Length() == u.Length()
  }

  // ---------------------------------------------------------------- end-points

  lemma MulSucc(k: int, step: int)
    ensures (k + 1) * step == k * step + step
  {
  }

  lemma MulNonneg(k: nat, step: nat)
    ensures k * step >= 0
  {
  }

  /** `torch.arange(lo, hi, step)`: lo, lo + step, lo + 2*step, ... strictly below hi. */
  function Arange(lo: int, hi: int, step: nat): (r: seq<int>)
    requires step > 0
    ensures forall k :: 0 <= k < |r| ==> r[k] == lo + k * step && r[k] < hi
    ensures lo + |r| * step >= hi
    ensures Increasing(r)
    decreases hi - lo
  {
    if lo < hi then
      var rest := Arange(lo + step, hi, step);
      var r := [lo] + rest;
      assert forall k :: 1 <= k < |r| ==> r[k] == rest[k - 1];
      assert forall k :: 0 <= k < |r| ==> r[k] == lo + k * step by {
        forall k | 1 <= k < |r| ensures r[k] == lo + k * step {
          MulSucc(k - 1, step);
        }
      }
      assert forall k :: 1 <= k < |r| ==> lo < r[k] by {
        forall k | 1 <= k < |r| ensures lo < r[k] {
          MulNonneg(k - 1, step);
        }
      }
      MulSucc(|rest|, step);
      r
    else
      []
  }

  /**
   * Warm-up end-points: `torch.arange(c, x + c, c)`, the multiples of `c` strictly
   * below the full window width. They are not compared with the waveform length.
   */
  function WarmupEnds(c: nat, x: nat): (r: seq<int>)
    requires c > 0
    ensures forall k :: 0 <= k < |r| ==> r[k] == (k + 1) * c && r[k] < c + x
    ensures (|r| + 1) * c >= c + x
    ensures Increasing(r)
  {
    var r := Arange(c, x + c, c);
    assert forall k :: 0 <= k < |r| ==> c + k * c == (k + 1) * c;
    assert c + |r| * c == (|r| + 1) * c;
    r
  }

  /**
   * The end (last index + 1) of every window of `size` samples that starts at
   * `from`, `from + step`, ... and fits in [0, n): `arange(n).unfold(0, size, step)[:, -1] + 1`
   * taken from the slide position `from` on.
   */
  function SlidingEnds(from: int, n: int, size: nat, step: nat): (r: seq<int>)
    requires step > 0
    ensures forall k :: 0 <= k < |r| ==> r[k] == from + size + k * step && r[k] <= n
    ensures from + size + |r| * step > n
    ensures Increasing(r)
    decreases n - from
  {
    if from + size <= n then
      var rest := SlidingEnds(from + step, n, size, step);
      var r := [from + size] + rest;
      assert forall k :: 1 <= k < |r| ==> r[k] == rest[k - 1];
      assert forall k :: 0 <= k < |r| ==> r[k] == from + size + k * step by {
        forall k | 1 <= k < |r| ensures r[k] == from + size + k * step {
          MulSucc(k - 1, step);
        }
      }
      assert forall k :: 1 <= k < |r| ==> from + size < r[k] by {
        forall k | 1 <= k < |r| ensures from + size < r[k] {
          MulNonneg(k - 1, step);
        }
      }
      MulSucc(|rest|, step);
      r
    else
      []
  }

  /** Full-context end-points: every slide of width `c + x` and stride `c` over [0, n). */
  function FullEnds(n: nat, c: nat, x: nat): (r: seq<int>)
    requires c > 0
    ensures forall k :: 0 <= k < |r| ==> r[k] == c + x + k * c <= n
    ensures n >= c + x ==> |r| == (n - (c + x)) / c + 1
    ensures n < c + x ==> r == []
  {
    var r := SlidingEnds(0, n, c + x, c);
    if n >= c + x then
      var k := |r|;
      assert k > 0;
      assert r[k - 1] == c + x + (k - 1) * c;
      DivBetween(n - (c + x), c, k - 1);
      r
    else
      r
  }

  /**
   * The list `snippet_ends` of end-point tensors before concatenation: `[[n]]` in
   * skip mode; otherwise the warm-up tensor (always appended unless full context is
   * required, even when empty) and the full-context tensor when `n >= c + x`.
   */
  function EndParts(n: nat, c: nat, x: nat, rfc: bool, skip: bool): (r: seq<seq<int>>)
    requires skip || c > 0
    ensures 1 <= |r| <= 2 || r == []
    ensures r == [] <==> !skip && rfc && n < c + x
  {
    if skip then [[n]]
    else (if rfc then [] else [WarmupEnds(c, x)]) + (if n >= c + x then [FullEnds(n, c, x)] else [])
  }

  /**
   * The concatenated end-points (`torch.cat`): `[n]` in skip mode, otherwise the
   * warm-up ends (unless full context is required) followed by the full-context ends.
   */
  function Ends(n: nat, c: nat, x: nat, rfc: bool, skip: bool): (r: seq<int>)
    requires skip || c > 0
    ensures skip ==> r == [n]
    ensures !skip ==> r == (if rfc then [] else WarmupEnds(c, x)) + (if n >= c + x then FullEnds(n, c, x) else [])
  {
    var parts := EndParts(n, c, x, rfc, skip);
    if skip then
      ConcatSingle<int>([n]);
      Concat(parts)
    else
      var a: seq<seq<int>> := if rfc then [] else [WarmupEnds(c, x)];
      var b: seq<seq<int>> := if n >= c + x then [FullEnds(n, c, x)] else [];
      assert parts == a + b;
      ConcatAppend(a, b);
      ConcatSingle(WarmupEnds(c, x));
      ConcatSingle(FullEnds(n, c, x));
      Concat(parts)
  }

  // ---------------------------------------------------------------- snippets

  /**
   * Pair every end-point `e` with the start `max(0, e - w)`: a snippet ending at or past
   * `w` spans exactly `w`, an earlier one starts at 0.
   */
  function StartsFor(ends: seq<int>, w: nat): (r: seq<Span>)
    ensures |r| == |ends|
    ensures forall i :: 0 <= i < |ends| ==> r[i].end == ends[i] && 0 <= r[i].start
    ensures forall i :: 0 <= i < |ends| && ends[i] >= w ==> r[i].Length() == w
    ensures forall i :: 0 <= i < |ends| && ends[i] < w ==> r[i].start == 0
  {
    seq(|ends|, i requires 0 <= i < |ends| => Span(Max0(ends[i] - w), ends[i]))
  }

  /** The snippets before filtering: `(0, n)` in skip mode, else each end with its start. */
  function Candidates(n: nat, c: nat, x: nat, rfc: bool, skip: bool): (r: seq<Span>)
    requires skip || c > 0
    ensures EndsIncreasing(r)
  {
    EndsIncrease(n, c, x, rfc, skip);
    if skip then [Span(0, n)] else StartsFor(Ends(n, c, x, rfc, skip), c + x)
  }

  predicate LongEnough(t: Span, m: real)
  {
    (t.end - t.start) as real >= m
  }

  /** The minimum-length filter: keep, in order, the snippets whose span is at least `m`. */
  function KeepLong(ts: seq<Span>, m: real): (r: seq<Span>)
    ensures forall t :: t in r <==> t in ts && LongEnough(t, m)
    ensures |r| <= |ts|
    ensures EndsIncreasing(ts) ==> EndsIncreasing(r)
  {
    if ts == [] then []
    else
      var rest := KeepLong(ts[1..], m);
      KeepLongStep(ts, m, rest);
      (if LongEnough(ts[0], m) then [ts[0]] else []) + rest
  }

  /** One step of the filter: the head kept or dropped in front of the filtered tail. */
  lemma KeepLongStep(ts: seq<Span>, m: real, rest: seq<Span>)
    requires ts != []
    requires forall t :: t in rest <==> t in ts[1..] && LongEnough(t, m)
    requires |rest| <= |ts| - 1
    requires EndsIncreasing(ts[1..]) ==> EndsIncreasing(rest)
    ensures var r := (if LongEnough(ts[0], m) then [ts[0]] else []) + rest;
      && (forall t :: t in r <==> t in ts && LongEnough(t, m))
      && |r| <= |ts|
      && (EndsIncreasing(ts) ==> EndsIncreasing(r))
  {
    assert forall t :: t in ts <==> t == ts[0] || t in ts[1..];
    if EndsIncreasing(ts) {
      assert EndsIncreasing(ts[1..]) by {
        forall i, j | 0 <= i < j < |ts[1..]|
          ensures ts[1..][i].end < ts[1..][j].end
        {
          assert ts[1..][i] == ts[i + 1] && ts[1..][j] == ts[j + 1];
        }
      }
      forall t | t in rest
        ensures ts[0].end < t.end
      {
        var j :| 0 <= j < |ts[1..]| && ts[1..][j] == t;
        assert ts[j + 1] == t;
      }
      PrependIncreasing(ts[0], rest);
    }
  }

  lemma PrependIncreasing(t: Span, rest: seq<Span>)
    requires EndsIncreasing(rest)
    requires forall u :: u in rest ==> t.end < u.end
    ensures EndsIncreasing([t] + rest)
  {
    var r := [t] + rest;
    forall i, j | 0 <= i < j < |r|
      ensures r[i].end < r[j].end
    {
      assert r[j] == rest[j - 1];
      if i > 0 {
        assert r[i] == rest[i - 1];
      } else {
        assert r[j] in rest;
      }
    }
  }

  /**
   * The retained `snippet_times`: exactly the candidates whose span reaches the minimum
   * length, in their original order (ends still strictly increasing).
   */
  function Retained(n: nat, c: nat, x: nat, rfc: bool, skip: bool, m: real): (r: seq<Span>)
    requires skip || c > 0
    ensures forall t :: t in r <==> t in Candidates(n, c, x, rfc, skip) && t.Length() as real >= m
    ensures EndsIncreasing(r)
  {
    KeepLong(Candidates(n, c, x, rfc, skip), m)
  }

  /**
   * `snippet_times_sec`: every pair divided by the sample rate, so that multiplying back
   * by the rate recovers each sample boundary.
   */
  function InSeconds(ts: seq<Span>, sr: int): (r: seq<TimePair>)
    requires sr > 0
    ensures |r| == |ts|
    ensures forall i :: 0 <= i < |ts| ==>
      r[i].start * sr as real == ts[i].start as real && r[i].end * sr as real == ts[i].end as real
  {
    seq(|ts|, i requires 0 <= i < |ts| => TimePair(ts[i].start as real / sr as real, ts[i].end as real / sr as real))
  }

  // ---------------------------------------------------------------- batches

  function Last<T>(s: seq<T>): T
    requires s != []
  {
    s[|s| - 1]
  }

  /**
   * `split(b)` along the snippet axis: consecutive groups of `b` snippets, the last
   * one possibly shorter; an empty list gives one empty group.
   */
  function Chunks<T>(ts: seq<T>, b: nat): (r: seq<seq<T>>)
    requires b > 0
    ensures |r| >= 1 && Concat(r) == ts
    ensures forall i :: 0 <= i < |r| ==> |r[i]| <= b
    ensures forall i :: 0 <= i < |r| - 1 ==> |r[i]| == b
    ensures ts != [] ==> forall i :: 0 <= i < |r| ==> r[i] != []
    ensures forall i, t :: 0 <= i < |r| && t in r[i] ==> t in ts
    decreases |ts|
  {
    if |ts| <= b then
      assert Concat([ts]) == ts + Concat<T>([]);
      [ts]
    else
      var rest := Chunks(ts[b..], b);
      assert ts == ts[..b] + ts[b..];
      assert ([ts[..b]] + rest)[1..] == rest;
      [ts[..b]] + rest
  }

  /**
   * `tensor_split` at every position where the span changes: the maximal runs of
   * snippets of equal span, in order; an empty list gives one empty run.
   */
  function Runs(ts: seq<Span>): (r: seq<seq<Span>>)
    ensures |r| >= 1 && Concat(r) == ts
    ensures ts != [] ==> r[0] != [] && r[0][0] == ts[0]
    ensures ts != [] ==> forall i :: 0 <= i < |r| ==> r[i] != []
    ensures forall i :: 0 <= i < |r| ==> UniformSpan(r[i])
    ensures forall i, j :: 0 <= i && j == i + 1 && j < |r| ==> r[i] != [] && r[j] != [] && Last(r[i]).Length() != r[j][0].Length()
    decreases |ts|
  {
    if |ts| <= 1 then
      assert Concat([ts]) == ts + Concat<Span>([]);
      [ts]
    else
      var rest := Runs(ts[1..]);
      assert Concat(rest) == rest[0] + Concat(rest[1..]);
      assert ts == [ts[0]] + ts[1..];
      if ts[0].Length() == ts[1].Length() then
        MergeIntoRun(ts[0], rest);
        [[ts[0]] + rest[0]] + rest[1..]
      else
        var r := [[ts[0]]] + rest;
        assert r[1..] == rest;
        assert Concat([[ts[0]]] + rest) == [ts[0]] + Concat(rest);
        r
  }

  /** Putting a snippet in front of the first run keeps that run uniform when its span matches. */
  lemma MergeIntoRun(t: Span, rest: seq<seq<Span>>)
    requires rest != [] && rest[0] != [] && UniformSpan(rest[0]) && t.Length() == rest[0][0].Length()
    ensures var r := [[t] + rest[0]] + rest[1..];
      && Concat(r) == [t] + Concat(rest)
      && UniformSpan(r[0])
      && r[0][0] == t
      && Last(r[0]) == Last(rest[0])
      && forall i :: 1 <= i < |r| ==> r[i] == rest[i]
  {
    var r := [[t] + rest[0]] + rest[1..];
    assert r[1..] == rest[1..];
    assert Concat(rest) == rest[0] + Concat(rest[1..]);
    UniformPrepend(t, rest[0]);
  }

  lemma UniformPrepend(t: Span, run: seq<Span>)
    requires run != [] && UniformSpan(run) && t.Length() == run[0].Length()
    ensures UniformSpan([t] + run)
  {
    var r := [t] + run;
    forall u, v | u in r && v in r
      ensures u.Length() == v.Length()
    {
      assert u == t || u in run;
      assert v == t || v in run;
    }
  }

  /** What the batching loop appends for one run: the run itself, or its split when too long. */
  function RunPieces(run: seq<Span>, b: nat): (r: seq<seq<Span>>)
    requires b > 0
    ensures Concat(r) == run
    ensures forall i :: 0 <= i < |r| ==> |r[i]| <= b
    ensures UniformSpan(run) ==> forall i :: 0 <= i < |r| ==> UniformSpan(r[i])
  {
    if |run| > b then
      ChunksOfUniform(run, b);
      Chunks(run, b)
    else
      ConcatSingle(run);
      [run]
  }

  /** The batches the variable-length loop builds from the runs, in order. */
  function SplitOversized(runs: seq<seq<Span>>, b: nat): (r: seq<seq<Span>>)
    requires b > 0
    ensures Concat(r) == Concat(runs)
    ensures forall i :: 0 <= i < |r| ==> |r[i]| <= b
    ensures (forall i :: 0 <= i < |runs| ==> UniformSpan(runs[i])) ==> forall i :: 0 <= i < |r| ==> UniformSpan(r[i])
  {
    if runs == [] then []
    else
      var head := RunPieces(runs[0], b);
      var rest := SplitOversized(runs[1..], b);
      ConcatAppend(head, rest);
      head + rest
  }

  lemma {:induction false} SplitOversizedAppend(runs: seq<seq<Span>>, run: seq<Span>, b: nat)
    requires b > 0
    ensures SplitOversized(runs + [run], b) == SplitOversized(runs, b) + RunPieces(run, b)
  {
    if runs == [] {
      assert runs + [run] == [run];
      assert ([run])[1..] == [];
    } else {
      assert (runs + [run])[1..] == runs[1..] + [run];
      SplitOversizedAppend(runs[1..], run, b);
    }
  }

  lemma SplitOversizedStep(runs: seq<seq<Span>>, i: nat, b: nat)
    requires b > 0 && i < |runs|
    ensures SplitOversized(runs[..i + 1], b) == SplitOversized(runs[..i], b) + RunPieces(runs[i], b)
  {
    assert runs[..i + 1] == runs[..i] + [runs[i]];
    SplitOversizedAppend(runs[..i], runs[i], b);
  }

  /** The batching loop of the variable-length mode: append each run, split if too long. */
  method BatchRuns(runs: seq<seq<Span>>, b: nat) returns (iter: seq<seq<Span>>)
    requires b > 0
    ensures iter == SplitOversized(runs, b)
  {
    iter := [];
    for i := 0 to |runs|
      invariant iter == SplitOversized(runs[..i], b)
    {
      var run := runs[i];
      var pieces;
      if |run| > b {
        pieces := Chunks(run, b);
      } else {
        pieces := [run];
      }
      SplitOversizedStep(runs, i, b);
      iter := iter + pieces;
    }
    assert runs[..|runs|] == runs;
  }

  /**
   * `snippet_iter`: plain splitting under full context or skip, else runs split further.
   * The batches read back in order give the snippets and none exceeds the batch size;
   * in the variable-length mode every batch has a single span, and so does every batch
   * of a list whose spans all agree.
   */
  function Batches(ts: seq<Span>, b: nat, rfc: bool, skip: bool): (r: seq<seq<Span>>)
    requires b > 0
    ensures Concat(r) == ts
    ensures forall i :: 0 <= i < |r| ==> |r[i]| <= b
    ensures (!rfc && !skip) || UniformSpan(ts) ==> forall i :: 0 <= i < |r| ==> UniformSpan(r[i])
  {
    if rfc || skip then
      ChunksOfUniform(ts, b);
      Chunks(ts, b)
    else SplitOversized(Runs(ts), b)
  }

  /** Every group of a list whose spans all agree has a single span. */
  lemma ChunksOfUniform(ts: seq<Span>, b: nat)
    requires b > 0
    ensures UniformSpan(ts) ==> forall i :: 0 <= i < |Chunks(ts, b)| ==> UniformSpan(Chunks(ts, b)[i])
  {
    var r := Chunks(ts, b);
    if UniformSpan(ts) {
      forall i | 0 <= i < |r| ensures UniformSpan(r[i]) {
        assert forall t :: t in r[i] ==> t in ts;
      }
    }
  }

  // ---------------------------------------------------------------- the stage

  class Window {
    const sampleRate: int
    const chunk: nat
    const context: nat
    const batchSize: int
    const requireFullContext: bool
    const minLength: real
    const skipWindow: bool

    ghost predicate Valid()
    {
      sampleRate > 0 && (skipWindow || chunk > 0) && batchSize > 0
    }

    /** `chunk` and `context` are the sample counts the source derives from seconds. */
    constructor (chunk: nat, context: nat, batchSize: int := 1, sampleRate: int := 16000,
                 requireFullContext: bool := true, minLength: real := 0.0, skipWindow: bool := false)
      requires sampleRate > 0
      requires skipWindow || (chunk > 0 && batchSize > 0)
      ensures Valid()
      ensures this.sampleRate == sampleRate && this.chunk == chunk && this.context == context
      ensures this.requireFullContext == requireFullContext && this.minLength == minLength
      ensures this.skipWindow == skipWindow
      ensures this.batchSize == if skipWindow then 1 else batchSize
    {
      this.sampleRate := sampleRate;
      this.chunk := chunk;
      this.context := context;
      this.requireFullContext := requireFullContext;
      this.minLength := minLength;
      this.skipWindow := skipWindow;
      this.batchSize := if skipWindow then 1 else batchSize;
    }

    /**
     * `Window.__call__`: check the sample rate, build and filter the snippets, write
     * `snippetTimes` and `snippetTimesSec`, then group them into `snippetIter`.
     */
    method Apply(s: Sample) returns (r: Outcome<WindowError>)
      requires Valid()
      modifies s
      ensures s.path == old(s.path) && s.outPath == old(s.outPath) && s.times == old(s.times)
      ensures s.waveform == old(s.waveform) && s.sampleRate == old(s.sampleRate)
      ensures old(s.sampleRate) != sampleRate ==>
        r == Fail(SampleRateMismatch(old(s.sampleRate), sampleRate)) && unchanged(s)
      ensures old(s.sampleRate) == sampleRate && |old(s.waveform)| == 1 ==> r == Fail(ScalarWaveform) && unchanged(s)
      ensures (old(s.sampleRate) == sampleRate && |old(s.waveform)| != 1 &&
               EndParts(|old(s.waveform)|, chunk, context, requireFullContext, skipWindow) == []) ==>
        r == Fail(NoSnippets(|old(s.waveform)|)) && unchanged(s)
      ensures (old(s.sampleRate) == sampleRate && |old(s.waveform)| != 1 &&
               EndParts(|old(s.waveform)|, chunk, context, requireFullContext, skipWindow) != []) ==>
        var ts := Retained(|old(s.waveform)|, chunk, context, requireFullContext, skipWindow, minLength);
        && s.snippetTimes == Some(ts)
        && s.snippetTimesSec == Some(InSeconds(ts, sampleRate))
        && (if requireFullContext && ts == []
            then r == Fail(NoSnippetLength) && s.snippetIter == old(s.snippetIter)
            else r == Pass && s.snippetIter == Some(Batches(ts, batchSize, requireFullContext, skipWindow)))
    {
      if s.sampleRate != sampleRate {
        return Fail(SampleRateMismatch(s.sampleRate, sampleRate));
      }
      var n := |s.waveform|;
      if n == 1 {
        return Fail(ScalarWaveform);
      }
      if EndParts(n, chunk, context, requireFullContext, skipWindow) == [] {
        return Fail(NoSnippets(n));
      }
      var ts := KeepLong(Candidates(n, chunk, context, requireFullContext, skipWindow), minLength);
      s.snippetTimes := Some(ts);
      s.snippetTimesSec := Some(InSeconds(ts, sampleRate));
      if requireFullContext {
        if ts == [] {
          return Fail(NoSnippetLength);
        }
        // the source's "uneven snippet lengths" assertion always holds
        EqualSpansUnderFullContext(n, chunk, context, skipWindow, minLength);
        assert forall i :: 0 <= i < |ts| ==> ts[i].Length() == ts[0].Length();
      }
      if requireFullContext || skipWindow {
        s.snippetIter := Some(Chunks(ts, batchSize));
      } else {
        var iter := BatchRuns(Runs(ts), batchSize);
        s.snippetIter := Some(iter);
      }
      r := Pass;
    }
  }

  // ---------------------------------------------------------------- properties

  lemma MulMonotone(x: int, y: int, c: nat)
    requires x <= y
    ensures x * c <= y * c
  {
    assert y * c == x * c + (y - x) * c;
  }

  /** Floor division is determined by the bounds it sits between. */
  lemma DivBetween(a: int, c: int, q: int)
    requires c > 0 && 0 <= a && q * c <= a < (q + 1) * c
    ensures a / c == q
  {
    var d := a / c;
    assert a == d * c + a % c;
    if d < q {
      MulMonotone(d + 1, q, c);
      assert false;
    } else if d > q {
      MulMonotone(q + 1, d, c);
      assert false;
    }
  }

  /** There are `ceil(x / c)` warm-up end-points. */
  lemma WarmupCount(c: nat, x: nat)
    requires c > 0
    ensures |WarmupEnds(c, x)| == (x + c - 1) / c
  {
    var k := |WarmupEnds(c, x)|;
    if k > 0 {
      assert k * c < c + x by { assert WarmupEnds(c, x)[k - 1] == k * c; }
    }
    assert k * c <= x + c - 1;
    assert (k + 1) * c >= c + x;
    DivBetween(x + c - 1, c, k);
  }


  lemma ConcatSingle<T>(s: seq<T>)
    ensures Concat([s]) == s
  {
    assert [s][1..] == [];
  }



  lemma IncreasingConcat(a: seq<int>, b: seq<int>, bound: int)
    requires Increasing(a) && Increasing(b)
    requires forall k :: 0 <= k < |a| ==> a[k] < bound
    requires forall k :: 0 <= k < |b| ==> bound <= b[k]
    ensures Increasing(a + b)
  {
    var e := a + b;
    forall i, j | 0 <= i < j < |e| ensures e[i] < e[j] {
      if j < |a| {
        assert e[i] == a[i] && e[j] == a[j];
      } else if i >= |a| {
        assert e[i] == b[i - |a|] && e[j] == b[j - |a|];
      } else {
        assert e[i] == a[i] && e[j] == b[j - |a|];
      }
    }
  }

  /** End-points strictly increase: every warm-up end is below W, every full end at least W. */
  lemma EndsIncrease(n: nat, c: nat, x: nat, rfc: bool, skip: bool)
    requires skip || c > 0
    ensures Increasing(Ends(n, c, x, rfc, skip))
  {
    if skip {
    } else {
      var warm := if rfc then [] else WarmupEnds(c, x);
      var full := if n >= c + x then FullEnds(n, c, x) else [];
      forall k | 0 <= k < |full| ensures full[k] >= c + x {
        MulNonneg(k, c);
      }
      IncreasingConcat(warm, full, c + x);
    }
  }

  /**
   * Off skip mode, every candidate starts at `max(0, end - W)`: a snippet that ends at
   * or beyond W spans exactly W, an earlier one starts at 0; and ends are positive.
   */
  lemma CandidateStarts(n: nat, c: nat, x: nat, rfc: bool)
    requires c > 0
    ensures forall t :: t in Candidates(n, c, x, rfc, false) ==>
      0 <= t.start < t.end && (t.end >= c + x ==> t.Length() == c + x) && (t.end < c + x ==> t.start == 0)
  {
    var ends := Ends(n, c, x, rfc, false);
    EndsAtLeastChunk(n, c, x, rfc);
    var cand := Candidates(n, c, x, rfc, false);
    forall t | t in cand
      ensures 0 <= t.start < t.end && (t.end >= c + x ==> t.Length() == c + x) && (t.end < c + x ==> t.start == 0)
    {
      var k :| 0 <= k < |cand| && cand[k] == t;
      assert t.end == ends[k] > 0;
    }
  }

  /** Off skip mode every end-point is at least the chunk size. */
  lemma EndsAtLeastChunk(n: nat, c: nat, x: nat, rfc: bool)
    requires c > 0
    ensures forall k :: 0 <= k < |Ends(n, c, x, rfc, false)| ==> Ends(n, c, x, rfc, false)[k] >= c
  {
    var warm := if rfc then [] else WarmupEnds(c, x);
    var full := if n >= c + x then FullEnds(n, c, x) else [];
    var ends := warm + full;
    assert Ends(n, c, x, rfc, false) == ends;
    forall k | 0 <= k < |ends| ensures ends[k] >= c {
      if k < |warm| {
        MulNonneg(k, c);
        assert ends[k] == warm[k] == (k + 1) * c;
      } else {
        MulNonneg(k - |warm|, c);
        assert ends[k] == full[k - |warm|];
      }
    }
  }

  /** In skip mode the one candidate is the whole waveform, and batches hold one snippet each. */
  lemma SkipMode(n: nat, c: nat, x: nat, rfc: bool, m: real)
    ensures Candidates(n, c, x, rfc, true) == [Span(0, n)]
    ensures Retained(n, c, x, rfc, true, m) == if n as real >= m then [Span(0, n)] else []
    ensures forall i :: 0 <= i < |Batches(Retained(n, c, x, rfc, true, m), 1, rfc, true)| ==>
      |Batches(Retained(n, c, x, rfc, true, m), 1, rfc, true)[i]| <= 1
  {
    assert [Span(0, n)][1..] == [];
  }

  /** With full context required (and skip off), every retained snippet spans exactly W and lies within the waveform. */
  lemma FullContextSpans(n: nat, c: nat, x: nat, m: real)
    requires c > 0
    ensures forall t :: t in Retained(n, c, x, true, false, m) ==> t.Length() == c + x && 0 <= t.start && t.end <= n
  {
    var ends := Ends(n, c, x, true, false);
    forall k | 0 <= k < |ends| ensures c + x <= ends[k] <= n {
      MulNonneg(k, c);
    }
    var cand := Candidates(n, c, x, true, false);
    assert forall k :: 0 <= k < |cand| ==> cand[k] == Span(ends[k] - (c + x), ends[k]);
    forall t | t in Retained(n, c, x, true, false, m) ensures t.Length() == c + x && 0 <= t.start && t.end <= n {
      assert t in cand;
      var k :| 0 <= k < |cand| && cand[k] == t;
    }
  }

  /** The "uneven snippet lengths" assertion never fails: under full context all retained spans agree. */
  lemma EqualSpansUnderFullContext(n: nat, c: nat, x: nat, skip: bool, m: real)
    requires skip || c > 0
    ensures UniformSpan(Retained(n, c, x, true, skip, m))
  {
    if skip {
      SkipMode(n, c, x, true, m);
    } else {
      FullContextSpans(n, c, x, m);
    }
  }

  /** A waveform of exactly W samples yields the one window [0, W) under full context. */
  lemma ExactWidthOneWindow(c: nat, x: nat, m: real)
    requires c > 0 && m <= (c + x) as real
    ensures Retained(c + x, c, x, true, false, m) == [Span(0, c + x)]
  {
    var n := c + x;
    DivBetween(0, c, 0);
    var full := FullEnds(n, c, x);
    assert |full| == 1 && full[0] == c + x;
    var cand := Candidates(n, c, x, true, false);
    assert cand == [Span(0, c + x)];
    assert cand[1..] == [];
  }

  /**
   * Without full context and below W samples only warm-up snippets remain: each
   * starts at 0, is shorter than W, and spans strictly increase.
   */
  lemma WarmupOnlyBelowWidth(n: nat, c: nat, x: nat, m: real)
    requires c > 0 && n < c + x
    ensures forall t :: t in Retained(n, c, x, false, false, m) ==> t.start == 0 && t.Length() < c + x
    ensures forall i, j :: 0 <= i < j < |Retained(n, c, x, false, false, m)| ==>
      Retained(n, c, x, false, false, m)[i].Length() < Retained(n, c, x, false, false, m)[j].Length()
  {
    var ends := Ends(n, c, x, false, false);
    assert ends == WarmupEnds(c, x);
    CandidateStarts(n, c, x, false);
    var r := Retained(n, c, x, false, false, m);
    forall t | t in r ensures t.start == 0 && t.Length() < c + x {
      var k :| 0 <= k < |ends| && StartsFor(ends, c + x)[k] == t;
    }
    forall i, j | 0 <= i < j < |r| ensures r[i].Length() < r[j].Length() {
      assert r[i] in r && r[j] in r;
    }
  }

  /** Warm-up end-points ignore the waveform: on an empty waveform the first warm-up ends past it. */
  lemma WarmupEndsPastWaveform(c: nat, x: nat)
    requires c > 0 && x > 0
    ensures c in Ends(0, c, x, false, false) && c > 0
  {
    var warm := WarmupEnds(c, x);
    assert warm[0] == c;
  }

  /** An empty result in the variable-length mode raises nothing and yields one empty batch. */
  lemma EmptyVariableBatches(b: nat)
    requires b > 0
    ensures Batches([], b, false, false) == [[]]
  {
    assert Runs([]) == [[]];
    assert SplitOversized([[]], b) == RunPieces([], b) + SplitOversized([], b);
  }
}
