/**
 * Silence padding (`PadSilence` in build/lib/audio_preprocessing/transforms/_pad.py):
 * prepend `context_sz` seconds of zeros, and map snippet times measured on the padded
 * signal back to the original timeline.
 */
module Padding {
  import opened Wrappers
  import opened SampleRecord

  datatype PadError =
    | NegativePadding(count: int)  // `torch.zeros` of a negative size
    | MissingTimes                 // the sample has no `times` key
    | InsufficientPadding          // some corrected end time is not positive

  /** Python's `int(v)`: truncation toward zero. */
  function Trunc(v: real): (r: int)
    ensures v >= 0.0 ==> r as real <= v < r as real + 1.0
    ensures v < 0.0 ==> r as real - 1.0 < v <= r as real
  {
    if v >= 0.0 then v.Floor else -((-v).Floor)
  }

  /** `torch.cat([torch.zeros(p), w])`. */
  function PadFront(w: seq<real>, p: nat): (r: seq<real>)
    ensures |r| == |w| + p
    ensures r[p..] == w
    ensures forall i :: 0 <= i < p ==> r[i] == 0.0
  {
    seq(p, _ => 0.0) + w
  }

  /** One time corrected for the padding: `clip(t - c, 0, inf)`. */
  function CorrectTime(t: real, c: real): (r: real)
    ensures r >= 0.0
    ensures t >= c ==> r == t - c
    ensures t <= c ==> r == 0.0
  {
    if t - c > 0.0 then t - c else 0.0
  }

  function CorrectTimes(ts: seq<TimePair>, c: real): (r: seq<TimePair>)
    ensures |r| == |ts|
    ensures forall i :: 0 <= i < |ts| ==> r[i] == TimePair(CorrectTime(ts[i].start, c), CorrectTime(ts[i].end, c))
  {
    seq(|ts|, i requires 0 <= i < |ts| => TimePair(CorrectTime(ts[i].start, c), CorrectTime(ts[i].end, c)))
  }

  /** The end-time assertion of `remove_padding` passes. */
  predicate EndsPositive(ts: seq<TimePair>)
  {
    forall i :: 0 <= i < |ts| ==> ts[i].end > 0.0
  }

  /**
   * `int(context_sz * sr)`: the number of zeros prepended for `contextSz` seconds at rate
   * `sr`, the whole samples that fit in the duration; negative for a negative duration.
   */
  function PadCount(contextSz: real, sr: int): (r: int)
    ensures contextSz * sr as real >= 0.0 ==> r >= 0 && r as real <= contextSz * sr as real < r as real + 1.0
    ensures contextSz * sr as real <= -1.0 ==> r < 0
  {
    Trunc(contextSz * sr as real)
  }

  class PadSilence {
    /** The padding duration in seconds. */
    const contextSz: real

    constructor (contextSz: real)
      ensures this.contextSz == contextSz
    {
      this.contextSz := contextSz;
    }

    /** `PadSilence.__call__`: prepend the zeros; only `waveform` changes. */
    method Apply(s: Sample) returns (r: Outcome<PadError>)
      modifies s
      ensures PadCount(contextSz, old(s.sampleRate)) < 0 ==> r == Fail(NegativePadding(PadCount(contextSz, old(s.sampleRate)))) && unchanged(s)
      ensures PadCount(contextSz, old(s.sampleRate)) >= 0 ==> r == Pass && s.waveform == PadFront(old(s.waveform), PadCount(contextSz, old(s.sampleRate)))
      ensures s.path == old(s.path) && s.outPath == old(s.outPath) && s.sampleRate == old(s.sampleRate)
      ensures s.times == old(s.times) && s.snippetTimes == old(s.snippetTimes)
      ensures s.snippetTimesSec == old(s.snippetTimesSec) && s.snippetIter == old(s.snippetIter)
    {
      var p := PadCount(contextSz, s.sampleRate);
      if p < 0 {
        return Fail(NegativePadding(p));
      }
      s.waveform := PadFront(s.waveform, p);
      r := Pass;
    }

    /**
     * `PadSilence.remove_padding`: shift every time back by `contextSz`, clipped at 0;
     * the non-negativity assertion always holds, the end-time one may fail. Only
     * `times` changes, and only when both assertions pass.
     */
    method RemovePadding(s: Sample) returns (r: Outcome<PadError>)
      modifies s
      ensures old(s.times).None? ==> r == Fail(MissingTimes) && unchanged(s)
      ensures old(s.times).Some? && !EndsPositive(CorrectTimes(old(s.times).value, contextSz)) ==>
        r == Fail(InsufficientPadding) && unchanged(s)
      ensures old(s.times).Some? && EndsPositive(CorrectTimes(old(s.times).value, contextSz)) ==>
        r == Pass && s.times == Some(CorrectTimes(old(s.times).value, contextSz))
      ensures s.path == old(s.path) && s.outPath == old(s.outPath) && s.sampleRate == old(s.sampleRate)
      ensures s.waveform == old(s.waveform) && s.snippetTimes == old(s.snippetTimes)
      ensures s.snippetTimesSec == old(s.snippetTimesSec) && s.snippetIter == old(s.snippetIter)
    {
      if s.times.None? {
        return Fail(MissingTimes);
      }
      var ts := CorrectTimes(s.times.value, contextSz);
      // "padding is smaller than the correction": always holds after clipping
      assert forall i :: 0 <= i < |ts| ==> ts[i].start >= 0.0 && ts[i].end >= 0.0;
      if !EndsPositive(ts) {
        return Fail(InsufficientPadding);
      }
      s.times := Some(ts);
      r := Pass;
    }
  }

  /**
   * The end-time assertion fails exactly when some original end time is at most
   * the padding duration.
   */
  lemma EndCheckFailsIff(ts: seq<TimePair>, c: real)
    ensures !EndsPositive(CorrectTimes(ts, c)) <==> exists i :: 0 <= i < |ts| && ts[i].end <= c
  {
    if exists i :: 0 <= i < |ts| && ts[i].end <= c {
      var i :| 0 <= i < |ts| && ts[i].end <= c;
      assert CorrectTimes(ts, c)[i].end == 0.0;
    }
  }

  /**
   * Padding and its correction are inverse: when `contextSz * sr` is a whole number
   * of samples, the sample at index i moves to index i + p, and the time of that
   * index on the padded signal is corrected back to the time of index i.
   */
  lemma PaddingRoundTrip(contextSz: real, w: seq<real>, sr: int, i: nat)
    requires sr > 0 && contextSz >= 0.0
    requires PadCount(contextSz, sr) as real == contextSz * sr as real
    requires i < |w|
    ensures PadCount(contextSz, sr) >= 0
    ensures PadFront(w, PadCount(contextSz, sr))[i + PadCount(contextSz, sr)] == w[i]
    ensures CorrectTime((i + PadCount(contextSz, sr)) as real / sr as real, contextSz) == i as real / sr as real
  {
    var p := PadCount(contextSz, sr);
    var r := sr as real;
    assert p as real >= 0.0 by {
      assert contextSz * r >= 0.0;
    }
    var padded := PadFront(w, p);
    assert padded[p..][i] == w[i];
    assert p as real / r == contextSz;
    assert (i + p) as real / r == i as real / r + p as real / r;
  }
}
