/**
 * Silence trimming (`TrimSilence` in build/lib/audio_preprocessing/transforms/_trim_silence.py):
 * a voice-activity detector trims the front, runs again on the reversed result to trim
 * the back, and the stage falls back to the untouched waveform when either pass is empty.
 * The detector is a parameter: its internals are not part of this model.
 */
module Trim {
  import opened SampleRecord

  /** A voice-activity detector: waveform, sample rate and trigger level to the trimmed waveform. */
  type Vad = (seq<real>, int, int) -> seq<real>

  /** `torch.flip` of a mono waveform: reverses its time axis. */
  function Reverse(w: seq<real>): (r: seq<real>)
    ensures |r| == |w|
    ensures forall i :: 0 <= i < |w| ==> r[i] == w[|w| - 1 - i]
  {
    seq(|w|, i requires 0 <= i < |w| => w[|w| - 1 - i])
  }

  /** Flipping twice restores the orientation. */
  lemma ReverseTwice(w: seq<real>)
    ensures Reverse(Reverse(w)) == w
  {
  }

  lemma ReverseSuffixAt(w: seq<real>, k: nat, i: nat)
    requires k <= |w| && i < |w| - k
    ensures |Reverse(Reverse(w)[k..])| == |w| - k
    ensures Reverse(Reverse(w)[k..])[i] == w[i]
  {
    var r := Reverse(w);
    var suffix := r[k..];
    var j := |w| - k - 1 - i;
    assert Reverse(suffix)[i] == suffix[j];
    assert suffix[j] == r[k + j];
  }

  /** Reversing a suffix of a reversed waveform gives a prefix of the waveform. */
  lemma ReverseSuffixOfReverse(w: seq<real>, k: nat)
    requires k <= |w|
    ensures Reverse(Reverse(w)[k..]) == w[..|w| - k]
  {
    var a := Reverse(Reverse(w)[k..]);
    var p := w[..|w| - k];
    assert |a| == |p|;
    forall i | 0 <= i < |p|
      ensures a[i] == p[i]
    {
      ReverseSuffixAt(w, k, i);
    }
    assert a == p;
  }

  /**
   * The waveform `TrimSilence.__call__` leaves in the sample. An empty first pass keeps
   * the original; an empty second pass keeps the original too, discarding the first
   * trim; otherwise the result, flipped, is what the second pass kept.
   */
  function Trimmed(w: seq<real>, sr: int, level: int, vad: Vad): (r: seq<real>)
    ensures |vad(w, sr, level)| == 0 ==> r == w
    ensures |vad(w, sr, level)| > 0 && |vad(Reverse(vad(w, sr, level)), sr, level)| == 0 ==> r == w
    ensures |vad(w, sr, level)| > 0 && |vad(Reverse(vad(w, sr, level)), sr, level)| > 0 ==>
      Reverse(r) == vad(Reverse(vad(w, sr, level)), sr, level)
  {
    var front := vad(w, sr, level);
    if |front| == 0 then w
    else
      var back := vad(Reverse(front), sr, level);
      if |back| == 0 then w
      else
        ReverseTwice(back);
        Reverse(back)
  }

  /** `u` is what is left of `v` after dropping some leading samples. */
  predicate SuffixOf(u: seq<real>, v: seq<real>)
  {
    |u| <= |v| && u == v[|v| - |u|..]
  }

  /**
   * When the detector only ever drops leading samples, the stage trims both ends: the
   * result is a contiguous stretch of the original waveform.
   */
  lemma TrimmedIsInfix(w: seq<real>, sr: int, level: int, vad: Vad)
    requires forall v :: SuffixOf(vad(v, sr, level), v)
    ensures exists a, b :: 0 <= a <= b <= |w| && Trimmed(w, sr, level, vad) == w[a..b]
  {
    var front := vad(w, sr, level);
    assert SuffixOf(front, w);
    if |front| == 0 {
      assert Trimmed(w, sr, level, vad) == w[0..|w|];
    } else {
      var back := vad(Reverse(front), sr, level);
      assert SuffixOf(back, Reverse(front));
      if |back| == 0 {
        assert Trimmed(w, sr, level, vad) == w[0..|w|];
      } else {
        var a := |w| - |front|;
        var k := |front| - |back|;
        assert back == Reverse(front)[k..];
        ReverseSuffixOfReverse(front, k);
        assert Reverse(back) == front[..|front| - k];
        assert front[..|front| - k] == w[a..a + |back|];
      }
    }
  }

  class TrimSilence {
    /** The detector's trigger level. */
    const threshold: int

    constructor (threshold: int := 60)
      ensures this.threshold == threshold
    {
      this.threshold := threshold;
    }

    /** `TrimSilence.__call__`: only `waveform` is written. */
    method Apply(s: Sample, vad: Vad)
      modifies s
      ensures s.waveform == Trimmed(old(s.waveform), old(s.sampleRate), threshold, vad)
      ensures s.path == old(s.path) && s.outPath == old(s.outPath) && s.sampleRate == old(s.sampleRate)
      ensures s.times == old(s.times) && s.snippetTimes == old(s.snippetTimes)
      ensures s.snippetTimesSec == old(s.snippetTimesSec) && s.snippetIter == old(s.snippetIter)
    {
      var waveform := s.waveform;
      var front := vad(waveform, s.sampleRate, threshold);
      var out;
      if |front| == 0 {
        out := waveform;
      } else {
        var back := vad(Reverse(front), s.sampleRate, threshold);
        if |back| == 0 {
          out := waveform;
        } else {
          out := Reverse(back);
        }
      }
      s.waveform := out;
    }
  }
}
