/**
 * The sample record that every pipeline stage receives and updates in place.
 * In the source it is a dictionary whose keys appear as stages run; here it is
 * a typed record whose not-yet-written keys are `None`.
 */
module SampleRecord {
  import opened Wrappers

  /** A snippet: the sample range [start, end) of the waveform. */
  datatype Span = Span(start: int, end: int) {
    function Length(): int { end - start }
  }

  /** A (start, end) pair of times in seconds. */
  datatype TimePair = TimePair(start: real, end: real)

  class Sample {
    var path: string
    var outPath: string
    /** The samples of the (mono, one-dimensional) waveform. */
    var waveform: seq<real>
    var sampleRate: int
    /** Snippet times in seconds, read and rewritten by `PadSilence.remove_padding`. */
    var times: Option<seq<TimePair>>
    /** Written by the windowing stage. */
    var snippetTimes: Option<seq<Span>>
    var snippetTimesSec: Option<seq<TimePair>>
    var snippetIter: Option<seq<seq<Span>>>

    /** The record as it stands once the loader stage has filled in the waveform. */
    constructor (path: string, outPath: string, waveform: seq<real>, sampleRate: int)
      ensures this.path == path && this.outPath == outPath
      ensures this.waveform == waveform && this.sampleRate == sampleRate
      ensures times == None && snippetTimes == None && snippetTimesSec == None && snippetIter == None
    {
      this.path := path;
      this.outPath := outPath;
      this.waveform := waveform;
      this.sampleRate := sampleRate;
      times := None;
      snippetTimes := None;
      snippetTimesSec := None;
      snippetIter := None;
    }
  }
}
