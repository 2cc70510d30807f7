/**
 * The writer stage (`Wave2File` in audio_preprocessing/transforms/_wave_to_file.py):
 * the output path's extension must equal the requested format before anything is saved.
 */
module WaveToFile {
  import opened Wrappers
  import opened SampleRecord
  import opened Paths

  /**
   * `os.path.splitext(p)[1]`: from the last '.' on, provided that '.' lies in the final
   * component and is preceded there by some character other than '.'; else "".
   */
  function SplitExt(p: string): (r: string)
    ensures r == "" || (r[0] == '.' && EndsWith(p, r) && '.' !in r[1..] && '/' !in r)
    ensures r != "" ==> HasStem(p[..|p| - |r|])
  {
    var sep := LastIndexOf(p, '/');
    var dot := LastIndexOf(p, '.');
    if dot > sep && exists i :: sep < i < dot && p[i] != '.' then
      var i :| sep < i < dot && p[i] != '.';
      StemBeforeDot(p, sep, dot, i);
      p[dot..]
    else
      ""
  }

  /** A non-dot character after the last separator and before `dot` is a stem of `p[..dot]`. */
  lemma StemBeforeDot(p: string, sep: int, dot: int, i: int)
    requires sep == LastIndexOf(p, '/') && sep < i < dot <= |p| && p[i] != '.'
    ensures HasStem(p[..dot])
  {
    var q := p[..dot];
    var rq := LastIndexOf(q, '/');
    if rq >= 0 {
      assert p[rq] == q[rq] == '/';
    }
    assert rq < i < |q| && q[i] != '.';
  }

  /** `os.path.splitext(p)[1][1:]`: the extension without its dot. */
  function FormatOf(p: string): (r: string)
    ensures '.' !in r && '/' !in r
    ensures r != "" ==> EndsWith(p, "." + r)
    ensures r != "" ==> HasStem(p[..|p| - |r| - 1])
  {
    var e := SplitExt(p);
    if e == "" then "" else e[1..]
  }

  /** Joining a stem and an extension and splitting them again gives the extension back. */
  lemma FormatOfJoined(stem: string, ext: string)
    requires '.' !in ext && '/' !in ext
    requires HasStem(stem)
    ensures FormatOf(stem + "." + ext) == ext
  {
    var p := stem + "." + ext;
    var dot := LastIndexOf(p, '.');
    assert p[|stem|] == '.';
    assert forall i :: |stem| < i < |p| ==> p[i] == ext[i - |stem| - 1];
    assert dot == |stem|;
    var sep := LastIndexOf(p, '/');
    var sepStem := LastIndexOf(stem, '/');
    assert forall i :: 0 <= i < |stem| ==> p[i] == stem[i];
    assert sep == sepStem by {
      if sepStem >= 0 {
        assert p[sepStem] == '/';
      }
    }
    var i :| sepStem < i < |stem| && stem[i] != '.';
    assert p[i] != '.';
    assert SplitExt(p) == p[|stem|..];
    assert p[|stem|..] == "." + ext;
  }

  /** The writer for `format` accepts the output path `p`. */
  predicate Accepts(format: string, p: string)
  {
    FormatOf(p) == format
  }

  datatype SaveError = FormatMismatch(extension: string, format: string)

  /** The one write the stage performs: `torchaudio.save(uri, src, sample_rate, format)`. */
  datatype SavedFile = SavedFile(uri: string, waveform: seq<real>, sampleRate: int, format: string)

  class Wave2File {
    const format: string

    constructor (format: string := "flac")
      ensures this.format == format
    {
      this.format := format;
    }

    /**
     * `Wave2File.__call__`: the extension check comes first, so on a mismatch nothing is
     * written. On success the stage yields the write it performs and no sample, so it
     * can only be the last stage of a pipeline.
     */
    method Apply(s: Sample) returns (r: Result<SavedFile, SaveError>)
      ensures r.Success? <==> Accepts(format, s.outPath)
      ensures r.Success? ==> r.value == SavedFile(s.outPath, s.waveform, s.sampleRate, format)
      ensures r.Failure? ==> r.error == FormatMismatch(FormatOf(s.outPath), format)
    {
      var ext := FormatOf(s.outPath);
      if ext != format {
        return Failure(FormatMismatch(ext, format));
      }
      r := Success(SavedFile(s.outPath, s.waveform, s.sampleRate, format));
    }
  }
}
