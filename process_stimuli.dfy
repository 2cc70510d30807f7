/**
 * Pipeline composition and story naming (audio_preprocessing/io/_process_stimuli.py):
 * the fixed order of stages built from the transform configuration, the split of a
 * story name into a base name and a segment index, and the paths a story is
 * downloaded to and written to.
 */
module ProcessStimuli {
  import opened Wrappers
  import opened Paths
  import WaveToFile

  /** A value of the transform configuration (a parsed JSON-like mapping). */
  datatype Value = Num(n: int) | Text(s: string) | Entries(fields: map<string, Value>) | Nothing

  /** A pipeline stage with the configuration values it was built from. */
  datatype Stage =
    | Path2Wave
    | ToMonophonic
    | ResampleAudio(resampleRate: Value)
    | TrimStage(threshold: Value)        // `TrimSilence`, whose behaviour the module Trim models
    | Truncate(length: Value, offset: Value)
    | WaveMean
    | WriterStage(format: Value)         // `Wave2File`, whose behaviour the module WaveToFile models
  {
    /** The place of each kind of stage in a composed pipeline. */
    function Rank(): nat
    {
      match this
      case Path2Wave => 0
      case ToMonophonic => 1
      case ResampleAudio(_) => 2
      case TrimStage(_) => 3
      case Truncate(_, _) => 4
      case WaveMean => 5
      case WriterStage(_) => 6
    }

    /** Every stage hands the sample on, except the writer, which returns nothing. */
    predicate ReturnsSample()
    {
      !WriterStage?
    }
  }

  /** The configuration keys that switch on an optional stage; key n gives the stage of rank n + 1. */
  const OptionalKeys: seq<string> := ["monochannel", "resample", "trim", "truncate", "wavemean"]

  /** The positions among the first n optional keys whose key the configuration holds. */
  ghost function PresentAmong(cfg: map<string, Value>, n: nat): set<nat>
    requires n <= |OptionalKeys|
  {
    set i: nat | i < n && OptionalKeys[i] in cfg
  }

  /** How many of the first n optional keys the configuration holds. */
  function CountPresent(cfg: map<string, Value>, n: nat): (r: nat)
    requires n <= |OptionalKeys|
    ensures r <= n
  {
    if n == 0 then 0
    else CountPresent(cfg, n - 1) + (if OptionalKeys[n - 1] in cfg then 1 else 0)
  }

  /** The count is the number of positions among the first n whose key is present. */
  lemma {:induction false} CountPresentValue(cfg: map<string, Value>, n: nat)
    requires n <= |OptionalKeys|
    ensures CountPresent(cfg, n) == |PresentAmong(cfg, n)|
  {
    if n == 0 {
      assert PresentAmong(cfg, n) == {};
    } else {
      CountPresentValue(cfg, n - 1);
      var here: set<nat> := if OptionalKeys[n - 1] in cfg then {n - 1} else {};
      assert PresentAmong(cfg, n) == PresentAmong(cfg, n - 1) + here;
      assert n - 1 !in PresentAmong(cfg, n - 1);
    }
  }

  datatype ConfigError =
    | KeyError(key: string)
    | NotSubscriptable(key: string)  // indexing a configuration value that is not a mapping

  /**
   * `transforms[key][field]`: the field's value when the key holds a mapping with that
   * field, a `KeyError` naming the field when the mapping lacks it, and a `TypeError`
   * when the key holds something that cannot be subscripted.
   */
  function Param(cfg: map<string, Value>, key: string, field: string): (r: Result<Value, ConfigError>)
    requires key in cfg
    ensures r.Success? <==> cfg[key].Entries? && field in cfg[key].fields
    ensures r.Success? ==> r.value == cfg[key].fields[field]
    ensures cfg[key].Entries? && field !in cfg[key].fields ==> r == Failure(KeyError(field))
    ensures !cfg[key].Entries? ==> r == Failure(NotSubscriptable(key))
  {
    match cfg[key]
    case Entries(m) => if field in m then Success(m[field]) else Failure(KeyError(field))
    case _ => Failure(NotSubscriptable(key))
  }

  /** Every parameter that a present optional key needs is there. */
  predicate ParamsPresent(cfg: map<string, Value>)
  {
    && ("resample" in cfg ==> Param(cfg, "resample", "resample_rate").Success?)
    && ("trim" in cfg ==> Param(cfg, "trim", "trim_level").Success?)
    && ("truncate" in cfg ==> Param(cfg, "truncate", "clip_length").Success? && Param(cfg, "truncate", "offset").Success?)
  }

  /** A stage carries the configuration values its key holds. */
  predicate StageMatches(cfg: map<string, Value>, st: Stage)
  {
    match st
    case ResampleAudio(rate) =>
      "resample" in cfg && Param(cfg, "resample", "resample_rate") == Success(rate)
    case TrimStage(level) =>
      "trim" in cfg && Param(cfg, "trim", "trim_level") == Success(level)
    case Truncate(length, offset) =>
      "truncate" in cfg &&
      Param(cfg, "truncate", "clip_length") == Success(length) &&
      Param(cfg, "truncate", "offset") == Success(offset)
    case _ => true
  }

  /** Every stage carries the configuration values its key holds. */
  predicate ParamsMatch(cfg: map<string, Value>, stages: seq<Stage>)
  {
    forall i :: 0 <= i < |stages| ==> StageMatches(cfg, stages[i])
  }

  /** Stages come in strictly increasing rank: each kind at most once, in the fixed order. */
  predicate Ascending(stages: seq<Stage>)
  {
    forall i, j :: 0 <= i < j < |stages| ==> stages[i].Rank() < stages[j].Rank()
  }

  /** The pipeline holds the stage that optional key m switches on (rank m + 1). */
  predicate HasOptional(stages: seq<Stage>, m: nat)
  {
    exists i :: 0 <= i < |stages| && stages[i].Rank() == m + 1
  }

  /**
   * The pipeline after the first n optional keys were considered: the loader, then one
   * stage per present key among them, in order, each with its parameters.
   */
  ghost predicate Built(cfg: map<string, Value>, stages: seq<Stage>, n: nat)
  {
    && n <= |OptionalKeys|
    && |stages| == 1 + CountPresent(cfg, n)
    && stages[0] == Path2Wave
    && (forall i :: 0 <= i < |stages| ==> stages[i].Rank() <= n)
    && Ascending(stages)
    && (forall m :: 0 <= m < n ==> (HasOptional(stages, m) <==> OptionalKeys[m] in cfg))
    && ParamsMatch(cfg, stages)
  }

  lemma AppendOptional(stages: seq<Stage>, st: Stage, m: nat)
    requires st.Rank() != m + 1
    ensures HasOptional(stages + [st], m) <==> HasOptional(stages, m)
  {
    var s' := stages + [st];
    if HasOptional(s', m) {
      var i :| 0 <= i < |s'| && s'[i].Rank() == m + 1;
      assert s'[i] == stages[i];
    }
    if HasOptional(stages, m) {
      var i :| 0 <= i < |stages| && stages[i].Rank() == m + 1;
      assert s'[i] == stages[i];
    }
  }

  lemma AppendAscending(stages: seq<Stage>, st: Stage)
    requires Ascending(stages)
    requires forall i :: 0 <= i < |stages| ==> stages[i].Rank() < st.Rank()
    ensures Ascending(stages + [st])
  {
    var s' := stages + [st];
    forall i, j | 0 <= i < j < |s'|
      ensures s'[i].Rank() < s'[j].Rank()
    {
      assert s'[i] == stages[i];
    }
  }

  lemma AddStage(cfg: map<string, Value>, stages: seq<Stage>, n: nat, st: Stage)
    requires Built(cfg, stages, n)
    requires n < |OptionalKeys| && OptionalKeys[n] in cfg && st.Rank() == n + 1
    requires StageMatches(cfg, st)
    ensures Built(cfg, stages + [st], n + 1)
  {
    var s' := stages + [st];
    assert s'[|stages|] == st;
    assert HasOptional(s', n);
    forall m | 0 <= m < n
      ensures HasOptional(s', m) <==> HasOptional(stages, m)
    {
      AppendOptional(stages, st, m);
    }
    assert ParamsMatch(cfg, s') by {
      forall i | 0 <= i < |s'|
        ensures StageMatches(cfg, s'[i])
      {
        if i < |stages| {
          assert s'[i] == stages[i];
        }
      }
    }
    AppendAscending(stages, st);
  }

  lemma SkipStage(cfg: map<string, Value>, stages: seq<Stage>, n: nat)
    requires Built(cfg, stages, n)
    requires n < |OptionalKeys| && OptionalKeys[n] !in cfg
    ensures Built(cfg, stages, n + 1)
  {
  }

  /**
   * What a composed pipeline looks like: the loader first, then one stage for each
   * optional key present, in the fixed order monochannel, resample, trim, truncate,
   * wavemean, each with its key's parameters, and last the writer for `cfg["format"]`.
   */
  predicate Composed(cfg: map<string, Value>, stages: seq<Stage>)
  {
    && "format" in cfg
    && |stages| == 2 + CountPresent(cfg, |OptionalKeys|)
    && stages[0] == Path2Wave
    && stages[|stages| - 1] == WriterStage(cfg["format"])
    && Ascending(stages)
    && (forall m :: 0 <= m < |OptionalKeys| ==> (HasOptional(stages, m) <==> OptionalKeys[m] in cfg))
    && (forall i :: 0 <= i < |stages| - 1 ==> stages[i].ReturnsSample())
    && ParamsMatch(cfg, stages)
  }

  /** The stage optional key m switches on, its parameters looked up in source order. */
  function OptionalStage(cfg: map<string, Value>, m: nat): (r: Result<Stage, ConfigError>)
    requires m < |OptionalKeys| && OptionalKeys[m] in cfg
    ensures r.Success? ==> r.value.Rank() == m + 1 && StageMatches(cfg, r.value)
  {
    if m == 0 then Success(ToMonophonic)
    else if m == 1 then
      var rate := Param(cfg, "resample", "resample_rate");
      if rate.Failure? then Failure(rate.error) else Success(ResampleAudio(rate.value))
    else if m == 2 then
      var level := Param(cfg, "trim", "trim_level");
      if level.Failure? then Failure(level.error) else Success(TrimStage(level.value))
    else if m == 3 then
      var length := Param(cfg, "truncate", "clip_length");
      if length.Failure? then Failure(length.error)
      else
        var offset := Param(cfg, "truncate", "offset");
        if offset.Failure? then Failure(offset.error) else Success(Truncate(length.value, offset.value))
    else Success(WaveMean)
  }

  /** The parameters of every present key among the first n optional keys are there. */
  predicate ParamsUpTo(cfg: map<string, Value>, n: nat)
    requires n <= |OptionalKeys|
  {
    forall m :: 0 <= m < n && OptionalKeys[m] in cfg ==> OptionalStage(cfg, m).Success?
  }

  lemma ParamsPresentIff(cfg: map<string, Value>)
    ensures ParamsPresent(cfg) <==> ParamsUpTo(cfg, |OptionalKeys|)
  {
    assert OptionalKeys[1] == "resample" && OptionalKeys[2] == "trim" && OptionalKeys[3] == "truncate";
    if ParamsPresent(cfg) {
      forall m | 0 <= m < |OptionalKeys| && OptionalKeys[m] in cfg
        ensures OptionalStage(cfg, m).Success?
      {
      }
    }
    if ParamsUpTo(cfg, |OptionalKeys|) {
      if "resample" in cfg {
        assert OptionalStage(cfg, 1).Success?;
      }
      if "trim" in cfg {
        assert OptionalStage(cfg, 2).Success?;
      }
      if "truncate" in cfg {
        assert OptionalStage(cfg, 3).Success?;
      }
    }
  }

  /** The list after the first n optional keys were considered; the first failure sticks. */
  function Prefix(cfg: map<string, Value>, n: nat): (r: Result<seq<Stage>, ConfigError>)
    requires n <= |OptionalKeys|
    ensures r.Success? ==> r.value != [] && r.value[0] == Path2Wave
  {
    if n == 0 then Success([Path2Wave])
    else
      var before := Prefix(cfg, n - 1);
      if before.Failure? || OptionalKeys[n - 1] !in cfg then before
      else
        var st := OptionalStage(cfg, n - 1);
        if st.Failure? then Failure(st.error) else Success(before.value + [st.value])
  }

  lemma {:induction false} PrefixShape(cfg: map<string, Value>, n: nat)
    requires n <= |OptionalKeys|
    ensures Prefix(cfg, n).Success? <==> ParamsUpTo(cfg, n)
    ensures Prefix(cfg, n).Success? ==> Built(cfg, Prefix(cfg, n).value, n)
  {
    if n == 0 {
      assert Built(cfg, [Path2Wave], 0);
    } else {
      PrefixShape(cfg, n - 1);
      var before := Prefix(cfg, n - 1);
      if before.Success? {
        if OptionalKeys[n - 1] in cfg {
          var st := OptionalStage(cfg, n - 1);
          if st.Success? {
            AddStage(cfg, before.value, n - 1, st.value);
          }
        } else {
          SkipStage(cfg, before.value, n - 1);
        }
      }
    }
  }

  /**
   * The list `_get_transforms` composes, as a value: it exists exactly when every needed
   * parameter and "format" are present and then has the shape Composed describes; with
   * the parameters present and no "format", the error is the KeyError for "format".
   */
  function Pipeline(cfg: map<string, Value>): (r: Result<seq<Stage>, ConfigError>)
    ensures r.Success? <==> ParamsPresent(cfg) && "format" in cfg
    ensures ParamsPresent(cfg) && "format" !in cfg ==> r == Failure(KeyError("format"))
    ensures r.Success? ==> Composed(cfg, r.value)
  {
    PrefixShape(cfg, |OptionalKeys|);
    ParamsPresentIff(cfg);
    var optional := Prefix(cfg, |OptionalKeys|);
    if optional.Failure? then optional
    else if "format" !in cfg then Failure(KeyError("format"))
    else
      AddWriter(cfg, optional.value);
      Success(optional.value + [WriterStage(cfg["format"])])
  }

  /**
   * `_get_transforms`: appends the stages one by one and stops at the first missing
   * parameter, producing exactly Pipeline(cfg).
   */
  method GetTransforms(cfg: map<string, Value>) returns (r: Result<seq<Stage>, ConfigError>)
    ensures r == Pipeline(cfg)
    ensures r.Success? <==> ParamsPresent(cfg) && "format" in cfg
    ensures r.Success? ==> Composed(cfg, r.value)
  {
    assert OptionalKeys[0] == "monochannel" && OptionalKeys[1] == "resample" && OptionalKeys[2] == "trim";
    assert OptionalKeys[3] == "truncate" && OptionalKeys[4] == "wavemean";
    var stages := [Path2Wave];
    assert Prefix(cfg, 0) == Success(stages);
    if "monochannel" in cfg {
      stages := stages + [ToMonophonic];
    }
    assert Prefix(cfg, 1) == Success(stages);
    if "resample" in cfg {
      var rate := Param(cfg, "resample", "resample_rate");
      if rate.Failure? {
        PrefixFailureSticks(cfg, 2, rate.error);
        return Failure(rate.error);
      }
      stages := stages + [ResampleAudio(rate.value)];
    }
    assert Prefix(cfg, 2) == Success(stages);
    if "trim" in cfg {
      var level := Param(cfg, "trim", "trim_level");
      if level.Failure? {
        PrefixFailureSticks(cfg, 3, level.error);
        return Failure(level.error);
      }
      stages := stages + [TrimStage(level.value)];
    }
    assert Prefix(cfg, 3) == Success(stages);
    if "truncate" in cfg {
      var length := Param(cfg, "truncate", "clip_length");
      if length.Failure? {
        PrefixFailureSticks(cfg, 4, length.error);
        return Failure(length.error);
      }
      var offset := Param(cfg, "truncate", "offset");
      if offset.Failure? {
        PrefixFailureSticks(cfg, 4, offset.error);
        return Failure(offset.error);
      }
      stages := stages + [Truncate(length.value, offset.value)];
    }
    assert Prefix(cfg, 4) == Success(stages);
    if "wavemean" in cfg {
      stages := stages + [WaveMean];
    }
    assert Prefix(cfg, 5) == Success(stages);
    if "format" !in cfg {
      return Failure(KeyError("format"));
    }
    stages := stages + [WriterStage(cfg["format"])];
    r := Success(stages);
  }

  /** Once a lookup fails, the failure is the final result. */
  lemma {:induction false} PrefixFailureSticks(cfg: map<string, Value>, n: nat, e: ConfigError)
    requires n <= |OptionalKeys| && Prefix(cfg, n) == Failure(e)
    ensures Prefix(cfg, |OptionalKeys|) == Failure(e)
    decreases |OptionalKeys| - n
  {
    if n < |OptionalKeys| {
      PrefixFailureSticks(cfg, n + 1, e);
    }
  }

  lemma AddWriter(cfg: map<string, Value>, stages: seq<Stage>)
    requires Built(cfg, stages, |OptionalKeys|) && "format" in cfg
    ensures Composed(cfg, stages + [WriterStage(cfg["format"])])
  {
    var fmt := cfg["format"];
    var s' := stages + [WriterStage(fmt)];
    forall m | 0 <= m < |OptionalKeys|
      ensures HasOptional(s', m) <==> HasOptional(stages, m)
    {
      AppendOptional(stages, WriterStage(fmt), m);
    }
    assert ParamsMatch(cfg, s') by {
      forall i | 0 <= i < |s'|
        ensures StageMatches(cfg, s'[i])
      {
        if i < |stages| {
          assert s'[i] == stages[i];
        }
      }
    }
    AppendAscending(stages, WriterStage(fmt));
    forall i | 0 <= i < |s'| - 1
      ensures s'[i].ReturnsSample()
    {
      assert s'[i] == stages[i];
    }
  }

  // ---------------------------------------------------------------- story names

  predicate IsDigit(ch: char)
  {
    '0' <= ch <= '9'
  }

  /**
   * `^(.*)part([0-9]+)` can match with "part" starting at index i: "part" at i, a
   * digit right after it, and no newline before it (`.` does not match a newline).
   */
  predicate PartAt(s: string, i: int)
    ensures PartAt(s, i) ==> 0 <= i < |s| - 4 && forall k :: 0 <= k < i ==> s[k] != '\n'
  {
    0 <= i && i + 5 <= |s| && s[i..i + 4] == "part" && IsDigit(s[i + 4]) && '\n' !in s[..i]
  }

  /** The largest index below `from` where the pattern can match, or -1. */
  function LastPartAt(s: string, from: nat): (r: int)
    requires from <= |s|
    ensures r == -1 || (0 <= r < from && PartAt(s, r))
    ensures forall j :: r < j < from ==> !PartAt(s, j)
    decreases from
  {
    if from == 0 then -1
    else if PartAt(s, from - 1) then from - 1
    else LastPartAt(s, from - 1)
  }

  /** The maximal run of digits starting at index i (what the greedy `[0-9]+` takes). */
  function DigitRun(s: string, i: nat): (r: string)
    requires i <= |s|
    ensures i + |r| <= |s| && r == s[i..i + |r|]
    ensures forall k :: 0 <= k < |r| ==> IsDigit(r[k])
    ensures i + |r| == |s| || !IsDigit(s[i + |r|])
    decreases |s| - i
  {
    if i < |s| && IsDigit(s[i]) then [s[i]] + DigitRun(s, i + 1) else []
  }

  /** `int(d)` for a string of decimal digits: zero exactly when every digit is '0'. */
  function DigitsValue(d: string): (r: nat)
    requires forall k :: 0 <= k < |d| ==> IsDigit(d[k])
    ensures r == 0 <==> forall k :: 0 <= k < |d| ==> d[k] == '0'
  {
    if d == [] then 0
    else
      var last := d[|d| - 1];
      assert IsDigit(last);
      DigitsValue(d[..|d| - 1]) * 10 + (last as int - '0' as int)
  }

  /** A story name split into the base story and the index of its segment. */
  datatype StoryPart = StoryPart(base: string, index: int)

  /**
   * The name parsing of `_process_from_bucket`: with no match, the whole name and
   * segment 0; otherwise the prefix before the match and the number after "part" minus
   * one (see ParseNoMatch and ParseLastMatch for which match).
   */
  function ParseStoryName(story: string): (r: StoryPart)
    ensures |r.base| <= |story| && r.base == story[..|r.base|]
    ensures r.index >= -1
    ensures |r.base| == |story| <==> r == StoryPart(story, 0)
  {
    var i := LastPartAt(story, |story|);
    if i < 0 then StoryPart(story, 0)
    else StoryPart(story[..i], DigitsValue(DigitRun(story, i + 4)) - 1)
  }

  /** A name in which the pattern finds no match is its own base story, segment 0. */
  lemma ParseNoMatch(story: string)
    requires forall i :: 0 <= i < |story| ==> !PartAt(story, i)
    ensures ParseStoryName(story) == StoryPart(story, 0)
  {
    var i := LastPartAt(story, |story|);
    if i >= 0 {
      assert false;
    }
  }

  /**
   * Because `.*` is greedy, the match is the LAST "part<digit>" on the first line: the
   * base is everything before it and the index is the full digit run after it, minus one;
   * whatever follows the digits is ignored.
   */
  lemma ParseLastMatch(story: string, i: int)
    requires PartAt(story, i)
    requires forall j :: i < j < |story| ==> !PartAt(story, j)
    ensures ParseStoryName(story) == StoryPart(story[..i], DigitsValue(DigitRun(story, i + 4)) - 1)
  {
    var r := LastPartAt(story, |story|);
    if r < i {
      assert false;
    } else if r > i {
      assert false;
    }
  }

  /** Segment "part0" gives index -1: the number is taken one-based without a check. */
  lemma PartZero(base: string)
    requires '\n' !in base
    ensures ParseStoryName(base + "part0") == StoryPart(base, -1)
  {
    var s := base + "part0";
    var i := |base|;
    assert s[i..i + 4] == "part" && s[..i] == base;
    assert PartAt(s, i);
    ParseLastMatch(s, i);
    var run := DigitRun(s, i + 4);
    assert run == "0" by {
      assert s[i + 4] == '0';
      assert |run| >= 1;
      assert |run| == 1;
    }
    assert DigitsValue("0") == 0 by {
      assert "0"[..0] == "";
    }
  }

  /** Where `process_stimuli` writes a story: `<out_dir>/<story>.flac`. */
  function OutPath(outDir: string, story: string): (r: string)
    ensures |r| == |outDir| + |story| + 6
    ensures r[..|outDir| + 1] == outDir + "/" && EndsWith(r, story + ".flac")
  {
    Join(outDir, story + ".flac")
  }

  /** Where `_process_from_bucket` downloads a story: `<dir>/<story>.wav`. */
  function DownloadPath(dir: string, story: string): (r: string)
    ensures |r| == |dir| + |story| + 5
    ensures r[..|dir| + 1] == dir + "/" && EndsWith(r, story + ".wav")
  {
    Join(dir, story + ".wav")
  }

  /** The writer stage built from the configuration value `fmt` accepts `path`. */
  predicate WriterAccepts(fmt: Value, path: string)
  {
    fmt.Text? && WaveToFile.Accepts(fmt.s, path)
  }

  lemma JoinHasStem(dir: string, name: string)
    requires HasStem(name)
    ensures HasStem(Join(dir, name))
  {
    var p := Join(dir, name);
    var off := |dir| + 1;
    var l := LastIndexOf(name, '/');
    var i :| l < i < |name| && name[i] != '.';
    assert p[off + i] == name[i];
    var q := LastIndexOf(p, '/');
  }

  /**
   * Output paths always end in ".flac", so a writer configured with any format other
   * than "flac" rejects every story (whose final name component has a stem).
   */
  lemma OutPathNeedsFlac(outDir: string, story: string, fmt: Value)
    requires HasStem(story)
    ensures WaveToFile.FormatOf(OutPath(outDir, story)) == "flac"
    ensures WriterAccepts(fmt, OutPath(outDir, story)) <==> fmt == Text("flac")
  {
    JoinHasStem(outDir, story);
    assert OutPath(outDir, story) == Join(outDir, story) + "." + "flac";
    WaveToFile.FormatOfJoined(Join(outDir, story), "flac");
  }

  /** Downloads are named "<story>.wav". */
  lemma DownloadPathIsWav(dir: string, story: string)
    requires HasStem(story)
    ensures WaveToFile.FormatOf(DownloadPath(dir, story)) == "wav"
  {
    JoinHasStem(dir, story);
    assert DownloadPath(dir, story) == Join(dir, story) + "." + "wav";
    WaveToFile.FormatOfJoined(Join(dir, story), "wav");
  }
}
