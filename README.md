# audio_preprocessing, modelled in Dafny

This project models the core of `audio_preprocessing`, a package that prepares long
audio stimuli for sequence models. It covers:

- **Windowing engine** (`Window`): turns a waveform of `n` samples into an ordered list
  of `(start, end)` snippets and groups them into batches. Warm-up end-points are
  multiples of the chunk size `c` below the window width `W = c + x`. Full-context
  end-points come from a sliding window of width `W` and stride `c`. Skip mode gives one
  snippet, `(0, n)`.
- **Padding stage** (`PadSilence`): prepends silence and maps snippet times back to the
  unpadded timeline.
- **Trimming stage** (`TrimSilence`): runs a voice-activity detector forward and then
  on the flipped result. If either pass is empty, it falls back to the untouched
  waveform.
- **Writer stage** (`Wave2File`): the output path's extension must equal the requested
  format.
- **Stimulus processing**: composes the stage pipeline from a configuration mapping
  (`_get_transforms`), parses story names of the form `<base>part<digits>`, and names
  the download and output files.
- **Stimulus selection**: maps stories to the files that hold them, either from a list
  of stories or sessions (bucket mode) or by listing a directory (directory mode).

Each module follows one source file:

| module | file | form |
|---|---|---|
| `Windowing` | window.dfy | tensor expressions as functions; class `Window` whose `Apply` writes the snippet fields of a sample; the batching loop as the method `BatchRuns` |
| `Padding` | pad.dfy | pure helpers; class `PadSilence` with two sample-updating methods |
| `Trim` | trim.dfy | pure branching over an uninterpreted detector; class `TrimSilence` |
| `WaveToFile` | wave_to_file.dfy | `splitext` as functions; class `Wave2File` |
| `ProcessStimuli` | process_stimuli.dfy | `_get_transforms` as a method of successive appends proved equal to a reference function; name parsing and path naming as functions |
| `SelectStimuli` | select_stimuli.dfy | the story-set loop, the lookup loop and the overwrite loop as methods with loop invariants |
| `SampleRecord` | sample.dfy | the sample dictionary as a class `Sample` whose not-yet-written keys are `None` |
| `Paths`, `Wrappers` | paths.dfy, wrappers.dfy | path-string helpers; `Option`, `Result` and `Outcome` |

Python exceptions and failing `assert` statements become error values: the
`Failure`/`Fail` constructors of `Result` and `Outcome`. A failing stage leaves the
sample exactly as the source leaves it when it raises, including the fields written
before the failure.

Points of the windowing code that the model keeps exactly:

- The warm-up end-points come from `arange(c, c + x, c)`, so the bound `c + x` is
  exclusive (`WarmupEnds`).
- The `ValueError` is raised only when no end-point tensor is appended at all
  (`EndParts`). A minimum-length filter that empties the list does not raise it:
  - under full context, the empty list fails when the code indexes
    `snippet_length_samples[0]`, after `snippet_times` and `snippet_times_sec` have
    been written. This is `NoSnippetLength` in `Window.Apply`;
  - in the variable-length mode, an empty list raises nothing and yields one empty
    batch (`EmptyVariableBatches`).
- Durations are converted to sample counts by truncation with `int(...)`.
  `Padding.Trunc` models it for the padding count. The windowing stage takes its sample
  counts as inputs.
- The warm-up end-points are never compared with the waveform length. When full
  context is not required and the context is positive, a waveform shorter than `c`
  still gets a warm-up snippet that ends at `c`, past the waveform's end
  (`WarmupEndsPastWaveform`).
- A one-sample waveform squeezes to a 0-dim tensor, and reading `shape[0]` of it raises
  an `IndexError` in every mode (`ScalarWaveform` in `Window.Apply`).

## Model

| member | source | states |
|---|---|---|
| Windowing.Window.constructor | audio_preprocessing/transforms/_window.py:3-15 | keeps every setting; skip mode forces the batch size to 1; the object satisfies the stage invariant (positive rate, positive chunk and batch size outside skip mode) |
| Windowing.Window.Apply | audio_preprocessing/transforms/_window.py:17-90 | sample-rate mismatch fails first and changes nothing; a one-sample waveform then fails with the `IndexError` that follows squeezing it and changes nothing; no end-point tensor gives the no-snippets error and changes nothing; otherwise `snippetTimes` is the filtered snippet list and `snippetTimesSec` that list in seconds; under full context an empty list then fails at indexing; else `snippetIter` holds the batches; waveform, rate, paths and times are untouched |
| Windowing.Arange | audio_preprocessing/transforms/_window.py:28 | element k is `lo + k*step` and below `hi`, the sequence stops at the first value reaching `hi`, and it is strictly increasing |
| Windowing.WarmupEnds | audio_preprocessing/transforms/_window.py:25-28 | the warm-up ends are `(k+1)*c`, all strictly below `c + x` (exclusive bound), none missing below it, strictly increasing |
| Windowing.WarmupCount | audio_preprocessing/transforms/_window.py:28 | there are `ceil(x / c)` warm-up ends, i.e. `(x + c - 1) / c` |
| Windowing.SlidingEnds | audio_preprocessing/transforms/_window.py:35 | the unfold ends are `from + size + k*step`, each at most `n`, the next one would exceed `n`, strictly increasing |
| Windowing.FullEnds | audio_preprocessing/transforms/_window.py:32-36 | full-context ends are `W, W+c, W+2c, ...`, each at most `n`; there are `(n - W)/c + 1` of them when `n >= W` and none otherwise |
| Windowing.EndParts | audio_preprocessing/transforms/_window.py:22-41 | the list of end-point tensors is empty (the `ValueError`) exactly when skip is off, full context is required and `n < W`; otherwise it holds one or two tensors |
| Windowing.Ends | audio_preprocessing/transforms/_window.py:43 | the concatenated end-points are `[n]` in skip mode, else the warm-up ends (unless full context is required) followed by the full-context ends |
| Windowing.EndsIncrease | audio_preprocessing/transforms/_window.py:24-43 | the concatenated end-points are strictly increasing, since every warm-up end is below `W` and every full end at least `W` |
| Windowing.StartsFor | audio_preprocessing/transforms/_window.py:47-50 | one snippet per end-point, ending there and starting at or after 0; a snippet ending at or past `W` spans exactly `W`, an earlier one starts at 0 (the clamp `max(0, end - W)`) |
| Windowing.Candidates | audio_preprocessing/transforms/_window.py:43-52 | the candidate snippets have strictly increasing ends |
| Windowing.CandidateStarts | audio_preprocessing/transforms/_window.py:47-50 | every candidate has `0 <= start < end`; an end at or past `W` gives a snippet of length exactly `W`; an earlier end gives start 0 (the clamp `max(0, end - W)`) |
| Windowing.SkipMode | audio_preprocessing/transforms/_window.py:37-52 | in skip mode the one candidate is `(0, n)`; it survives the filter iff `n >= min_length`; batches hold at most one snippet |
| Windowing.KeepLong | audio_preprocessing/transforms/_window.py:54 | the filter keeps exactly the snippets whose span reaches the minimum length, never adds any, and keeps increasing ends increasing |
| Windowing.Retained | audio_preprocessing/transforms/_window.py:54 | a snippet is retained iff it is a candidate whose span is at least the minimum length; ends stay strictly increasing, so the order is preserved |
| Windowing.FullContextSpans | audio_preprocessing/transforms/_window.py:32-54 | under full context every retained snippet has span exactly `W` and lies within `[0, n]` |
| Windowing.EqualSpansUnderFullContext | audio_preprocessing/transforms/_window.py:61-65 | under full context all retained spans are equal, so the "uneven snippet lengths" assertion never fails |
| Windowing.ExactWidthOneWindow | audio_preprocessing/transforms/_window.py:32-36 | a waveform of exactly `W` samples under full context gives the single snippet `(0, W)` |
| Windowing.WarmupOnlyBelowWidth | audio_preprocessing/transforms/_window.py:25-54 | without full context and with `n < W`, every retained snippet starts at 0 and is shorter than `W`, and spans strictly increase |
| Windowing.WarmupEndsPastWaveform | audio_preprocessing/transforms/_window.py:25-28 | warm-up ends ignore the waveform length: without full context and with a positive context, an empty waveform still gets the end `c > 0` |
| Windowing.InSeconds | audio_preprocessing/transforms/_window.py:55 | one pair per snippet, and each boundary in seconds times the rate gives back the sample boundary |
| Windowing.Chunks | audio_preprocessing/transforms/_window.py:70-80 | splitting gives at least one group; the groups read back in order give the list; every group has at most `b` items and all but the last exactly `b`; no group is empty unless the list is |
| Windowing.Runs | audio_preprocessing/transforms/_window.py:73 | the runs read back in order give the list; each run has a single span; adjacent runs differ in span at their border (maximal runs); an empty list gives one empty run |
| Windowing.SplitOversized | audio_preprocessing/transforms/_window.py:76-83 | the batches read back in order give the runs read back in order; none exceeds `b`; uniform runs give uniform batches |
| Windowing.RunPieces | audio_preprocessing/transforms/_window.py:79-82 | what one loop pass appends reads back as the run, and no piece exceeds `b`; a run of one span gives pieces of one span |
| Windowing.BatchRuns | audio_preprocessing/transforms/_window.py:76-83 | the append loop builds exactly the split-oversized batch list |
| Windowing.ChunksOfUniform | audio_preprocessing/transforms/_window.py:68-70 | every group split from a list of equal spans has a single span |
| Windowing.Batches | audio_preprocessing/transforms/_window.py:68-85 | the batches read back in order equal the snippet list; none exceeds the batch size; in the variable-length mode, or when all spans agree, every batch has a single span |
| Windowing.EmptyVariableBatches | audio_preprocessing/transforms/_window.py:73-83 | in the variable-length mode an empty snippet list yields one empty batch and no error |
| Padding.Trunc | build/lib/audio_preprocessing/transforms/_pad.py:10 | `int(v)` truncates toward zero: the result is within 1 of `v` on the side of zero |
| Padding.PadCount | build/lib/audio_preprocessing/transforms/_pad.py:10 | for a non-negative duration, the whole number of samples that fit in it (at most `context_sz * sr` and within 1 of it); negative once the duration is at least one sample below zero |
| Padding.PadFront | build/lib/audio_preprocessing/transforms/_pad.py:10 | the new waveform is `p` longer, its first `p` samples are 0 and the rest is the original |
| Padding.CorrectTime | build/lib/audio_preprocessing/transforms/_pad.py:16 | the corrected time is never negative; it is `t - c` when `t >= c` and 0 when `t <= c` |
| Padding.CorrectTimes | build/lib/audio_preprocessing/transforms/_pad.py:16 | every pair is corrected element-wise and the count is kept |
| Padding.PadSilence.constructor | build/lib/audio_preprocessing/transforms/_pad.py:4-5 | keeps the padding duration |
| Padding.PadSilence.Apply | build/lib/audio_preprocessing/transforms/_pad.py:7-12 | a negative count fails and changes nothing; otherwise the waveform becomes the padded waveform and every other field is unchanged |
| Padding.PadSilence.RemovePadding | build/lib/audio_preprocessing/transforms/_pad.py:14-20 | without times it fails; if some corrected end is not positive it fails and changes nothing; otherwise `times` becomes the corrected times and every other field is unchanged |
| Padding.EndCheckFailsIff | build/lib/audio_preprocessing/transforms/_pad.py:16-18 | the end-time assertion fails exactly when some original end time is at most the padding duration |
| Padding.PaddingRoundTrip | build/lib/audio_preprocessing/transforms/_pad.py:10-16 | with a whole number `p` of padding samples, sample i moves to i + p, and the time of i + p corrected for the padding is the time of i |
| Trim.Reverse | build/lib/audio_preprocessing/transforms/_trim_silence.py:22-30 | flipping keeps the length and puts the sample counted i from the end at i |
| Trim.ReverseTwice | build/lib/audio_preprocessing/transforms/_trim_silence.py:22-30 | flipping twice restores the waveform |
| Trim.ReverseSuffixOfReverse | build/lib/audio_preprocessing/transforms/_trim_silence.py:22-30 | dropping k leading samples of a flipped waveform and flipping back drops k trailing samples of the original |
| Trim.Trimmed | build/lib/audio_preprocessing/transforms/_trim_silence.py:15-32 | an empty first pass keeps the original; an empty second pass also keeps the original, discarding the first trim; otherwise the result flipped is what the second pass kept |
| Trim.TrimmedIsInfix | build/lib/audio_preprocessing/transforms/_trim_silence.py:14-34 | when the detector only drops leading samples, the result is a contiguous stretch `w[a..b]` of the original |
| Trim.TrimSilence.constructor | build/lib/audio_preprocessing/transforms/_trim_silence.py:11-12 | keeps the trigger level (default 60) |
| Trim.TrimSilence.Apply | build/lib/audio_preprocessing/transforms/_trim_silence.py:14-34 | the waveform becomes the trimmed waveform and no other field changes |
| Paths.LastIndexOf | audio_preprocessing/transforms/_wave_to_file.py:12 | the index of the last occurrence of the character, or -1 when there is none |
| Paths.Join | audio_preprocessing/io/_process_stimuli.py:89 | `Path(dir) / name` is the directory, a separator and the name, in that order |
| WaveToFile.SplitExt | audio_preprocessing/transforms/_wave_to_file.py:12 | the suffix is empty, or starts with a dot, is what the path ends with, and has no further dot and no separator; a non-empty suffix leaves a final component with a non-dot character, so leading dots are never a suffix |
| WaveToFile.FormatOf | audio_preprocessing/transforms/_wave_to_file.py:12 | the extension has no dot or separator; a non-empty one is what the path ends with after a dot, and the final component has a non-dot character before that dot |
| WaveToFile.FormatOfJoined | audio_preprocessing/transforms/_wave_to_file.py:12 | splitting `stem + "." + ext` gives back `ext` whenever the stem's final component has a non-dot character |
| WaveToFile.Wave2File.constructor | audio_preprocessing/transforms/_wave_to_file.py:8-9 | keeps the format (default "flac") |
| WaveToFile.Wave2File.Apply | audio_preprocessing/transforms/_wave_to_file.py:11-13 | the write happens iff the path's extension equals the format; it saves the sample's waveform and rate to the output path; a mismatch writes nothing; no sample is returned |
| ProcessStimuli.CountPresentValue | audio_preprocessing/io/_process_stimuli.py:103-121 | the number of stages the optional keys add is the number of positions among the first n optional keys whose key the configuration holds |
| ProcessStimuli.Param | audio_preprocessing/io/_process_stimuli.py:108-117 | `transforms[key][field]` succeeds exactly when the key holds a mapping with that field, and gives its value; a mapping without the field gives a `KeyError` naming the field; a value that is not a mapping gives a `TypeError` |
| ProcessStimuli.OptionalStage | audio_preprocessing/io/_process_stimuli.py:103-121 | a built optional stage has the rank of its key and carries that key's parameters |
| ProcessStimuli.ParamsPresentIff | audio_preprocessing/io/_process_stimuli.py:107-119 | the parameter lookups all succeed exactly when every present key has its parameters |
| ProcessStimuli.Prefix | audio_preprocessing/io/_process_stimuli.py:102-121 | a successful prefix of the list starts with the loader; its full shape is stated by PrefixShape |
| ProcessStimuli.PrefixShape | audio_preprocessing/io/_process_stimuli.py:102-121 | after the first n optional keys the list exists iff their parameters are present, and it is the loader followed by one stage per present key in order |
| ProcessStimuli.PrefixFailureSticks | audio_preprocessing/io/_process_stimuli.py:103-121 | once a lookup has failed, considering more keys keeps that failure |
| ProcessStimuli.Pipeline | audio_preprocessing/io/_process_stimuli.py:102-122 | a pipeline exists iff every needed parameter and "format" are present; with every needed parameter present and no "format", the error is the KeyError for "format"; a pipeline starts with the loader, ends with the writer for `format`, holds one stage per present optional key in the fixed order and `2 + #present` stages, and only the writer returns no sample |
| ProcessStimuli.GetTransforms | audio_preprocessing/io/_process_stimuli.py:95-124 | the successive appends produce exactly the reference pipeline, with the same success condition and shape |
| ProcessStimuli.LastPartAt | audio_preprocessing/io/_process_stimuli.py:79 | finds the last position where "part" and a digit can match on the first line, or -1 when there is none |
| ProcessStimuli.PartAt | audio_preprocessing/io/_process_stimuli.py:79 | the pattern can match with "part" at i only when "part" and a digit fit from i and i lies on the first line (no newline before it) |
| ProcessStimuli.DigitRun | audio_preprocessing/io/_process_stimuli.py:79 | the greedy `[0-9]+`: a run of digits at the position, not followed by another digit |
| ProcessStimuli.DigitsValue | audio_preprocessing/io/_process_stimuli.py:84 | `int()` of a digit string is zero exactly when every digit is '0' |
| ProcessStimuli.ParseStoryName | audio_preprocessing/io/_process_stimuli.py:79-85 | the base is a prefix of the name; the index is at least -1; the base is the whole name exactly when the result is `(name, 0)` |
| ProcessStimuli.ParseNoMatch | audio_preprocessing/io/_process_stimuli.py:79-82 | a name without "part" followed by a digit is its own base with index 0 |
| ProcessStimuli.ParseLastMatch | audio_preprocessing/io/_process_stimuli.py:79-85 | with the last match at i, the base is the name before i and the index is the whole digit run after "part" minus one; whatever follows is ignored |
| ProcessStimuli.PartZero | audio_preprocessing/io/_process_stimuli.py:84 | `<base>part0` gives index -1 |
| ProcessStimuli.OutPath | audio_preprocessing/io/_process_stimuli.py:54 | the output path is the output directory, a separator, and a name ending in `<story>.flac` |
| ProcessStimuli.DownloadPath | audio_preprocessing/io/_process_stimuli.py:89 | the download path is the download directory, a separator, and a name ending in `<story>.wav` |
| ProcessStimuli.OutPathNeedsFlac | audio_preprocessing/io/_process_stimuli.py:54 | for a story name whose final component has a non-dot character, the output path's extension is "flac", so the writer accepts it iff the configured format is "flac" |
| ProcessStimuli.DownloadPathIsWav | audio_preprocessing/io/_process_stimuli.py:89 | for a story name whose final component has a non-dot character, the download path's extension is "wav" |
| SelectStimuli.CollectStories | build/lib/audio_preprocessing/io/_select_stimuli.py:48-59 | given stories, the set of them; otherwise sessions are required; the set is the test and training stories of the sessions; an unknown session fails, naming the first one |
| SelectStimuli.LocateStories | build/lib/audio_preprocessing/io/_select_stimuli.py:61-74 | succeeds iff every story has a .flac or .wav file; then the keys are the stories and each maps to its .flac, else its .wav; a failure names every missing story |
| SelectStimuli.Preferred | build/lib/audio_preprocessing/io/_select_stimuli.py:65-69 | the chosen file exists; it is `<story>.flac` when that exists, else `<story>.wav` when that exists, else there is none |
| SelectStimuli.SelectFromBucket | build/lib/audio_preprocessing/io/_select_stimuli.py:39-74 | neither stories nor sessions fails; an unknown session fails, naming the first one; once the wanted stories are known, success iff each has a file, and then the keys are exactly those stories, else the error names every story without a file; every value is the story's preferred file |
| SelectStimuli.Globbed | build/lib/audio_preprocessing/io/_select_stimuli.py:84-89 | `glob` yields existing top-level entries ending in `.<ext>`, `rglob` such entries at any depth; a globbed name is longer than the extension and has a dot right before it |
| SelectStimuli.StemOf | build/lib/audio_preprocessing/io/_select_stimuli.py:94 | the name without suffix is a prefix of the relative path; when it differs, it ends at the path's last dot, which lies in the final component after its first character and before its last |
| SelectStimuli.LastDotBeforeExtension | build/lib/audio_preprocessing/io/_select_stimuli.py:94 | in `<name>.<ext>` the last dot is the one before the extension |
| SelectStimuli.StemOfGlobbed | build/lib/audio_preprocessing/io/_select_stimuli.py:84-94 | a globbed `<name>.<ext>` whose final component is longer than `.<ext>` is named `<name>` |
| SelectStimuli.StemOfDotName | build/lib/audio_preprocessing/io/_select_stimuli.py:84-94 | a globbed entry whose final component is only `.<ext>` keeps its whole path as its name, since `with_suffix('')` finds no suffix there |
| SelectStimuli.SelectFromDir | build/lib/audio_preprocessing/io/_select_stimuli.py:76-98 | the keys are exactly the names of globbed .wav and .flac entries; each maps to the last listed entry of that name; a .flac entry beats a .wav of the same name; non-recursive keys are top-level names |
| SelectStimuli.DirSelection | build/lib/audio_preprocessing/io/_select_stimuli.py:84-97 | from the loop's invariant: the key set, flac-over-wav, and top-level-only keys in non-recursive mode |
| SelectStimuli.Select | build/lib/audio_preprocessing/io/_select_stimuli.py:16-36 | a missing directory fails, then a non-directory; bucket mode then has every outcome of the bucket selection (errors, key set, preferred files); directory mode always succeeds with every property of the directory selection (key set, last entry per name, .flac over .wav, top-level keys) |

## Left out

- Sample-count conversion: `int(chunksz * sr)` and `int(contextsz * sr)` are not
  modelled. The windowing stage takes the chunk and context sizes as sample counts of
  type `nat`, so a negative duration, which `int(...)` turns into a negative count, is
  not modelled. The padding count `int(context_sz * sr)` is modelled with real
  arithmetic, not floating point.
- Tensor layout: multichannel layout and the transposes to `2 x k` batch tensors are
  not modelled. The waveform is the samples of a mono waveform as a `seq<real>`, and
  batches are sequences of `Span`. Squeezing keeps those samples when there are two or
  more, so `Window.Apply` leaves the waveform unchanged when it succeeds. A single sample
  squeezes to a 0-dim tensor; that case is the `ScalarWaveform` error.
- Windowing.Window.constructor requires a positive sample rate, and outside skip mode a
  positive chunk size and batch size. The source checks none of these. With other
  values it may fail in `arange`, `unfold` or `split`, or raise the no-snippets
  `ValueError` (a zero chunk size under full context on a waveform shorter than the
  context). In skip mode it may divide the snippet times by a non-positive rate. These
  behaviours are not modelled.
- Audio I/O: `torchaudio.load` and `torchaudio.save` are not modelled.
  `Wave2File.Apply` returns the write it would perform instead of writing.
- The voice-activity detector is an uninterpreted function parameter. Trim.TrimmedIsInfix
  assumes that it only drops leading samples, which is the detector's documented
  behaviour.
- Other stages: the internals of `Path2Wave`, `ToMonophonic`, `ResampleAudio`,
  `Truncate` and `WaveMean` are not modelled. Only their place in the pipeline and the
  configuration values they are built from are.
- Remote storage and the session table: `get_stimulus_interface`, `sess_to_story`,
  `get_stimulus_by_name` and `download_stimulus` are not modelled. The session table
  is a map parameter, and the segment lookup by index is not modelled.
- The `process_stimuli` loop is not modelled, apart from its path naming: temporary
  directories, `mkdir`/`makedirs`, `unlink`, `rmtree`, progress bars and printing.
- The file system is an abstract set of relative file and directory paths. Existence
  checks are boolean parameters, and path normalisation is not modelled.
- Set iteration order and glob order are not modelled. The glob listings are sequence
  parameters that must list exactly the matching entries. The results stated do not
  depend on set order.
- Error messages: the text of errors and the printed warnings are not modelled.
- `_load_stimuli.py`, the command-line entry point and the packaging files are not
  part of this model.
