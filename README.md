# Speaker diarization and transcript rendering, modelled in Dafny

This is a Dafny model of the part of a speaker-diarization pipeline that
does the reasoning. Recorded speech is cut into sliding windows, each
window gets a speaker embedding, and the embeddings are clustered into
speakers. Runs of same-speaker windows are merged into speaker intervals,
and each transcript segment from the speech recogniser gets the label of
the interval it overlaps most. The labelled transcript is then rendered
as plain text, Markdown and detailed Markdown with per-speaker statistics.
Two helpers are modelled as well: the human-readable duration text and
the validation of an input audio file.

The modules follow the program's files:

- `diarize_nemo.py` maps to four modules:
  - `Embeddings`: the sliding-window loop of `extract_embeddings`.
  - `Clusterer`: the best-k search of `auto_cluster_speakers`.
  - `Merger`: `merge_segments`.
  - `Aligner`: `assign_speakers_to_transcript`.
- `convert_to_readable.py` maps to `Readable`: `format_timestamp`, the three converters, and the input check and output naming of `main`.
- `utils.py` maps to `Utils`: `format_duration` and `validate_audio_file`.
- Shared modules:
  - `Transcript`: the segment record.
  - `TimeParts`: the `int()` truncation and the hours/minutes/seconds split.
  - `Strings`: Python string behaviour (`str(int)`, `:02d`, `split`, `join`, `strip`, `lower`, `replace(pat, "")`, `sorted`).
  - `Paths`: `PurePath.name`, `stem`, `suffix` and `parent`.
  - `Wrappers`: `Option` and `Result`.

Modelling choices:

- **Oracles.** The embedding model, the vector norm and the clustering-plus-silhouette step are function-typed parameters, so every property holds whatever they return:
  - `embed(start, end)` gives a raw vector for a window;
  - `norm(v)` gives its Euclidean norm;
  - `cluster(embeddings, k)` gives labels and a score, or `None` when the library raises.
- **Times** are Dafny `real`s: exact rationals, not floats.
- **Converters.** Each converter's output is the sequence of strings passed to `f.write`, in order.
- **Methods and specification functions.** Each loop of the source is a method. Its postcondition ties the result to a specification function, and the lemmas next to it prove what that function promises.
- **Python exceptions** are `Failure` values of a `Result`:
  - `RuntimeError` and `ValueError` in the diarization stages, and the `IndexError` that `merge_segments` raises on `labels[0]` when there are timestamps but no labels (`Merger.MissingLabel`);
  - `FileNotFoundError`, `ValueError` and `PermissionError` in the validator;
  - `sys.exit(1)` in the converter's `main`.
- **Format default.** The argument parser defaults the format to `all`. The `Format` datatype has no default: a caller passes `All`.

Details of the code that the model follows:

- **`max_speakers` defaults differ.** `auto_cluster_speakers` defaults to 10 (`Clusterer.DefaultMaxSpeakers`). `diarize_and_tag` passes 6.
- **A winner must beat -1.** `auto_cluster_speakers` keeps a candidate only if its score beats the starting value -1.
- **The range of k.** For k the code tries `range(2, min(max_speakers + 1, n + 1))`. A `max_speakers` below 2 therefore gives an empty range and the "all counts failed" error.
- **The progress-bar count.** `extract_embeddings` computes a window count, `num_windows = int((duration - window) / step) + 1`, that feeds only the progress bar. For audio shorter than one window it can be 1 although no window is taken. The loop condition decides which windows are visited, and that is what `Embeddings.WindowCount` counts.

## Model

| member | source | states |
|---|---|---|
| Embeddings.Normalize | diarize_nemo.py:80-82 | the normalised vector has the raw vector's length and each component times the norm gives back the raw component |
| Embeddings.WindowFitsIffBelowCount | diarize_nemo.py:63 | the i-th window, starting after i steps, lies wholly inside the audio exactly when i is below the number of whole windows that fit |
| Embeddings.NextWindowStart | diarize_nemo.py:91 | each pass moves the window start on by exactly one step |
| Embeddings.Kept | diarize_nemo.py:81-84 | every kept window index is below the window count and its embedding's norm exceeds 1e-10 |
| Embeddings.KeptSpec | diarize_nemo.py:81-87 | the kept indices are strictly increasing and every usable window among the visited ones is kept |
| Embeddings.ExtractEmbeddings | diarize_nemo.py:52-98 | fails with "no valid embeddings" exactly when no window survives; otherwise the embeddings and timestamps have equal length, the j-th timestamp is (t, t+W) of the j-th surviving window and the j-th embedding is its raw vector divided by its norm; windows of small norm are dropped while t still advances |
| Embeddings.ExtractedWindowsFit | diarize_nemo.py:63-91 | every recorded window starts at or after 0, ends within the audio, has the window length, and starts strictly after the previous recorded window |
| Embeddings.WindowInside | diarize_nemo.py:63 | a window the loop visits starts at or after 0, ends within the audio and has the window length |
| Embeddings.WindowsOrdered | diarize_nemo.py:84-91 | a window visited later starts strictly later |
| Clusterer.FirstBestUnique | diarize_nemo.py:127-140 | at most one candidate count is the first one with the highest score |
| Clusterer.AutoClusterSpeakers | diarize_nemo.py:104-154 | fewer than two embeddings is the ValueError case; "all counts failed" exactly when no k in 2..min(max_speakers, n) clusters with a score above -1 (an empty range included); otherwise the result is the labels and score of the first k with the highest score, which beat -1 |
| Merger.Zip | diarize_nemo.py:179 | pairs timestamps with labels up to the shorter of the two, in order |
| Merger.MergedPrefix | diarize_nemo.py:172-195 | after any number of windows the fold holds at least one interval |
| Merger.Owner | diarize_nemo.py:179-192 | the interval a window lands in has an index no greater than the window's own |
| Merger.MergedPrefixShape | diarize_nemo.py:179-192 | the fold holds one interval more than there were breaks, and the open interval carries the last window's speaker and end |
| Merger.MergedPrefixStep | diarize_nemo.py:183-192 | a window that breaks appends an interval of its own; any other window only moves the last interval's end |
| Merger.MergedPrefixKeeps | diarize_nemo.py:183-192 | a fold step leaves every closed interval unchanged, and the open one too when the window breaks |
| Merger.MergedPrefixExtends | diarize_nemo.py:183-184 | a window that does not break keeps the interval count and changes only the open interval's end |
| Merger.OwnedSpeaker | diarize_nemo.py:172-192 | the interval that absorbs a window carries that window's label for the rest of the fold |
| Merger.OwnedStart | diarize_nemo.py:172-192 | the interval a window opens keeps that window's start for the rest of the fold |
| Merger.OwnedEnd | diarize_nemo.py:183-192 | the interval a window last extends keeps that window's end once the next window breaks |
| Merger.MergeEmpty | diarize_nemo.py:169-170 | no timestamps merge into no intervals |
| Merger.MergedPartition | diarize_nemo.py:172-195 | between 1 and n intervals; windows are absorbed in contiguous runs, in order: the first window into the first interval, the last into the last, and each window into its predecessor's interval or, exactly when it breaks, the next one |
| Merger.MergedIntervalBounds | diarize_nemo.py:173-192 | each interval's speaker is the label of every window it absorbs, its start is its first window's start and its end its last window's end |
| Merger.OpeningWindow | diarize_nemo.py:186-192 | every interval after the first is opened by a breaking window, the first window absorbed into it |
| Merger.IntervalOpener | diarize_nemo.py:172-192 | each interval has a window it absorbs whose start is the interval's start |
| Merger.MergedAdjacentSeparated | diarize_nemo.py:183-192 | adjacent output intervals have different speakers, or the later starts more than the gap after the earlier ends |
| Merger.MergeInclusiveGap | diarize_nemo.py:183 | a same-label window starting exactly the gap after the previous end is merged |
| Merger.MergedStartsOrdered | diarize_nemo.py:172-195 | when the windows start in order, so do the merged intervals |
| Merger.MergeGapExamples | diarize_nemo.py:183-192 | (0,3) and (3.5,6.5) of one speaker merge into (0,6.5) under gap 0.5; (0,3) and (4,7) stay two intervals |
| Merger.MergeSegments | diarize_nemo.py:157-198 | empty timestamps give an empty list; windows without labels are the IndexError case; otherwise the result is the fold of the zipped pairs |
| Aligner.Overlap | diarize_nemo.py:226-228 | the overlap is never negative, is positive exactly when both spans are non-empty and intersect, and never exceeds the segment's length |
| Aligner.SpeakerNameDistinct | diarize_nemo.py:232 | different cluster ids get different "Speaker_<id+1>" names, none of them "Unknown" |
| Aligner.BestUpTo | diarize_nemo.py:224-233 | the running best is one of the intervals already visited |
| Aligner.BestUpToSpec | diarize_nemo.py:221-233 | no best exactly when every overlap is zero; otherwise the best has a positive overlap at least every other one and strictly above every earlier one |
| Aligner.SpeakerForSpec | diarize_nemo.py:221-233 | a segment is "Unknown" exactly when no interval overlaps it positively; otherwise it is named after the first interval of largest overlap |
| Aligner.TieGoesToEarlier | diarize_nemo.py:230 | of two intervals with the same positive overlap the later is never chosen |
| Aligner.AlignmentExamples | diarize_nemo.py:216-233 | (9,12) against (0,10) of cluster 0 and (10,20) of cluster 1 is "Speaker_2"; (25,30) is "Unknown" |
| Aligner.AssignSpeakers | diarize_nemo.py:214-239 | same length and order as the input; each element is the input segment with only its speaker set to the label above |
| TimeParts.TruncSpec | convert_to_readable.py:24 | int() truncates toward zero: within one below a non-negative value, within one above a negative one |
| TimeParts.ClockOfSpec | convert_to_readable.py:25-27 | hours*3600 + minutes*60 + seconds gives back the total, with minutes and seconds in 0..59 and hours not wrapped |
| Strings.NatToStringSpec | convert_to_readable.py:28 | str() of a natural number is a non-empty run of digits without a leading zero, one digit exactly below 10 |
| Strings.ParseNatToString | convert_to_readable.py:28 | reading the decimal text of a number back gives the number |
| Strings.IntToStringInjective | diarize_nemo.py:232 | different integers print differently |
| Strings.Pad2Digits | convert_to_readable.py:28 | :02d of a non-negative number is all digits, at least two of them, exactly two below 100, and reads back as the number |
| Strings.SplitJoin | convert_to_readable.py:28 | joining separator-free parts and splitting at the separator gives the parts back |
| Strings.StripSlice | convert_to_readable.py:43 | strip() leaves a contiguous slice of the text that starts and ends with a non-whitespace character (or is empty) |
| Strings.StripRemovesOnlySpace | convert_to_readable.py:43 | every character strip() removes, before or after the kept slice, is whitespace |
| Strings.Lower | utils.py:75 | lower() maps each character through the ASCII case fold |
| Strings.RemoveAllAbsent | convert_to_readable.py:200 | replace(pat, "") leaves text without pat unchanged |
| Strings.RemoveAllTrailing | convert_to_readable.py:200 | a pattern at the end of the text, not starting earlier, is removed and only it |
| Strings.SortStrings | convert_to_readable.py:134 | sorted() of distinct keys is strictly increasing in code-point order and a permutation of them |
| Paths.StemSuffixSplit | convert_to_readable.py:200 | stem and suffix concatenate to the name; a suffix is a dot and at least one character, none a dot |
| Paths.DirPrefixName | convert_to_readable.py:203 | a path is its directory prefix, ending in '/' if not empty, followed by a name with no '/' |
| Paths.NameAfterDir | convert_to_readable.py:200-203 | a separator-free file name after a directory prefix is the path's name, and the prefix its parent |
| Paths.StemSuffixOf | convert_to_readable.py:200 | a non-empty stem followed by "." and a dot-free extension splits back into that stem and that suffix |
| Paths.HiddenNameNoSuffix | utils.py:75 | a name such as ".wav" that starts with its only dot has no suffix |
| Readable.FormatTimestampRoundTrip | convert_to_readable.py:13-28 | for a non-negative time the text splits at ':' into three digit fields, two digits for minutes and seconds and at least two for hours, which read back as int(seconds) with minutes and seconds below 60 |
| Readable.FormatTimestampExamples | convert_to_readable.py:16-28 | 3725.9 is "01:02:05" and 90061 is "25:01:01": hours past a day are not wrapped |
| Readable.ConvertToTxt | convert_to_readable.py:39-45 | one write per segment, in order, each "[ts] speaker: stripped text" and a line break, the speaker defaulting to "Unknown" |
| Readable.LineBodies | convert_to_readable.py:45 | one line body per segment, in order |
| Readable.TxtFileLines | convert_to_readable.py:39-45 | the file, split at line breaks, is exactly one line per segment followed by the empty text after the final break, when speakers and texts hold no line break |
| Readable.TxtLineShape | convert_to_readable.py:45 | a .txt write is its line body followed by one line break |
| Readable.LineBodyNoBreak | convert_to_readable.py:41-45 | a segment whose speaker and text hold no line break yields a line body without one |
| Readable.FormatTimestampNoBreak | convert_to_readable.py:13-28 | a timestamp never holds a line break |
| Readable.SpeakerSetSpec | convert_to_readable.py:72-73 | the speaker set holds exactly the labels of the segments |
| Readable.SpeakerSetSize | convert_to_readable.py:72-73 | the speaker set has between 1 and n members for n > 0 segments, none for an empty transcript |
| Readable.ConvertToMarkdown | convert_to_readable.py:59-91 | the writes are the title (with the audio name when given), the Duration and Speakers lines only for a non-empty transcript, the separator and section heading, then per segment a heading exactly when the speaker changes, followed by its entry |
| Readable.WriteTranscription | convert_to_readable.py:80-91 | per segment, in order, a speaker heading exactly when its speaker differs from the previous segment's (always for the first), then its "**[ts]** text" entry |
| Readable.GoverningHeading | convert_to_readable.py:80-89 | every segment has a last segment at or before it whose speaker differs from its predecessor's (the segments given a heading), with none strictly between the two |
| Readable.HeadingNamesSpeaker | convert_to_readable.py:86-89 | that last heading-opening segment has the same speaker as the segment itself |
| Readable.MarkdownBodySize | convert_to_readable.py:80-91 | the transcription section holds one entry per segment plus one heading per change of speaker |
| Readable.HeadingsBounds | convert_to_readable.py:80-89 | a non-empty transcript has between one and n headings, the first segment always opening one |
| Readable.SpeakersUpToDistinct | convert_to_readable.py:119-128 | no speaker is inserted into the statistics dict twice |
| Readable.SpeakersUpToSpec | convert_to_readable.py:119-128 | the statistics keys are distinct and are exactly the speakers seen |
| Readable.SpeakersUpToSize | convert_to_readable.py:72-73 | the detailed report's speaker count (the dict's size) equals the summary's (the speaker set's size) |
| Readable.CountOfSpec | convert_to_readable.py:119-128 | a speaker has at least one segment exactly when it is a key of the dict; a speaker who is not a key has no speaking time |
| Readable.SumCountsStep | convert_to_readable.py:124-127 | one more segment adds one to the summed counts of distinct keys exactly when its speaker is among them |
| Readable.SumCountsNewKey | convert_to_readable.py:124-127 | a speaker met for the first time becomes a key with a count of one |
| Readable.CountsSumToSegments | convert_to_readable.py:119-128 | the per-speaker segment counts add up to the number of segments |
| Readable.AccumulateStats | convert_to_readable.py:119-128 | the statistics dict has a key per speaker in first-appearance order, holding its segment count and summed end - start |
| Readable.SortedSpeakers | convert_to_readable.py:134 | the statistics list the speakers in strictly increasing order, each speaker of the transcript once |
| Readable.WriteSpeakerStats | convert_to_readable.py:134-137 | three lines per speaker, in the given order, read from the accumulated dict: name, segment count, speaking time |
| Readable.WriteMetadata | convert_to_readable.py:113-137 | nothing for an empty transcript; otherwise Duration, Total segments, Speakers and the statistics of the sorted speakers |
| Readable.ConvertToDetailedMarkdown | convert_to_readable.py:105-151 | title (falling back to "Audio Transcription"), metadata, separator, and two writes per segment with its start, end, speaker and stripped text |
| Readable.WriteFullTranscription | convert_to_readable.py:144-151 | per segment, in order, the "**[start - end] speaker:**" line and then the stripped text |
| Readable.TxtWrites | convert_to_readable.py:40-45 | one .txt line per segment, in order |
| Readable.RunConversion | convert_to_readable.py:184-212 | a missing JSON path and an empty segment list are the two exit-1 errors; otherwise the files for the requested format, named from the audio name, in txt, md, detailed order |
| Readable.OutputsPerFormat | convert_to_readable.py:205-212 | "all" writes three files, every other format one, all next to the base path |
| Readable.AudioNameOfTaggedFile | convert_to_readable.py:200-203 | `<dir><name>_tagged.json` gives audio name `<name>` and base path `<dir><name>` when "_tagged" does not start inside the name |
| Readable.AudioNameExample | convert_to_readable.py:200-203 | "talks/intro_tagged.json" gives "intro" and base path "talks/intro" |
| Readable.EmptyAudioNameExample | convert_to_readable.py:200-203 | "_tagged.json" gives an empty audio name, and the base path is the parent "." |
| Utils.DurationClockSpec | utils.py:178-180 | the float //, % and int() of format_duration give the same fields as splitting the floor of the seconds into hours, minutes and seconds |
| Utils.FormatDuration | utils.py:168-190 | the result joins with single spaces the "Nh" part when hours > 0, the "Nm" part when minutes > 0 and the "Ns" part when seconds > 0 or no part came before |
| Utils.DurationRoundTrip | utils.py:178-190 | a non-negative duration gives one to three parts, never an empty text, and the parts read back as the whole seconds |
| Utils.PartRoundTrip | utils.py:182-188 | an "Nh", "Nm" or "Ns" part reads back as N hours, minutes or seconds |
| Utils.PartsSecondsOfDuration | utils.py:182-190 | the parts read back as hours*3600 + minutes*60 + seconds |
| Utils.SpaceFreePart | utils.py:182-188 | each part is non-empty and holds no space, so the join can be split again |
| Utils.DurationPartsShape | utils.py:182-188 | there are one to three parts, each non-empty and without a space |
| Utils.PartsSecondsAppend | utils.py:190 | reading parts back is additive over concatenation |
| Utils.DurationExamples | utils.py:182-190 | 0 gives "0s" and 3605 gives "1h 5s" |
| Utils.OverSizeInBytes | utils.py:81-82 | size / 1048576 > max_size_mb exactly when the size exceeds max_size_mb * 1048576 bytes |
| Utils.SizeBoundary | utils.py:81-82 | a file of exactly max_size_mb megabytes passes the size check and one byte more fails it |
| Utils.ValidateAudioFileSpec | utils.py:61-105 | accepted exactly when every check passes, returning the resolved path; an unresolvable path is refused exactly when resolving loops; a not-found, too-large, empty or unsupported-format error implies its failed condition, with the unsupported suffix as written |
| Utils.ValidationFirstFailure | utils.py:61-103 | the checks run in source order and the first failure decides: not-found exactly when must_exist and the file is missing; given a found file under must_exist, each of not-a-file, unsupported format, too large, empty, cannot access, permission denied and cannot read is returned exactly when its own check fails and every earlier check passes |
| Utils.LenientValidation | utils.py:61-68 | without must_exist only an unresolvable path is refused |
| Utils.ValidationExceptions | utils.py:54-57 | a missing file is a FileNotFoundError, a permission failure a PermissionError, every other check a ValueError |
| Utils.SuffixCaseIgnored | utils.py:75 | files whose suffixes agree once lowered get the same verdict |
| Utils.UpperCaseExtensionAccepted | utils.py:13-75 | a file resolved to "/a/b.WAV" that passes the other checks is accepted: the suffix is lowered before the lookup |
| Utils.HiddenWavRefused | utils.py:13-75 | a file resolved to "/a/.wav" has no suffix and is refused as an unsupported format "" |

## Left out

- The embedding model, the temporary WAV file round trip, `librosa` loading, `SpectralClustering` and `silhouette_score`: these are the `embed`, `norm` and `cluster` oracles.
- That clustering returns between 2 and min(max_speakers, n) distinct labels is a property of the clustering library, not of the search, and is not stated.
- Floating point: times, overlaps, norms and scores are exact reals, so rounding in `current_time += step_length` and in the sums of speaking time is not modelled.
- Embeddings.ExtractEmbeddings: requires a positive step, because a zero step raises ZeroDivisionError where the progress-bar count is computed and a negative step never ends the loop.
- Embeddings.ExtractEmbeddings: the `embed` oracle always returns a vector; an exception from the embedding model, which propagates out of the loop and aborts the extraction, is not modelled.
- Embeddings.ExtractEmbeddings: the waveform appears only as its duration; slicing samples by `int(t * sr)` is not modelled.
- `tqdm` progress, `print` and warnings are output only.
- `diarize_and_tag` and `main` of `diarize_nemo.py` read and write JSON and chain the four stages; the model covers the stages themselves.
- File opening, writing and JSON parsing in `convert_to_readable.py`. A segment's JSON object is a record with its start, end, text and optional speaker; its other keys are carried as uninterpreted text.
- Readable.RunConversion: `audio_name=None` and `audio_name=""` are the same here (both fall back to the default title), as in Python's truthiness test; argparse's rejection of unknown formats happens before the model starts.
- Paths: `PurePath` normalisation of repeated separators and "." components is not modelled; names are the text after the last '/'.
- Strings.Lower: only ASCII letters are lowered, where Python lowers all of Unicode; the accepted extensions are ASCII.
- Strings.SortStrings: requires distinct keys, which dict keys always are.
- Utils.ValidateAudioFile: the file system is a record of answers (symlink loop, existence, resolved path, regular file, size, the second existence probe, the outcome of reading one byte); the real `Path.resolve` and `open` are not modelled, nor the text of the error messages.
- Utils.ValidationExceptions: a `ValueError` for a read failure stands for every exception other than a permission error.
- `format_file_size`, `setup_logging` and `validate_output_path` in `utils.py`: float formatting, the logging library and `os.access` queries.
- Utility scripts outside the three modelled files (the web UI, the pipeline runner, the Whisper wrapper, the audio cleaner and the system checks) are not part of this model.
