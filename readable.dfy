/** The readable renderings of a tagged transcript (convert_to_readable.py):
    the HH:MM:SS clock, the plain-text, Markdown and detailed Markdown
    layouts, and the command's choice of input checks and output names.
    A rendering is the sequence of strings handed to f.write, in order;
    the file is their concatenation. */
module Readable {
  import opened Wrappers
  import opened Strings
  import opened Paths
  import opened Transcript
  import opened TimeParts

  lemma AppendAssoc<T>(a: seq<T>, b: seq<T>, c: seq<T>)
    ensures a + b + c == a + (b + c)
  {
  }

  // ---------------------------------------------------------- timestamps

  /** format_timestamp: zero-padded HH:MM:SS of the truncated seconds. */
  function FormatTimestamp(seconds: real): string {
    var c := ClockOf(Trunc(seconds));
    Pad2(c.hours) + ":" + Pad2(c.minutes) + ":" + Pad2(c.seconds)
  }

  /** For a non-negative time the text splits at ':' into three decimal
      fields, the last two exactly two digits, the first at least two, and
      reading them back as hours, minutes and seconds gives int(seconds). */
  lemma FormatTimestampRoundTrip(seconds: real)
    requires seconds >= 0.0
    ensures var f := Split(FormatTimestamp(seconds), ':');
      && |f| == 3
      && (forall i :: 0 <= i < 3 ==> AllDigits(f[i]))
      && |f[0]| >= 2 && |f[1]| == 2 && |f[2]| == 2
      && ParseNat(f[0]) * 3600 + ParseNat(f[1]) * 60 + ParseNat(f[2]) == Trunc(seconds)
      && ParseNat(f[1]) < 60 && ParseNat(f[2]) < 60
  {
    var c := ClockOf(Trunc(seconds));
    TruncSpec(seconds);
    ClockOfSpec(Trunc(seconds));
    Pad2Digits(c.hours);
    Pad2Digits(c.minutes);
    Pad2Digits(c.seconds);
    var parts := [Pad2(c.hours), Pad2(c.minutes), Pad2(c.seconds)];
    forall i | 0 <= i < 3 ensures ':' !in parts[i] {
      DigitsExclude(parts[i], ':');
    }
    assert Join(parts[2..], ":") == parts[2];
    assert Join(parts, ":") == FormatTimestamp(seconds);
    SplitJoin(parts, ':');
  }

  /** Past a day the hours keep counting: 90061 s is 25:01:01. */
  lemma FormatTimestampExamples()
    ensures FormatTimestamp(3725.9) == "01:02:05"
    ensures FormatTimestamp(90061.0) == "25:01:01"
  {
    assert Trunc(3725.9) == 3725;
    assert NatToString(25) == "25";
  }

  // ---------------------------------------------------------- plain text

  /** One line of the .txt file: "[ts] speaker: text". */
  function TxtLine(seg: Segment): string {
    "[" + FormatTimestamp(seg.start) + "] " + SpeakerOf(seg) + ": " + Strip(seg.text) + "\n"
  }

  method ConvertToTxt(segments: seq<Segment>) returns (writes: seq<string>)
    ensures |writes| == |segments|
    ensures forall i :: 0 <= i < |segments| ==> writes[i] == TxtLine(segments[i])
  {
    writes := [];
    for i := 0 to |segments|
      invariant |writes| == i
      invariant forall k :: 0 <= k < i ==> writes[k] == TxtLine(segments[k])
    {
      var seg := segments[i];
      var timestamp := FormatTimestamp(seg.start);
      var speaker := SpeakerOf(seg);
      var text := Strip(seg.text);
      var line := "[" + timestamp + "] " + speaker + ": " + text + "\n";
      assert line == TxtLine(seg);
      writes := writes + [line];
    }
  }

  /** The text of the file made of the given writes. */
  function Concat(writes: seq<string>): string {
    if writes == [] then "" else writes[0] + Concat(writes[1..])
  }

  /** A segment whose speaker and text hold no line break yields one line. */
  predicate SingleLine(seg: Segment) {
    '\n' !in SpeakerOf(seg) && '\n' !in seg.text
  }

  function LineBody(seg: Segment): string {
    "[" + FormatTimestamp(seg.start) + "] " + SpeakerOf(seg) + ": " + Strip(seg.text)
  }

  /** The lines of the .txt file without their line breaks. */
  function LineBodies(segments: seq<Segment>): (r: seq<string>)
    ensures |r| == |segments| && forall i :: 0 <= i < |segments| ==> r[i] == LineBody(segments[i])
  {
    if segments == [] then [] else [LineBody(segments[0])] + LineBodies(segments[1..])
  }

  /** The .txt file has exactly one line per segment, in order: split at
      line breaks it is each segment's line followed by the empty text
      after the final break. */
  lemma {:induction false} TxtFileLines(segments: seq<Segment>, writes: seq<string>)
    requires |writes| == |segments|
    requires forall i :: 0 <= i < |segments| ==> writes[i] == TxtLine(segments[i]) && SingleLine(segments[i])
    ensures Split(Concat(writes), '\n') == LineBodies(segments) + [""]
  {
    if segments != [] {
      var rest, restWrites := segments[1..], writes[1..];
      assert forall i :: 0 <= i < |rest| ==> restWrites[i] == TxtLine(rest[i]) && SingleLine(rest[i]) by {
        forall i | 0 <= i < |rest| ensures restWrites[i] == TxtLine(rest[i]) && SingleLine(rest[i]) {
          assert rest[i] == segments[i + 1] && restWrites[i] == writes[i + 1];
        }
      }
      TxtFileLines(rest, restWrites);
      LineBodyNoBreak(segments[0]);
      TxtLineShape(segments[0]);
      SplitLine(LineBody(segments[0]), Concat(restWrites), LineBodies(rest));
    }
  }

  lemma SplitLine(body: string, tail: string, bodies: seq<string>)
    requires '\n' !in body && Split(tail, '\n') == bodies + [""]
    ensures Split(body + ['\n'] + tail, '\n') == [body] + bodies + [""]
  {
    SplitAtFirstSeparator(body, tail, '\n');
  }

  lemma TxtLineShape(seg: Segment)
    ensures TxtLine(seg) == LineBody(seg) + ['\n']
  {
  }

  lemma LineBodyNoBreak(seg: Segment)
    requires SingleLine(seg)
    ensures '\n' !in LineBody(seg)
  {
    FormatTimestampNoBreak(seg.start);
    StripSlice(seg.text);
    forall k | 0 <= k < |Strip(seg.text)| ensures Strip(seg.text)[k] != '\n' {
      assert Strip(seg.text)[k] == seg.text[LeadingSpaces(seg.text) + k];
    }
  }

  lemma FormatTimestampNoBreak(seconds: real)
    ensures '\n' !in FormatTimestamp(seconds)
  {
    var c := ClockOf(Trunc(seconds));
    Pad2NoBreak(c.hours);
    Pad2NoBreak(c.minutes);
    Pad2NoBreak(c.seconds);
  }

  lemma Pad2NoBreak(i: int)
    ensures '\n' !in Pad2(i)
  {
    NatToStringSpec(if i < 0 then -i else i);
    DigitsExclude(NatToString(if i < 0 then -i else i), '\n');
  }

  // ------------------------------------------------------------ speakers

  /** The distinct speaker labels of the first n segments. */
  function SpeakerSet(segments: seq<Segment>, n: nat): set<string>
    requires n <= |segments|
  {
    if n == 0 then {} else SpeakerSet(segments, n - 1) + {SpeakerOf(segments[n - 1])}
  }

  /** A label is in the set exactly when some segment carries it. */
  lemma {:induction false} SpeakerSetSpec(segments: seq<Segment>, n: nat)
    requires n <= |segments|
    ensures forall i :: 0 <= i < n ==> SpeakerOf(segments[i]) in SpeakerSet(segments, n)
    ensures forall s :: s in SpeakerSet(segments, n) ==> exists i :: 0 <= i < n && SpeakerOf(segments[i]) == s
  {
    if n > 0 {
      SpeakerSetSpec(segments, n - 1);
    }
  }

  /** A non-empty transcript has between one and |segments| speakers and
      an empty one none. */
  lemma {:induction false} SpeakerSetSize(segments: seq<Segment>, n: nat)
    requires n <= |segments|
    ensures n > 0 ==> 1 <= |SpeakerSet(segments, n)| <= n
    ensures n == 0 ==> SpeakerSet(segments, n) == {}
  {
    if n > 0 {
      SpeakerSetSize(segments, n - 1);
      var prev, s := SpeakerSet(segments, n - 1), SpeakerOf(segments[n - 1]);
      assert SpeakerSet(segments, n) == prev + {s};
    }
  }

  // ------------------------------------------------------------ markdown

  /** Python truthiness of the audio name: None and "" both fall back. */
  function MarkdownTitle(audioName: string): string {
    if audioName != "" then "# Transcription: " + audioName + "\n\n" else "# Transcription\n\n"
  }

  /** The Duration and Speakers lines, present only for a non-empty
      transcript. */
  function MarkdownSummary(segments: seq<Segment>): seq<string> {
    if segments == [] then []
    else ["**Duration:** " + FormatTimestamp(segments[|segments| - 1].end) + "\n\n",
          "**Speakers:** " + NatToString(|SpeakerSet(segments, |segments|)|) + "\n\n"]
  }

  /** Segment i opens a new speaker section. */
  predicate HeadingBefore(segments: seq<Segment>, i: nat)
    requires i < |segments|
  {
    i == 0 || SpeakerOf(segments[i]) != SpeakerOf(segments[i - 1])
  }

  function SpeakerHeading(speaker: string): string {
    "\n### " + speaker + "\n\n"
  }

  function MarkdownEntry(seg: Segment): string {
    "**[" + FormatTimestamp(seg.start) + "]** " + Strip(seg.text) + "\n\n"
  }

  /** The writes for the first n segments of the transcription section,
      each segment rendered by `entry`. The layout does not depend on how
      an entry looks, so the lemmas below hold for any rendering. */
  function MarkdownBody(segments: seq<Segment>, n: nat, entry: Segment -> string): seq<string>
    requires n <= |segments|
  {
    if n == 0 then []
    else MarkdownBody(segments, n - 1, entry)
         + (if HeadingBefore(segments, n - 1) then [SpeakerHeading(SpeakerOf(segments[n - 1]))] else [])
         + [entry(segments[n - 1])]
  }

  function MarkdownWrites(segments: seq<Segment>, audioName: string): seq<string> {
    [MarkdownTitle(audioName)] + MarkdownSummary(segments) + ["---\n\n"] + ["## Transcription\n\n"]
    + MarkdownBody(segments, |segments|, MarkdownEntry)
  }

  method ConvertToMarkdown(segments: seq<Segment>, audioName: string) returns (writes: seq<string>)
    ensures writes == MarkdownWrites(segments, audioName)
  {
    writes := [MarkdownTitle(audioName)];
    writes := writes + MarkdownSummary(segments);
    writes := writes + ["---\n\n"];
    writes := writes + ["## Transcription\n\n"];
    var body := WriteTranscription(segments);
    writes := writes + body;
  }

  /** The transcription loop: a heading whenever the speaker differs from
      the current one, then the segment's entry. */
  method WriteTranscription(segments: seq<Segment>) returns (writes: seq<string>)
    ensures writes == MarkdownBody(segments, |segments|, MarkdownEntry)
  {
    writes := [];
    var currentSpeaker: Option<string> := None;
    for i := 0 to |segments|
      invariant writes == MarkdownBody(segments, i, MarkdownEntry)
      invariant i == 0 ==> currentSpeaker == None
      invariant i > 0 ==> currentSpeaker == Some(SpeakerOf(segments[i - 1]))
    {
      var timestamp := FormatTimestamp(segments[i].start);
      var speaker := SpeakerOf(segments[i]);
      var text := Strip(segments[i].text);
      ghost var before := writes;
      if currentSpeaker != Some(speaker) {
        writes := writes + [SpeakerHeading(speaker)];
        currentSpeaker := Some(speaker);
      }
      assert writes == before + if HeadingBefore(segments, i) then [SpeakerHeading(speaker)] else [];
      writes := writes + ["**[" + timestamp + "]** " + text + "\n\n"];
    }
  }

  /** The last segment at or before segment i whose speaker differs from
      the one before it, that is, the last one at or before i for which
      the body has a speaker heading. */
  function GoverningHeading(segments: seq<Segment>, i: nat): (j: nat)
    requires i < |segments|
    ensures j <= i && HeadingBefore(segments, j)
    ensures forall k :: j < k <= i ==> !HeadingBefore(segments, k)
  {
    if HeadingBefore(segments, i) then i else GoverningHeading(segments, i - 1)
  }

  /** The last segment at or before segment i that has a speaker heading
      has segment i's own speaker. */
  lemma {:induction false} HeadingNamesSpeaker(segments: seq<Segment>, i: nat)
    requires i < |segments|
    ensures SpeakerOf(segments[GoverningHeading(segments, i)]) == SpeakerOf(segments[i])
  {
    if !HeadingBefore(segments, i) {
      HeadingNamesSpeaker(segments, i - 1);
    }
  }

  /** The body holds one entry per segment and one heading per change of
      speaker. */
  lemma {:induction false} MarkdownBodySize(segments: seq<Segment>, n: nat, entry: Segment -> string)
    requires n <= |segments|
    ensures |MarkdownBody(segments, n, entry)| == n + Headings(segments, n)
  {
    if n > 0 {
      MarkdownBodySize(segments, n - 1, entry);
    }
  }

  /** The first segment always opens a section, so a non-empty transcript
      has between one and |segments| headings. */
  lemma {:induction false} HeadingsBounds(segments: seq<Segment>, n: nat)
    requires n <= |segments|
    ensures n > 0 ==> 1 <= Headings(segments, n) <= n
  {
    if n > 0 {
      HeadingsBounds(segments, n - 1);
    }
  }

  /** How many of the first n segments open a section. */
  function Headings(segments: seq<Segment>, n: nat): nat
    requires n <= |segments|
  {
    if n == 0 then 0 else Headings(segments, n - 1) + (if HeadingBefore(segments, n - 1) then 1 else 0)
  }

  // ---------------------------------------------------- detailed markdown

  /** One speaker's statistics: its segment count and speaking time. */
  datatype Stat = Stat(count: nat, duration: real)

  /** The keys of the statistics dict after the first n segments, in
      insertion order. */
  function SpeakersUpTo(segments: seq<Segment>, n: nat): seq<string>
    requires n <= |segments|
  {
    if n == 0 then []
    else
      var prev := SpeakersUpTo(segments, n - 1);
      var s := SpeakerOf(segments[n - 1]);
      if s in prev then prev else prev + [s]
  }

  /** How many of the first n segments belong to the speaker. */
  function CountOf(segments: seq<Segment>, n: nat, s: string): nat
    requires n <= |segments|
  {
    if n == 0 then 0
    else CountOf(segments, n - 1, s) + (if SpeakerOf(segments[n - 1]) == s then 1 else 0)
  }

  /** The total end - start of the speaker's segments among the first n. */
  function TimeOf(segments: seq<Segment>, n: nat, s: string): real
    requires n <= |segments|
  {
    if n == 0 then 0.0
    else TimeOf(segments, n - 1, s) + (if SpeakerOf(segments[n - 1]) == s then segments[n - 1].end - segments[n - 1].start else 0.0)
  }

  /** No key is inserted into the dict twice. */
  lemma {:induction false} SpeakersUpToDistinct(segments: seq<Segment>, n: nat)
    requires n <= |segments|
    ensures Distinct(SpeakersUpTo(segments, n))
  {
    if n > 0 {
      SpeakersUpToDistinct(segments, n - 1);
      var prev := SpeakersUpTo(segments, n - 1);
      var s := SpeakerOf(segments[n - 1]);
      if s !in prev {
        DistinctAppend(prev, s);
      }
    }
  }

  /** The dict's keys are distinct and they are exactly the speakers of
      the segments seen. */
  lemma {:induction false} SpeakersUpToSpec(segments: seq<Segment>, n: nat)
    requires n <= |segments|
    ensures Distinct(SpeakersUpTo(segments, n))
    ensures forall s :: s in SpeakersUpTo(segments, n) <==> s in SpeakerSet(segments, n)
  {
    SpeakersUpToDistinct(segments, n);
    if n > 0 {
      SpeakersUpToSpec(segments, n - 1);
      assert SpeakerSet(segments, n) == SpeakerSet(segments, n - 1) + {SpeakerOf(segments[n - 1])};
    }
  }

  /** So the detailed report's speaker count (the dict's size) agrees
      with the summary's (the set's size). */
  lemma {:induction false} SpeakersUpToSize(segments: seq<Segment>, n: nat)
    requires n <= |segments|
    ensures |SpeakersUpTo(segments, n)| == |SpeakerSet(segments, n)|
  {
    if n > 0 {
      SpeakersUpToSize(segments, n - 1);
      var prev, known := SpeakersUpTo(segments, n - 1), SpeakerSet(segments, n - 1);
      var s := SpeakerOf(segments[n - 1]);
      if s !in prev {
        assert |SpeakersUpTo(segments, n)| == |prev| + 1;
        assert |SpeakerSet(segments, n)| == |known| + 1 by {
          SpeakersUpToSpec(segments, n - 1);
          assert SpeakerSet(segments, n) == known + {s} && s !in known;
        }
      } else {
        assert SpeakersUpTo(segments, n) == prev;
        assert SpeakerSet(segments, n) == known by {
          SpeakersUpToSpec(segments, n - 1);
          assert s in known;
        }
      }
    }
  }

  /** A speaker has segments exactly when it is one of the dict's keys,
      and a speaker not among them has no speaking time. */
  lemma {:induction false} CountOfSpec(segments: seq<Segment>, n: nat, s: string)
    requires n <= |segments|
    ensures CountOf(segments, n, s) > 0 <==> s in SpeakersUpTo(segments, n)
    ensures s !in SpeakersUpTo(segments, n) ==> TimeOf(segments, n, s) == 0.0
  {
    if n > 0 {
      CountOfSpec(segments, n - 1, s);
    }
  }

  /** The segment counts of the given speakers after n segments, added up. */
  function SumCounts(segments: seq<Segment>, n: nat, keys: seq<string>): nat
    requires n <= |segments|
  {
    if keys == [] then 0 else SumCounts(segments, n, keys[..|keys| - 1]) + CountOf(segments, n, keys[|keys| - 1])
  }

  /** Segment n - 1 adds one to the sum exactly when its speaker is among
      the (distinct) keys. */
  lemma {:induction false} SumCountsStep(segments: seq<Segment>, n: nat, keys: seq<string>)
    requires 0 < n <= |segments| && Distinct(keys)
    ensures SumCounts(segments, n, keys)
         == SumCounts(segments, n - 1, keys) + (if SpeakerOf(segments[n - 1]) in keys then 1 else 0)
  {
    if keys != [] {
      var init := keys[..|keys| - 1];
      assert Distinct(init);
      SumCountsStep(segments, n, init);
      assert keys == init + [keys[|keys| - 1]];
      assert keys[|keys| - 1] !in init;
    }
  }

  /** The per-speaker counts add up to the number of segments. */
  lemma {:induction false} CountsSumToSegments(segments: seq<Segment>, n: nat)
    requires n <= |segments|
    ensures SumCounts(segments, n, SpeakersUpTo(segments, n)) == n
  {
    if n > 0 {
      CountsSumToSegments(segments, n - 1);
      var prev := SpeakersUpTo(segments, n - 1);
      var s := SpeakerOf(segments[n - 1]);
      SpeakersUpToDistinct(segments, n - 1);
      SumCountsStep(segments, n, prev);
      if s in prev {
        assert SpeakersUpTo(segments, n) == prev;
      } else {
        CountOfSpec(segments, n - 1, s);
        SumCountsNewKey(segments, n, prev);
        assert SpeakersUpTo(segments, n) == prev + [s];
      }
    }
  }

  /** A speaker first met at segment n - 1 becomes a new key with a count
      of one. */
  lemma SumCountsNewKey(segments: seq<Segment>, n: nat, keys: seq<string>)
    requires 0 < n <= |segments|
    requires CountOf(segments, n - 1, SpeakerOf(segments[n - 1])) == 0
    ensures SumCounts(segments, n, keys + [SpeakerOf(segments[n - 1])]) == SumCounts(segments, n, keys) + 1
  {
    var ks := keys + [SpeakerOf(segments[n - 1])];
    assert ks[..|ks| - 1] == keys;
  }

  /** The speakers dict built by the loop over the segments: its keys in
      insertion order, and the value of each key. */
  method AccumulateStats(segments: seq<Segment>) returns (order: seq<string>, stats: map<string, Stat>)
    ensures order == SpeakersUpTo(segments, |segments|)
    ensures forall s :: s in stats <==> s in order
    ensures forall s :: s in stats ==> stats[s] == Stat(CountOf(segments, |segments|, s), TimeOf(segments, |segments|, s))
  {
    order := [];
    stats := map[];
    for i := 0 to |segments|
      invariant order == SpeakersUpTo(segments, i)
      invariant forall s :: s in stats <==> s in order
      invariant forall s :: s in stats ==> stats[s] == Stat(CountOf(segments, i, s), TimeOf(segments, i, s))
    {
      var speaker := SpeakerOf(segments[i]);
      CountOfSpec(segments, i, speaker);
      var durationSeg := segments[i].end - segments[i].start;
      if speaker !in stats {
        stats := stats[speaker := Stat(0, 0.0)];
        order := order + [speaker];
      }
      stats := stats[speaker := Stat(stats[speaker].count + 1, stats[speaker].duration + durationSeg)];
    }
  }

  function DetailedTitle(audioName: string): string {
    "# " + (if audioName != "" then audioName else "Audio Transcription") + "\n\n"
  }

  function StatLines(segments: seq<Segment>, s: string): seq<string> {
    ["- **" + s + ":**\n"]
    + ["  - Segments: " + NatToString(CountOf(segments, |segments|, s)) + "\n"]
    + ["  - Total speaking time: " + FormatTimestamp(TimeOf(segments, |segments|, s)) + "\n"]
  }

  /** The statistics lines of the given speakers, in the given order. */
  function StatsSection(segments: seq<Segment>, keys: seq<string>, n: nat): seq<string>
    requires n <= |keys|
  {
    if n == 0 then [] else StatsSection(segments, keys, n - 1) + StatLines(segments, keys[n - 1])
  }

  /** The speakers in the order the statistics list them. */
  function SortedSpeakers(segments: seq<Segment>): (r: seq<string>)
    ensures StrictlySorted(r)
    ensures forall s :: s in r <==> s in SpeakerSet(segments, |segments|)
  {
    SpeakersUpToSpec(segments, |segments|);
    var r := SortStrings(SpeakersUpTo(segments, |segments|));
    assert forall s :: s in r <==> s in multiset(r);
    r
  }

  function DetailedMetadata(segments: seq<Segment>): seq<string> {
    if segments == [] then []
    else ["- **Duration:** " + FormatTimestamp(segments[|segments| - 1].end) + "\n"]
         + ["- **Total segments:** " + NatToString(|segments|) + "\n"]
         + ["- **Speakers:** " + NatToString(|SpeakersUpTo(segments, |segments|)|) + "\n\n"]
         + ["### Speaker Statistics\n\n"]
         + StatsSection(segments, SortedSpeakers(segments), |SortedSpeakers(segments)|)
  }

  function DetailedEntry(seg: Segment): seq<string> {
    ["**[" + FormatTimestamp(seg.start) + " - " + FormatTimestamp(seg.end) + "] " + SpeakerOf(seg) + ":**\n\n",
     Strip(seg.text) + "\n\n"]
  }

  function DetailedBody(segments: seq<Segment>, n: nat): seq<string>
    requires n <= |segments|
  {
    if n == 0 then [] else DetailedBody(segments, n - 1) + DetailedEntry(segments[n - 1])
  }

  function DetailedWrites(segments: seq<Segment>, audioName: string): seq<string> {
    [DetailedTitle(audioName)] + ["## Metadata\n\n"] + DetailedMetadata(segments)
    + ["\n---\n\n"] + ["## Full Transcription\n\n"] + DetailedBody(segments, |segments|)
  }

  /** The "Speaker Statistics" entries, one speaker after another, read
      from the accumulated dict. */
  method WriteSpeakerStats(segments: seq<Segment>, keys: seq<string>, speakers: map<string, Stat>)
    returns (writes: seq<string>)
    requires forall s :: s in keys ==> s in speakers
    requires forall s :: s in speakers ==> speakers[s] == Stat(CountOf(segments, |segments|, s), TimeOf(segments, |segments|, s))
    ensures writes == StatsSection(segments, keys, |keys|)
  {
    writes := [];
    for j := 0 to |keys|
      invariant writes == StatsSection(segments, keys, j)
    {
      var speaker := keys[j];
      var stats := speakers[speaker];
      ghost var before := writes;
      var name := "- **" + speaker + ":**\n";
      var count := "  - Segments: " + NatToString(stats.count) + "\n";
      var time := "  - Total speaking time: " + FormatTimestamp(stats.duration) + "\n";
      writes := writes + [name];
      writes := writes + [count];
      writes := writes + [time];
      assert writes == StatsSection(segments, keys, j + 1) by {
        assert stats == Stat(CountOf(segments, |segments|, speaker), TimeOf(segments, |segments|, speaker));
        assert StatLines(segments, speaker) == [name] + [count] + [time];
        AppendAssoc(before, [name], [count]);
        assert writes == before + StatLines(segments, speaker);
      }
    }
  }

  /** The metadata block: the summary lines and, speaker by speaker in
      sorted order, the statistics read from the accumulated dict. */
  method WriteMetadata(segments: seq<Segment>) returns (writes: seq<string>)
    ensures writes == DetailedMetadata(segments)
  {
    if |segments| == 0 {
      return [];
    }
    var duration := segments[|segments| - 1].end;
    writes := ["- **Duration:** " + FormatTimestamp(duration) + "\n"];
    writes := writes + ["- **Total segments:** " + NatToString(|segments|) + "\n"];
    var order, speakers := AccumulateStats(segments);
    writes := writes + ["- **Speakers:** " + NatToString(|order|) + "\n\n"];
    writes := writes + ["### Speaker Statistics\n\n"];
    var sorted := SortedSpeakers(segments);
    SpeakersUpToSpec(segments, |segments|);
    var statsWrites := WriteSpeakerStats(segments, sorted, speakers);
    writes := writes + statsWrites;
  }

  method ConvertToDetailedMarkdown(segments: seq<Segment>, audioName: string) returns (writes: seq<string>)
    ensures writes == DetailedWrites(segments, audioName)
  {
    writes := [DetailedTitle(audioName)];
    writes := writes + ["## Metadata\n\n"];
    var metadata := WriteMetadata(segments);
    writes := writes + metadata;
    writes := writes + ["\n---\n\n"];
    writes := writes + ["## Full Transcription\n\n"];
    var body := WriteFullTranscription(segments);
    writes := writes + body;
  }

  /** The full-transcription loop: per segment its time range with the
      speaker, then its text. */
  method WriteFullTranscription(segments: seq<Segment>) returns (writes: seq<string>)
    ensures writes == DetailedBody(segments, |segments|)
  {
    writes := [];
    for i := 0 to |segments|
      invariant writes == DetailedBody(segments, i)
    {
      var start := FormatTimestamp(segments[i].start);
      var end := FormatTimestamp(segments[i].end);
      var speaker := SpeakerOf(segments[i]);
      var text := Strip(segments[i].text);
      var header := "**[" + start + " - " + end + "] " + speaker + ":**\n\n";
      var body := text + "\n\n";
      ghost var before := writes;
      writes := writes + [header];
      writes := writes + [body];
      assert writes == DetailedBody(segments, i + 1) by {
        assert [header, body] == DetailedEntry(segments[i]);
        assert writes == before + [header, body];
      }
    }
  }

  // ------------------------------------------------------------- command

  datatype Format = Txt | Markdown | Detailed | All

  datatype ConversionError =
    | JsonNotFound   // the JSON path does not exist: exit status 1
    | NoSegments     // the JSON holds an empty list: exit status 1

  /** One file the command writes: its path and the writes it receives. */
  datatype Output = Output(path: string, writes: seq<string>)

  const TaggedMarker: string := "_tagged"

  /** The audio name: the JSON file's stem with every "_tagged" removed. */
  function AudioName(jsonPath: string): string {
    RemoveAll(Stem(Name(jsonPath)), TaggedMarker)
  }

  /** str(json_path.parent / audio_name): joining an empty name leaves the
      parent alone, which is "." for a bare file name and loses its
      trailing separator unless it is the root. */
  function BasePath(jsonPath: string, audioName: string): string {
    var dir := DirPrefix(jsonPath);
    if audioName != "" then dir + audioName
    else if dir == "" then "."
    else if dir == "/" then dir
    else dir[..|dir| - 1]
  }

  /** The files for each requested format, in the order they are written. */
  function Outputs(segments: seq<Segment>, jsonPath: string, format: Format): seq<Output> {
    TxtOutput(segments, jsonPath, format) + MarkdownOutput(segments, jsonPath, format)
    + DetailedOutput(segments, jsonPath, format)
  }

  function TxtOutput(segments: seq<Segment>, jsonPath: string, format: Format): seq<Output> {
    var base := BasePath(jsonPath, AudioName(jsonPath));
    if format in {Txt, All} then [Output(base + "_transcript.txt", TxtWrites(segments))] else []
  }

  function MarkdownOutput(segments: seq<Segment>, jsonPath: string, format: Format): seq<Output> {
    var name := AudioName(jsonPath);
    if format in {Markdown, All} then [Output(BasePath(jsonPath, name) + "_transcript.md", MarkdownWrites(segments, name))] else []
  }

  function DetailedOutput(segments: seq<Segment>, jsonPath: string, format: Format): seq<Output> {
    var name := AudioName(jsonPath);
    if format in {Detailed, All} then [Output(BasePath(jsonPath, name) + "_detailed.md", DetailedWrites(segments, name))] else []
  }

  function TxtWrites(segments: seq<Segment>): (w: seq<string>)
    ensures |w| == |segments| && forall i :: 0 <= i < |segments| ==> w[i] == TxtLine(segments[i])
  {
    if segments == [] then [] else [TxtLine(segments[0])] + TxtWrites(segments[1..])
  }

  /** main after argument parsing: `jsonExists` says whether the JSON path
      exists and `segments` is what json.load returned. */
  method RunConversion(jsonPath: string, jsonExists: bool, segments: seq<Segment>, format: Format)
    returns (r: Result<seq<Output>, ConversionError>)
    ensures !jsonExists ==> r == Failure(JsonNotFound)
    ensures jsonExists && segments == [] ==> r == Failure(NoSegments)
    ensures jsonExists && segments != [] ==> r == Success(Outputs(segments, jsonPath, format))
  {
    if !jsonExists {
      return Failure(JsonNotFound);
    }
    if segments == [] {
      return Failure(NoSegments);
    }
    var audioName := AudioName(jsonPath);
    var basePath := BasePath(jsonPath, audioName);
    var outputs: seq<Output> := [];
    if format in {Txt, All} {
      var w := ConvertToTxt(segments);
      assert w == TxtWrites(segments);
      outputs := outputs + [Output(basePath + "_transcript.txt", w)];
    }
    assert outputs == TxtOutput(segments, jsonPath, format);
    ghost var txt := outputs;
    if format in {Markdown, All} {
      var w := ConvertToMarkdown(segments, audioName);
      outputs := outputs + [Output(basePath + "_transcript.md", w)];
    }
    assert outputs == txt + MarkdownOutput(segments, jsonPath, format);
    ghost var md := outputs;
    if format in {Detailed, All} {
      var w := ConvertToDetailedMarkdown(segments, audioName);
      outputs := outputs + [Output(basePath + "_detailed.md", w)];
    }
    assert outputs == md + DetailedOutput(segments, jsonPath, format);
    return Success(outputs);
  }

  /** "all" writes the three files, each other format exactly its own. */
  lemma OutputsPerFormat(segments: seq<Segment>, jsonPath: string, format: Format)
    ensures |Outputs(segments, jsonPath, format)| == if format == All then 3 else 1
    ensures var base := BasePath(jsonPath, AudioName(jsonPath));
      forall o :: o in Outputs(segments, jsonPath, format) ==>
        o.path in {base + "_transcript.txt", base + "_transcript.md", base + "_detailed.md"}
  {
    var base := BasePath(jsonPath, AudioName(jsonPath));
    var t, m, d := TxtOutput(segments, jsonPath, format), MarkdownOutput(segments, jsonPath, format),
                   DetailedOutput(segments, jsonPath, format);
    assert |t| == (if format in {Txt, All} then 1 else 0) && forall o :: o in t ==> o.path == base + "_transcript.txt";
    assert |m| == (if format in {Markdown, All} then 1 else 0) && forall o :: o in m ==> o.path == base + "_transcript.md";
    assert |d| == (if format in {Detailed, All} then 1 else 0) && forall o :: o in d ==> o.path == base + "_detailed.md";
    assert Outputs(segments, jsonPath, format) == t + m + d;
  }

  /** A JSON file named <name>_tagged.json in some directory gives audio
      name <name> and outputs next to it, provided the name holds no
      separator and "_tagged" does not start inside it. */
  lemma AudioNameOfTaggedFile(dir: string, name: string)
    requires dir == "" || dir[|dir| - 1] == '/'
    requires '/' !in name && name != ""
    requires forall i :: 0 <= i < |name| ==> !OccursAt(name + TaggedMarker, TaggedMarker, i)
    ensures AudioName(dir + name + "_tagged.json") == name
    ensures BasePath(dir + name + "_tagged.json", name) == dir + name
  {
    var file := name + "_tagged.json";
    AppendAssoc(dir, name, "_tagged.json");
    NameAfterDir(dir, file);
    var stem := name + TaggedMarker;
    assert "_tagged.json" == TaggedMarker + ("." + "json");
    AppendAssoc(name, TaggedMarker, "." + "json");
    AppendAssoc(stem, ".", "json");
    StemSuffixOf(stem, "json");
    RemoveAllTrailing(name, TaggedMarker);
  }

  /** Without an underscore, "_tagged" can only start where it was
      appended. */
  lemma NoUnderscoreNoMarker(name: string)
    requires '_' !in name
    ensures forall i :: 0 <= i < |name| ==> !OccursAt(name + TaggedMarker, TaggedMarker, i)
  {
    forall i | 0 <= i < |name| ensures !OccursAt(name + TaggedMarker, TaggedMarker, i) {
      var s := name + TaggedMarker;
      assert s[i] == name[i] != TaggedMarker[0];
      assert s[i..i + |TaggedMarker|][0] == s[i];
    }
  }

  /** The usual case: "talks/" + "intro" + "_tagged.json" becomes
      "talks/" + "intro". */
  lemma AudioNameExample()
    ensures AudioName("talks/" + "intro" + "_tagged.json") == "intro"
    ensures BasePath("talks/" + "intro" + "_tagged.json", "intro") == "talks/" + "intro"
  {
    NoUnderscoreNoMarker("intro");
    assert '/' !in "intro";
    AudioNameOfTaggedFile("talks/", "intro");
  }

  /** A bare "_tagged.json" leaves an empty audio name, so the outputs go
      to "._transcript.txt" and so on. */
  lemma EmptyAudioNameExample()
    ensures AudioName("_tagged.json") == ""
    ensures BasePath("_tagged.json", "") == "."
  {
    NameAfterDir("", "_tagged.json");
    StemSuffixOf("_tagged", "json");
    assert "_tagged" + "." + "json" == "_tagged.json";
    assert [] + TaggedMarker == "_tagged";
    RemoveAllTrailing([], TaggedMarker);
  }
}
