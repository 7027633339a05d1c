/** The helpers of utils.py that the pipeline's decisions rest on: the
    "1h 23m 45s" duration text and the ordered checks an input audio file
    must pass. */
module Utils {
  import opened Wrappers
  import opened Strings
  import opened Paths
  import opened TimeParts

  // ------------------------------------------------------ format_duration

  /** The fields format_duration computes: int(seconds // 3600),
      int((seconds % 3600) // 60) and int(seconds % 60). */
  function DurationClock(seconds: real): Clock {
    Clock(FloorDiv(seconds, 3600.0), FloorDiv(FloorMod(seconds, 3600.0), 60.0), Trunc(FloorMod(seconds, 60.0)))
  }

  /** The float arithmetic lands on the same fields as splitting the whole
      seconds: hours, minutes below 60, seconds below 60, adding back up
      to the whole seconds, for negative durations too. */
  lemma DurationClockSpec(seconds: real)
    ensures DurationClock(seconds) == ClockOf(seconds.Floor)
  {
    var n := seconds.Floor;
    assert FloorDiv(seconds, 60.0) == n / 60;
    var m := FloorMod(seconds, 60.0);
    assert m == seconds - (60 * (n / 60)) as real;
    assert m.Floor == n - 60 * (n / 60);
  }

  /** The parts list of format_duration for the given fields. */
  function DurationParts(c: Clock): seq<string> {
    (if c.hours > 0 then [IntToString(c.hours) + "h"] else [])
    + (if c.minutes > 0 then [IntToString(c.minutes) + "m"] else [])
    + (if c.seconds > 0 || (c.hours <= 0 && c.minutes <= 0) then [IntToString(c.seconds) + "s"] else [])
  }

  method FormatDuration(seconds: real) returns (r: string)
    ensures r == Join(DurationParts(DurationClock(seconds)), " ")
  {
    var hours := FloorDiv(seconds, 3600.0);
    var minutes := FloorDiv(FloorMod(seconds, 3600.0), 60.0);
    var secs := Trunc(FloorMod(seconds, 60.0));
    var parts: seq<string> := [];
    if hours > 0 {
      parts := parts + [IntToString(hours) + "h"];
    }
    if minutes > 0 {
      parts := parts + [IntToString(minutes) + "m"];
    }
    assert |parts| == 0 <==> hours <= 0 && minutes <= 0;
    if secs > 0 || parts == [] {
      parts := parts + [IntToString(secs) + "s"];
    }
    assert parts == DurationParts(Clock(hours, minutes, secs));
    r := Join(parts, " ");
  }

  /** The value of one "<digits><unit>" part in seconds. */
  function PartSeconds(part: string): int {
    if |part| < 2 || !AllDigits(part[..|part| - 1]) then 0
    else
      var n := ParseNat(part[..|part| - 1]);
      match part[|part| - 1]
      case 'h' => n * 3600
      case 'm' => n * 60
      case _ => n
  }

  function PartsSeconds(parts: seq<string>): int {
    if parts == [] then 0 else PartSeconds(parts[0]) + PartsSeconds(parts[1..])
  }

  /** Reading a duration text back: the sum of its space-separated parts. */
  function ParseDuration(text: string): int {
    PartsSeconds(Split(text, ' '))
  }

  /** A non-negative duration's text is never empty, holds one to three
      parts in h, m, s order, and reads back as the whole seconds. */
  lemma DurationRoundTrip(seconds: real)
    requires seconds >= 0.0
    ensures var parts := DurationParts(DurationClock(seconds));
      && 1 <= |parts| <= 3
      && Join(parts, " ") != ""
      && ParseDuration(Join(parts, " ")) == seconds.Floor
  {
    DurationClockSpec(seconds);
    var c := DurationClock(seconds);
    ClockOfSpec(seconds.Floor);
    var parts := DurationParts(c);
    PartRoundTrip(c.hours, 'h');
    PartRoundTrip(c.minutes, 'm');
    PartRoundTrip(c.seconds, 's');
    DurationPartsShape(c);
    SplitJoin(parts, ' ');
    PartsSecondsOfDuration(c);
  }

  lemma PartRoundTrip(n: int, unit: char)
    requires n >= 0
    ensures PartSeconds(IntToString(n) + [unit]) == if unit == 'h' then n * 3600 else if unit == 'm' then n * 60 else n
  {
    ParseNatToString(n);
    NatToStringSpec(n);
    var p := IntToString(n) + [unit];
    assert p[..|p| - 1] == NatToString(n);
  }

  lemma SpaceFreePart(n: int, unit: char)
    requires n >= 0 && unit != ' '
    ensures ' ' !in IntToString(n) + [unit] && IntToString(n) + [unit] != ""
  {
    NatToStringSpec(n);
    DigitsExclude(NatToString(n), ' ');
  }

  lemma DurationPartsShape(c: Clock)
    requires c.hours >= 0 && 0 <= c.minutes && 0 <= c.seconds
    ensures var parts := DurationParts(c);
      1 <= |parts| <= 3 && forall i :: 0 <= i < |parts| ==> ' ' !in parts[i] && parts[i] != ""
  {
    SpaceFreePart(c.hours, 'h');
    SpaceFreePart(c.minutes, 'm');
    SpaceFreePart(c.seconds, 's');
  }

  lemma PartsSecondsOfDuration(c: Clock)
    requires c.hours >= 0 && 0 <= c.minutes && 0 <= c.seconds
    ensures PartsSeconds(DurationParts(c)) == c.hours * 3600 + c.minutes * 60 + c.seconds
  {
    PartRoundTrip(c.hours, 'h');
    PartRoundTrip(c.minutes, 'm');
    PartRoundTrip(c.seconds, 's');
    var h := if c.hours > 0 then [IntToString(c.hours) + "h"] else [];
    var m := if c.minutes > 0 then [IntToString(c.minutes) + "m"] else [];
    var s := if c.seconds > 0 || (c.hours <= 0 && c.minutes <= 0) then [IntToString(c.seconds) + "s"] else [];
    PartsSecondsAppend(h, m);
    PartsSecondsAppend(h + m, s);
  }

  lemma {:induction false} PartsSecondsAppend(a: seq<string>, b: seq<string>)
    ensures PartsSeconds(a + b) == PartsSeconds(a) + PartsSeconds(b)
  {
    if a != [] {
      assert (a + b)[0] == a[0];
      assert (a + b)[1..] == a[1..] + b;
      PartsSecondsAppend(a[1..], b);
    } else {
      assert a + b == b;
    }
  }

  /** No duration is rendered as "": zero is "0s", and an hour and five
      seconds leave out the empty minutes. */
  lemma DurationExamples()
    ensures Join(DurationParts(DurationClock(0.0)), " ") == "0s"
    ensures Join(DurationParts(DurationClock(3605.0)), " ") == "1h 5s"
  {
    ExampleClocks();
    assert IntToString(0) + "s" == "0s";
    assert DurationParts(Clock(0, 0, 0)) == ["0s"];
    assert IntToString(1) + "h" == "1h" && IntToString(5) + "s" == "5s";
    assert DurationParts(Clock(1, 0, 5)) == ["1h", "5s"];
  }

  lemma ExampleClocks()
    ensures DurationClock(0.0) == Clock(0, 0, 0)
    ensures DurationClock(3605.0) == Clock(1, 0, 5)
  {
    DurationClockSpec(0.0);
    DurationClockSpec(3605.0);
  }

  // -------------------------------------------------- validate_audio_file

  /** The extensions accepted, in lower case with their dot. */
  const ValidAudioExtensions: set<string> := {".wav", ".mp3", ".flac", ".m4a", ".ogg", ".aac", ".wma"}

  const DefaultMaxFileSizeMb: int := 500

  /** Bytes in one megabyte as the size check counts them. */
  const BytesPerMb: int := 1024 * 1024

  /** How the opening read of one byte turned out. */
  datatype ReadOutcome = ReadOk | ReadPermissionDenied | ReadFailed

  /** What the file system answers about the path given on the command
      line: whether resolving it runs into a symlink loop, whether it
      exists, the resolved absolute path, whether it is a regular file, its
      size in bytes, whether the second is_file/exists probe still finds
      it, and how reading its first byte goes. */
  datatype AudioFile = AudioFile(loops: bool, found: bool, resolved: string, isFile: bool,
                                 size: nat, presentAtRead: bool, read: ReadOutcome)

  datatype ValidationError =
    | InvalidPath                      // resolve raised RuntimeError
    | NotFound                         // strict resolve found nothing
    | NotAFile                         // a directory or other non-file
    | UnsupportedFormat(suffix: string)
    | TooLarge
    | EmptyFile
    | CannotAccess                     // gone at the second probe
    | PermissionDenied
    | CannotRead

  /** The exception type each failure is raised as. */
  datatype ExceptionKind = FileNotFoundError | ValueError | PermissionError

  function ExceptionOf(e: ValidationError): ExceptionKind {
    match e
    case NotFound => FileNotFoundError
    case CannotAccess => FileNotFoundError
    case PermissionDenied => PermissionError
    case _ => ValueError
  }

  /** The suffix of the resolved path, as written. */
  function FileSuffix(f: AudioFile): string {
    Suffix(Name(f.resolved))
  }

  /** size / (1024 * 1024) > max_size_mb, on exact reals. */
  predicate OverSize(size: nat, maxSizeMb: int) {
    size as real / BytesPerMb as real > maxSizeMb as real
  }

  /** validate_audio_file: its checks in the order it makes them,
      the first failing one deciding the error. */
  function ValidateAudioFile(f: AudioFile, maxSizeMb: int, mustExist: bool): Result<string, ValidationError> {
    if f.loops then Failure(InvalidPath)
    else if mustExist && !f.found then Failure(NotFound)
    else if !mustExist then Success(f.resolved)
    else if !f.isFile then Failure(NotAFile)
    else if Lower(FileSuffix(f)) !in ValidAudioExtensions then Failure(UnsupportedFormat(FileSuffix(f)))
    else if OverSize(f.size, maxSizeMb) then Failure(TooLarge)
    else if f.size == 0 then Failure(EmptyFile)
    else if !f.presentAtRead then Failure(CannotAccess)
    else if f.read == ReadPermissionDenied then Failure(PermissionDenied)
    else if f.read == ReadFailed then Failure(CannotRead)
    else Success(f.resolved)
  }

  /** The size test in whole bytes: too large means more than
      max_size_mb * 1048576 bytes. */
  lemma OverSizeInBytes(size: nat, maxSizeMb: int)
    ensures OverSize(size, maxSizeMb) <==> size > maxSizeMb * BytesPerMb
  {
    var b := BytesPerMb as real;
    var q := size as real / b;
    assert q * b == size as real;
    ScaleOrder(q, maxSizeMb as real, b);
  }

  /** Dividing by a positive number keeps the order. */
  lemma ScaleOrder(a: real, c: real, b: real)
    requires b > 0.0
    ensures a > c <==> a * b > c * b
  {
    assert (a - c) * b == a * b - c * b;
  }

  /** An accepted file: the conditions every check demands, taken
      together. */
  predicate Acceptable(f: AudioFile, maxSizeMb: int, mustExist: bool) {
    && !f.loops
    && (mustExist ==>
          && f.found && f.isFile
          && Lower(FileSuffix(f)) in ValidAudioExtensions
          && 0 < f.size <= maxSizeMb * BytesPerMb
          && f.presentAtRead && f.read == ReadOk)
  }

  /** The file is accepted, and its resolved path returned, exactly when
      it meets every condition; otherwise the error names a condition it
      fails. */
  lemma ValidateAudioFileSpec(f: AudioFile, maxSizeMb: int, mustExist: bool)
    ensures var r := ValidateAudioFile(f, maxSizeMb, mustExist);
      && (r.Success? <==> Acceptable(f, maxSizeMb, mustExist))
      && (r.Success? ==> r.value == f.resolved)
      && (r == Failure(InvalidPath) <==> f.loops)
      && (r == Failure(NotFound) ==> mustExist && !f.found)
      && (r == Failure(TooLarge) ==> f.size > maxSizeMb * BytesPerMb)
      && (r == Failure(EmptyFile) ==> f.size == 0)
      && (r.Failure? && r.error.UnsupportedFormat? ==>
            r.error.suffix == FileSuffix(f) && Lower(r.error.suffix) !in ValidAudioExtensions)
  {
    OverSizeInBytes(f.size, maxSizeMb);
  }

  /** The extension check passes. */
  predicate FormatAccepted(f: AudioFile) {
    Lower(FileSuffix(f)) in ValidAudioExtensions
  }

  /** The size and emptiness checks both pass. */
  predicate SizeAccepted(f: AudioFile, maxSizeMb: int) {
    0 < f.size <= maxSizeMb * BytesPerMb
  }

  /** The checks run in a fixed order and the first one that fails decides
      the error: each error is returned exactly when its own check fails
      and every earlier check passes. */
  lemma ValidationFirstFailure(f: AudioFile, maxSizeMb: int, mustExist: bool)
    ensures var r := ValidateAudioFile(f, maxSizeMb, mustExist);
      && (r == Failure(NotFound) <==> !f.loops && mustExist && !f.found)
      && (mustExist && !f.loops && f.found ==>
            && (r == Failure(NotAFile) <==> !f.isFile)
            && (r.Failure? && r.error.UnsupportedFormat? <==> f.isFile && !FormatAccepted(f))
            && (r == Failure(TooLarge) <==>
                  f.isFile && FormatAccepted(f) && f.size > maxSizeMb * BytesPerMb)
            && (r == Failure(EmptyFile) <==>
                  f.isFile && FormatAccepted(f) && f.size <= maxSizeMb * BytesPerMb && f.size == 0)
            && (r == Failure(CannotAccess) <==>
                  f.isFile && FormatAccepted(f) && SizeAccepted(f, maxSizeMb) && !f.presentAtRead)
            && (r == Failure(PermissionDenied) <==>
                  f.isFile && FormatAccepted(f) && SizeAccepted(f, maxSizeMb) && f.presentAtRead
                  && f.read == ReadPermissionDenied)
            && (r == Failure(CannotRead) <==>
                  f.isFile && FormatAccepted(f) && SizeAccepted(f, maxSizeMb) && f.presentAtRead
                  && f.read == ReadFailed))
  {
    OverSizeInBytes(f.size, maxSizeMb);
  }

  /** Without must_exist only an unresolvable path is refused; a missing
      file or folder passes. */
  lemma LenientValidation(f: AudioFile, maxSizeMb: int)
    ensures ValidateAudioFile(f, maxSizeMb, false) == if f.loops then Failure(InvalidPath) else Success(f.resolved)
  {
  }

  /** The failures the documentation promises by exception type: a
      missing file under must_exist is a FileNotFoundError, an unreadable
      one a PermissionError, and every check on the file's contents a
      ValueError. */
  lemma ValidationExceptions(f: AudioFile, maxSizeMb: int, mustExist: bool)
    requires ValidateAudioFile(f, maxSizeMb, mustExist).Failure?
    ensures var e := ValidateAudioFile(f, maxSizeMb, mustExist).error;
      && (ExceptionOf(e) == FileNotFoundError <==> e == NotFound || e == CannotAccess)
      && (mustExist && !f.loops && !f.found ==> ExceptionOf(e) == FileNotFoundError)
      && (ExceptionOf(e) == PermissionError ==> f.read == ReadPermissionDenied)
      && (!mustExist ==> ExceptionOf(e) == ValueError)
  {
  }

  /** The extension test ignores case: two files whose suffixes agree
      once lowered get the same verdict. */
  lemma SuffixCaseIgnored(f: AudioFile, g: AudioFile, maxSizeMb: int, mustExist: bool)
    requires g == f.(resolved := g.resolved)
    requires Lower(FileSuffix(f)) == Lower(FileSuffix(g))
    ensures ValidateAudioFile(f, maxSizeMb, mustExist).Success? <==> ValidateAudioFile(g, maxSizeMb, mustExist).Success?
  {
    ValidateAudioFileSpec(f, maxSizeMb, mustExist);
    ValidateAudioFileSpec(g, maxSizeMb, mustExist);
    assert Acceptable(f, maxSizeMb, mustExist) <==> Acceptable(g, maxSizeMb, mustExist);
  }

  /** The size limit is inclusive: a file of exactly max_size_mb
      megabytes passes the size check and one byte more fails it. */
  lemma SizeBoundary(maxSizeMb: nat)
    ensures !OverSize(maxSizeMb * BytesPerMb, maxSizeMb)
    ensures OverSize(maxSizeMb * BytesPerMb + 1, maxSizeMb)
  {
    OverSizeInBytes(maxSizeMb * BytesPerMb, maxSizeMb);
    OverSizeInBytes(maxSizeMb * BytesPerMb + 1, maxSizeMb);
  }

  /** The file-record conditions of the examples below: every check but
      the extension passes. */
  predicate PassesOtherChecks(f: AudioFile) {
    f.found && !f.loops && f.isFile && 0 < f.size <= DefaultMaxFileSizeMb * BytesPerMb
    && f.presentAtRead && f.read == ReadOk
  }

  /** An upper-case extension is accepted. */
  lemma UpperCaseExtensionAccepted(f: AudioFile)
    requires PassesOtherChecks(f) && f.resolved == "/a/b.WAV"
    ensures ValidateAudioFile(f, DefaultMaxFileSizeMb, true) == Success("/a/b.WAV")
  {
    UpperCaseSuffix();
    assert ".wav" in ValidAudioExtensions;
    ValidateAudioFileSpec(f, DefaultMaxFileSizeMb, true);
    assert Acceptable(f, DefaultMaxFileSizeMb, true);
  }

  /** A hidden file named ".wav" has no suffix at all and is refused. */
  lemma HiddenWavRefused(f: AudioFile)
    requires PassesOtherChecks(f) && f.resolved == "/a/.wav"
    ensures ValidateAudioFile(f, DefaultMaxFileSizeMb, true) == Failure(UnsupportedFormat(""))
  {
    HiddenFileSuffix();
    assert Lower("") == "";
  }

  lemma UpperCaseSuffix()
    ensures Suffix(Name("/a/b.WAV")) == ".WAV" && Lower(".WAV") == ".wav"
  {
    assert "/a/b.WAV" == "/a/" + ("b" + "." + "WAV");
    NameAfterDir("/a/", "b" + "." + "WAV");
    StemSuffixOf("b", "WAV");
  }

  lemma HiddenFileSuffix()
    ensures Suffix(Name("/a/.wav")) == ""
  {
    assert "/a/.wav" == "/a/" + ("." + "wav");
    NameAfterDir("/a/", "." + "wav");
    HiddenNameNoSuffix("wav");
  }
}
