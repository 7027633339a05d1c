/** A transcript segment as the speech recogniser writes it to JSON and
    the later stages read it back. */
module Transcript {
  import opened Wrappers

  /** `start`, `end` and `text` are read by name; `speaker` is present
      once the segment has been tagged; `others` holds the remaining keys
      of the JSON object (id, seek, tokens, ...), carried through
      untouched, each with its value's JSON text. */
  datatype Segment = Segment(start: real, end: real, text: string, speaker: Option<string>,
                             others: map<string, string>)

  /** The label seg.get("speaker", "Unknown"). */
  const UnknownSpeaker: string := "Unknown"

  function SpeakerOf(seg: Segment): string {
    seg.speaker.GetOr(UnknownSpeaker)
  }
}
