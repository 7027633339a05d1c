/** Labelling transcript segments with the speaker they overlap most
    (assign_speakers_to_transcript in diarize_nemo.py). */
module Aligner {
  import opened Wrappers
  import opened Merger
  import opened Transcript
  import Strings

  function Max(a: real, b: real): real {
    if a >= b then a else b
  }

  function Min(a: real, b: real): real {
    if a <= b then a else b
  }

  /** max(0, min(ends) - max(starts)): the length of time the segment and
      the interval share; positive exactly when both are non-empty and
      they intersect. */
  function Overlap(seg: Segment, iv: Interval): (o: real)
    ensures o >= 0.0
    ensures o > 0.0 <==> seg.start < seg.end && iv.start < iv.end && seg.start < iv.end && iv.start < seg.end
    ensures o <= seg.end - seg.start || o == 0.0
  {
    Max(0.0, Min(seg.end, iv.end) - Max(seg.start, iv.start))
  }

  /** The externally visible name of cluster `id`, counted from 1. */
  function SpeakerName(id: int): string {
    "Speaker_" + Strings.IntToString(id + 1)
  }

  /** Different clusters get different names, and none is "Unknown". */
  lemma SpeakerNameDistinct(a: int, b: int)
    ensures a != b ==> SpeakerName(a) != SpeakerName(b)
    ensures SpeakerName(a) != UnknownSpeaker
  {
    Strings.IntToStringInjective(a + 1, b + 1);
    Strings.NatToStringSpec(if a + 1 < 0 then -(a + 1) else a + 1);
    if SpeakerName(a) == SpeakerName(b) {
      assert SpeakerName(a)[8..] == Strings.IntToString(a + 1);
      assert SpeakerName(b)[8..] == Strings.IntToString(b + 1);
    }
    assert |SpeakerName(a)| >= 9;
  }

  /** The running maximum of the inner loop after the first n intervals:
      the interval whose overlap beat all before it, or None while no
      overlap has been positive. */
  function BestUpTo(seg: Segment, intervals: seq<Interval>, n: nat): (b: Option<nat>)
    requires n <= |intervals|
    ensures b.Some? ==> b.value < n
  {
    if n == 0 then None
    else
      var b := BestUpTo(seg, intervals, n - 1);
      var soFar := if b.None? then 0.0 else Overlap(seg, intervals[b.value]);
      if Overlap(seg, intervals[n - 1]) > soFar then Some(n - 1) else b
  }

  function BestInterval(seg: Segment, intervals: seq<Interval>): Option<nat> {
    BestUpTo(seg, intervals, |intervals|)
  }

  /** The label the aligner gives a segment. */
  function SpeakerFor(seg: Segment, intervals: seq<Interval>): string {
    match BestInterval(seg, intervals)
    case None => UnknownSpeaker
    case Some(j) => SpeakerName(intervals[j].speaker)
  }

  /** Interval j has the largest overlap with the segment among the first
      n, a positive one, and every earlier interval's overlap is strictly
      smaller. */
  predicate IsFirstLargest(seg: Segment, intervals: seq<Interval>, n: nat, j: nat)
    requires n <= |intervals|
  {
    && j < n
    && Overlap(seg, intervals[j]) > 0.0
    && (forall k :: 0 <= k < n ==> Overlap(seg, intervals[k]) <= Overlap(seg, intervals[j]))
    && (forall k :: 0 <= k < j ==> Overlap(seg, intervals[k]) < Overlap(seg, intervals[j]))
  }

  lemma {:induction false} BestUpToSpec(seg: Segment, intervals: seq<Interval>, n: nat)
    requires n <= |intervals|
    ensures BestUpTo(seg, intervals, n).None? <==> forall k :: 0 <= k < n ==> Overlap(seg, intervals[k]) == 0.0
    ensures BestUpTo(seg, intervals, n).Some? ==> IsFirstLargest(seg, intervals, n, BestUpTo(seg, intervals, n).value)
  {
    if n > 0 {
      BestUpToSpec(seg, intervals, n - 1);
    }
  }

  /** The segment is "Unknown" exactly when no interval overlaps it;
      otherwise it is named after the first interval with the largest
      overlap. */
  lemma SpeakerForSpec(seg: Segment, intervals: seq<Interval>)
    ensures SpeakerFor(seg, intervals) == UnknownSpeaker
            <==> forall k :: 0 <= k < |intervals| ==> Overlap(seg, intervals[k]) == 0.0
    ensures SpeakerFor(seg, intervals) != UnknownSpeaker ==>
              exists j: nat :: IsFirstLargest(seg, intervals, |intervals|, j)
                          && SpeakerFor(seg, intervals) == SpeakerName(intervals[j].speaker)
  {
    BestUpToSpec(seg, intervals, |intervals|);
    match BestInterval(seg, intervals)
    case None =>
    case Some(j) =>
      SpeakerNameDistinct(intervals[j].speaker, intervals[j].speaker);
  }

  /** Ties go to the earlier interval. */
  lemma TieGoesToEarlier(seg: Segment, intervals: seq<Interval>, a: nat, b: nat)
    requires a < b < |intervals|
    requires Overlap(seg, intervals[a]) == Overlap(seg, intervals[b]) > 0.0
    ensures BestInterval(seg, intervals) != Some(b)
  {
    BestUpToSpec(seg, intervals, |intervals|);
  }

  /** Segment (9, 12) against intervals (0, 10) of cluster 0 and (10, 20)
      of cluster 1 goes to Speaker_2, which it shares 2 seconds with;
      segment (25, 30) shares nothing and is Unknown. */
  lemma AlignmentExamples()
    ensures SpeakerFor(Segment(9.0, 12.0, "", None, map[]), [Interval(0, 0.0, 10.0), Interval(1, 10.0, 20.0)])
         == "Speaker_2"
    ensures SpeakerFor(Segment(25.0, 30.0, "", None, map[]), [Interval(0, 0.0, 10.0), Interval(1, 10.0, 20.0)])
         == UnknownSpeaker
  {
    var ivs := [Interval(0, 0.0, 10.0), Interval(1, 10.0, 20.0)];
    var s1 := Segment(9.0, 12.0, "", None, map[]);
    assert Overlap(s1, ivs[0]) == 1.0 && Overlap(s1, ivs[1]) == 2.0;
    assert BestUpTo(s1, ivs, 1) == Some(0);
    assert BestUpTo(s1, ivs, 2) == Some(1);
    assert Strings.NatToString(2) == "2";
    var s2 := Segment(25.0, 30.0, "", None, map[]);
    assert BestUpTo(s2, ivs, 1) == None;
  }

  method AssignSpeakers(segments: seq<Segment>, intervals: seq<Interval>) returns (tagged: seq<Segment>)
    ensures |tagged| == |segments|
    ensures forall i :: 0 <= i < |segments| ==>
              tagged[i] == segments[i].(speaker := Some(SpeakerFor(segments[i], intervals)))
  {
    tagged := [];
    for i := 0 to |segments|
      invariant |tagged| == i
      invariant forall k :: 0 <= k < i ==>
                  tagged[k] == segments[k].(speaker := Some(SpeakerFor(segments[k], intervals)))
    {
      var seg := segments[i];
      var speaker := UnknownSpeaker;
      var maxOverlap := 0.0;
      ghost var best: Option<nat> := None;
      for j := 0 to |intervals|
        invariant best == BestUpTo(seg, intervals, j)
        invariant maxOverlap == if best.None? then 0.0 else Overlap(seg, intervals[best.value])
        invariant speaker == if best.None? then UnknownSpeaker else SpeakerName(intervals[best.value].speaker)
      {
        var overlap := Overlap(seg, intervals[j]);
        if overlap > maxOverlap {
          maxOverlap := overlap;
          speaker := SpeakerName(intervals[j].speaker);
          best := Some(j);
        }
      }
      tagged := tagged + [seg.(speaker := Some(speaker))];
    }
  }
}
