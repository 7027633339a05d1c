/** Folding consecutive same-label windows into speaker intervals
    (merge_segments in diarize_nemo.py). */
module Merger {
  import opened Wrappers
  import opened Embeddings

  /** A merged speaker interval; `speaker` is the cluster label. */
  datatype Interval = Interval(speaker: int, start: real, end: real)

  /** A window with the label the clusterer gave it. */
  datatype Labelled = Labelled(window: Window, speaker: int)

  datatype MergeError =
    | MissingLabel   // labels[0] raises IndexError: windows but no labels

  /** The merge tolerance default of merge_segments. */
  const DefaultGapThreshold: real := 0.5

  /** zip(timestamps, labels): pairs up to the shorter of the two. */
  function Zip(ts: seq<Window>, labels: seq<int>): (p: seq<Labelled>)
    ensures |p| == if |ts| < |labels| then |ts| else |labels|
    ensures forall i :: 0 <= i < |p| ==> p[i] == Labelled(ts[i], labels[i])
  {
    if ts == [] || labels == [] then [] else [Labelled(ts[0], labels[0])] + Zip(ts[1..], labels[1..])
  }

  /** The interval a window starts on its own. */
  function Open(w: Labelled): Interval {
    Interval(w.speaker, w.window.start, w.window.end)
  }

  /** merged + [current_segment] once the first n windows are folded in:
      a window extends the current interval when it has the current
      speaker and starts no later than the current end plus the gap. */
  function MergedPrefix(p: seq<Labelled>, gap: real, n: nat): (m: seq<Interval>)
    requires 1 <= n <= |p|
    ensures |m| >= 1
  {
    if n == 1 then [Open(p[0])]
    else
      var m := MergedPrefix(p, gap, n - 1);
      var current := m[|m| - 1];
      var w := p[n - 1];
      if w.speaker == current.speaker && w.window.start <= current.end + gap
      then m[..|m| - 1] + [current.(end := w.window.end)]
      else m + [Open(w)]
  }

  /** What merge_segments returns for the pairs p. */
  function Merged(p: seq<Labelled>, gap: real): seq<Interval> {
    if p == [] then [] else MergedPrefix(p, gap, |p|)
  }

  // ------------------------------------------- the run structure of p

  /** Window i (i > 0) opens a new interval: its label differs from the
      previous window's, or it starts more than `gap` after the previous
      window ends. */
  predicate Breaks(p: seq<Labelled>, gap: real, i: nat)
    requires 0 < i < |p|
  {
    p[i].speaker != p[i - 1].speaker || p[i].window.start > p[i - 1].window.end + gap
  }

  /** The position, in the output, of the interval that absorbs window i:
      the number of breaks up to i. */
  function Owner(p: seq<Labelled>, gap: real, i: nat): (o: nat)
    requires i < |p|
    ensures o <= i
  {
    if i == 0 then 0 else Owner(p, gap, i - 1) + (if Breaks(p, gap, i) then 1 else 0)
  }

  lemma {:induction false} OwnerMonotone(p: seq<Labelled>, gap: real, i: nat, j: nat)
    requires i <= j < |p|
    ensures Owner(p, gap, i) <= Owner(p, gap, j)
    decreases j - i
  {
    if i < j {
      OwnerMonotone(p, gap, i, j - 1);
    }
  }

  /** The fold keeps one interval per break plus one, and the current
      interval always carries the last window's speaker and end. */
  lemma {:induction false} MergedPrefixShape(p: seq<Labelled>, gap: real, n: nat)
    requires 1 <= n <= |p|
    ensures var m := MergedPrefix(p, gap, n);
      && |m| == Owner(p, gap, n - 1) + 1
      && m[|m| - 1].speaker == p[n - 1].speaker
      && m[|m| - 1].end == p[n - 1].window.end
  {
    if n > 1 {
      MergedPrefixShape(p, gap, n - 1);
    }
  }

  /** One step of the fold: a breaking window appends an interval of its
      own, any other window extends the last interval. */
  lemma MergedPrefixStep(p: seq<Labelled>, gap: real, n: nat)
    requires 2 <= n <= |p|
    ensures var m0, m := MergedPrefix(p, gap, n - 1), MergedPrefix(p, gap, n);
      if Breaks(p, gap, n - 1) then m == m0 + [Open(p[n - 1])]
      else m == m0[..|m0| - 1] + [m0[|m0| - 1].(end := p[n - 1].window.end)]
  {
    MergedPrefixShape(p, gap, n - 1);
  }

  /** A fold step leaves every interval but the open one alone, and the
      open one too when the window breaks. */
  lemma MergedPrefixKeeps(p: seq<Labelled>, gap: real, n: nat, k: nat)
    requires 2 <= n <= |p|
    requires var m0 := MergedPrefix(p, gap, n - 1);
      k < |m0| - 1 || (k < |m0| && Breaks(p, gap, n - 1))
    ensures k < |MergedPrefix(p, gap, n)| && MergedPrefix(p, gap, n)[k] == MergedPrefix(p, gap, n - 1)[k]
  {
    MergedPrefixStep(p, gap, n);
  }

  /** A window that does not break only moves the open interval's end. */
  lemma MergedPrefixExtends(p: seq<Labelled>, gap: real, n: nat)
    requires 2 <= n <= |p| && !Breaks(p, gap, n - 1)
    ensures var m0, m := MergedPrefix(p, gap, n - 1), MergedPrefix(p, gap, n);
      |m| == |m0| && m[|m| - 1] == m0[|m0| - 1].(end := p[n - 1].window.end)
  {
    MergedPrefixStep(p, gap, n);
  }

  /** Once window i has been folded in, its interval carries its
      label. */
  lemma {:induction false} OwnedSpeaker(p: seq<Labelled>, gap: real, n: nat, i: nat)
    requires i < n <= |p|
    ensures var m := MergedPrefix(p, gap, n);
      Owner(p, gap, i) < |m| && m[Owner(p, gap, i)].speaker == p[i].speaker
  {
    MergedPrefixShape(p, gap, n);
    if i < n - 1 {
      var o := Owner(p, gap, i);
      OwnedSpeaker(p, gap, n - 1, i);
      if Breaks(p, gap, n - 1) || o < |MergedPrefix(p, gap, n - 1)| - 1 {
        MergedPrefixKeeps(p, gap, n, o);
      } else {
        MergedPrefixExtends(p, gap, n);
      }
    }
  }

  /** The interval a window opens keeps that window's start. */
  lemma {:induction false} OwnedStart(p: seq<Labelled>, gap: real, n: nat, i: nat)
    requires i < n <= |p|
    requires i == 0 || Breaks(p, gap, i)
    ensures var m := MergedPrefix(p, gap, n);
      Owner(p, gap, i) < |m| && m[Owner(p, gap, i)].start == p[i].window.start
  {
    MergedPrefixShape(p, gap, n);
    if i < n - 1 {
      var o := Owner(p, gap, i);
      OwnedStart(p, gap, n - 1, i);
      if Breaks(p, gap, n - 1) || o < |MergedPrefix(p, gap, n - 1)| - 1 {
        MergedPrefixKeeps(p, gap, n, o);
      } else {
        MergedPrefixExtends(p, gap, n);
      }
    } else if i > 0 {
      MergedPrefixStep(p, gap, n);
    }
  }

  /** The interval a window closes keeps that window's end: the next
      window either breaks or is still to come. */
  lemma {:induction false} OwnedEnd(p: seq<Labelled>, gap: real, n: nat, i: nat)
    requires i < n <= |p|
    requires i == n - 1 || Breaks(p, gap, i + 1)
    ensures var m := MergedPrefix(p, gap, n);
      Owner(p, gap, i) < |m| && m[Owner(p, gap, i)].end == p[i].window.end
  {
    if i < n - 1 {
      var m0 := MergedPrefix(p, gap, n - 1);
      var o := Owner(p, gap, i);
      assert o < |m0| && m0[o].end == p[i].window.end && (o < |m0| - 1 || Breaks(p, gap, n - 1)) by {
        MergedPrefixShape(p, gap, n - 1);
        if i + 1 < n - 1 {
          OwnedEnd(p, gap, n - 1, i);
          OwnerMonotone(p, gap, i + 1, n - 2);
        }
      }
      MergedPrefixKeeps(p, gap, n, o);
    } else {
      MergedPrefixShape(p, gap, n);
    }
  }

  // ------------------------------------------------ what the merge promises

  /** An empty timestamp list merges into an empty list. */
  lemma MergeEmpty(gap: real)
    ensures Merged([], gap) == []
  {
  }

  /** Every window is absorbed by exactly one interval; the intervals
      absorb contiguous runs, in order: the first window goes to the first
      interval, the last to the last, and each window to the same interval
      as its predecessor or to the next one, the next exactly when it
      breaks. So there are between 1 and n intervals. */
  lemma MergedPartition(p: seq<Labelled>, gap: real)
    requires |p| > 0
    ensures var m := Merged(p, gap);
      && 1 <= |m| <= |p|
      && Owner(p, gap, 0) == 0
      && Owner(p, gap, |p| - 1) == |m| - 1
      && (forall i :: 0 < i < |p| ==>
            Owner(p, gap, i) == if Breaks(p, gap, i) then Owner(p, gap, i - 1) + 1 else Owner(p, gap, i - 1))
  {
    MergedPrefixShape(p, gap, |p|);
  }

  /** Each interval's speaker is the label of every window it absorbs, its
      start is its first window's start and its end its last window's
      end. */
  lemma MergedIntervalBounds(p: seq<Labelled>, gap: real, i: nat)
    requires i < |p|
    ensures var m := Merged(p, gap);
      && Owner(p, gap, i) < |m|
      && m[Owner(p, gap, i)].speaker == p[i].speaker
      && ((i == 0 || Breaks(p, gap, i)) ==> m[Owner(p, gap, i)].start == p[i].window.start)
      && ((i == |p| - 1 || Breaks(p, gap, i + 1)) ==> m[Owner(p, gap, i)].end == p[i].window.end)
  {
    OwnedSpeaker(p, gap, |p|, i);
    if i == 0 || Breaks(p, gap, i) {
      OwnedStart(p, gap, |p|, i);
    }
    if i == |p| - 1 || Breaks(p, gap, i + 1) {
      OwnedEnd(p, gap, |p|, i);
    }
  }

  /** Some window opens each interval after the first. */
  lemma {:induction false} OpeningWindow(p: seq<Labelled>, gap: real, j: nat, n: nat) returns (b: nat)
    requires 1 <= n <= |p| && 0 < j <= Owner(p, gap, n - 1)
    ensures 0 < b < n && Breaks(p, gap, b) && Owner(p, gap, b) == j && Owner(p, gap, b - 1) == j - 1
  {
    if Owner(p, gap, n - 2) >= j {
      b := OpeningWindow(p, gap, j, n - 1);
    } else {
      b := n - 1;
    }
  }

  /** Adjacent intervals could not have been merged: the speakers differ,
      or the later one starts more than `gap` after the earlier one
      ends. */
  lemma MergedAdjacentSeparated(p: seq<Labelled>, gap: real, j: nat)
    requires j + 1 < |Merged(p, gap)|
    ensures var m := Merged(p, gap);
      m[j].speaker != m[j + 1].speaker || m[j + 1].start > m[j].end + gap
  {
    var m := Merged(p, gap);
    MergedPrefixShape(p, gap, |p|);
    var b := OpeningWindow(p, gap, j + 1, |p|);
    assert m[j + 1].speaker == p[b].speaker && m[j + 1].start == p[b].window.start by {
      OwnedSpeaker(p, gap, |p|, b);
      OwnedStart(p, gap, |p|, b);
    }
    assert m[j].speaker == p[b - 1].speaker && m[j].end == p[b - 1].window.end by {
      OwnedSpeaker(p, gap, |p|, b - 1);
      OwnedEnd(p, gap, |p|, b - 1);
    }
  }

  /** The gap tolerance is inclusive: a window with the previous window's
      label that starts exactly `gap` after it ends joins its interval. */
  lemma MergeInclusiveGap(p: seq<Labelled>, gap: real, i: nat)
    requires 0 < i < |p|
    requires p[i].speaker == p[i - 1].speaker && p[i].window.start == p[i - 1].window.end + gap
    ensures Owner(p, gap, i) == Owner(p, gap, i - 1)
  {
  }

  /** When the windows start in non-decreasing order, so do the
      intervals. */
  lemma MergedStartsOrdered(p: seq<Labelled>, gap: real, j: nat)
    requires forall i :: 0 < i < |p| ==> p[i - 1].window.start <= p[i].window.start
    requires j + 1 < |Merged(p, gap)|
    ensures Merged(p, gap)[j].start <= Merged(p, gap)[j + 1].start
  {
    var a := IntervalOpener(p, gap, j);
    var b := IntervalOpener(p, gap, j + 1);
    if b <= a {
      OwnerMonotone(p, gap, b, a);
      assert false;
    }
    StartsOrdered(p, a, b);
  }

  /** The window that opens interval j, whose start is the interval's. */
  lemma IntervalOpener(p: seq<Labelled>, gap: real, j: nat) returns (a: nat)
    requires j < |Merged(p, gap)|
    ensures a < |p| && Owner(p, gap, a) == j && Merged(p, gap)[j].start == p[a].window.start
  {
    MergedPrefixShape(p, gap, |p|);
    a := 0;
    if j > 0 {
      a := OpeningWindow(p, gap, j, |p|);
    }
    OwnedStart(p, gap, |p|, a);
  }

  lemma {:induction false} StartsOrdered(p: seq<Labelled>, a: nat, b: nat)
    requires forall i :: 0 < i < |p| ==> p[i - 1].window.start <= p[i].window.start
    requires a <= b < |p|
    ensures p[a].window.start <= p[b].window.start
    decreases b - a
  {
    if a < b {
      StartsOrdered(p, a, b - 1);
    }
  }

  /** The two boundary cases of the gap rule: windows (0, 3) and
      (3.5, 6.5) of one speaker merge into (0, 6.5) under a 0.5 gap;
      windows (0, 3) and (4, 7) do not. */
  lemma MergeGapExamples()
    ensures Merged([Labelled(Window(0.0, 3.0), 0), Labelled(Window(3.5, 6.5), 0)], 0.5)
         == [Interval(0, 0.0, 6.5)]
    ensures Merged([Labelled(Window(0.0, 3.0), 0), Labelled(Window(4.0, 7.0), 0)], 0.5)
         == [Interval(0, 0.0, 3.0), Interval(0, 4.0, 7.0)]
  {
    var p1 := [Labelled(Window(0.0, 3.0), 0), Labelled(Window(3.5, 6.5), 0)];
    assert MergedPrefix(p1, 0.5, 1) == [Interval(0, 0.0, 3.0)];
    var p2 := [Labelled(Window(0.0, 3.0), 0), Labelled(Window(4.0, 7.0), 0)];
    assert MergedPrefix(p2, 0.5, 1) == [Interval(0, 0.0, 3.0)];
  }

  // ---------------------------------------------------------- the method

  method MergeSegments(timestamps: seq<Window>, labels: seq<int>, gap: real)
    returns (r: Result<seq<Interval>, MergeError>)
    ensures timestamps == [] ==> r == Success([])
    ensures timestamps != [] && labels == [] ==> r == Failure(MissingLabel)
    ensures timestamps != [] && labels != [] ==> r == Success(Merged(Zip(timestamps, labels), gap))
  {
    if |timestamps| == 0 {
      return Success([]);
    }
    if |labels| == 0 {
      return Failure(MissingLabel);
    }
    ghost var p := Zip(timestamps, labels);
    var n := if |timestamps| < |labels| then |timestamps| else |labels|;
    var merged: seq<Interval> := [];
    var current := Interval(labels[0], timestamps[0].start, timestamps[0].end);
    var i := 1;
    while i < n
      invariant 1 <= i <= n
      invariant merged + [current] == MergedPrefix(p, gap, i)
    {
      var w, id := timestamps[i], labels[i];
      ghost var m := MergedPrefix(p, gap, i);
      assert m[..|m| - 1] == merged && m[|m| - 1] == current;
      if id == current.speaker && w.start <= current.end + gap {
        current := current.(end := w.end);
      } else {
        merged := merged + [current];
        current := Interval(id, w.start, w.end);
      }
      i := i + 1;
    }
    merged := merged + [current];
    return Success(merged);
  }
}
