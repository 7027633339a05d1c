/** Sliding-window extraction of speaker embeddings (extract_embeddings in
    diarize_nemo.py). The waveform is represented by its duration in
    seconds; the embedding model is the function `embed`, which maps the
    window [start, start + length) to a raw vector, and the Euclidean
    norm is the function `norm`. */
module Embeddings {
  import opened Wrappers

  type Vector = seq<real>

  /** One audio window, in seconds from the start of the recording. */
  datatype Window = Window(start: real, end: real)

  /** The embeddings that survived, and the window of each. */
  datatype Extraction = Extraction(embeddings: seq<Vector>, timestamps: seq<Window>)

  datatype ExtractError = NoValidEmbeddings

  /** A raw vector whose norm is at most this is treated as silence. */
  const NormEpsilon: real := 0.0000000001

  /** The window-length and step-length defaults of extract_embeddings. */
  const DefaultWindowLength: real := 3.0
  const DefaultStepLength: real := 1.5

  /** The vector divided by its norm. */
  function Normalize(v: Vector, n: real): (u: Vector)
    requires n != 0.0
    ensures |u| == |v| && forall i :: 0 <= i < |v| ==> u[i] * n == v[i]
  {
    seq(|v|, i requires 0 <= i < |v| => v[i] / n)
  }

  /** The i-th window the loop visits: it starts after i steps. */
  function WindowAt(length: real, step: real, i: nat): Window {
    Window(i as real * step, i as real * step + length)
  }

  /** Whether the i-th window yields a usable embedding. */
  predicate Usable(embed: (real, real) -> Vector, norm: Vector -> real, length: real, step: real, i: nat) {
    var w := WindowAt(length, step, i);
    norm(embed(w.start, w.end)) > NormEpsilon
  }

  /** The embedding recorded for the i-th window. */
  function EmbeddingAt(embed: (real, real) -> Vector, norm: Vector -> real, length: real, step: real, i: nat): Vector
    requires Usable(embed, norm, length, step, i)
  {
    var w := WindowAt(length, step, i);
    var raw := embed(w.start, w.end);
    Normalize(raw, norm(raw))
  }

  /** How many whole windows of the given length fit into the duration at
      the given step. */
  function WindowCount(duration: real, length: real, step: real): nat
    requires step > 0.0
  {
    if duration - length < 0.0 then 0 else ((duration - length) / step).Floor + 1
  }

  /** The i-th window fits inside the audio exactly when i is below the
      window count: no partial window is ever taken. */
  lemma WindowFitsIffBelowCount(duration: real, length: real, step: real, i: nat)
    requires step > 0.0
    ensures WindowAt(length, step, i).end <= duration <==> i < WindowCount(duration, length, step)
  {
    var d := duration - length;
    var x := i as real;
    if d >= 0.0 {
      var q := d / step;
      assert q * step == d;
      ScaleMonotone(x, q, step);
      assert q.Floor as real <= q < q.Floor as real + 1.0;
      assert x <= q <==> i <= q.Floor;
      assert WindowAt(length, step, i).end <= duration <==> x * step <= d;
    } else {
      assert x * step >= 0.0;
    }
  }

  /** Multiplying by a positive number keeps the order. */
  lemma ScaleMonotone(a: real, b: real, c: real)
    requires c > 0.0
    ensures a <= b <==> a * c <= b * c
  {
    assert (b - a) * c == b * c - a * c;
  }

  /** Indices of the usable windows among the first n, in visiting
      order. */
  function Kept(embed: (real, real) -> Vector, norm: Vector -> real, length: real, step: real, n: nat): (ks: seq<nat>)
    ensures forall j :: 0 <= j < |ks| ==> ks[j] < n && Usable(embed, norm, length, step, ks[j])
  {
    if n == 0 then []
    else Kept(embed, norm, length, step, n - 1) + (if Usable(embed, norm, length, step, n - 1) then [n - 1] else [])
  }

  /** The kept windows are exactly the usable ones, each once, in
      increasing order. */
  lemma {:induction false} KeptSpec(embed: (real, real) -> Vector, norm: Vector -> real, length: real, step: real, n: nat)
    ensures var ks := Kept(embed, norm, length, step, n);
      (forall j, l :: 0 <= j < l < |ks| ==> ks[j] < ks[l])
      && (forall i: nat :: i < n && Usable(embed, norm, length, step, i) ==> i in ks)
  {
    if n > 0 {
      KeptSpec(embed, norm, length, step, n - 1);
    }
  }

  /** The recorded embeddings and timestamps are those of the windows ks,
      in order. */
  predicate Recorded(embed: (real, real) -> Vector, norm: Vector -> real, length: real, step: real,
                     ks: seq<nat>, embeddings: seq<Vector>, timestamps: seq<Window>)
  {
    && |embeddings| == |timestamps| == |ks|
    && forall j :: 0 <= j < |ks| ==>
         && timestamps[j] == WindowAt(length, step, ks[j])
         && Usable(embed, norm, length, step, ks[j])
         && embeddings[j] == EmbeddingAt(embed, norm, length, step, ks[j])
  }

  /** A run of extract_embeddings with window length `length` and step
      `step` over audio lasting `duration` seconds. */
  method ExtractEmbeddings(duration: real, embed: (real, real) -> Vector, norm: Vector -> real,
                           length: real, step: real)
    returns (r: Result<Extraction, ExtractError>)
    requires step > 0.0
    ensures var ks := Kept(embed, norm, length, step, WindowCount(duration, length, step));
      && (r.Failure? <==> ks == [])
      && (r.Failure? ==> r.error == NoValidEmbeddings)
      && (r.Success? ==>
            && |r.value.embeddings| == |r.value.timestamps| == |ks|
            && forall j :: 0 <= j < |ks| ==>
                 && r.value.timestamps[j] == WindowAt(length, step, ks[j])
                 && r.value.embeddings[j] == EmbeddingAt(embed, norm, length, step, ks[j]))
  {
    var embeddings: seq<Vector> := [];
    var timestamps: seq<Window> := [];
    var currentTime := 0.0;
    ghost var i: nat := 0;
    ghost var count := WindowCount(duration, length, step);
    WindowFitsIffBelowCount(duration, length, step, 0);
    while currentTime + length <= duration
      invariant currentTime == i as real * step
      invariant i <= count
      invariant currentTime + length <= duration <==> i < count
      invariant Recorded(embed, norm, length, step, Kept(embed, norm, length, step, i), embeddings, timestamps)
      decreases count - i
    {
      var raw := embed(currentTime, currentTime + length);
      var n := norm(raw);
      if n > NormEpsilon {
        embeddings := embeddings + [Normalize(raw, n)];
        timestamps := timestamps + [Window(currentTime, currentTime + length)];
      }
      assert Recorded(embed, norm, length, step, Kept(embed, norm, length, step, i + 1), embeddings, timestamps) by {
        assert WindowAt(length, step, i) == Window(currentTime, currentTime + length);
        assert Kept(embed, norm, length, step, i + 1)
            == Kept(embed, norm, length, step, i) + (if n > NormEpsilon then [i] else []);
      }
      NextWindowStart(length, step, i);
      currentTime := currentTime + step;
      i := i + 1;
      WindowFitsIffBelowCount(duration, length, step, i);
    }
    if |embeddings| == 0 {
      return Failure(NoValidEmbeddings);
    }
    return Success(Extraction(embeddings, timestamps));
  }

  /** What a successful extraction promises about its windows: each lies
      wholly inside the audio, has the fixed length, starts a whole number
      of steps in, and the windows come in strictly increasing order. */
  lemma {:induction false} ExtractedWindowsFit(embed: (real, real) -> Vector, norm: Vector -> real,
                                               duration: real, length: real, step: real, j: nat)
    requires step > 0.0
    requires j < |Kept(embed, norm, length, step, WindowCount(duration, length, step))|
    ensures var k := Kept(embed, norm, length, step, WindowCount(duration, length, step))[j];
      var w := WindowAt(length, step, k);
      0.0 <= w.start && w.end <= duration && w.end - w.start == length
      && (j > 0 ==> WindowAt(length, step, Kept(embed, norm, length, step, WindowCount(duration, length, step))[j - 1]).start < w.start)
  {
    var count := WindowCount(duration, length, step);
    var ks := Kept(embed, norm, length, step, count);
    KeptSpec(embed, norm, length, step, count);
    WindowInside(duration, length, step, ks[j]);
    if j > 0 {
      WindowsOrdered(length, step, ks[j - 1], ks[j]);
    }
  }

  /** A window below the count starts at or after zero, ends inside the
      audio and has the fixed length. */
  lemma WindowInside(duration: real, length: real, step: real, k: nat)
    requires step > 0.0 && k < WindowCount(duration, length, step)
    ensures var w := WindowAt(length, step, k);
      0.0 <= w.start && w.end <= duration && w.end - w.start == length
  {
    WindowFitsIffBelowCount(duration, length, step, k);
    ScaleMonotone(0.0, k as real, step);
  }

  /** A later window starts strictly later. */
  lemma WindowsOrdered(length: real, step: real, a: nat, b: nat)
    requires step > 0.0 && a < b
    ensures WindowAt(length, step, a).start < WindowAt(length, step, b).start
  {
    ScaleMonotone(b as real, a as real, step);
  }

  /** Each step moves the window start on by `step`. */
  lemma NextWindowStart(length: real, step: real, i: nat)
    ensures WindowAt(length, step, i + 1).start == WindowAt(length, step, i).start + step
  {
    assert (i + 1) as real * step == i as real * step + 1.0 * step;
  }
}
