/** The search for the speaker count (auto_cluster_speakers in
    diarize_nemo.py). Spectral clustering into k groups followed by the
    silhouette score is the function `cluster`: for the embeddings and a
    count k it yields the labels and their score, or None when the
    library raises. The fixed random seed makes it a function. */
module Clusterer {
  import opened Wrappers
  import opened Embeddings

  datatype Trial = Trial(labels: seq<int>, score: real)

  /** The winning labels with the score and count they were found for. */
  datatype Choice = Choice(labels: seq<int>, score: real, k: nat)

  datatype ClusterError =
    | TooFewEmbeddings   // ValueError: fewer than two embeddings
    | AllCountsFailed    // RuntimeError: no candidate count produced a winner

  /** The max_speakers default of auto_cluster_speakers; diarize_and_tag
      passes its own default of 6. */
  const DefaultMaxSpeakers: int := 10

  /** The score a candidate has to beat. */
  const InitialBestScore: real := -1.0

  /** The last candidate count: range(2, min(max_speakers + 1, n + 1)). */
  function LastCandidate(n: nat, maxSpeakers: int): int {
    if maxSpeakers < n then maxSpeakers else n
  }

  /** Candidate count k clustered and scored above the initial best. */
  predicate Qualifies(cluster: (seq<Vector>, nat) -> Option<Trial>, e: seq<Vector>, k: nat) {
    cluster(e, k).Some? && cluster(e, k).value.score > InitialBestScore
  }

  /** k is the candidate in 2..hi with the highest score, the smallest
      such k when several tie. */
  predicate IsFirstBest(cluster: (seq<Vector>, nat) -> Option<Trial>, e: seq<Vector>, hi: int, k: nat) {
    && 2 <= k <= hi
    && Qualifies(cluster, e, k)
    && (forall j: nat :: 2 <= j <= hi && cluster(e, j).Some? ==> cluster(e, j).value.score <= cluster(e, k).value.score)
    && (forall j: nat :: 2 <= j < k && cluster(e, j).Some? ==> cluster(e, j).value.score < cluster(e, k).value.score)
  }

  /** At most one candidate is the first best. */
  lemma FirstBestUnique(cluster: (seq<Vector>, nat) -> Option<Trial>, e: seq<Vector>, hi: int, k1: nat, k2: nat)
    requires IsFirstBest(cluster, e, hi, k1) && IsFirstBest(cluster, e, hi, k2)
    ensures k1 == k2
  {
  }

  method AutoClusterSpeakers(embeddings: seq<Vector>, maxSpeakers: int, cluster: (seq<Vector>, nat) -> Option<Trial>)
    returns (r: Result<Choice, ClusterError>)
    ensures r == Failure(TooFewEmbeddings) <==> |embeddings| < 2
    ensures r == Failure(AllCountsFailed) <==>
              |embeddings| >= 2
              && forall k: nat :: 2 <= k <= LastCandidate(|embeddings|, maxSpeakers) ==> !Qualifies(cluster, embeddings, k)
    ensures r.Success? ==>
              && IsFirstBest(cluster, embeddings, LastCandidate(|embeddings|, maxSpeakers), r.value.k)
              && r.value.labels == cluster(embeddings, r.value.k).value.labels
              && r.value.score == cluster(embeddings, r.value.k).value.score
  {
    if |embeddings| < 2 {
      return Failure(TooFewEmbeddings);
    }
    var bestLabels: Option<seq<int>> := None;
    var bestScore := InitialBestScore;
    var bestK: nat := 2;
    var hi := LastCandidate(|embeddings|, maxSpeakers);
    var k: nat := 2;
    while k <= hi
      invariant 2 <= k <= if hi >= 2 then hi + 1 else 2
      invariant bestLabels.None? ==>
                  && bestScore == InitialBestScore
                  && forall j: nat :: 2 <= j < k ==> !Qualifies(cluster, embeddings, j)
      invariant bestLabels.Some? ==>
                  && IsFirstBest(cluster, embeddings, k - 1, bestK)
                  && bestLabels.value == cluster(embeddings, bestK).value.labels
                  && bestScore == cluster(embeddings, bestK).value.score
      decreases hi - k
    {
      ghost var previous := bestScore;
      var outcome := cluster(embeddings, k);
      match outcome {
        case None =>
          // the library raised for this k: skip it
        case Some(trial) =>
          if trial.score > bestScore {
            bestLabels := Some(trial.labels);
            bestScore := trial.score;
            bestK := k;
          }
      }
      assert bestLabels.Some? ==> IsFirstBest(cluster, embeddings, k, bestK) by {
        if bestLabels.Some? {
          forall j: nat | 2 <= j < k && cluster(embeddings, j).Some?
            ensures cluster(embeddings, j).value.score <= previous
          {
            if !Qualifies(cluster, embeddings, j) {
              assert cluster(embeddings, j).value.score <= InitialBestScore;
            }
          }
        }
      }
      k := k + 1;
    }
    if bestLabels.None? {
      return Failure(AllCountsFailed);
    }
    assert Qualifies(cluster, embeddings, bestK) && bestK <= hi;
    return Success(Choice(bestLabels.value, bestScore, bestK));
  }
}
