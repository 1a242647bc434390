/** The blend weight between a user's history vector and the query vector
    (src/services/intent.service.js). Cosine similarity is an opaque function
    supplied by the caller; its floating-point behaviour is not modelled. */
module Alpha {
  import opened Intents

  /** `Math.max(0, Math.min(1, similarity))` */
  function Clamp01(x: real): (r: real)
    ensures 0.0 <= r <= 1.0
    ensures 0.0 <= x <= 1.0 ==> r == x
    ensures x < 0.0 ==> r == 0.0
    ensures x > 1.0 ==> r == 1.0
  {
    if x < 0.0 then 0.0 else if x > 1.0 then 1.0 else x
  }

  /** `0.3 + sim * 0.5` applied to the clamped similarity. */
  function AlphaForSimilarity(similarity: real): (alpha: real)
    ensures 0.3 <= alpha <= 0.8
  {
    0.3 + Clamp01(similarity) * 0.5
  }

  /** `computeDynamicAlpha(userVector, queryVector)`: no history means 0,
      otherwise the clamped similarity mapped affinely into [0.3, 0.8]. */
  function ComputeDynamicAlpha(userVector: Option<seq<real>>, queryVector: seq<real>,
                               cosine: (seq<real>, seq<real>) -> real): (alpha: real)
    ensures userVector.None? ==> alpha == 0.0
    ensures userVector.Some? ==> 0.3 <= alpha <= 0.8
    ensures userVector.Some? ==> alpha == 0.3 + 0.5 * Clamp01(cosine(userVector.value, queryVector))
  {
    if userVector.None? then 0.0 else AlphaForSimilarity(cosine(userVector.value, queryVector))
  }

  /** A higher similarity never gives a lower weight. */
  lemma AlphaMonotone(s1: real, s2: real)
    requires s1 <= s2
    ensures AlphaForSimilarity(s1) <= AlphaForSimilarity(s2)
  {
  }

  /** The weight saturates at both ends of the similarity range. */
  lemma AlphaSaturates(s: real)
    ensures s <= 0.0 ==> AlphaForSimilarity(s) == 0.3
    ensures s >= 1.0 ==> AlphaForSimilarity(s) == 0.8
  {
  }
}
