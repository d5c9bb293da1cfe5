/**
 * The snippet-annotation filter that keeps an entity when it was found in a large enough
 * fraction of the search results.
 */
module FrequencyFilter {
  import opened Annotations

  /**
   * `size / resCount >= threshold` in Java `double` arithmetic, for a finite threshold.
   * Dividing by zero gives positive infinity when `size > 0`, which passes every threshold,
   * and NaN when `size == 0`, which passes none.
   */
  function Kept(size: nat, resCount: real, threshold: real): (b: bool)
    ensures resCount == 0.0 ==> (b <==> size > 0)
    ensures resCount != 0.0 && size == 0 ==> (b <==> threshold <= 0.0)
  {
    if resCount == 0.0 then size > 0 else (size as real) / resCount >= threshold
  }

  /** The entities of `tagToRanks` whose share of the results reaches the threshold. */
  function Filtered(tagToRanks: map<Tag, seq<int>>, resCount: real, threshold: real): (r: set<Tag>)
    ensures r <= tagToRanks.Keys
    ensures forall t :: t in r <==> t in tagToRanks && Kept(|tagToRanks[t]|, resCount, threshold)
  {
    set t | t in tagToRanks && Kept(|tagToRanks[t]|, resCount, threshold)
  }

  /** Raising the threshold never adds an entity. */
  lemma FilteredMonotone(tagToRanks: map<Tag, seq<int>>, resCount: real, low: real, high: real)
    requires low <= high
    ensures Filtered(tagToRanks, resCount, high) <= Filtered(tagToRanks, resCount, low)
  {
    forall t | t in Filtered(tagToRanks, resCount, high)
      ensures t in Filtered(tagToRanks, resCount, low)
    {
    }
  }

  /** With a positive result count, a threshold of at most 0 keeps every entity. */
  lemma NonPositiveThresholdKeepsAll(tagToRanks: map<Tag, seq<int>>, resCount: real, threshold: real)
    requires resCount > 0.0 && threshold <= 0.0
    ensures Filtered(tagToRanks, resCount, threshold) == tagToRanks.Keys
  {
    forall t | t in tagToRanks
      ensures Kept(|tagToRanks[t]|, resCount, threshold)
    {
      var size := |tagToRanks[t]| as real;
      assert size / resCount >= 0.0 by {
        assert size >= 0.0;
      }
    }
  }

  /** With a positive result count, the ratio test compares the entity's count with `threshold * resCount`. */
  lemma KeptIffEnoughResults(size: nat, resCount: real, threshold: real)
    requires resCount > 0.0
    ensures Kept(size, resCount, threshold) <==> size as real >= threshold * resCount
  {
    var q := (size as real) / resCount;
    assert q * resCount == size as real;
    if q >= threshold {
      assert q * resCount >= threshold * resCount;
    } else {
      assert q * resCount < threshold * resCount;
    }
  }

  /** `FrequencyAnnotationFilter`: the filter with its threshold ratio. */
  class FrequencyAnnotationFilter {
    const threshold: real

    constructor (threshold: real)
      ensures this.threshold == threshold
    {
      this.threshold := threshold;
    }

    /** `filterAnnotations`: each entity of `tagToRanks` is examined once and kept when it passes the ratio. */
    method FilterAnnotations(tagToRanks: map<Tag, seq<int>>, resCount: real) returns (filteredTags: set<Tag>)
      ensures filteredTags == Filtered(tagToRanks, resCount, threshold)
    {
      filteredTags := {};
      var rest := tagToRanks.Keys;
      while rest != {}
        invariant rest <= tagToRanks.Keys
        invariant filteredTags == Filtered(tagToRanks, resCount, threshold) - rest
        decreases |rest|
      {
        var t :| t in rest;
        if Kept(|tagToRanks[t]|, resCount, threshold) {
          filteredTags := filteredTags + {t};
        }
        rest := rest - {t};
      }
    }
  }
}
