/** The maximum scan behind `getCategoryLabel`: `std::max_element`. */
module Argmax {
  import opened Inference

  /** `k` is a position of a maximal score and no earlier position holds
      that score: the index `std::max_element` reports. */
  predicate IsFirstMax(s: seq<Score>, k: int) {
    && 0 <= k < |s|
    && (forall j | 0 <= j < |s| :: s[j] <= s[k])
    && (forall j | 0 <= j < k :: s[j] < s[k])
  }

  /** The left-to-right scan of `std::max_element`, returned as the distance
      from the start of the range: the candidate moves only when a later
      score is strictly larger. On an empty range the result is the end
      iterator, whose distance is 0. */
  function MaxElement(s: seq<Score>): (k: nat)
    ensures |s| == 0 ==> k == 0
    ensures |s| > 0 ==> IsFirstMax(s, k)
  {
    if |s| <= 1 then 0
    else
      var k := MaxElement(s[..|s| - 1]);
      if s[k] < s[|s| - 1] then |s| - 1 else k
  }

  /** The first maximum is unique, so `MaxElement` is exactly the position
      characterised by `IsFirstMax`. */
  lemma FirstMaxUnique(s: seq<Score>, k: int)
    ensures IsFirstMax(s, k) <==> |s| > 0 && k == MaxElement(s)
  {
  }
}
