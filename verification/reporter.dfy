/** The two reporters of the sample: `printTopLabels` (the best `topN`
    categories with their scores) and `getCategoryLabel` (the label of the
    best score), with the label list passed in instead of re-read from
    `data/class_labels.txt` on each call. Console output becomes the
    returned value; `exit(1)` becomes a `Failure`. */
module Reporter {
  import opened Wrappers
  import opened Inference
  import opened Argmax
  import opened Ranking

  /** Why a reporter stops the program with exit status 1. */
  datatype ReportError =
    | SizeMismatch  // the score and label vectors differ in length
    | NoScores      // there is no score to take the maximum of

  /** One line of the top-N listing: a category and its score. */
  datatype Entry = Entry(category: string, score: Score)

  /** What `main` prints after inference: the top-N listing and the best
      category. */
  datatype Summary = Summary(top: seq<Entry>, best: string)

  /** The smaller of `a` and `b`. */
  function Min(a: int, b: int): (r: int)
    ensures r <= a && r <= b
    ensures r == a || r == b
  {
    if a < b then a else b
  }

  /** `top` lists, in order, the categories and scores read along some
      ranking of the scores (a prefix of it). */
  ghost predicate ListedAlongRanking(scores: seq<Score>, labels: seq<string>, top: seq<Entry>) {
    && |labels| == |scores|
    && |top| <= |scores|
    && exists idx :: IsRanking(scores, idx) &&
         forall i | 0 <= i < |top| :: top[i] == Entry(labels[idx[i]], scores[idx[i]])
  }

  /** `best` is the label of the first maximal score. */
  ghost predicate IsBestCategory(scores: seq<Score>, labels: seq<string>, best: string) {
    && |labels| == |scores|
    && exists k :: IsFirstMax(scores, k) && best == labels[k]
  }

  /** `printTopLabels`: stops on a length mismatch before any indexing;
      otherwise lists categories along the sorted index vector for as long
      as `i < topN && i < indices.size()`. */
  function TopLabels(scores: seq<Score>, labels: seq<string>, topN: int := DefaultTopN): (r: Result<seq<Entry>, ReportError>)
    ensures r.Failure? <==> |scores| != |labels|
    ensures r.Failure? ==> r.error == SizeMismatch
    ensures r.Success? ==> |r.value| == (if topN <= 0 then 0 else Min(topN, |scores|))
    ensures r.Success? ==> forall i, j | 0 <= i < j < |r.value| :: r.value[i].score >= r.value[j].score
    ensures r.Success? ==> ListedAlongRanking(scores, labels, r.value)
  {
    if |scores| != |labels| then Failure(SizeMismatch)
    else
      var indices := RankIndices(scores);
      var count := if topN <= 0 then 0 else Min(topN, |indices|);
      Success(seq(count, i requires 0 <= i < count => Entry(labels[indices[i]], scores[indices[i]])))
  }

  /** However `std::sort` orders equal scores, the listed scores are those
      read along any ranking: ties can only swap labels, never scores. */
  lemma ListedScoresIndependentOfTies(scores: seq<Score>, labels: seq<string>, topN: int, idx: seq<nat>)
    requires |scores| == |labels| && IsRanking(scores, idx)
    ensures TopLabels(scores, labels, topN).Success?
    ensures var top := TopLabels(scores, labels, topN).value;
      forall i | 0 <= i < |top| :: top[i].score == scores[idx[i]]
  {
    RankingScoresUnique(scores, RankIndices(scores), idx);
  }

  /** `getCategoryLabel` as written: after the length check, the index of
      the first maximal score, which is then used to index the labels. */
  function LabelIndexAsWritten(scores: seq<Score>, labels: seq<string>): (r: Result<nat, ReportError>)
    ensures r.Failure? <==> |scores| != |labels|
    ensures r.Success? && |scores| > 0 ==> r.value < |labels| && IsFirstMax(scores, r.value)
  {
    if |scores| != |labels| then Failure(SizeMismatch)
    else Success(MaxElement(scores))
  }

  /** An empty score vector with an empty label file passes the length
      check, and the index then used is not a position of the labels. */
  lemma EmptyInputsIndexPastEnd(scores: seq<Score>, labels: seq<string>)
    requires |scores| == 0 && |labels| == 0
    ensures LabelIndexAsWritten(scores, labels).Success?
    ensures LabelIndexAsWritten(scores, labels).value >= |labels|
  {
  }

  /** `getCategoryLabel` with the empty case closed: the label of the first
      maximal score. */
  function CategoryLabel(scores: seq<Score>, labels: seq<string>): (r: Result<string, ReportError>)
    ensures r.Failure? <==> |scores| != |labels| || |scores| == 0
    ensures r.Failure? ==> r.error == (if |scores| != |labels| then SizeMismatch else NoScores)
    ensures r.Success? ==> IsBestCategory(scores, labels, r.value)
  {
    if |scores| != |labels| then Failure(SizeMismatch)
    else if |scores| == 0 then Failure(NoScores)
    else Success(labels[MaxElement(scores)])
  }

  /** Lines 233-234 of `main`: the listing, then the best category. The
      first failure ends the program: `printTopLabels` stops exactly on a
      length mismatch, and after it `getCategoryLabel` only on an empty
      vector, so both checks are made before either value is built. */
  function Report(scores: seq<Score>, labels: seq<string>, topN: int): (r: Result<Summary, ReportError>)
    ensures r.Failure? <==> |scores| != |labels| || |scores| == 0
    ensures r.Failure? ==> r.error == (if |scores| != |labels| then SizeMismatch else NoScores)
    ensures r.Success? ==> |r.value.top| == (if topN <= 0 then 0 else Min(topN, |scores|))
    ensures r.Success? ==> ListedAlongRanking(scores, labels, r.value.top)
    ensures r.Success? ==> IsBestCategory(scores, labels, r.value.best)
  {
    if |scores| != |labels| then Failure(SizeMismatch)  // printTopLabels stops first
    else if |scores| == 0 then Failure(NoScores)        // then getCategoryLabel
    else Success(Summary(TopLabels(scores, labels, topN).value, CategoryLabel(scores, labels).value))
  }

  /** The head of the listing has the best score, and when that score is
      attained by one category only, the listing starts with the reported
      best category. */
  lemma ListingAgreesWithBest(scores: seq<Score>, labels: seq<string>, topN: int)
    requires Report(scores, labels, topN).Success? && topN > 0
    ensures var s := Report(scores, labels, topN).value;
      && |s.top| > 0
      && s.top[0].score == scores[MaxElement(scores)]
      && s.best == labels[MaxElement(scores)]
      && ((forall k | 0 <= k < |scores| && k != MaxElement(scores) :: scores[k] < scores[MaxElement(scores)])
          ==> s.top[0] == Entry(s.best, scores[MaxElement(scores)]))
  {
    var m := MaxElement(scores);
    var idx := RankIndices(scores);
    RankingHeadIsMax(scores, idx);
    FirstMaxUnique(scores, m);
    var best := CategoryLabel(scores, labels).value;
    var k :| IsFirstMax(scores, k) && best == labels[k];
    FirstMaxUnique(scores, k);
  }

  /** `main` reports on the 1000 scores copied back from the device: with a
      label file of 1000 lines both reporters succeed and ten categories are
      listed; with any other number of labels the program stops with a size
      mismatch. */
  lemma MainReport(scores: seq<Score>, labels: seq<string>)
    requires |scores| == NumLabels
    ensures Report(scores, labels, MainTopN).Success? <==> |labels| == NumLabels
    ensures |labels| == NumLabels ==> |Report(scores, labels, MainTopN).value.top| == 10
    ensures |labels| != NumLabels ==> Report(scores, labels, MainTopN) == Failure(SizeMismatch)
  {
  }

  /** Called without `topN`, the listing has `NUM_RUNS` = 5 entries once
      there are at least five categories. */
  lemma DefaultListing(scores: seq<Score>, labels: seq<string>)
    requires |scores| == |labels| >= 5
    ensures TopLabels(scores, labels).Success? && |TopLabels(scores, labels).value| == 5
  {
  }

  /** A worked case: three categories, the two best listed. */
  lemma ThreeCategoryExample()
    ensures Report([0.2, 0.9, 0.5], ["cat", "dog", "bird"], 2)
         == Success(Summary([Entry("dog", 0.9), Entry("bird", 0.5)], "dog"))
  {
    var s: seq<Score> := [0.2, 0.9, 0.5];
    var idx := RankIndices(s);
    RankingIsPermutation(s, idx);
    RankingHeadIsMax(s, idx);
    assert s[idx[0]] >= s[1];
    assert idx[0] == 1;
    assert idx[1] != idx[0] && idx[2] != idx[0] && idx[2] != idx[1];
    assert s[idx[1]] >= s[idx[2]];
    assert idx[1] == 2;
    var labels := ["cat", "dog", "bird"];
    var top := TopLabels(s, labels, 2).value;
    assert |top| == 2 && top[0] == Entry("dog", 0.9) && top[1] == Entry("bird", 0.5);
    assert top == [Entry("dog", 0.9), Entry("bird", 0.5)];
    assert MaxElement(s) == 1;
  }
}
