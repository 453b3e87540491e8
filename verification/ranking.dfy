/** The index ranking behind `printTopLabels`: the positions `0..n-1`
    (`std::iota`) reordered by descending score (`std::sort` with the
    comparator `scores[a] > scores[b]`). `std::sort` is not stable, so the
    order among equal scores is left open: a ranking is ANY permutation of
    `0..n-1` along which the scores do not increase. */
module Ranking {
  import opened Inference

  /** `0, 1, ..., n-1`: the vector filled by `std::iota`. */
  function Range(n: nat): (r: seq<nat>)
    ensures |r| == n
    ensures forall i | 0 <= i < n :: r[i] == i
  {
    seq(n, i => i)
  }

  /** Every entry of `idx` is a valid position of a vector of length `n`. */
  predicate InRange(idx: seq<nat>, n: nat) {
    forall i | 0 <= i < |idx| :: idx[i] < n
  }

  /** The scores read along `idx` never increase. */
  predicate Descending(s: seq<Score>, idx: seq<nat>)
    requires InRange(idx, |s|)
  {
    forall i, j | 0 <= i < j < |idx| :: s[idx[i]] >= s[idx[j]]
  }

  /** `idx` is what `std::sort` may leave in the index vector: a permutation
      of `0..|s|-1` whose scores are non-increasing. */
  predicate IsRanking(s: seq<Score>, idx: seq<nat>) {
    && |idx| == |s|
    && InRange(idx, |s|)
    && multiset(idx) == multiset(Range(|s|))
    && Descending(s, idx)
  }

  /** The score at `h` is at least every score read along `idx`. */
  predicate Dominates(s: seq<Score>, h: nat, idx: seq<nat>)
    requires h < |s| && InRange(idx, |s|)
  {
    forall i | 0 <= i < |idx| :: s[idx[i]] <= s[h]
  }

  /** A dominating position may be put in front of a descending sequence. */
  lemma ConsDescending(s: seq<Score>, h: nat, idx: seq<nat>)
    requires h < |s| && InRange(idx, |s|) && Descending(s, idx) && Dominates(s, h, idx)
    ensures InRange([h] + idx, |s|) && Descending(s, [h] + idx)
  {
    var r := [h] + idx;
    forall i, j | 0 <= i < j < |r|
      ensures s[r[i]] >= s[r[j]]
    {
      if i > 0 {
        assert r[i] == idx[i - 1] && r[j] == idx[j - 1];
      } else {
        assert r[j] == idx[j - 1];
      }
    }
  }

  /** Puts position `k` into the descending sequence `idx`, in front of the
      first position whose score does not exceed that of `k`. */
  function Insert(s: seq<Score>, k: nat, idx: seq<nat>): (r: seq<nat>)
    requires k < |s| && InRange(idx, |s|) && Descending(s, idx)
    ensures InRange(r, |s|) && Descending(s, r)
    ensures multiset(r) == multiset(idx) + multiset{k}
    ensures forall i | 0 <= i < |r| :: r[i] == k || r[i] in idx
  {
    if |idx| == 0 then [k]
    else if s[k] >= s[idx[0]] then
      ConsDescending(s, k, idx);
      [k] + idx
    else
      var rest := Insert(s, k, idx[1..]);
      assert idx == [idx[0]] + idx[1..];
      InsertedDominated(s, k, idx, rest);
      ConsDescending(s, idx[0], rest);
      [idx[0]] + rest
  }

  /** The head of `idx` dominates what inserting a lower-scored `k` into the
      rest of `idx` gives. */
  lemma InsertedDominated(s: seq<Score>, k: nat, idx: seq<nat>, rest: seq<nat>)
    requires k < |s| && InRange(idx, |s|) && Descending(s, idx) && |idx| > 0
    requires s[k] < s[idx[0]] && InRange(rest, |s|)
    requires forall i | 0 <= i < |rest| :: rest[i] == k || rest[i] in idx[1..]
    ensures Dominates(s, idx[0], rest)
  {
    forall i | 0 <= i < |rest|
      ensures s[rest[i]] <= s[idx[0]]
    {
      if rest[i] != k {
        var p :| 0 <= p < |idx[1..]| && idx[1..][p] == rest[i];
        assert idx[p + 1] == rest[i];
      }
    }
  }

  /** Insertion sort of the positions in `idx` by descending score. It is one
      way of producing a ranking; nothing below depends on which order it
      gives equal scores. */
  function SortIndices(s: seq<Score>, idx: seq<nat>): (r: seq<nat>)
    requires InRange(idx, |s|)
    ensures |r| == |idx|
    ensures InRange(r, |s|) && Descending(s, r)
    ensures multiset(r) == multiset(idx)
  {
    if |idx| == 0 then []
    else
      assert idx == [idx[0]] + idx[1..];
      var r := Insert(s, idx[0], SortIndices(s, idx[1..]));
      assert |r| == |multiset(r)| == |multiset(idx)|;
      r
  }

  /** The index vector of `printTopLabels` after the sort. */
  function RankIndices(s: seq<Score>): (r: seq<nat>)
    ensures IsRanking(s, r)
  {
    SortIndices(s, Range(|s|))
  }

  /** A ranking lists every class exactly once. */
  lemma RankingIsPermutation(s: seq<Score>, idx: seq<nat>)
    requires IsRanking(s, idx)
    ensures forall k | 0 <= k < |s| :: k in idx
    ensures forall i, j | 0 <= i < j < |idx| :: idx[i] != idx[j]
  {
    forall k | 0 <= k < |s|
      ensures k in idx
    {
      assert Range(|s|)[k] == k;
      assert k in multiset(Range(|s|));
    }
    forall i, j | 0 <= i < j < |idx|
      ensures idx[i] != idx[j]
    {
      if idx[i] == idx[j] {
        RangeOnce(|s|, idx[i]);
        CountsRepeat(idx, i, j);
        assert false;
      }
    }
  }

  /** A value found at two positions occurs at least twice. */
  lemma CountsRepeat(idx: seq<nat>, i: nat, j: nat)
    requires i < j < |idx| && idx[i] == idx[j]
    ensures multiset(idx)[idx[i]] >= 2
  {
    var x := idx[i];
    assert idx == idx[..i] + [x] + idx[i + 1..j] + [x] + idx[j + 1..];
  }

  /** Every value occurs at most once in `Range(n)`. */
  lemma {:induction false} RangeOnce(n: nat, x: nat)
    ensures multiset(Range(n))[x] <= 1
  {
    if n > 0 {
      assert Range(n) == Range(n - 1) + [n - 1];
      RangeOnce(n - 1, x);
      if x == n - 1 {
        assert x !in Range(n - 1);
      }
    }
  }

  /** The first position of a ranking holds a maximal score. */
  lemma RankingHeadIsMax(s: seq<Score>, idx: seq<nat>)
    requires IsRanking(s, idx) && |s| > 0
    ensures forall k | 0 <= k < |s| :: s[k] <= s[idx[0]]
  {
    RankingIsPermutation(s, idx);
    forall k | 0 <= k < |s|
      ensures s[k] <= s[idx[0]]
    {
      assert k in idx;
      var p :| 0 <= p < |idx| && idx[p] == k;
    }
  }

  /** The scores read along `idx`. */
  function Along(s: seq<Score>, idx: seq<nat>): (r: seq<Score>)
    requires InRange(idx, |s|)
    ensures |r| == |idx|
    ensures forall i | 0 <= i < |idx| :: r[i] == s[idx[i]]
  {
    seq(|idx|, i requires 0 <= i < |idx| => s[idx[i]])
  }

  /** `u` without position `p`. */
  function Drop<T>(u: seq<T>, p: nat): (r: seq<T>)
    requires p < |u|
    ensures |r| == |u| - 1
  {
    u[..p] + u[p + 1..]
  }

  /** Dropping position `p` removes one copy of its value. */
  lemma DropOne<T>(u: seq<T>, p: nat)
    requires p < |u|
    ensures multiset(u) == multiset(Drop(u, p)) + multiset{u[p]}
    ensures multiset(Drop(u, p)) == multiset(u) - multiset{u[p]}
  {
    assert u == u[..p] + [u[p]] + u[p + 1..];
  }

  /** Reading along `u` without position `p` is reading along `u` and
      dropping position `p`. */
  lemma AlongDrop(s: seq<Score>, u: seq<nat>, p: nat)
    requires InRange(u, |s|) && p < |u|
    ensures InRange(Drop(u, p), |s|)
    ensures Along(s, Drop(u, p)) == Drop(Along(s, u), p)
  {
  }

  /** Removing one matching value from two sequences with equal multisets
      leaves equal multisets. */
  lemma DropMatching(a: seq<nat>, pa: nat, b: seq<nat>, pb: nat)
    requires pa < |a| && pb < |b| && a[pa] == b[pb]
    requires multiset(a) == multiset(b)
    ensures multiset(Drop(a, pa)) == multiset(Drop(b, pb))
  {
    DropOne(a, pa);
    DropOne(b, pb);
  }

  /** Putting the matching position back on both sides keeps the multisets
      of the scores read equal. */
  lemma AlongRestore(s: seq<Score>, a: seq<nat>, pa: nat, b: seq<nat>, pb: nat)
    requires InRange(a, |s|) && InRange(b, |s|)
    requires pa < |a| && pb < |b| && a[pa] == b[pb]
    requires InRange(Drop(a, pa), |s|) && InRange(Drop(b, pb), |s|)
    requires multiset(Along(s, Drop(a, pa))) == multiset(Along(s, Drop(b, pb)))
    ensures multiset(Along(s, a)) == multiset(Along(s, b))
  {
    AlongDrop(s, a, pa);
    AlongDrop(s, b, pb);
    DropOne(Along(s, a), pa);
    DropOne(Along(s, b), pb);
  }

  /** Reading a vector along two orderings of the same positions yields the
      same scores, as multisets. */
  lemma {:induction false} AlongPermutation(s: seq<Score>, a: seq<nat>, b: seq<nat>)
    requires InRange(a, |s|) && InRange(b, |s|)
    requires multiset(a) == multiset(b)
    ensures multiset(Along(s, a)) == multiset(Along(s, b))
  {
    if |a| == 0 {
      assert |b| == |multiset(b)| == 0;
    } else {
      assert a[0] in multiset(b);
      assert a[0] in b;
      var p :| 0 <= p < |b| && b[p] == a[0];
      DropMatching(a, 0, b, p);
      AlongDrop(s, a, 0);
      AlongDrop(s, b, p);
      AlongPermutation(s, Drop(a, 0), Drop(b, p));
      AlongRestore(s, a, 0, b, p);
    }
  }

  /** `x` is non-increasing. */
  predicate NonIncreasing(x: seq<Score>) {
    forall i, j | 0 <= i < j < |x| :: x[i] >= x[j]
  }

  /** A multiset of scores has only one non-increasing arrangement. */
  lemma {:induction false} SortedUnique(x: seq<Score>, y: seq<Score>)
    requires NonIncreasing(x) && NonIncreasing(y)
    requires multiset(x) == multiset(y)
    ensures x == y
  {
    if |x| == 0 {
      assert |y| == |multiset(y)| == 0;
    } else {
      assert |y| == |multiset(y)| == |multiset(x)| == |x|;
      assert x[0] in multiset(y);
      assert y[0] in multiset(x);
      assert x[0] == y[0];
      assert x == [x[0]] + x[1..];
      assert y == [y[0]] + y[1..];
      assert multiset(x) == multiset{x[0]} + multiset(x[1..]);
      assert multiset(y) == multiset{y[0]} + multiset(y[1..]);
      assert multiset(x[1..]) == multiset(x) - multiset{x[0]};
      assert multiset(y[1..]) == multiset(y) - multiset{y[0]};
      SortedUnique(x[1..], y[1..]);
    }
  }

  /** Whatever order `std::sort` gives equal scores, the scores along the
      sorted index vector are the same: only the labels of tied classes may
      change places. */
  lemma RankingScoresUnique(s: seq<Score>, a: seq<nat>, b: seq<nat>)
    requires IsRanking(s, a) && IsRanking(s, b)
    ensures |a| == |b|
    ensures forall i | 0 <= i < |a| :: s[a[i]] == s[b[i]]
  {
    AlongPermutation(s, a, b);
    SortedUnique(Along(s, a), Along(s, b));
    RankingIsPermutation(s, a);
    RankingIsPermutation(s, b);
  }

  /** Ties really are unordered: with two equal scores both orders are
      rankings. */
  lemma TiesAdmitBothOrders()
    ensures IsRanking([1.0, 1.0], [0, 1]) && IsRanking([1.0, 1.0], [1, 0])
  {
    assert Range(2) == [0, 1];
    assert multiset([1, 0]) == multiset([0, 1]);
  }
}
