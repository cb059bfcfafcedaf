/** The figures the two dashboards derive from a list of results: totals,
    rounded mean, highest score, pass and top-performer counts. */
module Aggregates {
  import opened Seqs
  import opened Records

  /** `results.reduce((sum, r) => sum + r.score, 0)`: the sum of the scores. */
  function TotalScore(results: seq<ResultEntry>): (t: int)
    ensures results == [] ==> t == 0
    ensures |results| == 1 ==> t == results[0].score
  {
    if results == [] then 0 else TotalScore(results[..|results| - 1]) + results[|results| - 1].score
  }

  /** The total is the same when taken from the front, as `reduce` folds. */
  lemma {:induction false} TotalScoreFromFront(results: seq<ResultEntry>)
    requires results != []
    ensures TotalScore(results) == results[0].score + TotalScore(results[1..])
  {
    var n := |results| - 1;
    if n > 0 {
      TotalScoreFromFront(results[..n]);
      assert results[..n][1..] == results[1..][..n - 1];
    }
  }

  /** Every score lies in `lo..hi`. */
  predicate ScoresWithin(results: seq<ResultEntry>, lo: int, hi: int) {
    forall e :: e in results ==> lo <= e.score <= hi
  }

  /** A total of `n` scores in `lo..hi` lies in `n*lo..n*hi`. */
  lemma {:induction false} TotalWithin(results: seq<ResultEntry>, lo: int, hi: int)
    requires ScoresWithin(results, lo, hi)
    ensures |results| * lo <= TotalScore(results) <= |results| * hi
  {
    if results != [] {
      var n := |results| - 1;
      var init, last := results[..n], results[n];
      assert ScoresWithin(init, lo, hi) by {
        forall e | e in init ensures lo <= e.score <= hi {
          var k :| 0 <= k < n && init[k] == e;
          assert results[k] in results;
        }
      }
      TotalWithin(init, lo, hi);
      assert last in results;
      assert TotalScore(results) == TotalScore(init) + last.score;
      MultiplySucc(n, lo);
      MultiplySucc(n, hi);
    }
  }

  lemma MultiplySucc(n: nat, x: int)
    ensures (n + 1) * x == n * x + x
  {
  }

  /** `Math.round(total / n)` for `n > 0`, exactly: the integer nearest to
      `total / n`, a half rounding up (towards +infinity). */
  function RoundedMean(total: int, n: nat): (m: int)
    requires n > 0
    ensures 2 * n * m <= 2 * total + n < 2 * n * m + 2 * n
  {
    (2 * total + n) / (2 * n)
  }

  /** A mean of a total between `n*lo` and `n*hi` rounds to a value between `lo` and `hi`. */
  lemma RoundedMeanWithin(total: int, n: nat, lo: int, hi: int)
    requires n > 0 && n * lo <= total <= n * hi
    ensures lo <= RoundedMean(total, n) <= hi
  {
    var m := RoundedMean(total, n);
    var k := 2 * n;
    assert k * lo <= 2 * total && 2 * total <= k * hi by {
      assert k * lo == 2 * (n * lo) && k * hi == 2 * (n * hi);
    }
    assert k * m + k == k * (m + 1) && k * hi + k == k * (hi + 1);
    MultiplyCancel(k, lo, m + 1);
    MultiplyCancel(k, m, hi + 1);
  }

  /** A positive factor can be cancelled from a strict inequality. */
  lemma MultiplyCancel(k: nat, a: int, b: int)
    requires k > 0 && k * a < k * b
    ensures a < b
  {
  }

  /** The average shown on the dashboards and the student cards: 0 for no
      results, otherwise the total divided by the count, rounded half up. */
  function AverageScore(results: seq<ResultEntry>): (a: int)
    ensures results == [] ==> a == 0
    ensures results != [] ==> a == RoundedMean(TotalScore(results), |results|)
    ensures results != [] ==> 2 * |results| * a <= 2 * TotalScore(results) + |results| < 2 * |results| * a + 2 * |results|
  {
    if |results| > 0 then RoundedMean(TotalScore(results), |results|) else 0
  }

  /** Scores all in `lo..hi` give an average in `lo..hi`. */
  lemma AverageWithin(results: seq<ResultEntry>, lo: int, hi: int)
    requires |results| > 0 && ScoresWithin(results, lo, hi)
    ensures lo <= AverageScore(results) <= hi
  {
    TotalWithin(results, lo, hi);
    RoundedMeanWithin(TotalScore(results), |results|, lo, hi);
  }

  /** `Math.max(...results.map(r => r.score))` for a non-empty list. */
  function MaxScoreOf(results: seq<ResultEntry>): (m: int)
    requires |results| > 0
    ensures forall e :: e in results ==> e.score <= m
    ensures exists e :: e in results && e.score == m
  {
    if |results| == 1 then results[0].score
    else
      var rest := MaxScoreOf(results[1..]);
      assert forall e :: e in results ==> e == results[0] || e in results[1..];
      if results[0].score < rest then rest else results[0].score
  }

  /** The smallest score of a non-empty list (used only to state bounds). */
  ghost function MinScoreOf(results: seq<ResultEntry>): (m: int)
    requires |results| > 0
    ensures forall e :: e in results ==> m <= e.score
    ensures exists e :: e in results && e.score == m
  {
    if |results| == 1 then results[0].score
    else
      var rest := MinScoreOf(results[1..]);
      assert forall e :: e in results ==> e == results[0] || e in results[1..];
      if rest < results[0].score then rest else results[0].score
  }

  /** `highestScore`: 0 for no results, otherwise the largest score. */
  function HighestScore(results: seq<ResultEntry>): (h: int)
    ensures results == [] ==> h == 0
    ensures results != [] ==> (forall e :: e in results ==> e.score <= h) &&
                              exists e :: e in results && e.score == h
  {
    if |results| > 0 then MaxScoreOf(results) else 0
  }

  /** A non-empty list's average lies between its lowest and its highest score. */
  lemma AverageBetweenExtremes(results: seq<ResultEntry>)
    requires |results| > 0
    ensures MinScoreOf(results) <= AverageScore(results) <= HighestScore(results)
  {
    AverageWithin(results, MinScoreOf(results), MaxScoreOf(results));
  }

  /** `results.filter(r => r.score >= threshold).length`: the number of
      positions holding a score of at least `threshold`. */
  function CountAtLeast(results: seq<ResultEntry>, threshold: int): (k: nat)
    ensures k == |set i | 0 <= i < |results| && results[i].score >= threshold|
    ensures k <= |results|
    ensures (forall e :: e in results ==> e.score < threshold) ==> k == 0
    ensures k == |results| <==> forall e :: e in results ==> e.score >= threshold
  {
    var atLeast := (e: ResultEntry) => e.score >= threshold;
    FilterFull(atLeast, results);
    PassingCount(atLeast, results, threshold);
    |Filter(atLeast, results)|
  }

  lemma PassingCount(atLeast: ResultEntry -> bool, results: seq<ResultEntry>, threshold: int)
    requires forall e :: atLeast(e) == (e.score >= threshold)
    ensures |Filter(atLeast, results)| == |set i | 0 <= i < |results| && results[i].score >= threshold|
  {
    var passing := Passing(atLeast, results);
    var high := set i | 0 <= i < |results| && results[i].score >= threshold;
    FilterCount(atLeast, results);
    assert passing == high by {
      forall i | i in passing ensures i in high {
        assert atLeast(results[i]);
      }
      forall i | i in high ensures i in passing {
        assert atLeast(results[i]);
      }
    }
  }
}
