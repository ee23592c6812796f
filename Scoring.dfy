/**
 * What both evaluators and the aggregator share: the evaluation record, the
 * status tiers, the threshold tables of the two variants and the
 * half-up rounding of `Math.round`.
 */
module Scoring {

  datatype Status = Yes | Partially | No

  /** The record `evaluateRequirement` returns. */
  datatype Evaluation = Evaluation(requirement: string, status: Status, score: int, evidence: string)

  /**
   * One variant's constants: the status cuts (`Yes` from `yesFrom`,
   * `Partially` from `partialFrom`), the overall classification cuts (Strong
   * above `strongAbove`, Moderate from `moderateFrom`) and the score a cover
   * letter needs to exceed.
   */
  datatype Thresholds = Thresholds(yesFrom: int, partialFrom: int, strongAbove: int, moderateFrom: int, coverLetterAbove: int)
  {
    /** The tiers are ordered, so each table partitions the scores. */
    predicate Valid() {
      partialFrom <= yesFrom && moderateFrom <= strongAbove + 1
    }
  }

  /** The weighted, synonym-aware variant (app/app.js). */
  const WeightedCuts := Thresholds(60, 30, 70, 40, 70)

  /** The plain-overlap variant (app.js). */
  const PlainCuts := Thresholds(80, 30, 80, 50, 80)

  function StatusRank(s: Status): nat {
    match s
    case No => 0
    case Partially => 1
    case Yes => 2
  }

  /** The status tier of a requirement score. */
  function StatusFor(score: int, th: Thresholds): (r: Status)
    requires th.Valid()
    ensures r == Yes <==> score >= th.yesFrom
    ensures r == Partially <==> th.partialFrom <= score < th.yesFrom
    ensures r == No <==> score < th.partialFrom
  {
    if score >= th.yesFrom then Yes
    else if score >= th.partialFrom then Partially
    else No
  }

  /** A higher score never gets a lower tier. */
  lemma StatusMonotone(s: int, s': int, th: Thresholds)
    requires th.Valid() && s <= s'
    ensures StatusRank(StatusFor(s, th)) <= StatusRank(StatusFor(s', th))
  {
  }

  /** `r` is the integer nearest to `100 * m / w`, halves rounded up. */
  predicate IsRoundedPercent(r: int, m: nat, w: nat) {
    2 * w * r <= 200 * m + w < 2 * w * (r + 1)
  }

  /**
   * `Math.round(100 * m / w)` computed exactly: the result is the integer
   * nearest to `100 * m / w`, halves rounded up.
   */
  function RoundedPercent(m: nat, w: nat): (r: int)
    requires w > 0
    ensures IsRoundedPercent(r, m, w)
    ensures r >= 0
  {
    (200 * m + w) / (2 * w)
  }

  /** A ratio of at most one rounds to a percentage in [0, 100]. */
  lemma RoundedPercentBounds(m: nat, w: nat)
    requires 0 < w && m <= w
    ensures 0 <= RoundedPercent(m, w) <= 100
  {
    var r := RoundedPercent(m, w);
    if r > 100 {
      MulMonotone(2 * w, 101, r);
    }
  }

  /** Rounding keeps the order of the numerators. */
  lemma RoundedPercentMonotone(m: nat, m': nat, w: nat)
    requires 0 < w && m <= m'
    ensures RoundedPercent(m, w) <= RoundedPercent(m', w)
  {
    var r, r' := RoundedPercent(m, w), RoundedPercent(m', w);
    if r > r' {
      MulMonotone(2 * w, r' + 1, r);
    }
  }

  /** A larger numerator never lowers the clamped percentage or its status. */
  lemma ClampedPercentMonotone(m: nat, m': nat, w: nat, th: Thresholds)
    requires 0 < w && m <= m' && th.Valid()
    ensures Clamp(RoundedPercent(m, w)) <= Clamp(RoundedPercent(m', w))
    ensures StatusRank(StatusFor(Clamp(RoundedPercent(m, w)), th)) <= StatusRank(StatusFor(Clamp(RoundedPercent(m', w)), th))
  {
    RoundedPercentMonotone(m, m', w);
    StatusMonotone(Clamp(RoundedPercent(m, w)), Clamp(RoundedPercent(m', w)), th);
  }

  /** No match rounds to 0 and a full match to 100. */
  lemma RoundedPercentEnds(w: nat)
    requires w > 0
    ensures RoundedPercent(0, w) == 0 && RoundedPercent(w, w) == 100
  {
    var z, f := RoundedPercent(0, w), RoundedPercent(w, w);
    if z > 0 {
      MulMonotone(2 * w, 1, z);
    }
    if f > 100 {
      MulMonotone(2 * w, 101, f);
    }
    if f < 100 {
      MulMonotone(2 * w, f + 1, 100);
    }
  }

  lemma MulMonotone(c: nat, a: int, b: int)
    requires a <= b
    ensures c * a <= c * b
  {
  }

  /** `Math.round(sum / n)` computed exactly, halves rounded up. */
  function RoundedMean(sum: int, n: nat): (r: int)
    requires n > 0
    ensures 2 * n * r <= 2 * sum + n < 2 * n * (r + 1)
  {
    (2 * sum + n) / (2 * n)
  }

  /** The mean of scores in [0, 100] rounds to a score in [0, 100]. */
  lemma RoundedMeanBounds(sum: int, n: nat)
    requires n > 0 && 0 <= sum <= 100 * n
    ensures 0 <= RoundedMean(sum, n) <= 100
  {
    var r := RoundedMean(sum, n);
    if r > 100 {
      MulMonotone(2 * n, 101, r);
    }
    if r < 0 {
      MulMonotone(2 * n, r + 1, 0);
    }
  }

  /** The `if (score < 0) ... if (score > 100) ...` clamp. */
  function Clamp(score: int): (r: int)
    ensures 0 <= r <= 100
    ensures 0 <= score <= 100 ==> r == score
    ensures score < 0 ==> r == 0
    ensures score > 100 ==> r == 100
  {
    if score < 0 then 0 else if score > 100 then 100 else score
  }

  /** The clamp as the evaluators write it: two `if`s. */
  method ClampScore(raw: int) returns (score: int)
    ensures score == Clamp(raw)
  {
    score := raw;
    if score < 0 {
      score := 0;
    }
    if score > 100 {
      score := 100;
    }
  }

  /** The evaluators' `if … else if … else` that picks the status. */
  method Tier(score: int, th: Thresholds) returns (status: Status)
    requires th.Valid()
    ensures status == StatusFor(score, th)
  {
    if score >= th.yesFrom {
      status := Yes;
    } else if score >= th.partialFrom {
      status := Partially;
    } else {
      status := No;
    }
  }
}
