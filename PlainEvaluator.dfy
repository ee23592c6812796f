/**
 * The unweighted `evaluateRequirement` of app.js (lines 99-129): the share
 * of the requirement's tokens, duplicates included, found in the résumé's
 * token set.
 */
module PlainEvaluator {
  import opened Wrappers
  import opened Tokens
  import opened Evidence
  import opened Scoring

  /** The résumé set app.js builds: its tokens, not stemmed. */
  function ResumeTokenSet(resume: string): set<string> {
    ToSet(Tokenize(resume))
  }

  /** What `evaluateRequirement` returns. */
  function Evaluate(reqText: string, resumeSet: set<string>, index: seq<Sentence>): (r: Option<Evaluation>)
    ensures r.None? <==> Tokenize(reqText) == []
    ensures r.Some? ==>
      r.value.requirement == reqText && 0 <= r.value.score <= 100 &&
      r.value.status == StatusFor(r.value.score, PlainCuts) &&
      r.value.evidence == EvidenceText(EvidenceSentence(Tokenize(reqText), index))
  {
    var tokens := Tokenize(reqText);
    if tokens == [] then None
    else
      var score := Clamp(RoundedPercent(CountMembers(tokens, resumeSet), |tokens|));
      Some(Evaluation(reqText, StatusFor(score, PlainCuts), score, EvidenceText(EvidenceSentence(tokens, index))))
  }

  /**
   * `evaluateRequirement`: counts the tokens found in the résumé set, rounds
   * the share to a percentage, tiers it and looks up the evidence.
   */
  method EvaluateRequirement(reqText: string, resumeTokenSet: set<string>, sentenceIndex: seq<Sentence>)
    returns (r: Option<Evaluation>)
    ensures r == Evaluate(reqText, resumeTokenSet, sentenceIndex)
  {
    var tokens := Tokenize(reqText);
    if |tokens| == 0 {
      return None;
    }

    var overlap := CountOverlap(tokens, resumeTokenSet);

    var score := RoundedPercent(overlap, |tokens|);
    score := ClampScore(score);
    var status := Tier(score, PlainCuts);
    var evidence := EvidenceFor(tokens, sentenceIndex);
    return Some(Evaluation(reqText, status, score, evidence));
  }

  /** The score is `100 * overlap / |tokens|` rounded half up. */
  lemma EvaluateRatio(reqText: string, resumeSet: set<string>, index: seq<Sentence>)
    requires Tokenize(reqText) != []
    ensures IsRoundedPercent(Evaluate(reqText, resumeSet, index).value.score,
      CountMembers(Tokenize(reqText), resumeSet), |Tokenize(reqText)|)
  {
    var tokens := Tokenize(reqText);
    RoundedPercentBounds(CountMembers(tokens, resumeSet), |tokens|);
    assert Evaluate(reqText, resumeSet, index).value.score == RoundedPercent(CountMembers(tokens, resumeSet), |tokens|);
  }

  /**
   * A requirement all of whose tokens the résumé holds scores 100 and is
   * met; one none of whose tokens it holds scores 0 and is not met.
   */
  lemma EvaluateExtremes(reqText: string, resumeSet: set<string>, index: seq<Sentence>)
    requires Tokenize(reqText) != []
    ensures var tokens := Tokenize(reqText);
      var e := Evaluate(reqText, resumeSet, index).value;
      ((forall k :: 0 <= k < |tokens| ==> tokens[k] in resumeSet) ==> e.score == 100 && e.status == Yes) &&
      ((forall k :: 0 <= k < |tokens| ==> tokens[k] !in resumeSet) ==> e.score == 0 && e.status == No)
  {
    RoundedPercentEnds(|Tokenize(reqText)|);
  }

  /** A larger résumé set never lowers the score or the status. */
  lemma EvaluateMonotone(reqText: string, s: set<string>, s': set<string>, index: seq<Sentence>)
    requires s <= s' && Tokenize(reqText) != []
    ensures Evaluate(reqText, s, index).value.score <= Evaluate(reqText, s', index).value.score
    ensures StatusRank(Evaluate(reqText, s, index).value.status) <= StatusRank(Evaluate(reqText, s', index).value.status)
  {
    var tokens := Tokenize(reqText);
    CountMembersMonotone(tokens, s, s');
    ClampedPercentMonotone(CountMembers(tokens, s), CountMembers(tokens, s'), |tokens|, PlainCuts);
  }
}
