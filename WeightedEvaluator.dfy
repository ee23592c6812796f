/**
 * The weighted, synonym-aware `evaluateRequirement` of app/app.js
 * (lines 94-120 for its tables, 200-249 for the evaluator).
 */
module WeightedEvaluator {
  import opened Wrappers
  import opened Strings
  import opened Tokens
  import opened Evidence
  import opened Scoring

  /** Each key is a stem; its list holds the surface forms counted as equivalent. */
  const SynonymsMap: map<string, seq<string>> := map[
    "maintain" := ["maintain", "update", "improve", "keep"],
    "documentation" := ["documentation", "documents", "records", "manual", "procedure", "procedures", "instructions", "docs"],
    "audit" := ["audit", "auditing", "audits", "review", "reviews", "compliance", "monitoring", "monitor"],
    "compliance" := ["compliance", "conformance", "conformity", "conform"],
    "calibration" := ["calibration", "calibrated", "calibrating", "calibrate"],
    "proficiency" := ["proficiency", "competence", "competency"],
    "quality" := ["quality", "qms", "quality management"],
    "management" := ["management", "manage", "managing", "managed"],
    "training" := ["training", "train", "trained", "coaching", "learning"],
    "performance" := ["performance", "kpi", "key performance", "analysis", "monitoring"],
    "customer" := ["customer", "client", "stakeholder"],
    "nonconformity" := ["nonconformity", "non-conformity", "nc", "deviation", "noncompliance"],
    "feedback" := ["feedback", "survey", "comments"],
    "report" := ["report", "reporting"],
    "investigation" := ["investigation", "investigate", "analysis", "analyzing"],
    "competency" := ["competency", "competence", "competences"]
  ]

  /** The stems that weigh double; membership is tested on a stem. */
  const CriticalTokens: seq<string> := [
    "iso", "17025", "9001", "audit", "auditing", "compliance", "quality", "calibration",
    "proficiency", "testing", "management", "review", "analysis"
  ]

  /**
   * The two constant tables. The evaluator is stated for any tables; the
   * program runs it with `Shipped`.
   */
  datatype Tables = Tables(synonyms: map<string, seq<string>>, critical: seq<string>)

  const Shipped := Tables(SynonymsMap, CriticalTokens)

  /** `criticalTokens.includes(t) ? 2 : 1`. */
  function Weight(t: string, tables: Tables): (r: nat)
    ensures r == 1 || r == 2
    ensures r == 2 <==> t in tables.critical
  {
    if t in tables.critical then 2 else 1
  }

  /** `rawTokens.map(t => stem(t))`. */
  function StemAll(tokens: seq<string>): (r: seq<string>)
    ensures |r| == |tokens| && forall k :: 0 <= k < |r| ==> r[k] == Stem(tokens[k])
  {
    seq(|tokens|, k requires 0 <= k < |tokens| => Stem(tokens[k]))
  }

  /** The summed weight of the requirement's stems: between one and two per stem. */
  function TotalWeight(stems: seq<string>, tables: Tables): (r: nat)
    ensures |stems| <= r <= 2 * |stems|
  {
    if stems == [] then 0
    else TotalWeight(stems[..|stems| - 1], tables) + Weight(stems[|stems| - 1], tables)
  }

  /** `synonymsMap[t] || [t]`. */
  function SynonymsOf(t: string, tables: Tables): seq<string> {
    if t in tables.synonyms then tables.synonyms[t] else [t]
  }

  /** Some synonym of stem `t`, lower-cased and stemmed, is in the résumé set. */
  predicate Matches(t: string, resumeSet: set<string>, tables: Tables) {
    var syns := SynonymsOf(t, tables);
    exists j :: 0 <= j < |syns| && Stem(Lower(syns[j])) in resumeSet
  }

  /**
   * The weight the résumé covers: each stem adds its own weight once when it
   * matches and nothing otherwise, so the total is never exceeded.
   */
  function MatchedWeight(stems: seq<string>, resumeSet: set<string>, tables: Tables): (r: nat)
    ensures r <= TotalWeight(stems, tables)
  {
    if stems == [] then 0
    else
      var t := stems[|stems| - 1];
      MatchedWeight(stems[..|stems| - 1], resumeSet, tables) + (if Matches(t, resumeSet, tables) then Weight(t, tables) else 0)
  }

  /** The résumé set app/app.js builds: the stems of the résumé's tokens. */
  function ResumeStemSet(resume: string): set<string> {
    ToSet(StemAll(Tokenize(resume)))
  }

  /** What `evaluateRequirement` returns. */
  function Evaluate(reqText: string, resumeSet: set<string>, index: seq<Sentence>, tables: Tables): (r: Option<Evaluation>)
    ensures r.None? <==> Tokenize(reqText) == []
    ensures r.Some? ==>
      r.value.requirement == reqText && 0 <= r.value.score <= 100 &&
      r.value.status == StatusFor(r.value.score, WeightedCuts) &&
      r.value.evidence == EvidenceText(EvidenceSentence(Tokenize(reqText), index))
  {
    var raw := Tokenize(reqText);
    if raw == [] then None
    else
      var stems := StemAll(raw);
      var total := if TotalWeight(stems, tables) == 0 then |stems| else TotalWeight(stems, tables);
      var matched := MatchedWeight(stems, resumeSet, tables);
      var score := Clamp(if total > 0 then RoundedPercent(matched, total) else 0);
      Some(Evaluation(reqText, StatusFor(score, WeightedCuts), score, EvidenceText(EvidenceSentence(raw, index))))
  }

  /** The first `forEach` of `evaluateRequirement`: one or two per stem. */
  method SumWeights(stemTokens: seq<string>, tables: Tables) returns (totalWeight: nat)
    ensures totalWeight == TotalWeight(stemTokens, tables)
  {
    totalWeight := 0;
    for i := 0 to |stemTokens|
      invariant totalWeight == TotalWeight(stemTokens[..i], tables)
    {
      assert stemTokens[..i + 1][..i] == stemTokens[..i];
      totalWeight := totalWeight + Weight(stemTokens[i], tables);
    }
    assert stemTokens[..|stemTokens|] == stemTokens;
  }

  /** The second `forEach` of `evaluateRequirement`. */
  method SumMatchedWeights(stemTokens: seq<string>, resumeTokenSet: set<string>, tables: Tables)
    returns (matchedWeight: nat)
    ensures matchedWeight == MatchedWeight(stemTokens, resumeTokenSet, tables)
  {
    matchedWeight := 0;
    for i := 0 to |stemTokens|
      invariant matchedWeight == MatchedWeight(stemTokens[..i], resumeTokenSet, tables)
    {
      assert stemTokens[..i + 1][..i] == stemTokens[..i];
      var w := SynonymWeight(stemTokens[i], resumeTokenSet, tables);
      matchedWeight := matchedWeight + w;
    }
    assert stemTokens[..|stemTokens|] == stemTokens;
  }

  /**
   * The body of the second `forEach` of `evaluateRequirement`: the synonyms
   * of stem `t` are tried in order and the first one found in the résumé set
   * contributes the stem's weight, once.
   */
  method SynonymWeight(t: string, resumeTokenSet: set<string>, tables: Tables) returns (w: nat)
    ensures w == if Matches(t, resumeTokenSet, tables) then Weight(t, tables) else 0
  {
    w := 0;
    var synList := SynonymsOf(t, tables);
    var j := 0;
    while j < |synList|
      invariant 0 <= j <= |synList|
      invariant forall k :: 0 <= k < j ==> Stem(Lower(synList[k])) !in resumeTokenSet
    {
      var baseSyn := Stem(Lower(synList[j]));
      if baseSyn in resumeTokenSet {
        w := Weight(t, tables);
        break;
      }
      j := j + 1;
    }
  }

  /**
   * `evaluateRequirement`: sums the weights, then adds a stem's weight at
   * the first synonym found in the résumé set, rounds and tiers the ratio,
   * and looks up the evidence with the unstemmed tokens.
   */
  method EvaluateRequirement(reqText: string, resumeTokenSet: set<string>, sentenceIndex: seq<Sentence>, tables: Tables)
    returns (r: Option<Evaluation>)
    ensures r == Evaluate(reqText, resumeTokenSet, sentenceIndex, tables)
  {
    var rawTokens := Tokenize(reqText);
    if |rawTokens| == 0 {
      return None;
    }
    var stemTokens := StemAll(rawTokens);

    var totalWeight := SumWeights(stemTokens, tables);
    if totalWeight == 0 {
      totalWeight := |stemTokens|;
    }
    var matchedWeight := SumMatchedWeights(stemTokens, resumeTokenSet, tables);

    var score := 0;
    if totalWeight > 0 {
      score := RoundedPercent(matchedWeight, totalWeight);
    }
    score := ClampScore(score);
    var status := Tier(score, WeightedCuts);
    var evidence := EvidenceFor(rawTokens, sentenceIndex);
    return Some(Evaluation(reqText, status, score, evidence));
  }

  /** The résumé covers the whole weight exactly when every stem matches. */
  lemma {:induction false} MatchedWeightFull(stems: seq<string>, resumeSet: set<string>, tables: Tables)
    ensures MatchedWeight(stems, resumeSet, tables) == TotalWeight(stems, tables) <==>
      forall k :: 0 <= k < |stems| ==> Matches(stems[k], resumeSet, tables)
  {
    if stems != [] {
      var front := stems[..|stems| - 1];
      MatchedWeightFull(front, resumeSet, tables);
      assert forall k :: 0 <= k < |front| ==> front[k] == stems[k];
    }
  }

  /** The résumé covers nothing exactly when no stem matches. */
  lemma {:induction false} MatchedWeightNone(stems: seq<string>, resumeSet: set<string>, tables: Tables)
    ensures MatchedWeight(stems, resumeSet, tables) == 0 <==>
      forall k :: 0 <= k < |stems| ==> !Matches(stems[k], resumeSet, tables)
  {
    if stems != [] {
      var front := stems[..|stems| - 1];
      MatchedWeightNone(front, resumeSet, tables);
      assert forall k :: 0 <= k < |front| ==> front[k] == stems[k];
    }
  }

  /** A résumé with more stems never covers less weight. */
  lemma {:induction false} MatchedWeightMonotone(stems: seq<string>, s: set<string>, s': set<string>, tables: Tables)
    requires s <= s'
    ensures MatchedWeight(stems, s, tables) <= MatchedWeight(stems, s', tables)
  {
    if stems != [] {
      MatchedWeightMonotone(stems[..|stems| - 1], s, s', tables);
      var t := stems[|stems| - 1];
      if Matches(t, s, tables) {
        var syns := SynonymsOf(t, tables);
        var j :| 0 <= j < |syns| && Stem(Lower(syns[j])) in s;
        assert Stem(Lower(syns[j])) in s';
      }
    }
  }

  /**
   * The score is `100 * matched / total` rounded half up, over the weights
   * of the requirement's stems; the `totalWeight === 0` fallback never
   * applies, because every stem weighs at least one.
   */
  lemma EvaluateRatio(reqText: string, resumeSet: set<string>, index: seq<Sentence>, tables: Tables)
    requires Tokenize(reqText) != []
    ensures TotalWeight(StemAll(Tokenize(reqText)), tables) > 0
    ensures IsRoundedPercent(Evaluate(reqText, resumeSet, index, tables).value.score,
      MatchedWeight(StemAll(Tokenize(reqText)), resumeSet, tables), TotalWeight(StemAll(Tokenize(reqText)), tables))
  {
    EvaluateScore(reqText, resumeSet, index, tables);
  }

  lemma EvaluateScore(reqText: string, resumeSet: set<string>, index: seq<Sentence>, tables: Tables)
    requires Tokenize(reqText) != []
    ensures TotalWeight(StemAll(Tokenize(reqText)), tables) > 0
    ensures Evaluate(reqText, resumeSet, index, tables).value.score ==
      RoundedPercent(MatchedWeight(StemAll(Tokenize(reqText)), resumeSet, tables), TotalWeight(StemAll(Tokenize(reqText)), tables))
  {
    var stems := StemAll(Tokenize(reqText));
    RoundedPercentBounds(MatchedWeight(stems, resumeSet, tables), TotalWeight(stems, tables));
  }

  /**
   * A requirement all of whose stems match scores 100 and is met; one none
   * of whose stems match scores 0 and is not met.
   */
  lemma EvaluateExtremes(reqText: string, resumeSet: set<string>, index: seq<Sentence>, tables: Tables)
    requires Tokenize(reqText) != []
    ensures var stems := StemAll(Tokenize(reqText));
      var e := Evaluate(reqText, resumeSet, index, tables).value;
      ((forall k :: 0 <= k < |stems| ==> Matches(stems[k], resumeSet, tables)) ==> e.score == 100 && e.status == Yes) &&
      ((forall k :: 0 <= k < |stems| ==> !Matches(stems[k], resumeSet, tables)) ==> e.score == 0 && e.status == No)
  {
    var stems := StemAll(Tokenize(reqText));
    MatchedWeightFull(stems, resumeSet, tables);
    MatchedWeightNone(stems, resumeSet, tables);
    RoundedPercentEnds(TotalWeight(stems, tables));
  }

  /**
   * The evaluation is monotone in the résumé: a résumé whose stem set is
   * larger never gets a lower score or a lower status for the same
   * requirement.
   */
  lemma EvaluateMonotone(reqText: string, s: set<string>, s': set<string>, index: seq<Sentence>, tables: Tables)
    requires s <= s' && Tokenize(reqText) != []
    ensures Evaluate(reqText, s, index, tables).value.score <= Evaluate(reqText, s', index, tables).value.score
    ensures StatusRank(Evaluate(reqText, s, index, tables).value.status) <= StatusRank(Evaluate(reqText, s', index, tables).value.status)
  {
    var stems := StemAll(Tokenize(reqText));
    var total := if TotalWeight(stems, tables) == 0 then |stems| else TotalWeight(stems, tables);
    MatchedWeightMonotone(stems, s, s', tables);
    if total > 0 {
      ClampedPercentMonotone(MatchedWeight(stems, s, tables), MatchedWeight(stems, s', tables), total, WeightedCuts);
    }
  }

  /** Every member of the résumé stem set is alphanumeric. */
  lemma ResumeStemsAlnum(resume: string, x: string)
    requires x in ResumeStemSet(resume)
    ensures forall j :: 0 <= j < |x| ==> IsAlnum(x[j])
  {
    var toks := Tokenize(resume);
    TokenizeShape(resume);
    var stems := StemAll(toks);
    var k :| 0 <= k < |stems| && stems[k] == x;
    StemStrips(toks[k]);
    assert IsToken(toks[k]);
  }

  /**
   * A synonym whose stemmed, lower-cased form holds a space or a hyphen
   * (`quality management`, `key performance`, `non-conformity`) can never be
   * found in the résumé set.
   */
  lemma NonAlnumSynonymNeverMatches(syn: string, resume: string, j: nat)
    requires j < |Stem(Lower(syn))| && !IsAlnum(Stem(Lower(syn))[j])
    ensures Stem(Lower(syn)) !in ResumeStemSet(resume)
  {
    if Stem(Lower(syn)) in ResumeStemSet(resume) {
      ResumeStemsAlnum(resume, Stem(Lower(syn)));
    }
  }

  /**
   * Lookups use the stem, so the critical entry `testing` does not fire for
   * the word `testing`: its stem `test` weighs one.
   */
  lemma TestingNotCritical()
    ensures Stem("testing") == "test" && Weight(Stem("testing"), Shipped) == 1
  {
    StemIng("testing");
    assert "testing"[..4] == "test";
  }

  /**
   * The critical entry `auditing` is not what the word `auditing` looks up:
   * its stem is `audit`, which weighs double through its own entry.
   */
  lemma AuditingEntryUnreached()
    ensures Stem("auditing") == "audit" && Weight(Stem("auditing"), Shipped) == 2
  {
    StemIng("auditing");
    assert "auditing"[..5] == "audit";
  }

  /** Nor does `analysis`, whose stem is `analysi`. */
  lemma AnalysisNotCritical()
    ensures Stem("analysis") == "analysi" && Weight(Stem("analysis"), Shipped) == 1
  {
    StemS("analysis");
    assert "analysis"[..7] == "analysi";
  }

  /**
   * The synonym key `training` is not reached by the word `training`: its
   * stem `train` is no key, so only `train` itself is tried.
   */
  lemma TrainingKeyUnused()
    ensures Stem("training") == "train" && SynonymsOf(Stem("training"), Shipped) == ["train"]
  {
    StemIng("training");
    assert "training"[..5] == "train";
  }

  /** The multi-word synonym `quality management` never matches any résumé. */
  lemma QualityManagementNeverMatches(resume: string)
    ensures Stem(Lower("quality management")) !in ResumeStemSet(resume)
  {
    SpacedSynonymNeverMatches("quality management", resume, 7);
  }

  /** Nor does `key performance`. */
  lemma KeyPerformanceNeverMatches(resume: string)
    ensures Stem(Lower("key performance")) !in ResumeStemSet(resume)
  {
    SpacedSynonymNeverMatches("key performance", resume, 3);
  }

  /** Nor does the hyphenated `non-conformity`. */
  lemma NonConformityNeverMatches(resume: string)
    ensures Stem(Lower("non-conformity")) !in ResumeStemSet(resume)
  {
    SpacedSynonymNeverMatches("non-conformity", resume, 3);
  }

  /**
   * A synonym ending in neither `s`, `d` nor `g` and holding a non-letter,
   * non-digit character at `j` never matches.
   */
  lemma SpacedSynonymNeverMatches(syn: string, resume: string, j: nat)
    requires j < |syn| && !IsAlnum(LowerChar(syn[j]))
    requires LowerChar(syn[|syn| - 1]) != 's' && LowerChar(syn[|syn| - 1]) != 'd' && LowerChar(syn[|syn| - 1]) != 'g'
    ensures Stem(Lower(syn)) !in ResumeStemSet(resume)
  {
    StemKeeps(Lower(syn));
    NonAlnumSynonymNeverMatches(syn, resume, j);
  }
}
