/**
 * The local branch of `runAnalysis` in both variants (app/app.js:453-499,
 * app.js:297-395), the input checks of the Analyze button (app/app.js:388-397,
 * app.js:276-285), the cover-letter gate, and the page state these write.
 */
module Analysis {
  import opened Wrappers
  import opened Strings
  import opened Tokens
  import opened Requirements
  import opened Evidence
  import opened Scoring
  import opened Selection
  import opened Enhance
  import W = WeightedEvaluator
  import P = PlainEvaluator

  /** The two programs the repository ships: app/app.js and app.js. */
  datatype Variant = Weighted | Plain

  function Cuts(v: Variant): (th: Thresholds)
    ensures th.Valid()
  {
    match v
    case Weighted => WeightedCuts
    case Plain => PlainCuts
  }

  /** The résumé set: stems in app/app.js, plain tokens in app.js. */
  function ResumeSet(v: Variant, resume: string): set<string> {
    match v
    case Weighted => W.ResumeStemSet(resume)
    case Plain => P.ResumeTokenSet(resume)
  }

  /** The variant's `evaluateRequirement`; the weighted one runs with the shipped tables. */
  function EvaluateIn(v: Variant, req: string, resumeSet: set<string>, index: seq<Sentence>): (r: Option<Evaluation>)
    ensures r.None? <==> Tokenize(req) == []
    ensures r.Some? ==>
      r.value.requirement == req && 0 <= r.value.score <= 100 && r.value.status == StatusFor(r.value.score, Cuts(v))
  {
    match v
    case Weighted => W.Evaluate(req, resumeSet, index, W.Shipped)
    case Plain => P.Evaluate(req, resumeSet, index)
  }

  /** The variant's evaluation of each requirement, null or not. */
  function Outcomes(v: Variant, reqs: seq<string>, resumeSet: set<string>, index: seq<Sentence>): (r: seq<Option<Evaluation>>)
    ensures |r| == |reqs| && forall k :: 0 <= k < |r| ==> r[k] == EvaluateIn(v, reqs[k], resumeSet, index)
  {
    seq(|reqs|, k requires 0 <= k < |reqs| => EvaluateIn(v, reqs[k], resumeSet, index))
  }

  /** `if (ev) evaluations.push(ev)`: the non-null outcomes, in order. */
  function Present(outs: seq<Option<Evaluation>>): (r: seq<Evaluation>)
    ensures |r| <= |outs|
  {
    if outs == [] then []
    else
      var o := outs[|outs| - 1];
      Present(outs[..|outs| - 1]) + (if o.Some? then [o.value] else [])
  }

  /** One more outcome adds its evaluation, if any, at the end. */
  lemma PresentStep(outs: seq<Option<Evaluation>>, i: nat)
    requires i < |outs|
    ensures Present(outs[..i + 1]) == Present(outs[..i]) + (if outs[i].Some? then [outs[i].value] else [])
  {
    assert outs[..i + 1][..i] == outs[..i];
  }

  /** Nothing is kept exactly when every outcome is null. */
  lemma {:induction false} PresentEmpty(outs: seq<Option<Evaluation>>)
    ensures Present(outs) == [] <==> forall k :: 0 <= k < |outs| ==> outs[k].None?
  {
    if outs != [] {
      var front := outs[..|outs| - 1];
      PresentEmpty(front);
      assert forall k :: 0 <= k < |front| ==> front[k] == outs[k];
    }
  }

  /** Every kept evaluation is one of the outcomes. */
  lemma {:induction false} PresentFrom(outs: seq<Option<Evaluation>>)
    ensures forall k :: 0 <= k < |Present(outs)| ==> Some(Present(outs)[k]) in outs
  {
    if outs != [] {
      var front := outs[..|outs| - 1];
      PresentFrom(front);
      assert forall k :: 0 <= k < |front| ==> front[k] in outs;
    }
  }

  /** The kept evaluations keep the outcomes' order: the filter distributes over concatenation. */
  lemma {:induction false} PresentAppend(a: seq<Option<Evaluation>>, b: seq<Option<Evaluation>>)
    ensures Present(a + b) == Present(a) + Present(b)
  {
    if b == [] {
      assert a + b == a;
    } else {
      var front := b[..|b| - 1];
      assert (a + b)[..|a + b| - 1] == a + front;
      assert (a + b)[|a + b| - 1] == b[|b| - 1];
      PresentAppend(a, front);
    }
  }

  /** The evaluations the loop pushes: one per requirement with tokens, in order. */
  function Evaluations(v: Variant, reqs: seq<string>, resumeSet: set<string>, index: seq<Sentence>): seq<Evaluation> {
    Present(Outcomes(v, reqs, resumeSet, index))
  }

  /** Each evaluation is the variant's evaluation of one of the requirements. */
  predicate FromRequirements(evals: seq<Evaluation>, v: Variant, reqs: seq<string>, resumeSet: set<string>, index: seq<Sentence>) {
    forall k :: 0 <= k < |evals| ==>
      evals[k].requirement in reqs && EvaluateIn(v, evals[k].requirement, resumeSet, index) == Some(evals[k])
  }

  lemma EvaluationsFromRequirements(v: Variant, reqs: seq<string>, resumeSet: set<string>, index: seq<Sentence>)
    ensures FromRequirements(Evaluations(v, reqs, resumeSet, index), v, reqs, resumeSet, index)
  {
    var outs := Outcomes(v, reqs, resumeSet, index);
    PresentFrom(outs);
    var evals := Present(outs);
    forall k | 0 <= k < |evals|
      ensures evals[k].requirement in reqs && EvaluateIn(v, evals[k].requirement, resumeSet, index) == Some(evals[k])
    {
      var i :| 0 <= i < |outs| && outs[i] == Some(evals[k]);
      assert EvaluateIn(v, reqs[i], resumeSet, index) == Some(evals[k]);
    }
  }

  /** The list is empty exactly when no requirement has a token. */
  lemma EvaluationsEmpty(v: Variant, reqs: seq<string>, resumeSet: set<string>, index: seq<Sentence>)
    ensures Evaluations(v, reqs, resumeSet, index) == [] <==> forall k :: 0 <= k < |reqs| ==> Tokenize(reqs[k]) == []
  {
    PresentEmpty(Outcomes(v, reqs, resumeSet, index));
  }

  /** Requirement order is kept: the list distributes over concatenation. */
  lemma EvaluationsAppend(v: Variant, a: seq<string>, b: seq<string>, resumeSet: set<string>, index: seq<Sentence>)
    ensures Evaluations(v, a + b, resumeSet, index) == Evaluations(v, a, resumeSet, index) + Evaluations(v, b, resumeSet, index)
  {
    var oa, ob := Outcomes(v, a, resumeSet, index), Outcomes(v, b, resumeSet, index);
    assert Outcomes(v, a + b, resumeSet, index) == oa + ob;
    PresentAppend(oa, ob);
  }

  /** The call `evaluateRequirement(req, resumeTokenSet, sentenceIndex)` of the variant. */
  method EvaluateWith(v: Variant, req: string, resumeTokenSet: set<string>, sentenceIndex: seq<Sentence>)
    returns (ev: Option<Evaluation>)
    ensures ev == EvaluateIn(v, req, resumeTokenSet, sentenceIndex)
  {
    if v == Weighted {
      ev := W.EvaluateRequirement(req, resumeTokenSet, sentenceIndex, W.Shipped);
    } else {
      ev := P.EvaluateRequirement(req, resumeTokenSet, sentenceIndex);
    }
  }

  /** The requirement loop of `runAnalysis`. */
  method CollectEvaluations(v: Variant, requirements: seq<string>, resumeTokenSet: set<string>, sentenceIndex: seq<Sentence>)
    returns (evaluations: seq<Evaluation>)
    ensures evaluations == Evaluations(v, requirements, resumeTokenSet, sentenceIndex)
  {
    ghost var outs := Outcomes(v, requirements, resumeTokenSet, sentenceIndex);
    evaluations := [];
    for i := 0 to |requirements|
      invariant evaluations == Present(outs[..i])
    {
      PresentStep(outs, i);
      var ev := EvaluateWith(v, requirements[i], resumeTokenSet, sentenceIndex);
      if ev.Some? {
        evaluations := evaluations + [ev.value];
      }
    }
    assert outs[..|outs|] == outs;
  }

  /** `evaluations.reduce((sum, ev) => sum + ev.score, 0)`. */
  function SumScores(evals: seq<Evaluation>): int {
    if evals == [] then 0 else SumScores(evals[..|evals| - 1]) + evals[|evals| - 1].score
  }

  predicate ScoresInRange(evals: seq<Evaluation>) {
    forall k :: 0 <= k < |evals| ==> 0 <= evals[k].score <= 100
  }

  /** Scores in [0, 100] sum to between 0 and 100 per evaluation. */
  lemma {:induction false} SumScoresBounds(evals: seq<Evaluation>)
    requires ScoresInRange(evals)
    ensures 0 <= SumScores(evals) <= 100 * |evals|
  {
    if evals != [] {
      var front := evals[..|evals| - 1];
      assert forall k :: 0 <= k < |front| ==> front[k] == evals[k];
      SumScoresBounds(front);
    }
  }

  /** `Math.round(avgScore)`: the mean score, rounded half up. */
  function OverallScore(evals: seq<Evaluation>): (r: int)
    requires evals != []
    ensures 2 * |evals| * r <= 2 * SumScores(evals) + |evals| < 2 * |evals| * (r + 1)
  {
    RoundedMean(SumScores(evals), |evals|)
  }

  /** The overall score of scores in [0, 100] is in [0, 100]. */
  lemma OverallScoreBounds(evals: seq<Evaluation>)
    requires evals != [] && ScoresInRange(evals)
    ensures 0 <= OverallScore(evals) <= 100
  {
    SumScoresBounds(evals);
    RoundedMeanBounds(SumScores(evals), |evals|);
  }

  datatype Classification = Strong | Moderate | Weak

  function ClassRank(c: Classification): nat {
    match c
    case Weak => 0
    case Moderate => 1
    case Strong => 2
  }

  /** Strong above `strongAbove`, Moderate from `moderateFrom`, Weak below. */
  function Classify(score: int, th: Thresholds): (c: Classification)
    requires th.Valid()
    ensures c == Strong <==> score > th.strongAbove
    ensures c == Moderate <==> th.moderateFrom <= score <= th.strongAbove
    ensures c == Weak <==> score < th.moderateFrom
  {
    if score > th.strongAbove then Strong
    else if score >= th.moderateFrom then Moderate
    else Weak
  }

  /** A higher overall score never gets a lower classification. */
  lemma ClassifyMonotone(s: int, s': int, th: Thresholds)
    requires th.Valid() && s <= s'
    ensures ClassRank(Classify(s, th)) <= ClassRank(Classify(s', th))
  {
  }

  /** The label shown, and kept as `lastClassification`. */
  function Label(v: Variant, c: Classification): string {
    match (v, c)
    case (Weighted, Strong) => "Strong Match (>70%)"
    case (Weighted, Moderate) => "Moderate Match (40\U{2013}70%)"
    case (Weighted, Weak) => "Weak Match (<40%)"
    case (Plain, Strong) => "Strong Match (>80%)"
    case (Plain, Moderate) => "Moderate Match (50\U{2013}79%)"
    case (Plain, Weak) => "Weak Match (<50%)"
  }

  /** The explanation shown under the label. */
  function Explanation(v: Variant, c: Classification): string {
    match (v, c)
    case (Weighted, Strong) =>
      "Candidate demonstrates most critical technical and soft-skill requirements. High interview potential if salary/location fit."
    case (Weighted, Moderate) =>
      "Candidate has core transferable skills but may lack some specific tools or domain experience required by the job description."
    case (Weighted, Weak) =>
      "Candidate is missing several critical requirements or key qualifications. Interview chances may be low unless the role is flexible."
    case (Plain, Strong) =>
      "Candidate explicitly demonstrates most critical technical and soft-skill requirements. High interview potential if salary/location fit."
    case (Plain, Moderate) =>
      "Candidate has core transferable skills but lacks some specific tools or domain experience required by the JD."
    case (Plain, Weak) =>
      "Candidate is missing several critical hands-on requirements or key qualifications. Interview chance may be low unless the role is flexible."
  }

  /** In app.js an overall 80 is Moderate, although its label reads 50-79%. */
  lemma PlainEightyIsModerate()
    ensures Classify(80, Cuts(Plain)) == Moderate && Label(Plain, Classify(80, Cuts(Plain))) == "Moderate Match (50\U{2013}79%)"
  {
  }

  /** What one analysis shows and keeps. */
  datatype Report = Report(
    evaluations: seq<Evaluation>,
    overallScore: int,
    classification: Classification,
    classificationLabel: string,
    explanation: string,
    strengths: seq<string>,
    gaps: seq<string>)

  /** The report of a non-empty list of evaluations. */
  function ReportOf(v: Variant, evals: seq<Evaluation>): Report
    requires evals != []
  {
    var score := OverallScore(evals);
    var c := Classify(score, Cuts(v));
    Report(evals, score, c, Label(v, c), Explanation(v, c), Strengths(evals), Gaps(evals))
  }

  /** The local analysis: no report when no requirement yields an evaluation. */
  function Analyze(v: Variant, resume: string, jd: string): Option<Report> {
    var evals := Evaluations(v, Extracted(jd), ResumeSet(v, resume), BuildSentenceIndex(resume));
    if evals == [] then None else Some(ReportOf(v, evals))
  }

  /**
   * The tail of `runAnalysis` once evaluations exist: the rounded mean, the
   * classification by the variant's cuts, its texts, the strengths and gaps.
   */
  method BuildReport(v: Variant, evaluations: seq<Evaluation>) returns (report: Report)
    requires evaluations != []
    ensures report == ReportOf(v, evaluations)
  {
    var overallScore := RoundedMean(SumScores(evaluations), |evaluations|);
    var th := Cuts(v);
    var classification;
    if overallScore > th.strongAbove {
      classification := Strong;
    } else if overallScore >= th.moderateFrom {
      classification := Moderate;
    } else {
      classification := Weak;
    }
    assert classification == Classify(overallScore, th);
    report := Report(evaluations, overallScore, classification, Label(v, classification),
      Explanation(v, classification), Strengths(evaluations), Gaps(evaluations));
  }

  /**
   * The local branch of `runAnalysis`: extract the requirements, build the
   * résumé set and the sentence index, evaluate, and report when any
   * requirement yields an evaluation.
   */
  method AnalyzeLocally(v: Variant, resumeText: string, jdText: string) returns (report: Option<Report>)
    ensures report == Analyze(v, resumeText, jdText)
  {
    var requirements := ExtractRequirements(jdText);
    var resumeTokenSet := ResumeSet(v, resumeText);
    var sentenceIndex := BuildSentenceIndex(resumeText);
    var evaluations := CollectEvaluations(v, requirements, resumeTokenSet, sentenceIndex);
    if |evaluations| == 0 {
      return None;
    }
    var r := BuildReport(v, evaluations);
    return Some(r);
  }

  /**
   * There is no report exactly when no extracted requirement has a token.
   * A report's evaluations are the variant's evaluations of extracted
   * requirements, its overall score lies in [0, 100] and is classified by
   * the variant's cuts, and no requirement is both a strength and a gap.
   */
  lemma AnalyzeReport(v: Variant, resume: string, jd: string)
    ensures var reqs := Extracted(jd);
      Analyze(v, resume, jd).None? <==> forall k :: 0 <= k < |reqs| ==> Tokenize(reqs[k]) == []
    ensures Analyze(v, resume, jd).Some? ==>
      var r := Analyze(v, resume, jd).value;
      FromRequirements(r.evaluations, v, Extracted(jd), ResumeSet(v, resume), BuildSentenceIndex(resume)) &&
      0 <= r.overallScore <= 100 && r.classification == Classify(r.overallScore, Cuts(v)) &&
      r.strengths == Strengths(r.evaluations) && r.gaps == Gaps(r.evaluations) &&
      forall q :: q in r.strengths ==> q !in r.gaps
  {
    var reqs, rs, index := Extracted(jd), ResumeSet(v, resume), BuildSentenceIndex(resume);
    var evals := Evaluations(v, reqs, rs, index);
    EvaluationsEmpty(v, reqs, rs, index);
    EvaluationsFromRequirements(v, reqs, rs, index);
    if evals != [] {
      FromRequirementsFacts(evals, v, reqs, rs, index);
      OverallScoreBounds(evals);
      StrengthsGapsDisjoint(evals);
    }
  }

  /**
   * Evaluations that come from the requirements score in [0, 100], and two
   * of the same requirement are the same evaluation.
   */
  lemma FromRequirementsFacts(evals: seq<Evaluation>, v: Variant, reqs: seq<string>, rs: set<string>, index: seq<Sentence>)
    requires FromRequirements(evals, v, reqs, rs, index)
    ensures ScoresInRange(evals) && Consistent(evals)
  {
    forall k | 0 <= k < |evals| ensures 0 <= evals[k].score <= 100 {
      assert EvaluateIn(v, evals[k].requirement, rs, index) == Some(evals[k]);
    }
    forall i, j | 0 <= i < |evals| && 0 <= j < |evals| && evals[i].requirement == evals[j].requirement
      ensures evals[i] == evals[j]
    {
      assert EvaluateIn(v, evals[i].requirement, rs, index) == Some(evals[i]);
      assert EvaluateIn(v, evals[j].requirement, rs, index) == Some(evals[j]);
    }
  }

  /** The Analyze button refuses a résumé or a job description shorter than this, once trimmed. */
  const MinInputLength := 50

  const ResumeTooShort := "Please provide enough resume text (at least a few lines)."
  const JobTooShort := "Please paste a complete job description."
  const NoRequirements :=
    "Could not extract clear requirements from the job description. Please ensure it includes bullet points or sentences."

  /** The input checks: the résumé first, then the job description. */
  function InputError(resume: string, jd: string): (r: Option<string>)
    ensures r.None? <==> |Trim(resume)| >= MinInputLength && |Trim(jd)| >= MinInputLength
    ensures r == Some(ResumeTooShort) <==> |Trim(resume)| < MinInputLength
    ensures |Trim(resume)| >= MinInputLength && |Trim(jd)| < MinInputLength ==> r == Some(JobTooShort)
  {
    if |Trim(resume)| < MinInputLength then Some(ResumeTooShort)
    else if |Trim(jd)| < MinInputLength then Some(JobTooShort)
    else None
  }

  /** Trimming never lengthens, so an input shorter than the minimum is always refused; empty input in particular. */
  lemma ShortInputRejected(resume: string, jd: string)
    requires |resume| < MinInputLength || |jd| < MinInputLength
    ensures InputError(resume, jd).Some?
  {
  }

  /** The two length checks of the Analyze handler, the résumé first. */
  method CheckInput(resumeText: string, jdText: string) returns (error: Option<string>)
    ensures error == InputError(resumeText, jdText)
  {
    if |Trim(resumeText)| < MinInputLength {
      return Some(ResumeTooShort);
    }
    if |Trim(jdText)| < MinInputLength {
      return Some(JobTooShort);
    }
    return None;
  }

  /** `generateCoverLetter` writes a letter only above the variant's cut (70 or 80). */
  predicate CoverLetterAllowed(v: Variant, overallScore: int) {
    overallScore > Cuts(v).coverLetterAbove
  }

  /** The text shown instead of the letter. */
  function CoverLetterRefusal(v: Variant): string {
    match v
    case Weighted =>
      "Match score is below 70%. A cover letter will not be generated. Please improve your resume for a better chance."
    case Plain =>
      "Skor padanan kurang 80%. Surat iringan tidak dijana. Kemaskini resume anda untuk peluang yang lebih baik."
  }

  /** In both variants the letter is written exactly for a Strong match. */
  lemma CoverLetterIffStrong(v: Variant, overallScore: int)
    ensures CoverLetterAllowed(v, overallScore) <==> Classify(overallScore, Cuts(v)) == Strong
  {
  }

  /**
   * The page's state: the status line and the globals the premium tools
   * read (`lastOverallScore`, `lastEvaluations`, `lastClassification`),
   * and the enhanced résumé the tools show.
   */
  class Session {
    const variant: Variant
    var statusMessage: string
    var lastOverallScore: int
    var lastEvaluations: seq<Evaluation>
    var lastClassification: string
    var enhancedResume: string

    /** The globals' initial values. */
    constructor (v: Variant)
      ensures variant == v && statusMessage == [] && lastOverallScore == 0
      ensures lastEvaluations == [] && lastClassification == [] && enhancedResume == []
    {
      variant := v;
      statusMessage := [];
      lastOverallScore := 0;
      lastEvaluations := [];
      lastClassification := [];
      enhancedResume := [];
    }

    /**
     * `runAnalysis`, local branch: extract, evaluate, aggregate. With no
     * evaluation it sets the error message and leaves the globals as they
     * were; otherwise it stores the score, the evaluations and the label.
     */
    method RunAnalysis(resumeText: string, jdText: string) returns (report: Option<Report>)
      modifies this`statusMessage, this`lastOverallScore, this`lastEvaluations, this`lastClassification
      ensures report == Analyze(variant, resumeText, jdText)
      ensures report.None? ==>
        statusMessage == NoRequirements && lastOverallScore == old(lastOverallScore) &&
        lastEvaluations == old(lastEvaluations) && lastClassification == old(lastClassification)
      ensures report.Some? ==>
        statusMessage == old(statusMessage) && lastOverallScore == report.value.overallScore &&
        lastEvaluations == report.value.evaluations && lastClassification == report.value.classificationLabel
    {
      report := AnalyzeLocally(variant, resumeText, jdText);
      SaveOutcome(report);
    }

    /**
     * What `runAnalysis` leaves behind: the error message when there is no
     * report, else the score, the evaluations and the label in the globals.
     */
    method SaveOutcome(report: Option<Report>)
      modifies this`statusMessage, this`lastOverallScore, this`lastEvaluations, this`lastClassification
      ensures report.None? ==>
        statusMessage == NoRequirements && lastOverallScore == old(lastOverallScore) &&
        lastEvaluations == old(lastEvaluations) && lastClassification == old(lastClassification)
      ensures report.Some? ==>
        statusMessage == old(statusMessage) && lastOverallScore == report.value.overallScore &&
        lastEvaluations == report.value.evaluations && lastClassification == report.value.classificationLabel
    {
      if report.None? {
        statusMessage := NoRequirements;
      } else {
        lastOverallScore := report.value.overallScore;
        lastEvaluations := report.value.evaluations;
        lastClassification := report.value.classificationLabel;
      }
    }

    /**
     * The Analyze button: clear the status line, refuse short input with its
     * message, and otherwise run the analysis.
     */
    method AnalyzeClicked(resumeText: string, jdText: string) returns (report: Option<Report>)
      modifies this`statusMessage, this`lastOverallScore, this`lastEvaluations, this`lastClassification
      ensures InputError(resumeText, jdText).Some? ==>
        report.None? && statusMessage == InputError(resumeText, jdText).value &&
        lastOverallScore == old(lastOverallScore) && lastEvaluations == old(lastEvaluations) &&
        lastClassification == old(lastClassification)
      ensures InputError(resumeText, jdText).None? ==> report == Analyze(variant, resumeText, jdText)
      ensures InputError(resumeText, jdText).None? && report.None? ==>
        statusMessage == NoRequirements && lastOverallScore == old(lastOverallScore) &&
        lastEvaluations == old(lastEvaluations) && lastClassification == old(lastClassification)
      ensures report.Some? ==>
        statusMessage == [] && lastOverallScore == report.value.overallScore &&
        lastEvaluations == report.value.evaluations && lastClassification == report.value.classificationLabel
    {
      statusMessage := [];
      var error := CheckInput(resumeText, jdText);
      if error.Some? {
        statusMessage := error.value;
        return None;
      }
      report := RunAnalysis(resumeText, jdText);
    }

    /**
     * `generateEnhancedResume` over the stored evaluations. In app.js `text`
     * is the résumé text the Analyze button also reads, to which the unmet
     * requirements are appended; in app/app.js it is the uploaded résumé
     * text, placed in the ATS-style document under the stored score's summary.
     */
    method GenerateEnhancedResume(text: string)
      modifies this`enhancedResume
      ensures variant == Plain ==> enhancedResume == PlainEnhancedResume(text, lastEvaluations)
      ensures variant == Weighted ==> enhancedResume == WeightedEnhancedResume(lastOverallScore, text, lastEvaluations)
    {
      if variant == Plain {
        var missing := CollectNotMet(lastEvaluations, Experienced);
        enhancedResume := PlainDocument(text, missing);
      } else {
        var additions := CollectNotMet(lastEvaluations, Bulleted);
        enhancedResume := WeightedDocument(lastOverallScore, text, additions);
      }
    }
  }
}
