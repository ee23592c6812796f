/**
 * `generateEnhancedResume` in both variants: the requirements not met are
 * listed after the résumé (app.js:565-579), or in an ATS-style document
 * with a summary chosen by the overall score (app/app.js:596-623).
 */
module Enhance {
  import opened Strings
  import opened Scoring
  import opened Selection

  /** How a requirement not met is written: app.js's sentence or app/app.js's bullet. */
  datatype Style = Experienced | Bulleted

  function Entry(style: Style, req: string): string {
    match style
    case Experienced => "Experienced in " + req + "."
    case Bulleted => "\U{2022} " + req
  }

  /** The entries of a list of evaluations, one each, in order. */
  function Entries(evals: seq<Evaluation>, style: Style): (r: seq<string>)
    ensures |r| == |evals| && forall k :: 0 <= k < |r| ==> r[k] == Entry(style, evals[k].requirement)
  {
    seq(|evals|, k requires 0 <= k < |evals| => Entry(style, evals[k].requirement))
  }

  /** The list the `forEach` pushes onto: an entry for each evaluation whose status is not `Yes`. */
  function NotMetEntries(evals: seq<Evaluation>, style: Style): seq<string> {
    if evals == [] then []
    else
      var e := evals[|evals| - 1];
      NotMetEntries(evals[..|evals| - 1], style) + (if e.status != Yes then [Entry(style, e.requirement)] else [])
  }

  /**
   * The list holds exactly the entries of the evaluations not met, in the
   * evaluations' order.
   */
  lemma {:induction false} NotMetEntriesExact(evals: seq<Evaluation>, style: Style)
    ensures NotMetEntries(evals, style) == Entries(Select(evals, NotMet), style)
  {
    if evals != [] {
      var front := evals[..|evals| - 1];
      var e := evals[|evals| - 1];
      NotMetEntriesExact(front, style);
      var tail: seq<Evaluation> := if e.status != Yes then [e] else [];
      assert Select(evals, NotMet) == Select(front, NotMet) + tail;
      EntriesAppend(Select(front, NotMet), tail, style);
    }
  }

  lemma EntriesAppend(a: seq<Evaluation>, b: seq<Evaluation>, style: Style)
    ensures Entries(a + b, style) == Entries(a, style) + Entries(b, style)
  {
    var l, r := Entries(a + b, style), Entries(a, style) + Entries(b, style);
    forall k | 0 <= k < |l| ensures l[k] == r[k] {
      if k < |a| { assert (a + b)[k] == a[k]; } else { assert (a + b)[k] == b[k - |a|]; }
    }
  }

  /** The list is empty exactly when every evaluation is met. */
  lemma NotMetEntriesEmpty(evals: seq<Evaluation>, style: Style)
    ensures NotMetEntries(evals, style) == [] <==> forall k :: 0 <= k < |evals| ==> evals[k].status == Yes
  {
    NotMetEntriesExact(evals, style);
    SelectEmpty(evals, NotMet);
  }

  /** The `forEach` loop of `generateEnhancedResume`, pushing the entries. */
  method CollectNotMet(evals: seq<Evaluation>, style: Style) returns (entries: seq<string>)
    ensures entries == NotMetEntries(evals, style)
  {
    entries := [];
    for i := 0 to |evals|
      invariant entries == NotMetEntries(evals[..i], style)
    {
      assert evals[..i + 1][..i] == evals[..i];
      if evals[i].status != Yes {
        entries := entries + [Entry(style, evals[i].requirement)];
      }
    }
    assert evals[..|evals|] == evals;
  }

  /** `missing.map(item => '- ' + item)`. */
  function Dashed(items: seq<string>): (r: seq<string>)
    ensures |r| == |items| && forall k :: 0 <= k < |r| ==> r[k] == "- " + items[k]
  {
    seq(|items|, k requires 0 <= k < |items| => "- " + items[k])
  }

  const PlainHeading := "\n\nAdditional Skills & Qualifications:\n"

  /** app.js: nothing when the list is empty, else the heading and the dashed lines. */
  function PlainAddition(missing: seq<string>): string {
    if missing == [] then [] else PlainHeading + Join(Dashed(missing), "\n")
  }

  /** app.js's `enhancedResumeContent`: the résumé text followed by the addition. */
  function PlainEnhancedResume(resumeText: string, evals: seq<Evaluation>): string {
    PlainDocument(resumeText, NotMetEntries(evals, Experienced))
  }

  function PlainDocument(resumeText: string, missing: seq<string>): string {
    resumeText + PlainAddition(missing)
  }

  /** The dashed lines follow each other in the list's order, one per line. */
  lemma PlainAdditionSnoc(missing: seq<string>, m: string)
    requires missing != []
    ensures PlainAddition(missing + [m]) == PlainAddition(missing) + "\n" + "- " + m
  {
    assert Dashed(missing + [m]) == Dashed(missing) + ["- " + m];
    JoinSnoc(Dashed(missing), "- " + m, "\n");
    Associative(PlainHeading, Join(Dashed(missing), "\n") + "\n", "- " + m);
    Associative(PlainHeading, Join(Dashed(missing), "\n"), "\n");
  }

  /**
   * The résumé text is kept as the start of the enhanced résumé, and nothing
   * is appended exactly when every requirement is met.
   */
  lemma PlainEnhancedResumeExtends(resumeText: string, evals: seq<Evaluation>)
    ensures |PlainEnhancedResume(resumeText, evals)| >= |resumeText|
    ensures PlainEnhancedResume(resumeText, evals)[..|resumeText|] == resumeText
    ensures PlainEnhancedResume(resumeText, evals) == resumeText <==> forall k :: 0 <= k < |evals| ==> evals[k].status == Yes
  {
    NotMetEntriesEmpty(evals, Experienced);
    var add := PlainAddition(NotMetEntries(evals, Experienced));
    assert (resumeText + add)[..|resumeText|] == resumeText;
    if add != [] {
      assert |resumeText + add| > |resumeText|;
    }
  }

  /** app/app.js's professional summary, tiered by the overall score: above 80, from 50, below. */
  function Summary(score: int): string {
    if score > 80 then
      "A highly qualified candidate who meets nearly all job requirements and brings strong technical and soft skills."
    else if score >= 50 then
      "A candidate with solid core skills and experience, with some gaps that can be quickly closed through training and growth."
    else
      "A motivated candidate eager to learn and develop, bringing foundational skills and a passion for growth."
  }

  const WeightedTitle := "ATS-Friendly Resume"

  const CoveredSection :=
    "Additional Skills & Qualifications:\n\U{2022} Your resume already covers all critical job requirements. Continue to highlight your achievements using concise bullet points.\n"

  /** The additions section: the bullets under a gap heading, or the all-covered note. */
  function WeightedAdditions(additions: seq<string>): string {
    if additions != [] then
      "Additional Skills & Qualifications (to close gaps):\n" + Join(additions, "\n") + "\n"
    else CoveredSection
  }

  /** The summary, the trimmed uploaded résumé when there is one, and the additions. */
  function WeightedBody(score: int, uploadedResumeText: string, additions: seq<string>): string {
    var original := Trim(uploadedResumeText);
    "\n\n" + "Professional Summary:\n" + Summary(score) + "\n\n" +
    (if original != [] then "Original Resume Content:\n" + original + "\n\n" else []) +
    WeightedAdditions(additions)
  }

  /** The document: the title and the body, trimmed. */
  function WeightedDocument(score: int, uploadedResumeText: string, additions: seq<string>): string {
    Trim(WeightedTitle + WeightedBody(score, uploadedResumeText, additions))
  }

  /** app/app.js's enhanced résumé: the document of the bulleted unmet requirements. */
  function WeightedEnhancedResume(score: int, uploadedResumeText: string, evals: seq<Evaluation>): string {
    WeightedDocument(score, uploadedResumeText, NotMetEntries(evals, Bulleted))
  }

  /** The final `trim` never cuts into the title the document starts with. */
  lemma WeightedEnhancedResumeTitled(score: int, uploadedResumeText: string, evals: seq<Evaluation>)
    ensures |WeightedEnhancedResume(score, uploadedResumeText, evals)| >= |WeightedTitle|
    ensures WeightedEnhancedResume(score, uploadedResumeText, evals)[..|WeightedTitle|] == WeightedTitle
  {
    TitleTrimmed();
    TrimKeepsPrefix(WeightedTitle, WeightedBody(score, uploadedResumeText, NotMetEntries(evals, Bulleted)));
  }

  lemma TitleTrimmed()
    ensures WeightedTitle != [] && IsTrimmed(WeightedTitle)
  {
    assert WeightedTitle[0] == 'A' && WeightedTitle[|WeightedTitle| - 1] == 'e';
  }

  /** Trimming a string that starts with a non-empty trimmed `p` keeps `p`. */
  lemma TrimKeepsPrefix(p: string, rest: string)
    requires p != [] && IsTrimmed(p)
    ensures |Trim(p + rest)| >= |p| && Trim(p + rest)[..|p|] == p
  {
    var s := p + rest;
    assert s[0] == p[0];
    assert TrimStart(s) == s;
    var r := TrimEnd(s);
    assert s[|p| - 1] == p[|p| - 1];
    assert |r| >= |p|;
    assert r[..|p|] == s[..|p|];
    assert s[..|p|] == p;
  }
}
