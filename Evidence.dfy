/**
 * The résumé sentence index and the evidence finder (app/app.js:165-194,
 * identical at app.js:64-93).
 */
module Evidence {
  import opened Wrappers
  import opened Strings
  import opened Tokens

  /** An entry of the index: a chunk of the résumé and its token set. */
  datatype Sentence = Sentence(text: string, tokens: set<string>)

  /** `buildSentenceIndex` splits on `/[\n.!?]/`. */
  const SentenceSeparators: set<char> := {'\n', '.', '!', '?'}

  /** The evidence text of a requirement no sentence supports. */
  const NotMentioned := "Not mentioned in text."

  /** `resumeText.split(/[\n.!?]/).map(s => s.trim()).filter(s => s.length > 0)`. */
  function Chunks(resume: string): seq<string> {
    TrimmedPieces(Split(resume, SentenceSeparators), 0)
  }

  /**
   * The chunks are non-empty and trimmed, hold no separator, and number at
   * most one more than the separators.
   */
  lemma ChunksShape(resume: string)
    ensures var chunks := Chunks(resume);
      |chunks| <= CountIn(resume, SentenceSeparators) + 1 &&
      Avoids(chunks, SentenceSeparators) && AllTrimmedLonger(chunks, 0)
  {
    var pieces := Split(resume, SentenceSeparators);
    assert Avoids(pieces, SentenceSeparators);
    TrimmedPiecesAvoid(pieces, 0, SentenceSeparators);
    TrimmedPiecesShape(pieces, 0);
  }

  /**
   * The chunks are the non-empty trimmed segments of the résumé between its
   * separators, in order: any segmentation of the résumé at its separators
   * yields them.
   */
  lemma ChunksOfSegments(resume: string)
    ensures forall segments, cuts :: Segments(resume, SentenceSeparators, segments, cuts) ==>
      Chunks(resume) == TrimmedPieces(segments, 0)
  {
    forall segments, cuts | Segments(resume, SentenceSeparators, segments, cuts)
      ensures Chunks(resume) == TrimmedPieces(segments, 0)
    {
      SplitUnique(resume, SentenceSeparators, segments, cuts);
    }
  }

  /**
   * `buildSentenceIndex`: one entry per chunk, in order, each carrying the
   * set of its own tokens (see `SentenceIndexShape`).
   */
  function BuildSentenceIndex(resume: string): seq<Sentence> {
    IndexOf(Chunks(resume))
  }

  /** One entry per chunk, in order, with the chunk's token set. */
  function IndexOf(chunks: seq<string>): (r: seq<Sentence>)
    ensures |r| == |chunks|
    ensures forall k :: 0 <= k < |r| ==> r[k].text == chunks[k] && r[k].tokens == ToSet(Tokenize(chunks[k]))
  {
    seq(|chunks|, k requires 0 <= k < |chunks| => Sentence(chunks[k], ToSet(Tokenize(chunks[k]))))
  }

  /**
   * The entries are the chunks in order (`ChunksOfSegments`: the non-empty
   * trimmed segments of the résumé), so there are at most one more than the
   * separators; each text is non-empty, trimmed and free of separators, and
   * carries the set of its own tokens.
   */
  lemma SentenceIndexShape(resume: string)
    ensures var r := BuildSentenceIndex(resume); var chunks := Chunks(resume);
      |r| == |chunks| && forall k :: 0 <= k < |r| ==> r[k].text == chunks[k]
    ensures forall segments, cuts :: Segments(resume, SentenceSeparators, segments, cuts) ==>
      Chunks(resume) == TrimmedPieces(segments, 0)
    ensures var r := BuildSentenceIndex(resume);
      |r| <= CountIn(resume, SentenceSeparators) + 1 &&
      (forall k :: 0 <= k < |r| ==> r[k].text != [] && IsTrimmed(r[k].text) && r[k].tokens == ToSet(Tokenize(r[k].text))) &&
      (forall k, j :: 0 <= k < |r| && 0 <= j < |r[k].text| ==> r[k].text[j] !in SentenceSeparators)
  {
    ChunksShape(resume);
    ChunksOfSegments(resume);
  }

  /** The overlap of `findEvidence`: requirement tokens, duplicates included, in the sentence's set. */
  function Overlap(tokens: seq<string>, s: Sentence): nat {
    CountMembers(tokens, s.tokens)
  }

  /**
   * The position of the evidence sentence: the earliest sentence of maximal
   * overlap, and none when no sentence shares a token.
   */
  function BestSentence(tokens: seq<string>, index: seq<Sentence>): (r: Option<nat>)
    ensures r.None? <==> forall k :: 0 <= k < |index| ==> Overlap(tokens, index[k]) == 0
    ensures r.Some? ==> r.value < |index| && Overlap(tokens, index[r.value]) >= 1
    ensures r.Some? ==> forall k :: 0 <= k < |index| ==> Overlap(tokens, index[k]) <= Overlap(tokens, index[r.value])
    ensures r.Some? ==> forall k :: 0 <= k < r.value ==> Overlap(tokens, index[k]) < Overlap(tokens, index[r.value])
  {
    if index == [] then None
    else
      var n := |index| - 1;
      var front := index[..n];
      assert forall k :: 0 <= k < n ==> front[k] == index[k];
      var b := BestSentence(tokens, front);
      var bestOverlap := if b.None? then 0 else Overlap(tokens, index[b.value]);
      if Overlap(tokens, index[n]) > bestOverlap then Some(n) else b
  }

  /** The text at that position, as `findEvidence` returns it. */
  function EvidenceSentence(tokens: seq<string>, index: seq<Sentence>): Option<string> {
    var b := BestSentence(tokens, index);
    if b.None? then None else Some(index[b.value].text)
  }

  /**
   * The inner loop of `findEvidence`: how many of the tokens, duplicates
   * included, the set holds.
   */
  method CountOverlap(tokens: seq<string>, s: set<string>) returns (overlap: nat)
    ensures overlap == CountMembers(tokens, s)
  {
    overlap := 0;
    for j := 0 to |tokens|
      invariant overlap == CountMembers(tokens[..j], s)
    {
      assert tokens[..j + 1][..j] == tokens[..j];
      if tokens[j] in s {
        overlap := overlap + 1;
      }
    }
    assert tokens[..|tokens|] == tokens;
  }

  /**
   * `findEvidence`: the loop over the sentences counts each overlap and
   * replaces the best one only on a strictly larger count.
   */
  method FindEvidence(requirementTokens: seq<string>, sentenceIndex: seq<Sentence>) returns (best: Option<string>)
    ensures best == EvidenceSentence(requirementTokens, sentenceIndex)
    ensures best.None? <==> forall k :: 0 <= k < |sentenceIndex| ==> Overlap(requirementTokens, sentenceIndex[k]) == 0
  {
    var bestSentence: Option<string> := None;
    var bestOverlap := 0;
    ghost var bestIndex: Option<nat> := None;
    for i := 0 to |sentenceIndex|
      invariant bestIndex == BestSentence(requirementTokens, sentenceIndex[..i])
      invariant bestIndex.Some? ==> bestIndex.value < i
      invariant bestOverlap == if bestIndex.None? then 0 else Overlap(requirementTokens, sentenceIndex[bestIndex.value])
      invariant bestSentence == if bestIndex.None? then None else Some(sentenceIndex[bestIndex.value].text)
    {
      var s := sentenceIndex[i];
      var overlap := CountOverlap(requirementTokens, s.tokens);
      assert sentenceIndex[..i + 1][..i] == sentenceIndex[..i];
      if overlap > bestOverlap {
        bestOverlap := overlap;
        bestSentence := Some(s.text);
        bestIndex := Some(i);
      }
    }
    assert sentenceIndex[..|sentenceIndex|] == sentenceIndex;
    if bestOverlap >= 1 {
      return bestSentence;
    }
    return None;
  }

  /**
   * The evidence of an evaluation: the found sentence when it is a non-empty
   * string (JavaScript's truthiness test), else the sentinel.
   */
  function EvidenceText(found: Option<string>): string {
    if found.Some? && found.value != [] then found.value else NotMentioned
  }

  /** The evaluators' `let evidence = …; if (evSentence) evidence = evSentence;`. */
  method EvidenceFor(tokens: seq<string>, sentenceIndex: seq<Sentence>) returns (evidence: string)
    ensures evidence == EvidenceText(EvidenceSentence(tokens, sentenceIndex))
  {
    evidence := NotMentioned;
    var evSentence := FindEvidence(tokens, sentenceIndex);
    if evSentence.Some? && evSentence.value != [] {
      evidence := evSentence.value;
    }
  }

  /** When no sentence shares a token with the requirement, the evidence is the sentinel exactly. */
  lemma NoOverlapNotMentioned(tokens: seq<string>, index: seq<Sentence>)
    requires forall k :: 0 <= k < |index| ==> Overlap(tokens, index[k]) == 0
    ensures EvidenceText(EvidenceSentence(tokens, index)) == NotMentioned
  {
  }

  /**
   * Over an index built from a résumé, the evidence is the earliest sentence
   * of maximal positive overlap whenever one exists.
   */
  lemma EvidenceFromIndex(tokens: seq<string>, resume: string)
    ensures var index := BuildSentenceIndex(resume);
      var b := BestSentence(tokens, index);
      b.Some? ==> EvidenceText(EvidenceSentence(tokens, index)) == index[b.value].text
  {
  }
}
