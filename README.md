# Résumé fit analyzer: the scoring engine

This project models the scoring engine of a browser tool. The tool compares a
résumé with a job description, and the repository ships it twice:

- `app/app.js` is the weighted variant. It stems words and counts critical
  terms twice. It also accepts a synonym of a term as a match.
- `app.js` is the plain variant. It counts the requirement's tokens that the
  résumé holds.

Both variants run the same pipeline:

1. The job description is cut into requirements (module `Requirements`).
   The primary path keeps the lines of at least 15 characters, strips their
   leading `-`/`*` markers and keeps at most 60. When fewer than 3 lines
   qualify, the fallback splits the raw text on `.` and `;` and keeps up to
   40 pieces longer than 25 characters.
2. The résumé becomes a token set and a sentence index (modules `Tokens` and
   `Evidence`). Tokenizing normalises the text, lower-cases it, blanks out
   punctuation, splits on whitespace, and drops short words and stop words.
3. Each requirement gets an evaluation (modules `WeightedEvaluator` and
   `PlainEvaluator`). The evaluation holds a score from 0 to 100 and a status
   of `Yes`, `Partially` or `No`. It also holds the evidence, which is the
   earliest résumé sentence sharing the most tokens with the requirement.
4. The evaluations are aggregated (module `Analysis`). The overall score is
   the rounded mean. It is classified Strong, Moderate or Weak by the
   variant's cuts. The strengths are the requirements scoring 100 and the
   gaps those scoring 20 or less.

The shared code is modelled once: `normalize`, `tokenize`, `toSet`,
`extractRequirements`, `buildSentenceIndex` and `findEvidence` are the same
text in both files. `Scoring` holds what differs as data: the two threshold
tables and the half-up rounding.

The page state is a class, `Analysis.Session`. It holds:

- the status line;
- the globals the premium tools read (`lastOverallScore`, `lastEvaluations`,
  `lastClassification`);
- the enhanced résumé.

Module `Enhance` models how each variant writes the enhanced résumé from the
requirements that were not met.

Pure chains of `replace`, `split`, `map` and `filter` are functions.
The loops of the source are methods, each proved equal to its function:

- the primary loop of `extractRequirements`;
- both loops of `findEvidence`;
- the weight sums and the synonym loop of the weighted `evaluateRequirement`;
- the overlap count of the plain `evaluateRequirement`;
- the requirement loop of `runAnalysis`;
- the `forEach` of `generateEnhancedResume`.

The model keeps several quirks of the source:

- Critical-token and synonym lookups use the stem. The word `testing` is
  therefore not critical, and the word `training` does not look up the
  synonym key `training` (only `trainings` does, since it stems to it).
- Multi-word and hyphenated synonyms can never match.
- `stem` removes only one suffix, so it is not idempotent (`buses`, then
  `bus`, then `bu`).
- The length test of the primary path runs before the markers are stripped,
  so a kept requirement can be empty.
- In `app.js` an overall 80 is classified Moderate, although that label
  reads "50–79%".

## Model

| member | source | states |
|---|---|---|
| Strings.Trim | app/app.js:15 | `trim` removes exactly the whitespace at both ends: the result is the slice of the input after its leading whitespace, it ends in a non-space character, and only whitespace follows it |
| Strings.LeadingSpaces | app/app.js:15 | the count of leading whitespace characters: all of them are whitespace and the next one is not |
| Strings.Lower | app/app.js:20 | `toLowerCase` keeps the length and lower-cases each ASCII letter in place |
| Strings.Split | app/app.js:137 | splitting on a character class gives one piece more than there are separators; no piece holds a separator, every character comes from the input, and the pieces joined back with the separators, in order, give the input |
| Strings.Separators | app/app.js:137 | the separator characters of the input, in order, one per separator |
| Strings.SplitFreePrefix | app/app.js:137 | a prefix without separators joins the first piece of what follows it |
| Strings.SplitFree | app/app.js:137 | a string without separators is a single piece |
| Strings.SplitAtSeparator | app/app.js:137 | a separator after a prefix without separators closes that prefix as a piece, and the rest is split on |
| Strings.SplitUnique | app/app.js:137 | any list of separator-free pieces that joins back to the input with separator characters is what the split returns, so the split pieces are the segments of the input in order |
| Strings.TrimmedPieces | app/app.js:138-139 | trimming and filtering keeps every piece whose trimmed text is longer than the bound, and never gives more pieces than there were |
| Strings.TrimmedPiecesShape | app/app.js:152-154 | every piece kept is trimmed and longer than the bound |
| Strings.TrimmedPiecesAppend | app/app.js:138-139 | pieces are trimmed and filtered one at a time, in order |
| Strings.TrimmedPiecesAvoid | app/app.js:152-154 | trimming and filtering adds no character the pieces did not have |
| Strings.TrimChars | app/app.js:138 | every character of a trimmed string comes from the original |
| Strings.TrimOfTrimmed | app/app.js:15 | trimming a trimmed string changes nothing |
| Strings.SplitTrimTake | app/app.js:150-155 | a split, trimmed, filtered and capped list holds at most `n` pieces, each trimmed, longer than the bound and free of the separators |
| Strings.Take | app/app.js:155 | `slice(0, n)` keeps the first `min(n, length)` items |
| Strings.JoinSnoc | app.js:575 | `join` puts one separator between consecutive items, so one more item is appended after one more separator, in order |
| Tokens.ReplaceGlyphs | app/app.js:13-14 | each `\r` becomes `\n`, each bullet glyph becomes `-`, every other character stays in place; so no `\r` and no bullet glyph is left |
| Tokens.Normalize | app/app.js:11-16 | the normalised text is the glyph-replaced text without its surrounding whitespace: a slice after the leading whitespace with only whitespace after it, trimmed, with no `\r` and no bullet glyph |
| Tokens.NormalizeIdempotent | app/app.js:11-16 | normalising twice gives what normalising once gives |
| Tokens.Clean | app/app.js:21 | a letter, digit or whitespace character stays in place and every other character becomes a space, so only those characters are left |
| Tokens.InWordClass | app/app.js:21 | the class `[a-z0-9\s]` under the `i` flag; `Clean` states what becomes of characters in and out of it |
| Tokens.KeepTokens | app/app.js:23 | the filter keeps only words of the input that are longer than 2 characters and not stop words, keeps every such word, and never gives more words than it was given |
| Tokens.KeepTokensAppend | app/app.js:23 | the filter goes word by word: filtering a concatenation filters each part, so order and duplicates are kept |
| Tokens.KeptWord | app/app.js:23 | the filter test: longer than 2 characters and not a stop word; `KeepTokens` states the filter by it |
| Tokens.TokenizeShape | app/app.js:18-24 | every token is longer than 2 characters, made only of `a-z0-9`, and not a stop word; every word of the cleaned text that passes the filter is a token; and the tokens are the filtered segments of the cleaned text at its whitespace, in order |
| Tokens.Tokenize | app/app.js:18-24 | `tokenize` as the pipeline of the steps above; what it promises is stated by `TokenizeShape` |
| Tokens.WordsAreAlnum | app/app.js:21-22 | the words of blanked-out text are alphanumeric |
| Tokens.Words | app/app.js:22 | the pieces of the cleaned text between whitespace characters; `WordsAreAlnum` and `TokenizeShape` state what they are |
| Tokens.ToSet | app/app.js:26-28 | `toSet` holds exactly the tokens and has no more members than there are tokens |
| Tokens.StemStrips | app/app.js:127-129 | `stem` returns a prefix of the word; the removed part is one of `ing`, `ed`, `es`, `s` in any case; no longer suffix of that list ends the word |
| Tokens.EndsWithCIChars | app/app.js:128 | the case-insensitive suffix test, character by character |
| Tokens.EndsWithCILast | app/app.js:128 | a matched suffix agrees with the word's last character |
| Tokens.StemKeeps | app/app.js:128 | a word whose last letter is none of `s`, `d`, `g` is its own stem |
| Tokens.StemIng | app/app.js:128 | a word ending in `ing`, in any case, loses those three letters |
| Tokens.StemEs | app/app.js:128 | a word ending in `es` loses those two letters |
| Tokens.StemS | app/app.js:128 | a word ending in `s` but not `es` loses the `s` |
| Tokens.StemNotIdempotent | app/app.js:127-129 | a second `stem` can strip again: `buses` gives `bus`, then `bu` |
| Tokens.Stem | app/app.js:127-129 | `stem`; its contract is stated by `StemStrips` and the lemmas after it |
| Tokens.CountMembers | app/app.js:182-185 | the overlap count is at most the token count; it is 0 exactly when no token is in the set and the full count exactly when all are |
| Tokens.CountMembersMonotone | app/app.js:182-185 | a larger set never lowers the overlap count |
| Requirements.LinesShape | app/app.js:136-139 | the lines are non-empty, trimmed, and free of `\n` and `\r`; they are the non-empty trimmed segments of the normalised text between its line breaks, in order |
| Requirements.LinesOfSegments | app/app.js:136-139 | any segmentation of the normalised text at its line breaks gives the same lines after trimming and dropping empty ones |
| Requirements.Lines | app/app.js:136-139 | the lines of the normalised job description; stated by `LinesShape` |
| Requirements.StripMarkers | app/app.js:145 | `replace(/^[-*]+/, '')` removes exactly the leading run of markers |
| Requirements.KeptLine | app/app.js:145 | the stripped and trimmed text a kept line contributes; `KeptLineFrom` and `MarkerLineKeptEmpty` state it |
| Requirements.LineRequirement | app/app.js:144-146 | what one line contributes to the primary list; `LineRequirementOf` states it |
| Requirements.KeptLines | app/app.js:143-147 | the primary loop over the lines; `KeptLinesAtMost`, `KeptLinesAppend` and `KeptLineFrom` state it, and `KeepLongLines` is proved equal to it |
| Requirements.Primary | app/app.js:136-147 | the primary requirements of the job description; `ExtractRequirements` states how they are used |
| Requirements.KeptLinesAtMost | app/app.js:143-147 | the primary loop pushes at most one requirement per line |
| Requirements.KeptLinesAppend | app/app.js:143-147 | the primary path works line by line, in order, without deduplication |
| Requirements.FlatMapSnoc | app/app.js:143-147 | one more line adds only that line's contribution, at the end |
| Requirements.FlatMapFrom | app/app.js:143-147 | every item pushed comes from the contribution of one of the lines |
| Requirements.LineRequirementOf | app/app.js:144-146 | a line contributes a requirement only when it has at least 15 characters, and then its stripped and trimmed text |
| Requirements.KeptLineFrom | app/app.js:143-147 | every primary requirement is a line of at least 15 characters with its markers stripped and trimmed |
| Requirements.MarkerLineKeptEmpty | app/app.js:144-146 | the length test runs before stripping, so a line of 15 dashes is kept as an empty requirement |
| Requirements.FallbackShape | app/app.js:150-155 | the fallback gives at most 40 trimmed pieces, each longer than 25 characters and free of `.` and `;`; they are the first 40 such trimmed segments of the raw text between its `.` and `;` characters, in order |
| Requirements.Fallback | app/app.js:150-155 | the sentence split of the raw text; stated by `FallbackShape` |
| Requirements.KeepLongLines | app/app.js:141-147 | the primary loop's list is the line-by-line result |
| Requirements.ExtractRequirements | app/app.js:135-159 | the fallback is taken exactly when fewer than 3 lines qualify; otherwise the first 60 primary requirements; never more than 60 |
| Requirements.Extracted | app/app.js:135-159 | what `extractRequirements` returns; `ExtractRequirements` states its two cases |
| Evidence.SentenceIndexShape | app/app.js:164-175 | one entry per chunk, in order: entry k holds chunk k, and the chunks are the non-empty trimmed segments of the résumé between `\n . ! ?`; each text is non-empty, trimmed and free of those separators, and carries the set of its own tokens |
| Evidence.ChunksShape | app/app.js:165-168 | the chunks are non-empty, trimmed and free of the separators, at most one more than there are separators |
| Evidence.ChunksOfSegments | app/app.js:165-168 | any segmentation of the résumé at `\n . ! ?` gives the same chunks after trimming and dropping empty ones |
| Evidence.Chunks | app/app.js:165-168 | the chunks of `buildSentenceIndex`; stated by `ChunksShape` and `ChunksOfSegments` |
| Evidence.BuildSentenceIndex | app/app.js:164-175 | `buildSentenceIndex`; stated by `SentenceIndexShape` |
| Evidence.IndexOf | app/app.js:171-174 | one entry per chunk, in order, each holding the chunk and the set of its tokens |
| Evidence.BestSentence | app/app.js:177-194 | the evidence is at the earliest sentence of maximal positive overlap; there is none exactly when no sentence shares a token |
| Evidence.Overlap | app/app.js:182-185 | the overlap of a requirement with a sentence; `CountMembers` states it and `CountOverlap` is proved equal to it |
| Evidence.EvidenceSentence | app/app.js:177-194 | the text of the sentence `BestSentence` picks, or none; `FindEvidence` is proved equal to it |
| Evidence.CountOverlap | app/app.js:182-185 | the inner loop counts the tokens, duplicates included, that the sentence's set holds |
| Evidence.FindEvidence | app/app.js:177-194 | the loop returns the sentence at that position, and null exactly when every overlap is 0 |
| Evidence.EvidenceFor | app/app.js:239-241 | the evidence is the found sentence, or the sentinel text when there is none |
| Evidence.EvidenceText | app/app.js:239-241 | the found sentence or the sentinel; `EvidenceFor` and `NoOverlapNotMentioned` state it |
| Evidence.NoOverlapNotMentioned | app/app.js:239-241 | with no shared token the evidence is exactly `Not mentioned in text.` |
| Evidence.EvidenceFromIndex | app/app.js:240-241 | over a built index, a found sentence is the evidence |
| Scoring.StatusFor | app/app.js:233-236 | a score gets `Yes` from the variant's first cut, `Partially` from its second, and `No` below |
| Scoring.StatusMonotone | app/app.js:233-236 | a higher score never gets a lower status |
| Scoring.RoundedPercent | app/app.js:227-228 | `Math.round(100 * m / w)` is the integer nearest to the ratio, with halves rounded up |
| Scoring.RoundedPercentBounds | app/app.js:227-228 | a ratio of at most 1 rounds into [0, 100] |
| Scoring.RoundedPercentMonotone | app/app.js:227-228 | a larger numerator never rounds lower |
| Scoring.ClampedPercentMonotone | app/app.js:227-236 | a larger numerator never lowers the clamped score or the status it is tiered to |
| Scoring.RoundedPercentEnds | app/app.js:227-228 | no match rounds to 0 and a full match to 100 |
| Scoring.RoundedMean | app/app.js:470-472 | `Math.round(sum / n)` is the integer nearest to the mean, with halves rounded up |
| Scoring.RoundedMeanBounds | app/app.js:470-472 | a mean of scores in [0, 100] rounds into [0, 100] |
| Scoring.Clamp | app/app.js:229-230 | a score below 0 becomes 0, one above 100 becomes 100, and one in [0, 100] is kept |
| Scoring.ClampScore | app/app.js:229-230 | the two `if`s are the clamp |
| Scoring.Tier | app/app.js:233-236 | the `if` chain picks that status |
| WeightedEvaluator.Weight | app/app.js:210 | a stem weighs 2 exactly when it is critical, and 1 otherwise |
| WeightedEvaluator.StemAll | app/app.js:204 | each token is replaced by its stem, in place |
| WeightedEvaluator.TotalWeight | app/app.js:208-212 | the total weight lies between the stem count and twice that, so the fallback at line 212 is never taken |
| WeightedEvaluator.MatchedWeight | app/app.js:214-226 | the matched weight never exceeds the total weight |
| WeightedEvaluator.Evaluate | app/app.js:200-249 | null exactly when the requirement has no token; otherwise the requirement text, a score in [0, 100], the status of the 60/30 cuts, and the evidence of the unstemmed tokens |
| WeightedEvaluator.SumWeights | app/app.js:208-211 | the first `forEach` sums the weights |
| WeightedEvaluator.SumMatchedWeights | app/app.js:215-226 | the second `forEach` sums the matched weights |
| WeightedEvaluator.SynonymWeight | app/app.js:217-225 | the synonym loop adds the stem's weight exactly when some stemmed, lower-cased synonym is in the résumé set, and then only once |
| WeightedEvaluator.SynonymsOf | app/app.js:218 | the synonym list of a stem, or the stem alone; used by `SynonymWeight` |
| WeightedEvaluator.Matches | app/app.js:219-222 | some synonym, lower-cased and stemmed, is in the résumé set; `SynonymWeight` is proved against it |
| WeightedEvaluator.EvaluateRequirement | app/app.js:200-249 | the method returns that evaluation |
| WeightedEvaluator.MatchedWeightFull | app/app.js:214-226 | the whole weight is covered exactly when every stem matches |
| WeightedEvaluator.MatchedWeightNone | app/app.js:214-226 | no weight is covered exactly when no stem matches |
| WeightedEvaluator.MatchedWeightMonotone | app/app.js:214-226 | a larger résumé set never covers less weight |
| WeightedEvaluator.EvaluateRatio | app/app.js:227-228 | the score is the rounded percentage of matched over total weight, and the total is positive |
| WeightedEvaluator.EvaluateExtremes | app/app.js:227-236 | all stems matching give 100 and `Yes`; none matching give 0 and `No` |
| WeightedEvaluator.EvaluateMonotone | app/app.js:214-236 | a larger résumé set never lowers the score or the status |
| WeightedEvaluator.ResumeStemsAlnum | app/app.js:457-458 | every member of the stemmed résumé set is alphanumeric |
| WeightedEvaluator.ResumeStemSet | app/app.js:457-458 | the stems of the résumé's tokens as a set; `ResumeStemsAlnum` states what they are made of |
| WeightedEvaluator.NonAlnumSynonymNeverMatches | app/app.js:220-221 | a synonym whose stemmed form holds a non-alphanumeric character never matches |
| WeightedEvaluator.SpacedSynonymNeverMatches | app/app.js:220-221 | the same for a synonym ending in none of `s`, `d`, `g` that holds such a character |
| WeightedEvaluator.TestingNotCritical | app/app.js:118-119 | the word `testing` looks up `test`, which weighs 1 |
| WeightedEvaluator.AuditingEntryUnreached | app/app.js:118 | the word `auditing` looks up `audit`, not the `auditing` entry |
| WeightedEvaluator.AnalysisNotCritical | app/app.js:119 | the word `analysis` looks up `analysi`, which weighs 1 |
| WeightedEvaluator.TrainingKeyUnused | app/app.js:103 | the word `training` looks up `train`, which is no key, so only `train` is tried |
| WeightedEvaluator.QualityManagementNeverMatches | app/app.js:101 | the synonym `quality management` never matches any résumé |
| WeightedEvaluator.KeyPerformanceNeverMatches | app/app.js:104 | the synonym `key performance` never matches any résumé |
| WeightedEvaluator.NonConformityNeverMatches | app/app.js:106 | the synonym `non-conformity` never matches any résumé |
| PlainEvaluator.Evaluate | app.js:99-129 | null exactly when the requirement has no token; otherwise the requirement text, a score in [0, 100], the status of the 80/30 cuts, and the evidence |
| PlainEvaluator.EvaluateRequirement | app.js:99-129 | the method returns that evaluation |
| PlainEvaluator.EvaluateRatio | app.js:108-109 | the score is the rounded percentage of tokens, duplicates included, that the plain résumé set holds |
| PlainEvaluator.EvaluateExtremes | app.js:108-117 | all tokens present give 100 and `Yes`; none present give 0 and `No` |
| PlainEvaluator.EvaluateMonotone | app.js:103-117 | a larger résumé set never lowers the score or the status |
| PlainEvaluator.ResumeTokenSet | app.js:299-300 | the set of the résumé's tokens; `Tokens.ToSet` states its members, and `Analysis.ResumeSet` picks it for app.js |
| Selection.Select | app/app.js:488-493 | `filter` keeps exactly the evaluations that pass the test |
| Selection.SelectAppend | app/app.js:488-493 | the filter keeps the evaluations' order |
| Selection.SelectEmpty | app/app.js:488-493 | nothing is kept exactly when no evaluation passes |
| Selection.Names | app/app.js:490 | `map(ev => ev.requirement)` keeps the order |
| Selection.SelectedNames | app/app.js:488-493 | the names a filter-and-map gives are exactly the requirements of the evaluations the filter picks |
| Selection.StrengthsAndGapsExact | app/app.js:488-493 | the strengths are exactly the requirements scoring 100; the gaps exactly those scoring 20 or less |
| Selection.Strengths | app/app.js:488-490 | the requirements scoring 100, in order; `StrengthsAndGapsExact` states it |
| Selection.Gaps | app/app.js:491-493 | the requirements scoring 20 or less, in order; `StrengthsAndGapsExact` states it |
| Selection.StrengthsGapsDisjoint | app.js:373-387 | when each requirement has one evaluation, no requirement is both a strength and a gap |
| Enhance.Entries | app.js:570 | one entry per evaluation, in order |
| Enhance.Entry | app.js:570 | the `Experienced in …` line of app.js or the bullet of app/app.js for one requirement; `Entries` states it |
| Enhance.EntriesAppend | app.js:567-572 | the entries of two lists of evaluations are the entries of the first followed by those of the second |
| Enhance.NotMetEntriesExact | app.js:567-572 | the list holds exactly the entries of the evaluations whose status is not `Yes`, in order |
| Enhance.NotMetEntries | app.js:567-572 | the entries of the unmet evaluations; `NotMetEntriesExact`, `NotMetEntriesEmpty` and `CollectNotMet` state it |
| Enhance.NotMetEntriesEmpty | app.js:567-574 | the list is empty exactly when every evaluation is met |
| Enhance.CollectNotMet | app.js:567-572 | the `forEach` builds that list |
| Enhance.Dashed | app.js:575 | each item gets a `- ` prefix, in order |
| Enhance.PlainEnhancedResumeExtends | app.js:573-577 | the résumé text starts the enhanced résumé, and nothing is appended exactly when every requirement is met |
| Enhance.PlainDocument | app.js:573-577 | the résumé text with the unmet-requirements section appended; stated by `PlainEnhancedResumeExtends` |
| Enhance.PlainAddition | app.js:573-576 | the heading and the dashed lines, or nothing for an empty list; `PlainAdditionSnoc` and `PlainEnhancedResumeExtends` state it |
| Enhance.PlainAdditionSnoc | app.js:575 | one more unmet requirement adds one more dashed line, on a new line, at the end |
| Enhance.PlainEnhancedResume | app.js:566-578 | app.js's enhanced résumé; `PlainEnhancedResumeExtends` states it |
| Enhance.WeightedEnhancedResumeTitled | app/app.js:596-622 | the final `trim` never cuts into the title `ATS-Friendly Resume` |
| Enhance.Summary | app/app.js:598-605 | the summary tiered by the overall score: above 80, from 50, below |
| Enhance.WeightedDocument | app/app.js:596-622 | the ATS-style document, trimmed; stated by `WeightedEnhancedResumeTitled` |
| Enhance.WeightedAdditions | app/app.js:617-621 | the bulleted gap section, or the all-covered note for an empty list |
| Enhance.WeightedBody | app/app.js:606-621 | the summary, the trimmed original when there is one, and the additions section |
| Enhance.WeightedEnhancedResume | app/app.js:596-622 | app/app.js's enhanced résumé; `WeightedEnhancedResumeTitled` states it |
| Analysis.Cuts | app/app.js:474-486 | each variant's threshold table is ordered |
| Analysis.EvaluateIn | app/app.js:461 | each variant's evaluation returns null exactly for a requirement without tokens; otherwise the text, a score in [0, 100] and the variant's status |
| Analysis.ResumeSet | app/app.js:457-458 | the variant's résumé set: stems in app/app.js, tokens in app.js |
| Analysis.Outcomes | app/app.js:460-461 | one outcome per requirement, in order |
| Analysis.Present | app/app.js:462 | `if (ev) evaluations.push(ev)` keeps at most one evaluation per outcome |
| Analysis.PresentEmpty | app/app.js:462 | nothing is kept exactly when every outcome is null |
| Analysis.PresentFrom | app/app.js:462 | every kept evaluation is one of the outcomes |
| Analysis.PresentAppend | app/app.js:460-463 | the kept evaluations keep the outcomes' order |
| Analysis.EvaluationsFromRequirements | app/app.js:460-463 | each evaluation is the variant's evaluation of one of the requirements |
| Analysis.EvaluationsEmpty | app/app.js:460-464 | there is no evaluation exactly when no requirement has a token |
| Analysis.EvaluationsAppend | app/app.js:460-463 | the evaluations keep the requirement order |
| Analysis.Evaluations | app/app.js:460-463 | the evaluations of the requirements; stated by `EvaluationsFromRequirements`, `EvaluationsEmpty` and `EvaluationsAppend`, and `CollectEvaluations` is proved equal to it |
| Analysis.EvaluateWith | app/app.js:461 | the call dispatches to the variant's `evaluateRequirement` |
| Analysis.CollectEvaluations | app/app.js:460-463 | the requirement loop builds that list |
| Analysis.SumScoresBounds | app/app.js:470-471 | scores in [0, 100] sum to between 0 and 100 times their number |
| Analysis.SumScores | app/app.js:470-471 | the sum of the scores; `SumScoresBounds` states it |
| Analysis.OverallScore | app/app.js:470-472 | the overall score is the mean score rounded half up |
| Analysis.OverallScoreBounds | app/app.js:470-472 | the overall score lies in [0, 100] |
| Analysis.Classify | app/app.js:474-486 | Strong above the variant's upper cut, Moderate from its lower cut up to that cut, Weak below |
| Analysis.ClassifyMonotone | app/app.js:474-486 | a higher overall score never gets a lower classification |
| Analysis.PlainEightyIsModerate | app.js:326-331 | in app.js an overall 80 is Moderate, with the label reading 50–79% |
| Analysis.Label | app/app.js:474-486 | the classification label of each variant |
| Analysis.Explanation | app/app.js:474-486 | the explanation text of each variant |
| Analysis.BuildReport | app/app.js:470-493 | the aggregation computes the rounded mean, its classification by the variant's cuts, the label and explanation texts, and the strengths and gaps |
| Analysis.ReportOf | app/app.js:470-493 | the report of the evaluations; `BuildReport` is proved equal to it and `AnalyzeReport` states it |
| Analysis.AnalyzeLocally | app/app.js:453-494 | the local branch returns the report of what it extracted and evaluated |
| Analysis.AnalyzeReport | app/app.js:453-494 | no report exactly when no extracted requirement has a token; otherwise the evaluations come from the requirements, the score lies in [0, 100] and is classified by the variant's cuts, and strengths and gaps are disjoint |
| Analysis.Analyze | app/app.js:453-494 | the local analysis; stated by `AnalyzeReport` |
| Analysis.InputError | app/app.js:388-397 | the input is accepted exactly when both trimmed texts have at least 50 characters; a short résumé gives the résumé message, and otherwise a short job description gives the job-description message |
| Analysis.CheckInput | app/app.js:388-397 | the handler's two checks give the message `InputError` describes |
| Analysis.ShortInputRejected | app.js:276-285 | an input shorter than 50 characters, the empty one included, is always refused |
| Analysis.CoverLetterIffStrong | app/app.js:586 | a cover letter is written exactly for a Strong match, in both variants |
| Analysis.CoverLetterAllowed | app/app.js:586 | the cover-letter gate; `CoverLetterIffStrong` states it |
| Analysis.CoverLetterRefusal | app/app.js:586-589 | the refusal text of each variant (app.js:553-556 for the plain one) |
| Analysis.Session.constructor | app/app.js:288-291 | the globals start at 0, empty and empty |
| Analysis.Session.RunAnalysis | app/app.js:418-499 | the report is the local analysis; with none, the error message is set and the globals are kept; otherwise the globals take the score, the evaluations and the label |
| Analysis.Session.SaveOutcome | app/app.js:464-499 | the error message when there is no report, else the three globals; nothing else changes |
| Analysis.Session.AnalyzeClicked | app/app.js:381-405 | the status line is cleared; a short input is refused with its message and nothing else changes; otherwise the analysis runs, and when it gives no report the error message is set and the globals are kept, else the globals take the report |
| Analysis.Session.GenerateEnhancedResume | app/app.js:596-623 | app/app.js writes the ATS document from the stored score and evaluations; app.js appends the unmet requirements to the résumé text |

## Left out

- DOM look-ups, event listeners, `setTimeout`, the button's busy state and the `error` CSS class are not modelled. They are interface plumbing.
- File upload through `FileReader`, pdf.js and mammoth is not modelled. It is I/O through foreign libraries. The uploaded text is a parameter instead.
- The OpenAI branch of `runAnalysis` and `evaluateWithChatGPT` (app/app.js:37-85, 428-450) is not modelled. It is network I/O plus `JSON.parse`. As shipped it never runs, because the key is the empty string, so the model always takes the local branch. The error handler around the asynchronous call is left out with it.
- Payment gating, the `premiumPaid` flag, copy and cut interception, and `window.open` are not modelled. They are interface state with no computation.
- DOCX and PDF export are not modelled. They go through foreign libraries.
- The cover-letter template text is not modelled. Only its gate is: `CoverLetterAllowed` and the refusal text `CoverLetterRefusal`.
- Scoring.RoundedPercent: `Math.round` over a floating-point ratio is modelled as exact half-up integer rounding. Float results within rounding error of .5 are not chased.
- Scoring.RoundedMean: the same exact integer rounding stands in for `Math.round` over a floating-point mean.
- Requirements.LineRequirement: JavaScript's `.length` counts UTF-16 code units, while a Dafny `char` is one Unicode scalar value. A line holding characters outside the Basic Multilingual Plane, such as emoji, can therefore pass the 15-character test in the source and fail it here.
- Requirements.Fallback: the same difference in `.length` applies to the 25-character test on fallback pieces.
- Analysis.InputError: the same difference in `.length` applies to the 50-character tests on the trimmed inputs.
- Strings.Lower: only ASCII letters are lower-cased. Unicode case mapping is not modelled.
- Strings.Trim: `trim` and `\s` use a fixed ASCII whitespace set (space, tab, line feed, carriage return, vertical tab, form feed). Unicode spaces are not modelled.
- Tokens.Tokenize: `split(/\s+/)` is modelled as a split on each whitespace character. The extra empty pieces are dropped by the length filter, so the tokens are the same.
- WeightedEvaluator.SynonymsOf: the synonym table is a plain finite map. JavaScript also finds inherited keys such as `constructor` on the object literal; that is not modelled.
- WeightedEvaluator.Evaluate: the evaluator is stated for any tables. The program runs it with the shipped tables (`Shipped`).
- Analysis.Session.GenerateEnhancedResume: app.js recomputes the résumé text from the page inside the function. The model takes that text as a parameter.
