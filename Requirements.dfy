/**
 * The requirement extractor `extractRequirements` (app/app.js:135-159,
 * identical at app.js:34-58): the lines of the normalised job description,
 * with a sentence split of the raw text as fallback.
 */
module Requirements {
  import opened Strings
  import opened Tokens

  /** A line shorter than this is skipped. */
  const MinLineLength := 15
  /** The primary path keeps at most this many requirements. */
  const MaxLines := 60
  /** Fewer primary requirements than this send the extractor to the fallback. */
  const MinLineCount := 3
  /** A fallback sentence must be longer than this. */
  const MinSentenceLength := 25
  /** The fallback keeps at most this many sentences. */
  const MaxSentences := 40

  /** `normalize(jdText).split('\n').map(l => l.trim()).filter(Boolean)`. */
  function Lines(jd: string): seq<string> {
    TrimmedPieces(Split(Normalize(jd), {'\n'}), 0)
  }

  /**
   * The lines are non-empty and trimmed, and hold no line break or carriage
   * return. They are the non-empty trimmed segments of the normalised text
   * between its line breaks, in order.
   */
  lemma LinesShape(jd: string)
    ensures var lines := Lines(jd);
      Avoids(lines, {'\n', '\r'}) &&
      forall k :: 0 <= k < |lines| ==> lines[k] != [] && IsTrimmed(lines[k])
    ensures forall segments, breaks :: Segments(Normalize(jd), {'\n'}, segments, breaks) ==>
      Lines(jd) == TrimmedPieces(segments, 0)
  {
    var n := Normalize(jd);
    var pieces := Split(n, {'\n'});
    assert Avoids(pieces, {'\n', '\r'}) by {
      forall i, j | 0 <= i < |pieces| && 0 <= j < |pieces[i]| ensures pieces[i][j] !in {'\n', '\r'} {
        var m :| 0 <= m < |n| && n[m] == pieces[i][j];
      }
    }
    TrimmedPiecesAvoid(pieces, 0, {'\n', '\r'});
    TrimmedPiecesShape(pieces, 0);
    LinesOfSegments(jd);
  }

  /** Any segmentation of the normalised text at its line breaks yields the same lines. */
  lemma LinesOfSegments(jd: string)
    ensures forall segments, breaks :: Segments(Normalize(jd), {'\n'}, segments, breaks) ==>
      Lines(jd) == TrimmedPieces(segments, 0)
  {
    forall segments, breaks | Segments(Normalize(jd), {'\n'}, segments, breaks)
      ensures Lines(jd) == TrimmedPieces(segments, 0)
    {
      SplitUnique(Normalize(jd), {'\n'}, segments, breaks);
    }
  }

  predicate IsMarker(c: char) {
    c == '-' || c == '*'
  }

  /**
   * `replace(/^[-*]+/, '')`: the leading run of `-` and `*` is removed, so
   * the result is a suffix of `line` that does not start with a marker.
   */
  function StripMarkers(line: string): (r: string)
    ensures |r| <= |line| && r == line[|line| - |r|..]
    ensures forall k :: 0 <= k < |line| - |r| ==> IsMarker(line[k])
    ensures r == [] || !IsMarker(r[0])
  {
    if line != [] && IsMarker(line[0]) then StripMarkers(line[1..]) else line
  }

  /** What the primary loop pushes for a line it keeps. */
  function KeptLine(line: string): string {
    Trim(StripMarkers(line))
  }

  /**
   * The items each line contributes, concatenated in line order; built from
   * the end, as a loop that pushes line by line builds it.
   */
  function FlatMap(lines: seq<string>, f: string -> seq<string>): seq<string> {
    if lines == [] then []
    else FlatMap(lines[..|lines| - 1], f) + f(lines[|lines| - 1])
  }

  lemma FlatMapSnoc(lines: seq<string>, line: string, f: string -> seq<string>)
    ensures FlatMap(lines + [line], f) == FlatMap(lines, f) + f(line)
  {
    var s := lines + [line];
    assert s[..|s| - 1] == lines;
  }

  lemma {:induction false} FlatMapAppend(a: seq<string>, b: seq<string>, f: string -> seq<string>)
    ensures FlatMap(a + b, f) == FlatMap(a, f) + FlatMap(b, f)
  {
    if b == [] {
      assert a + b == a;
    } else {
      var b', last := b[..|b| - 1], b[|b| - 1];
      assert b == b' + [last];
      FlatMapAppend(a, b', f);
      Associative(a, b', [last]);
      FlatMapSnoc(a + b', last, f);
      FlatMapSnoc(b', last, f);
      Associative(FlatMap(a, f), FlatMap(b', f), f(last));
    }
  }

  /** Every item comes from one of the lines. */
  lemma {:induction false} FlatMapFrom(lines: seq<string>, f: string -> seq<string>, k: nat)
    requires k < |FlatMap(lines, f)|
    ensures exists i, j :: 0 <= i < |lines| && 0 <= j < |f(lines[i])| && FlatMap(lines, f)[k] == f(lines[i])[j]
  {
    var front := lines[..|lines| - 1];
    var rf := FlatMap(front, f);
    var last := lines[|lines| - 1];
    if k < |rf| {
      FlatMapFrom(front, f, k);
      var i, j :| 0 <= i < |front| && 0 <= j < |f(front[i])| && rf[k] == f(front[i])[j];
      assert front[i] == lines[i];
    } else {
      assert FlatMap(lines, f)[k] == f(last)[k - |rf|];
    }
  }

  /** The primary loop's output over `lines`, before the cap. */
  function KeptLines(lines: seq<string>): seq<string> {
    FlatMap(lines, LineRequirement)
  }

  /** What one line contributes: its requirement when it has at least 15 characters, else nothing. */
  function LineRequirement(line: string): seq<string> {
    if |line| >= MinLineLength then [KeptLine(line)] else []
  }

  /**
   * The primary path works line by line: the lines of `a + b` give the
   * requirements of `a` followed by those of `b`, in order and without
   * deduplication.
   */
  lemma KeptLinesAppend(a: seq<string>, b: seq<string>)
    ensures KeptLines(a + b) == KeptLines(a) + KeptLines(b)
  {
    FlatMapAppend(a, b, LineRequirement);
  }

  /** `req` is what the primary loop pushes for one of the lines of at least 15 characters. */
  predicate FromLongLine(req: string, lines: seq<string>) {
    exists i :: 0 <= i < |lines| && |lines[i]| >= MinLineLength && req == KeptLine(lines[i])
  }

  /** Every requirement of the primary path comes from a line of at least 15 characters. */
  lemma KeptLineFrom(lines: seq<string>, k: nat)
    requires k < |KeptLines(lines)|
    ensures FromLongLine(KeptLines(lines)[k], lines)
  {
    FlatMapFrom(lines, LineRequirement, k);
    var i, j :| 0 <= i < |lines| && 0 <= j < |LineRequirement(lines[i])| && KeptLines(lines)[k] == LineRequirement(lines[i])[j];
    LineRequirementOf(lines[i], j);
  }

  lemma LineRequirementOf(line: string, j: nat)
    requires j < |LineRequirement(line)|
    ensures |line| >= MinLineLength && LineRequirement(line)[j] == KeptLine(line)
  {
  }

  /** At most one requirement per line. */
  lemma {:induction false} KeptLinesAtMost(lines: seq<string>)
    ensures |KeptLines(lines)| <= |lines|
  {
    if lines != [] {
      KeptLinesAtMost(lines[..|lines| - 1]);
    }
  }

  /**
   * The length test comes before the markers are stripped, so a kept
   * requirement can be shorter than 15 characters, even empty.
   */
  lemma MarkerLineKeptEmpty()
    ensures KeptLines(["---------------"]) == [""]
  {
    var line := "---------------";
    assert |line| == MinLineLength;
    assert forall k :: 0 <= k < |line| ==> IsMarker(line[k]);
    assert StripMarkers(line) == [];
    assert LineRequirement(line) == [""];
    var none: seq<string> := [];
    FlatMapSnoc(none, line, LineRequirement);
    assert none + [line] == [line];
  }

  /** The requirements of the primary path, before the cap of 60. */
  function Primary(jd: string): seq<string> {
    KeptLines(Lines(jd))
  }

  /** The fallback: the raw text split on `.` and `;`, trimmed, long pieces only, at most 40. */
  function Fallback(jd: string): seq<string> {
    Take(TrimmedPieces(Split(jd, {'.', ';'}), MinSentenceLength), MaxSentences)
  }

  /**
   * Fallback pieces are trimmed, longer than 25 characters and free of `.`
   * and `;`. They are the first 40 such trimmed segments of the raw text
   * between its `.` and `;` characters, in order.
   */
  lemma FallbackShape(jd: string)
    ensures var r := Fallback(jd);
      |r| <= MaxSentences && Avoids(r, {'.', ';'}) && AllTrimmedLonger(r, MinSentenceLength)
    ensures forall segments, cuts :: Segments(jd, {'.', ';'}, segments, cuts) ==>
      Fallback(jd) == Take(TrimmedPieces(segments, MinSentenceLength), MaxSentences)
  {
    SplitTrimTake(jd, {'.', ';'}, MinSentenceLength, MaxSentences);
    forall segments, cuts | Segments(jd, {'.', ';'}, segments, cuts)
      ensures Fallback(jd) == Take(TrimmedPieces(segments, MinSentenceLength), MaxSentences)
    {
      SplitUnique(jd, {'.', ';'}, segments, cuts);
    }
  }

  /**
   * The primary loop: a line of at least 15 characters is kept with its
   * leading markers stripped and the rest trimmed.
   */
  method KeepLongLines(lines: seq<string>) returns (requirements: seq<string>)
    ensures requirements == KeptLines(lines)
  {
    requirements := [];
    for i := 0 to |lines|
      invariant requirements == KeptLines(lines[..i])
    {
      assert lines[..i + 1][..i] == lines[..i];
      var line := lines[i];
      if |line| < MinLineLength {
        continue;
      }
      line := Trim(StripMarkers(line));
      requirements := requirements + [line];
    }
    assert lines[..|lines|] == lines;
  }

  /** What `extractRequirements` returns. */
  function Extracted(jd: string): seq<string> {
    var primary := Primary(jd);
    if |primary| < MinLineCount then Fallback(jd) else Take(primary, MaxLines)
  }

  /**
   * `extractRequirements`: the primary loop over the lines, then the
   * fallback when fewer than three lines qualified, else the first 60.
   */
  method ExtractRequirements(jdText: string) returns (r: seq<string>)
    ensures r == Extracted(jdText)
    ensures |Primary(jdText)| < MinLineCount ==> r == Fallback(jdText)
    ensures |Primary(jdText)| >= MinLineCount ==> r == Take(Primary(jdText), MaxLines)
    ensures |r| <= MaxLines
  {
    var requirements := KeepLongLines(Lines(jdText));
    if |requirements| < MinLineCount {
      FallbackShape(jdText);
      r := Fallback(jdText);
      return;
    }
    r := Take(requirements, MaxLines);
  }
}
