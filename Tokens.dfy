/**
 * The text normaliser, the tokenizer and the suffix stemmer that both
 * variants of the scoring engine share (app/app.js:5-28 and 127-129).
 */
module Tokens {
  import opened Strings

  /** The English and Malay stop words dropped by the tokenizer. */
  const StopWords: set<string> := {
    "the", "and", "or", "for", "with", "from", "that", "this", "you", "your", "are", "was", "were",
    "dan", "atau", "yang", "dengan", "untuk", "pada", "serta", "dll", "etc", "kepada", "di",
    "of", "in", "to", "a", "an", "is", "as", "by", "be"
  }

  /** The bullet glyphs `•`, the small black square and the black circle. */
  const Bullets: set<char> := {'\U{2022}', '\U{25AA}', '\U{25CF}'}

  /**
   * Both `replace` calls of `normalize`: `\r` becomes `\n`, a bullet glyph
   * becomes `-` and every other character stays, so no carriage return and
   * no bullet glyph is left.
   */
  function ReplaceGlyphs(s: string): (r: string)
    ensures |r| == |s|
    ensures forall k :: 0 <= k < |s| ==>
      (s[k] == '\r' ==> r[k] == '\n') && (s[k] in Bullets ==> r[k] == '-') &&
      (s[k] != '\r' && s[k] !in Bullets ==> r[k] == s[k])
    ensures forall k :: 0 <= k < |r| ==> r[k] != '\r' && r[k] !in Bullets
  {
    seq(|s|, k requires 0 <= k < |s| =>
      if s[k] == '\r' then '\n' else if s[k] in Bullets then '-' else s[k])
  }

  /**
   * `normalize`: line endings unified, bullet glyphs replaced, both ends
   * trimmed. The result is the slice of the replaced text after its leading
   * whitespace, with only whitespace after it; it holds no carriage return
   * and no bullet glyph.
   */
  function Normalize(text: string): (r: string)
    ensures IsTrimmed(r)
    ensures var g := ReplaceGlyphs(text); var i := LeadingSpaces(g);
      i + |r| <= |g| && r == g[i..i + |r|] && forall k :: i + |r| <= k < |g| ==> IsSpace(g[k])
    ensures forall k :: 0 <= k < |r| ==> r[k] != '\r' && r[k] !in Bullets
  {
    var g := ReplaceGlyphs(text);
    var r := Trim(g);
    TrimChars(g);
    r
  }

  /** Normalising twice gives what normalising once gives. */
  lemma NormalizeIdempotent(text: string)
    ensures Normalize(Normalize(text)) == Normalize(text)
  {
    var n := Normalize(text);
    assert ReplaceGlyphs(n) == n;
    TrimOfTrimmed(n);
  }

  predicate IsAlnum(c: char) {
    'a' <= c <= 'z' || '0' <= c <= '9'
  }

  /** The class `[a-z0-9\s]` under the `i` flag: an ASCII letter or digit, or whitespace. */
  predicate InWordClass(c: char) {
    IsAlnum(c) || 'A' <= c <= 'Z' || IsSpace(c)
  }

  /**
   * `replace(/[^a-z0-9\s]/gi, ' ')`: whatever is not a letter, a digit or
   * whitespace becomes a space (the `i` flag keeps upper-case letters too);
   * the rest stays, so only characters of the class are left.
   */
  function Clean(s: string): (r: string)
    ensures |r| == |s|
    ensures forall k :: 0 <= k < |s| ==>
      (InWordClass(s[k]) ==> r[k] == s[k]) && (!InWordClass(s[k]) ==> r[k] == ' ')
    ensures forall k :: 0 <= k < |r| ==> InWordClass(r[k])
  {
    seq(|s|, k requires 0 <= k < |s| => if InWordClass(s[k]) then s[k] else ' ')
  }

  /** What the tokenizer promises of every token it returns. */
  predicate IsToken(w: string) {
    KeptWord(w) && forall j :: 0 <= j < |w| ==> IsAlnum(w[j])
  }

  /** The filter's test. */
  predicate KeptWord(w: string) {
    |w| > 2 && w !in StopWords
  }

  /** `filter(w => w.length > 2 && !stopWords.has(w))`, in order, duplicates kept. */
  function KeepTokens(words: seq<string>): (r: seq<string>)
    ensures |r| <= |words|
    ensures forall k :: 0 <= k < |r| ==> r[k] in words && KeptWord(r[k])
    ensures forall k :: 0 <= k < |words| && KeptWord(words[k]) ==> words[k] in r
  {
    if words == [] then []
    else
      var w := words[0];
      var rest := KeepTokens(words[1..]);
      assert forall k :: 0 < k < |words| ==> words[k] == words[1..][k - 1];
      (if KeptWord(w) then [w] else []) + rest
  }

  /** The filter goes word by word: it keeps the order and the duplicates. */
  lemma {:induction false} KeepTokensAppend(a: seq<string>, b: seq<string>)
    ensures KeepTokens(a + b) == KeepTokens(a) + KeepTokens(b)
  {
    if a == [] {
      assert a + b == b;
    } else {
      ConsAppend(a, b);
      KeepTokensAppend(a[1..], b);
      var w := a[0];
      Associative(if KeptWord(w) then [w] else [], KeepTokens(a[1..]), KeepTokens(b));
    }
  }

  /** The words of `s`: the pieces between whitespace characters. */
  function Words(s: string): seq<string> {
    Split(s, Whitespace)
  }

  /**
   * `tokenize`: normalise, lower-case, blank out punctuation, split on
   * whitespace and drop short words and stop words.
   */
  function Tokenize(text: string): seq<string> {
    KeepTokens(Words(Clean(Lower(Normalize(text)))))
  }

  /**
   * Every token is longer than two characters, alphanumeric and not a stop
   * word; every word of the cleaned text that passes the filter is a token;
   * and the tokens are the kept words of the cleaned text's segments at its
   * whitespace, in order and with duplicates (see `KeepTokensAppend`).
   */
  lemma TokenizeShape(text: string)
    ensures var r := Tokenize(text); forall k :: 0 <= k < |r| ==> IsToken(r[k])
    ensures var r := Tokenize(text); var ws := Words(Clean(Lower(Normalize(text))));
      forall k :: 0 <= k < |ws| && KeptWord(ws[k]) ==> ws[k] in r
    ensures forall words, gaps :: Segments(Clean(Lower(Normalize(text))), Whitespace, words, gaps) ==>
      Tokenize(text) == KeepTokens(words)
  {
    WordsAreAlnum(Normalize(text), Tokenize(text));
    var c := Clean(Lower(Normalize(text)));
    forall words, gaps | Segments(c, Whitespace, words, gaps) ensures Tokenize(text) == KeepTokens(words) {
      SplitUnique(c, Whitespace, words, gaps);
    }
  }

  /** The words of cleaned text, and anything drawn from them, are alphanumeric. */
  lemma WordsAreAlnum(s: string, r: seq<string>)
    requires forall k :: 0 <= k < |r| ==> r[k] in Words(Clean(Lower(s)))
    ensures forall k, j :: 0 <= k < |r| && 0 <= j < |r[k]| ==> IsAlnum(r[k][j])
  {
    var c := Clean(Lower(s));
    assert forall k :: 0 <= k < |c| ==> IsAlnum(c[k]) || IsSpace(c[k]);
    var words := Words(c);
    forall k, j | 0 <= k < |r| && 0 <= j < |r[k]| ensures IsAlnum(r[k][j]) {
      var i :| 0 <= i < |words| && words[i] == r[k];
      assert r[k][j] in c && !IsSpace(r[k][j]);
    }
  }

  /** `toSet`: the distinct tokens; never more of them than tokens. */
  function ToSet(tokens: seq<string>): (r: set<string>)
    ensures forall t :: t in r <==> t in tokens
    ensures |r| <= |tokens|
  {
    if tokens == [] then {}
    else
      var front := tokens[..|tokens| - 1];
      assert tokens == front + [tokens[|tokens| - 1]];
      ToSet(front) + {tokens[|tokens| - 1]}
  }

  /** The suffixes `/(?:ing|ed|es|s)$/i` matches, by decreasing length. */
  const Suffixes: seq<string> := ["ing", "ed", "es", "s"]

  /** `w` ends with `suf`, compared without regard to ASCII case. */
  predicate EndsWithCI(w: string, suf: string) {
    |suf| <= |w| && Lower(w[|w| - |suf|..]) == suf
  }

  /**
   * `stem`: the regular expression's leftmost match is removed, which is the
   * longest suffix of the list that `w` ends with (see `StemStrips`).
   */
  function Stem(w: string): string {
    if EndsWithCI(w, "ing") then w[..|w| - 3]
    else if EndsWithCI(w, "ed") || EndsWithCI(w, "es") then w[..|w| - 2]
    else if EndsWithCI(w, "s") then w[..|w| - 1]
    else w
  }

  /**
   * Exactly one suffix is removed: `w` is the stem followed by a suffix of
   * the list (or by nothing), and no longer suffix of the list ends `w`.
   */
  lemma StemStrips(w: string)
    ensures |Stem(w)| <= |w| && Stem(w) == w[..|Stem(w)|]
    ensures |Stem(w)| < |w| ==> Lower(w[|Stem(w)|..]) in Suffixes
    ensures |w| - |Stem(w)| < 3 ==> !EndsWithCI(w, "ing")
    ensures |w| - |Stem(w)| < 2 ==> !EndsWithCI(w, "ed") && !EndsWithCI(w, "es")
    ensures Stem(w) == w ==> !EndsWithCI(w, "s")
  {
    var n := |w|;
    if EndsWithCI(w, "ing") {
      assert Lower(w[n - 3..]) == Suffixes[0];
    } else if EndsWithCI(w, "ed") {
      assert Lower(w[n - 2..]) == Suffixes[1];
    } else if EndsWithCI(w, "es") {
      assert Lower(w[n - 2..]) == Suffixes[2];
    } else if EndsWithCI(w, "s") {
      assert Lower(w[n - 1..]) == Suffixes[3];
    }
  }

  /** `EndsWithCI`, character by character. */
  lemma EndsWithCIChars(w: string, suf: string)
    requires |suf| <= |w|
    ensures EndsWithCI(w, suf) <==>
      forall j :: 0 <= j < |suf| ==> LowerChar(w[|w| - |suf| + j]) == suf[j]
  {
    var t := w[|w| - |suf|..];
    assert forall j :: 0 <= j < |suf| ==> t[j] == w[|w| - |suf| + j];
  }

  /** A word whose last letter is none of `s`, `d`, `g` keeps its form. */
  lemma StemKeeps(w: string)
    requires |w| > 0 && LowerChar(w[|w| - 1]) != 's' && LowerChar(w[|w| - 1]) != 'd' && LowerChar(w[|w| - 1]) != 'g'
    ensures Stem(w) == w
  {
    if EndsWithCI(w, "ing") { EndsWithCILast(w, "ing"); }
    if EndsWithCI(w, "ed") { EndsWithCILast(w, "ed"); }
    if EndsWithCI(w, "es") { EndsWithCILast(w, "es"); }
    if EndsWithCI(w, "s") { EndsWithCILast(w, "s"); }
  }

  /** A matched suffix agrees with the word's last character. */
  lemma EndsWithCILast(w: string, suf: string)
    requires |suf| > 0 && EndsWithCI(w, suf)
    ensures LowerChar(w[|w| - 1]) == suf[|suf| - 1]
  {
    var t := w[|w| - |suf|..];
    assert t[|suf| - 1] == w[|w| - 1];
  }

  /** A word ending in `ing`, in any case, loses it. */
  lemma StemIng(w: string)
    requires |w| >= 3 && LowerChar(w[|w| - 3]) == 'i' && LowerChar(w[|w| - 2]) == 'n' && LowerChar(w[|w| - 1]) == 'g'
    ensures Stem(w) == w[..|w| - 3]
  {
    EndsWithCIChars(w, "ing");
  }

  /** A word ending in `es`, in any case, loses it. */
  lemma StemEs(w: string)
    requires |w| >= 2 && LowerChar(w[|w| - 2]) == 'e' && LowerChar(w[|w| - 1]) == 's'
    ensures Stem(w) == w[..|w| - 2]
  {
    if |w| >= 3 { EndsWithCIChars(w, "ing"); }
    EndsWithCIChars(w, "es");
  }

  /** A word ending in `s` but not `es`, in any case, loses the `s`. */
  lemma StemS(w: string)
    requires |w| >= 2 && LowerChar(w[|w| - 2]) != 'e' && LowerChar(w[|w| - 1]) == 's'
    ensures Stem(w) == w[..|w| - 1]
  {
    if |w| >= 3 { EndsWithCIChars(w, "ing"); }
    EndsWithCIChars(w, "ed");
    EndsWithCIChars(w, "es");
    EndsWithCIChars(w, "s");
  }

  /** `stem` is not idempotent: a second application removes another suffix. */
  lemma StemNotIdempotent()
    ensures Stem("buses") == "bus" && Stem(Stem("buses")) == "bu"
  {
    StemEs("buses");
    assert "buses"[..3] == "bus";
    StemS("bus");
    assert "bus"[..2] == "bu";
  }

  /**
   * The overlap the evidence finder and the unweighted evaluator count: how
   * many of `tokens`, duplicates included, belong to `s`.
   */
  function CountMembers(tokens: seq<string>, s: set<string>): (r: nat)
    ensures r <= |tokens|
    ensures r == 0 <==> forall k :: 0 <= k < |tokens| ==> tokens[k] !in s
    ensures r == |tokens| <==> forall k :: 0 <= k < |tokens| ==> tokens[k] in s
  {
    if tokens == [] then 0
    else
      var front := tokens[..|tokens| - 1];
      assert forall k :: 0 <= k < |front| ==> front[k] == tokens[k];
      CountMembers(front, s) + (if tokens[|tokens| - 1] in s then 1 else 0)
  }

  /** A larger set never lowers the count. */
  lemma {:induction false} CountMembersMonotone(tokens: seq<string>, s: set<string>, s': set<string>)
    requires s <= s'
    ensures CountMembers(tokens, s) <= CountMembers(tokens, s')
  {
    if tokens != [] {
      CountMembersMonotone(tokens[..|tokens| - 1], s, s');
    }
  }
}
