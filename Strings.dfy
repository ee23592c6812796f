/**
 * String helpers shared by the tokenizer, the requirement extractor and the
 * sentence index: JavaScript's `trim`, `split` on a character class,
 * `toLowerCase`, `slice(0, n)` and `join`, restricted to ASCII.
 */
module Strings {

  /** The whitespace characters `\s` and `trim` recognise in this model. */
  const Whitespace: set<char> := {' ', '\t', '\n', '\r', '\U{000B}', '\U{000C}'}

  predicate IsSpace(c: char) {
    c in Whitespace
  }

  /** No whitespace at either end. */
  predicate IsTrimmed(s: string) {
    s == [] || (!IsSpace(s[0]) && !IsSpace(s[|s| - 1]))
  }

  /** The number of whitespace characters `s` starts with. */
  function LeadingSpaces(s: string): (n: nat)
    ensures n <= |s| && forall k :: 0 <= k < n ==> IsSpace(s[k])
    ensures n < |s| ==> !IsSpace(s[n])
  {
    if s != [] && IsSpace(s[0]) then 1 + LeadingSpaces(s[1..]) else 0
  }

  function TrimStart(s: string): (r: string)
    ensures |r| <= |s| && r == s[|s| - |r|..]
    ensures forall k :: 0 <= k < |s| - |r| ==> IsSpace(s[k])
    ensures r == [] || !IsSpace(r[0])
  {
    s[LeadingSpaces(s)..]
  }

  function TrimEnd(s: string): (r: string)
    ensures |r| <= |s| && r == s[..|r|]
    ensures forall k :: |r| <= k < |s| ==> IsSpace(s[k])
    ensures r == [] || !IsSpace(r[|r| - 1])
  {
    if s != [] && IsSpace(s[|s| - 1]) then TrimEnd(s[..|s| - 1]) else s
  }

  /**
   * JavaScript's `trim`: the whitespace at both ends is removed. The result
   * is the slice of `s` after its leading whitespace that ends with a
   * non-space character and has only whitespace after it.
   */
  function Trim(s: string): (r: string)
    ensures IsTrimmed(r) && |r| <= |s|
    ensures var i := LeadingSpaces(s);
      i + |r| <= |s| && r == s[i..i + |r|] && forall k :: i + |r| <= k < |s| ==> IsSpace(s[k])
  {
    var t := TrimStart(s);
    var r := TrimEnd(t);
    assert r == s[|s| - |t|..|s| - |t| + |r|];
    r
  }

  /** The trimmed string is a slice of `s`, so each of its characters comes from `s`. */
  lemma TrimChars(s: string)
    ensures forall k :: 0 <= k < |Trim(s)| ==> Trim(s)[k] in s
  {
    var t := TrimStart(s);
    SliceChars(s, |s| - |t|, |s|);
    SliceChars(t, 0, |Trim(s)|);
  }

  /** Every character of a slice is a character of the whole. */
  lemma SliceChars(s: string, i: nat, j: nat)
    requires i <= j <= |s|
    ensures forall c :: c in s[i..j] ==> c in s
  {
    forall c | c in s[i..j] ensures c in s {
      var k :| 0 <= k < j - i && s[i..j][k] == c;
      assert s[i + k] == c;
    }
  }

  lemma TrimOfTrimmed(s: string)
    requires IsTrimmed(s)
    ensures Trim(s) == s
  {
  }

  function LowerChar(c: char): char {
    if 'A' <= c <= 'Z' then (c as int - 'A' as int + 'a' as int) as char else c
  }

  /** `toLowerCase` on ASCII letters; every other character is kept. */
  function Lower(s: string): (r: string)
    ensures |r| == |s|
    ensures forall k :: 0 <= k < |s| ==> r[k] == LowerChar(s[k])
  {
    seq(|s|, k requires 0 <= k < |s| => LowerChar(s[k]))
  }

  /** The number of characters of `s` that belong to `seps`. */
  function CountIn(s: string, seps: set<char>): nat {
    if s == [] then 0 else (if s[0] in seps then 1 else 0) + CountIn(s[1..], seps)
  }

  /** The characters of `s` that belong to `seps`, in order. */
  function Separators(s: string, seps: set<char>): (r: string)
    ensures |r| == CountIn(s, seps)
    ensures forall k :: 0 <= k < |r| ==> r[k] in seps
  {
    if s == [] then [] else (if s[0] in seps then [s[0]] else []) + Separators(s[1..], seps)
  }

  /** `pieces[0] + cuts[0] + pieces[1] + cuts[1] + ... + pieces[n]`. */
  function Interleave(pieces: seq<string>, cuts: string): string
    requires |pieces| == |cuts| + 1
    decreases |cuts|
  {
    if cuts == [] then pieces[0] else pieces[0] + [cuts[0]] + Interleave(pieces[1..], cuts[1..])
  }

  /** No character of `a` belongs to `seps`. */
  predicate Free(a: string, seps: set<char>) {
    forall j :: 0 <= j < |a| ==> a[j] !in seps
  }

  /**
   * `pieces` are the segments of `s` between the separator characters `cuts`:
   * joined back with those characters they give `s`, and none holds a separator.
   */
  predicate Segments(s: string, seps: set<char>, pieces: seq<string>, cuts: string) {
    |pieces| == |cuts| + 1 && Avoids(pieces, seps) &&
    (forall k :: 0 <= k < |cuts| ==> cuts[k] in seps) &&
    Interleave(pieces, cuts) == s
  }

  /**
   * `s.split(/[...]/)` for the character class `seps`: the segments of `s`
   * between its separators, in order. Joined back with the separators the
   * pieces give `s`, no piece holds a separator, and every character of a
   * piece is a character of `s`. `SplitUnique` shows these are the only such
   * pieces.
   */
  function Split(s: string, seps: set<char>): (r: seq<string>)
    ensures |r| == CountIn(s, seps) + 1
    ensures forall i, j :: 0 <= i < |r| && 0 <= j < |r[i]| ==> r[i][j] !in seps && r[i][j] in s
    ensures Interleave(r, Separators(s, seps)) == s
  {
    if s == [] then [[]]
    else
      var rest := Split(s[1..], seps);
      if s[0] in seps then
        SplitStepSeparator(s, seps, rest);
        [[]] + rest
      else
        SplitStepChar(s, seps, rest);
        [[s[0]] + rest[0]] + rest[1..]
  }

  /** The three facts `Split` ensures, as one predicate for its two steps. */
  predicate IsSplit(s: string, seps: set<char>, r: seq<string>) {
    |r| == CountIn(s, seps) + 1 &&
    (forall i, j :: 0 <= i < |r| && 0 <= j < |r[i]| ==> r[i][j] !in seps && r[i][j] in s) &&
    Interleave(r, Separators(s, seps)) == s
  }

  /** A leading separator opens an empty first piece. */
  lemma SplitStepSeparator(s: string, seps: set<char>, rest: seq<string>)
    requires s != [] && s[0] in seps && IsSplit(s[1..], seps, rest)
    ensures IsSplit(s, seps, [[]] + rest)
  {
    var r := [[]] + rest;
    assert r[1..] == rest;
    assert forall i :: 0 < i < |r| ==> r[i] == rest[i - 1];
    assert Separators(s, seps)[1..] == Separators(s[1..], seps);
    assert [s[0]] + s[1..] == s;
  }

  /** A leading non-separator joins the first piece. */
  lemma SplitStepChar(s: string, seps: set<char>, rest: seq<string>)
    requires s != [] && s[0] !in seps && IsSplit(s[1..], seps, rest)
    ensures IsSplit(s, seps, [[s[0]] + rest[0]] + rest[1..])
  {
    SplitStepCharPieces(s, seps, rest);
    assert Separators(s, seps) == Separators(s[1..], seps);
    InterleaveHead([s[0]], rest, Separators(s[1..], seps));
    assert [s[0]] + s[1..] == s;
  }

  lemma SplitStepCharPieces(s: string, seps: set<char>, rest: seq<string>)
    requires s != [] && s[0] !in seps && IsSplit(s[1..], seps, rest)
    ensures var r := [[s[0]] + rest[0]] + rest[1..];
      forall i, j :: 0 <= i < |r| && 0 <= j < |r[i]| ==> r[i][j] !in seps && r[i][j] in s
  {
    var r := [[s[0]] + rest[0]] + rest[1..];
    assert forall j :: 0 < j < |r[0]| ==> r[0][j] == rest[0][j - 1];
    assert forall i :: 0 < i < |r| ==> r[i] == rest[i];
  }

  /** Prepending to the first piece prepends to the joined string. */
  lemma {:induction false} InterleaveHead(p: string, pieces: seq<string>, cuts: string)
    requires |pieces| == |cuts| + 1
    ensures Interleave([p + pieces[0]] + pieces[1..], cuts) == p + Interleave(pieces, cuts)
  {
    var q := [p + pieces[0]] + pieces[1..];
    if cuts != [] {
      assert q[1..] == pieces[1..];
      var tail := Interleave(pieces[1..], cuts[1..]);
      Associative(p, pieces[0] + [cuts[0]], tail);
      Associative(p, pieces[0], [cuts[0]]);
    }
  }

  /**
   * A prefix free of separators joins the first piece of what follows it:
   * `Split(a + b) == [a + Split(b)[0]] + Split(b)[1..]`.
   */
  lemma {:induction false} SplitFreePrefix(a: string, b: string, seps: set<char>)
    requires Free(a, seps)
    ensures var sb := Split(b, seps);
      Split(a + b, seps) == [a + sb[0]] + sb[1..] && Separators(a + b, seps) == Separators(b, seps)
  {
    var sb := Split(b, seps);
    if a == [] {
      assert a + b == b && a + sb[0] == sb[0];
      assert [sb[0]] + sb[1..] == sb;
    } else {
      ConsAppend(a, b);
      assert Free(a[1..], seps);
      SplitFreePrefix(a[1..], b, seps);
      SplitFirstChar(a[0], a[1..] + b, seps);
      assert [a[0]] + (a[1..] + b) == a + b by {
        Associative([a[0]], a[1..], b);
        assert [a[0]] + a[1..] == a;
      }
      Associative([a[0]], a[1..], sb[0]);
      assert [a[0]] + a[1..] == a;
    }
  }

  /** A first character that is not a separator starts the first piece. */
  lemma SplitFirstChar(c: char, t: string, seps: set<char>)
    requires c !in seps
    ensures var st := Split(t, seps);
      Split([c] + t, seps) == [[c] + st[0]] + st[1..] && Separators([c] + t, seps) == Separators(t, seps)
  {
    assert ([c] + t)[1..] == t;
  }

  /** A string free of separators is one piece. */
  lemma SplitFree(a: string, seps: set<char>)
    requires Free(a, seps)
    ensures Split(a, seps) == [a]
  {
    SplitFreePrefix(a, [], seps);
    assert a + [] == a;
  }

  /** A separator after a free prefix closes that prefix as a piece. */
  lemma SplitAtSeparator(a: string, c: char, b: string, seps: set<char>)
    requires Free(a, seps) && c in seps
    ensures Split(a + [c] + b, seps) == [a] + Split(b, seps)
    ensures Separators(a + [c] + b, seps) == [c] + Separators(b, seps)
  {
    var cb := [c] + b;
    assert a + [c] + b == a + cb;
    assert cb[1..] == b;
    SplitFreePrefix(a, cb, seps);
    assert a + [] == a;
  }

  /**
   * The round trip: `Split` recovers any segmentation of a string at its
   * separators, so its pieces are the only segments there are.
   */
  lemma {:induction false} SplitUnique(s: string, seps: set<char>, pieces: seq<string>, cuts: string)
    requires Segments(s, seps, pieces, cuts)
    ensures Split(s, seps) == pieces && Separators(s, seps) == cuts
    decreases |cuts|
  {
    assert Free(pieces[0], seps);
    if cuts == [] {
      SplitFree(pieces[0], seps);
      SplitFreePrefix(pieces[0], [], seps);
      assert pieces[0] + [] == pieces[0];
    } else {
      var rest := Interleave(pieces[1..], cuts[1..]);
      assert Segments(rest, seps, pieces[1..], cuts[1..]) by {
        assert forall i :: 0 <= i < |pieces[1..]| ==> pieces[1..][i] == pieces[i + 1];
      }
      SplitUnique(rest, seps, pieces[1..], cuts[1..]);
      SplitAtSeparator(pieces[0], cuts[0], rest, seps);
      assert [pieces[0]] + pieces[1..] == pieces;
      assert [cuts[0]] + cuts[1..] == cuts;
    }
  }

  /**
   * `pieces.map(p => p.trim()).filter(p => p.length > longerThan)`;
   * `filter(Boolean)` and `filter(s => s.length > 0)` are `longerThan == 0`.
   */
  function TrimmedPieces(pieces: seq<string>, longerThan: nat): (r: seq<string>)
    ensures |r| <= |pieces|
    ensures forall k :: 0 <= k < |pieces| && |Trim(pieces[k])| > longerThan ==> Trim(pieces[k]) in r
  {
    if pieces == [] then []
    else
      var t := Trim(pieces[0]);
      var rest := TrimmedPieces(pieces[1..], longerThan);
      assert forall k :: 0 < k < |pieces| ==> pieces[k] == pieces[1..][k - 1];
      (if |t| > longerThan then [t] else []) + rest
  }

  predicate AllTrimmedLonger(items: seq<string>, longerThan: nat) {
    forall k :: 0 <= k < |items| ==> IsTrimmed(items[k]) && |items[k]| > longerThan
  }

  /** Every piece kept is trimmed and longer than the bound. */
  lemma {:induction false} TrimmedPiecesShape(pieces: seq<string>, longerThan: nat)
    ensures AllTrimmedLonger(TrimmedPieces(pieces, longerThan), longerThan)
  {
    if pieces != [] {
      TrimmedPiecesShape(pieces[1..], longerThan);
      var t := Trim(pieces[0]);
      var head := if |t| > longerThan then [t] else [];
      AllTrimmedLongerAppend(head, TrimmedPieces(pieces[1..], longerThan), longerThan);
    }
  }

  lemma AllTrimmedLongerAppend(a: seq<string>, b: seq<string>, longerThan: nat)
    requires AllTrimmedLonger(a, longerThan) && AllTrimmedLonger(b, longerThan)
    ensures AllTrimmedLonger(a + b, longerThan)
  {
    forall k | 0 <= k < |a + b| ensures IsTrimmed((a + b)[k]) && |(a + b)[k]| > longerThan {
      if k < |a| { assert (a + b)[k] == a[k]; } else { assert (a + b)[k] == b[k - |a|]; }
    }
  }

  /** Pieces are trimmed and filtered one at a time, in order. */
  lemma {:induction false} TrimmedPiecesAppend(a: seq<string>, b: seq<string>, longerThan: nat)
    ensures TrimmedPieces(a + b, longerThan) == TrimmedPieces(a, longerThan) + TrimmedPieces(b, longerThan)
  {
    if a == [] {
      assert a + b == b;
    } else {
      ConsAppend(a, b);
      TrimmedPiecesAppend(a[1..], b, longerThan);
      var t := Trim(a[0]);
      Associative(if |t| > longerThan then [t] else [], TrimmedPieces(a[1..], longerThan), TrimmedPieces(b, longerThan));
    }
  }

  lemma Associative<T>(x: seq<T>, y: seq<T>, z: seq<T>)
    ensures x + (y + z) == (x + y) + z
  {
  }

  lemma ConsAppend<T>(a: seq<T>, b: seq<T>)
    requires a != []
    ensures (a + b)[0] == a[0] && (a + b)[1..] == a[1..] + b
  {
  }

  /** No piece holds a character of `avoid`. */
  predicate Avoids(pieces: seq<string>, avoid: set<char>) {
    forall i, j :: 0 <= i < |pieces| && 0 <= j < |pieces[i]| ==> pieces[i][j] !in avoid
  }

  /** Trimming and filtering keeps only characters the pieces already had. */
  lemma {:induction false} TrimmedPiecesAvoid(pieces: seq<string>, longerThan: nat, avoid: set<char>)
    requires Avoids(pieces, avoid)
    ensures Avoids(TrimmedPieces(pieces, longerThan), avoid)
  {
    if pieces != [] {
      assert Avoids(pieces[1..], avoid) by {
        forall i, j | 0 <= i < |pieces[1..]| && 0 <= j < |pieces[1..][i]| ensures pieces[1..][i][j] !in avoid {
          assert pieces[1..][i] == pieces[i + 1];
        }
      }
      TrimmedPiecesAvoid(pieces[1..], longerThan, avoid);
      var t := Trim(pieces[0]);
      var head := if |t| > longerThan then [t] else [];
      var rest := TrimmedPieces(pieces[1..], longerThan);
      TrimChars(pieces[0]);
      assert Avoids(head, avoid) by {
        forall j | 0 <= j < |t| ensures t[j] !in avoid {
          var m :| 0 <= m < |pieces[0]| && pieces[0][m] == t[j];
        }
      }
      AvoidsAppend(head, rest, avoid);
      assert TrimmedPieces(pieces, longerThan) == head + rest;
    }
  }

  lemma AvoidsAppend(a: seq<string>, b: seq<string>, avoid: set<char>)
    requires Avoids(a, avoid) && Avoids(b, avoid)
    ensures Avoids(a + b, avoid)
  {
    forall i, j | 0 <= i < |a + b| && 0 <= j < |(a + b)[i]| ensures (a + b)[i][j] !in avoid {
      if i < |a| { assert (a + b)[i] == a[i]; } else { assert (a + b)[i] == b[i - |a|]; }
    }
  }

  /**
   * `s.split(seps).map(trim).filter(p => p.length > longerThan).slice(0, n)`:
   * at most `n` trimmed pieces, each longer than the bound and free of the
   * separators.
   */
  lemma {:induction false} SplitTrimTake(s: string, seps: set<char>, longerThan: nat, n: nat)
    ensures var r := Take(TrimmedPieces(Split(s, seps), longerThan), n);
      |r| <= n && Avoids(r, seps) && AllTrimmedLonger(r, longerThan)
  {
    var pieces := Split(s, seps);
    assert Avoids(pieces, seps);
    TrimmedPiecesAvoid(pieces, longerThan, seps);
    TrimmedPiecesShape(pieces, longerThan);
    TakeShape(TrimmedPieces(pieces, longerThan), n, seps, longerThan);
  }

  /** A prefix of pieces that avoid `seps` and are trimmed and long keeps both properties. */
  lemma TakeShape(kept: seq<string>, n: nat, seps: set<char>, longerThan: nat)
    requires Avoids(kept, seps) && AllTrimmedLonger(kept, longerThan)
    ensures var r := Take(kept, n);
      |r| <= n && Avoids(r, seps) && AllTrimmedLonger(r, longerThan)
  {
    var r := Take(kept, n);
    assert forall k :: 0 <= k < |r| ==> r[k] == kept[k];
  }

  /** `s.slice(0, n)`: the first `n` items, or all of them when there are fewer. */
  function Take<T>(s: seq<T>, n: nat): (r: seq<T>)
    ensures |r| == if |s| <= n then |s| else n
    ensures r == s[..|r|]
  {
    if |s| <= n then s else s[..n]
  }

  /** `items.join(sep)`. */
  function Join(items: seq<string>, sep: string): (r: string)
    ensures items == [] ==> r == []
    ensures |items| == 1 ==> r == items[0]
  {
    if items == [] then []
    else if |items| == 1 then items[0]
    else items[0] + sep + Join(items[1..], sep)
  }

  /** One more item is appended after one more separator, so the items appear in order. */
  lemma {:induction false} JoinSnoc(items: seq<string>, x: string, sep: string)
    requires items != []
    ensures Join(items + [x], sep) == Join(items, sep) + sep + x
    decreases |items|
  {
    var ix := items + [x];
    assert ix[0] == items[0];
    if |items| == 1 {
      assert ix[1..] == [x];
    } else {
      assert ix[1..] == items[1..] + [x];
      JoinSnoc(items[1..], x, sep);
      Associative(items[0] + sep, Join(items[1..], sep) + sep, x);
      Associative(items[0] + sep, Join(items[1..], sep), sep);
    }
  }
}
