/**
 * The `evaluations.filter(...)` selections both variants make: the
 * strengths (score 100), the gaps (score at most 20) and the requirements
 * the enhanced résumé lists (status other than `Yes`).
 */
module Selection {
  import opened Scoring

  /** Which evaluations a selection keeps. */
  datatype Pick = FullScore | LowScore | NotMet

  /** The filter's test: `ev.score === 100`, `ev.score <= 20`, `ev.status !== 'Yes'`. */
  predicate Picks(p: Pick, e: Evaluation) {
    match p
    case FullScore => e.score == 100
    case LowScore => e.score <= 20
    case NotMet => e.status != Yes
  }

  /**
   * `filter`: the evaluations that pass the test. Every one kept passes it
   * and every one that passes is kept.
   */
  function Select(evals: seq<Evaluation>, p: Pick): (r: seq<Evaluation>)
    ensures |r| <= |evals|
    ensures forall k :: 0 <= k < |r| ==> r[k] in evals && Picks(p, r[k])
    ensures forall k :: 0 <= k < |evals| && Picks(p, evals[k]) ==> evals[k] in r
  {
    if evals == [] then []
    else
      var front := evals[..|evals| - 1];
      var e := evals[|evals| - 1];
      assert evals == front + [e];
      Select(front, p) + (if Picks(p, e) then [e] else [])
  }

  /** The selection keeps the evaluations' order: it distributes over concatenation. */
  lemma {:induction false} SelectAppend(a: seq<Evaluation>, b: seq<Evaluation>, p: Pick)
    ensures Select(a + b, p) == Select(a, p) + Select(b, p)
  {
    if b == [] {
      assert a + b == a;
    } else {
      var front := b[..|b| - 1];
      assert (a + b)[..|a + b| - 1] == a + front;
      SelectAppend(a, front, p);
    }
  }

  /** Nothing is selected exactly when no evaluation passes the test. */
  lemma {:induction false} SelectEmpty(evals: seq<Evaluation>, p: Pick)
    ensures Select(evals, p) == [] <==> forall k :: 0 <= k < |evals| ==> !Picks(p, evals[k])
  {
    if evals != [] {
      var front := evals[..|evals| - 1];
      SelectEmpty(front, p);
      assert forall k :: 0 <= k < |front| ==> front[k] == evals[k];
    }
  }

  /** `map(ev => ev.requirement)`. */
  function Names(evals: seq<Evaluation>): (r: seq<string>)
    ensures |r| == |evals| && forall k :: 0 <= k < |r| ==> r[k] == evals[k].requirement
  {
    seq(|evals|, k requires 0 <= k < |evals| => evals[k].requirement)
  }

  /** The requirements scoring 100. */
  function Strengths(evals: seq<Evaluation>): seq<string> {
    Names(Select(evals, FullScore))
  }

  /** The requirements scoring 20 or less. */
  function Gaps(evals: seq<Evaluation>): seq<string> {
    Names(Select(evals, LowScore))
  }

  /** Evaluations of the same requirement are the same evaluation. */
  predicate Consistent(evals: seq<Evaluation>) {
    forall i, j :: 0 <= i < |evals| && 0 <= j < |evals| && evals[i].requirement == evals[j].requirement ==> evals[i] == evals[j]
  }

  /**
   * The strengths are exactly the requirements of the evaluations scoring
   * 100, and the gaps those of the evaluations scoring at most 20.
   */
  lemma StrengthsAndGapsExact(evals: seq<Evaluation>, k: nat)
    requires k < |evals|
    ensures evals[k].score == 100 ==> evals[k].requirement in Strengths(evals)
    ensures evals[k].score <= 20 ==> evals[k].requirement in Gaps(evals)
    ensures forall r :: r in Strengths(evals) ==> exists i :: 0 <= i < |evals| && evals[i].requirement == r && evals[i].score == 100
    ensures forall r :: r in Gaps(evals) ==> exists i :: 0 <= i < |evals| && evals[i].requirement == r && evals[i].score <= 20
  {
    SelectedNames(evals, FullScore, k);
    SelectedNames(evals, LowScore, k);
  }

  /** The names of a selection are exactly the requirements of the evaluations it picks. */
  lemma SelectedNames(evals: seq<Evaluation>, p: Pick, k: nat)
    requires k < |evals|
    ensures Picks(p, evals[k]) ==> evals[k].requirement in Names(Select(evals, p))
    ensures forall r :: r in Names(Select(evals, p)) ==> exists i :: 0 <= i < |evals| && evals[i].requirement == r && Picks(p, evals[i])
  {
    var picked := Select(evals, p);
    if Picks(p, evals[k]) {
      var m :| 0 <= m < |picked| && picked[m] == evals[k];
      assert Names(picked)[m] == evals[k].requirement;
    }
    forall r | r in Names(picked)
      ensures exists i :: 0 <= i < |evals| && evals[i].requirement == r && Picks(p, evals[i])
    {
      var m :| 0 <= m < |picked| && picked[m].requirement == r;
      var i :| 0 <= i < |evals| && evals[i] == picked[m];
    }
  }

  /**
   * When each requirement has one evaluation, no requirement is both a
   * strength and a gap.
   */
  lemma StrengthsGapsDisjoint(evals: seq<Evaluation>)
    requires Consistent(evals)
    ensures forall r :: r in Strengths(evals) ==> r !in Gaps(evals)
  {
    var full, low := Select(evals, FullScore), Select(evals, LowScore);
    forall r | r in Strengths(evals)
      ensures r !in Gaps(evals)
    {
      var m :| 0 <= m < |full| && full[m].requirement == r;
      var i :| 0 <= i < |evals| && evals[i] == full[m];
      forall n | 0 <= n < |low|
        ensures low[n].requirement != r
      {
        var j :| 0 <= j < |evals| && evals[j] == low[n];
      }
    }
  }
}
