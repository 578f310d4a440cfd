/**
 * computeResults of h5p-sort-paragraphs-content.js: the correctness of each
 * position (or of each pair of neighbours) and the score, in the two
 * scoring modes, together with the option defaults of the constructor.
 *
 * `order[p]` is the id of the paragraph at position p; `texts[i]` is the
 * plain text of paragraph i, so the text shown at position p is
 * `texts[order[p]]` and the solution's text at p is `texts[p]`.
 */
module Scoring {
  import opened Wrappers
  import opened Js
  import opened Order

  datatype Mode = Positions | Transitions | OtherMode

  datatype Options = Options(mode: Mode, penalties: bool, duplicatesInterchangeable: bool)

  /**
   * The constructor's options: the scoring mode defaults to 'transitions'
   * when falsy, penalties default to true unless a boolean is given, and
   * duplicatesInterchangeable is used by truthiness.
   */
  function OptionsFrom(scoringMode: Value, penalties: Value, duplicates: Value): (o: Options)
    ensures o.mode == Positions <==> scoringMode == Str("positions")
    ensures o.mode == Transitions <==> scoringMode == Str("transitions") || !Truthy(scoringMode)
    ensures o.penalties <==> !penalties.Bool? || penalties.b
    ensures o.duplicatesInterchangeable <==> Truthy(duplicates)
  {
    var mode := Or(scoringMode, Str("transitions"));
    Options(
      if mode == Str("positions") then Positions
      else if mode == Str("transitions") then Transitions
      else OtherMode,
      if TypeOf(penalties) != TBoolean then true else penalties.b,
      Truthy(duplicates))
  }

  /** The number of true entries. */
  function Count(c: seq<bool>): (r: nat)
    ensures r <= |c|
  {
    if |c| == 0 then 0 else Count(c[..|c| - 1]) + (if c[|c| - 1] then 1 else 0)
  }

  lemma {:induction false} CountAllTrue(c: seq<bool>)
    ensures Count(c) == |c| <==> forall p :: 0 <= p < |c| ==> c[p]
  {
    if |c| > 0 {
      var front := c[..|c| - 1];
      CountAllTrue(front);
      if forall p :: 0 <= p < |c| ==> c[p] {
        assert forall p :: 0 <= p < |front| ==> front[p] by {
          forall p | 0 <= p < |front| ensures front[p] { assert front[p] == c[p]; }
        }
      } else if c[|c| - 1] {
        var p :| 0 <= p < |c| && !c[p];
        assert !front[p];
      }
    }
  }

  /** The paragraph ids fit the texts: what the list of the content guarantees. */
  predicate WellFormed(order: seq<nat>, texts: seq<string>) {
    |order| == |texts| && forall p :: 0 <= p < |order| ==> order[p] < |texts|
  }

  // ---------------------------------------------------------------------------
  // Positions mode
  // ---------------------------------------------------------------------------

  /** Position p is right: its paragraph is the solution's, or (duplicates interchangeable) shows the same text. */
  function PositionCorrect(order: seq<nat>, texts: seq<string>, duplicates: bool, p: nat): (ok: bool)
    requires WellFormed(order, texts) && p < |order|
    ensures !duplicates ==> (ok <==> order[p] == p)
    ensures duplicates ==> (ok <==> texts[order[p]] == texts[p])
  {
    order[p] == p || (duplicates && texts[order[p]] == texts[p])
  }

  function PositionsCorrect(order: seq<nat>, texts: seq<string>, duplicates: bool): (r: seq<bool>)
    requires WellFormed(order, texts)
    ensures |r| == |order|
    ensures forall p :: 0 <= p < |r| ==> (r[p] <==> PositionCorrect(order, texts, duplicates, p))
  {
    seq(|order|, p requires 0 <= p < |order| => PositionCorrect(order, texts, duplicates, p))
  }

  /** The reduce over the first k positions: +1 for a match, -1 for a miss when penalties apply. */
  function PositionsTally(order: seq<nat>, texts: seq<string>, opts: Options, k: nat): (score: int)
    requires WellFormed(order, texts) && k <= |order|
    ensures -(k as int) <= score <= k
    ensures !opts.penalties ==> score >= 0
  {
    if k == 0 then 0
    else
      var score := PositionsTally(order, texts, opts, k - 1);
      var matched := PositionCorrect(order, texts, opts.duplicatesInterchangeable, k - 1);
      score + (if matched then 1 else 0) + (if !matched && opts.penalties then -1 else 0)
  }

  /** The tally is the number of matches, minus the number of misses when penalties apply. */
  lemma {:induction false} PositionsTallyCounts(order: seq<nat>, texts: seq<string>, opts: Options, k: nat)
    requires WellFormed(order, texts) && k <= |order|
    ensures var c := PositionsCorrect(order, texts, opts.duplicatesInterchangeable)[..k];
      PositionsTally(order, texts, opts, k) == Count(c) - (if opts.penalties then k - Count(c) else 0)
  {
    if k > 0 {
      PositionsTallyCounts(order, texts, opts, k - 1);
      var all := PositionsCorrect(order, texts, opts.duplicatesInterchangeable);
      assert all[..k][..k - 1] == all[..k - 1];
    }
  }

  // ---------------------------------------------------------------------------
  // Transitions mode
  // ---------------------------------------------------------------------------

  /**
   * The reduce that looks for the text pair (a, b) in the solution texts:
   * once found the result stays true, the last index yields false, any other
   * index compares the pair starting there.
   */
  function MatchPlainFrom(solution: seq<string>, a: string, b: string, index: nat, result: bool): (found: bool)
    requires index <= |solution|
    ensures result ==> found
    ensures found && index + 1 >= |solution| ==> result
    decreases |solution| - index
  {
    if index == |solution| then result
    else
      var next :=
        if result then true
        else if index == |solution| - 1 then false
        else solution[index] == a && solution[index + 1] == b;
      MatchPlainFrom(solution, a, b, index + 1, next)
  }

  function MatchPlain(solution: seq<string>, a: string, b: string): bool {
    MatchPlainFrom(solution, a, b, 0, false)
  }

  /** The pair (a, b) stands next to each other, in that order, somewhere in the solution. */
  predicate AdjacentInSolution(solution: seq<string>, a: string, b: string) {
    exists k :: 0 <= k < |solution| - 1 && solution[k] == a && solution[k + 1] == b
  }

  lemma {:induction false} MatchPlainFromFinds(solution: seq<string>, a: string, b: string, index: nat, result: bool)
    requires index <= |solution|
    requires result <==> exists k :: 0 <= k < index && k < |solution| - 1 && solution[k] == a && solution[k + 1] == b
    ensures MatchPlainFrom(solution, a, b, index, result) <==> AdjacentInSolution(solution, a, b)
    decreases |solution| - index
  {
    if index < |solution| {
      var next :=
        if result then true
        else if index == |solution| - 1 then false
        else solution[index] == a && solution[index + 1] == b;
      MatchPlainFromFinds(solution, a, b, index + 1, next);
    }
  }

  /** The reduce of computeResults finds exactly the adjacent pairs of the solution. */
  lemma MatchPlainIsAdjacent(solution: seq<string>, a: string, b: string)
    ensures MatchPlain(solution, a, b) <==> AdjacentInSolution(solution, a, b)
  {
    MatchPlainFromFinds(solution, a, b, 0, false);
  }

  /**
   * The pair of positions p and p+1 is right: the second paragraph follows
   * the first in the solution, or (duplicates interchangeable) their texts
   * stand next to each other in the solution.
   */
  function TransitionCorrect(order: seq<nat>, texts: seq<string>, duplicates: bool, p: nat): (ok: bool)
    requires WellFormed(order, texts) && p + 1 < |order|
    ensures !duplicates ==> (ok <==> order[p + 1] == order[p] + 1)
    ensures duplicates ==> (ok <==> AdjacentInSolution(texts, texts[order[p]], texts[order[p + 1]]))
  {
    MatchPlainIsAdjacent(texts, texts[order[p]], texts[order[p + 1]]);
    (duplicates && MatchPlain(texts, texts[order[p]], texts[order[p + 1]])) || order[p] as int == order[p + 1] as int - 1
  }

  function TransitionsCorrect(order: seq<nat>, texts: seq<string>, duplicates: bool): (r: seq<bool>)
    requires WellFormed(order, texts) && |order| >= 1
    ensures |r| == |order| - 1
    ensures forall p :: 0 <= p < |r| ==> (r[p] <==> TransitionCorrect(order, texts, duplicates, p))
  {
    seq(|order| - 1, p requires 0 <= p < |order| - 1 => TransitionCorrect(order, texts, duplicates, p))
  }

  // ---------------------------------------------------------------------------
  // computeResults
  // ---------------------------------------------------------------------------

  /** correctAnswers is undefined (None) in a mode that is neither of the two. */
  datatype Results = Results(correctAnswers: Option<seq<bool>>, score: nat)

  /**
   * computeResults.  In transitions mode the array of correctness values is
   * created with length n - 1, which throws a RangeError when there are no
   * paragraphs.
   */
  function ComputeResults(order: seq<nat>, texts: seq<string>, opts: Options): (r: Result<Results, Error>)
    requires WellFormed(order, texts)
    ensures r.Failure? <==> opts.mode == Transitions && |order| == 0
    ensures r.Failure? ==> r.error == RangeError
  {
    match opts.mode
    case Positions =>
      var tally := PositionsTally(order, texts, opts, |order|);
      Success(Results(Some(PositionsCorrect(order, texts, opts.duplicatesInterchangeable)),
                      if tally < 0 then 0 else tally))
    case Transitions =>
      if |order| == 0 then Failure(RangeError)
      else
        var correct := TransitionsCorrect(order, texts, opts.duplicatesInterchangeable);
        Success(Results(Some(correct), Count(correct)))
    case OtherMode =>
      Success(Results(None, 0))
  }

  /** The most points the content can award: one per position, or one per pair of neighbours. */
  function MaxPoints(mode: Mode, n: nat): (m: int)
    ensures n - 1 <= m <= n
    ensures m == n <==> mode == Positions
  {
    if mode == Positions then n else n - 1
  }

  /** Positions mode: n entries, entry p as PositionCorrect, score max(0, #right - #wrong if penalties). */
  lemma PositionsResults(order: seq<nat>, texts: seq<string>, opts: Options)
    requires WellFormed(order, texts) && opts.mode == Positions
    ensures var r := ComputeResults(order, texts, opts).value;
      var right := Count(r.correctAnswers.value);
      var wrong := |order| - right;
      && |r.correctAnswers.value| == |order|
      && (forall p :: 0 <= p < |order| ==>
            (r.correctAnswers.value[p] <==> PositionCorrect(order, texts, opts.duplicatesInterchangeable, p)))
      && r.score as int == if opts.penalties then (if right - wrong < 0 then 0 else right - wrong) else right
  {
    PositionsTallyCounts(order, texts, opts, |order|);
    var c := PositionsCorrect(order, texts, opts.duplicatesInterchangeable);
    assert c[..|order|] == c;
  }

  /** Transitions mode: n - 1 entries, entry p as TransitionCorrect, score the number of right pairs. */
  lemma TransitionsResults(order: seq<nat>, texts: seq<string>, opts: Options)
    requires WellFormed(order, texts) && opts.mode == Transitions && |order| >= 1
    ensures var r := ComputeResults(order, texts, opts).value;
      && |r.correctAnswers.value| == |order| - 1
      && (forall p :: 0 <= p < |order| - 1 ==>
            (r.correctAnswers.value[p] <==> TransitionCorrect(order, texts, opts.duplicatesInterchangeable, p)))
      && r.score == Count(r.correctAnswers.value)
  {
  }

  /**
   * The score is at most the maximum in either mode; without penalties it is
   * the number of right answers; any other mode scores 0.
   */
  lemma ScoreBounds(order: seq<nat>, texts: seq<string>, opts: Options)
    requires WellFormed(order, texts) && ComputeResults(order, texts, opts).Success?
    ensures var r := ComputeResults(order, texts, opts).value;
      && (opts.mode != OtherMode ==> r.score as int <= MaxPoints(opts.mode, |order|))
      && (r.correctAnswers.Some? && !opts.penalties ==> r.score == Count(r.correctAnswers.value))
      && (opts.mode == OtherMode ==> r.score == 0)
  {
    var r := ComputeResults(order, texts, opts).value;
    if opts.mode == Positions {
      PositionsResults(order, texts, opts);
      assert Count(r.correctAnswers.value) <= |order|;
    } else if opts.mode == Transitions {
      TransitionsResults(order, texts, opts);
      assert |r.correctAnswers.value| == |order| - 1;
    }
  }

  /** The solution order earns the maximum in either mode. */
  lemma SolutionScoresMax(texts: seq<string>, opts: Options)
    requires opts.mode != OtherMode && (opts.mode == Transitions ==> |texts| >= 1)
    ensures WellFormed(Identity(|texts|), texts)
    ensures ComputeResults(Identity(|texts|), texts, opts).value.score as int == MaxPoints(opts.mode, |texts|)
  {
    var order := Identity(|texts|);
    var r := ComputeResults(order, texts, opts).value;
    if opts.mode == Positions {
      PositionsResults(order, texts, opts);
      CountAllTrue(r.correctAnswers.value);
    } else {
      CountAllTrue(r.correctAnswers.value);
    }
  }

  /** With duplicates not interchangeable, positions mode awards the maximum exactly for the solution order. */
  lemma PositionsMaxIffSolution(order: seq<nat>, texts: seq<string>, opts: Options)
    requires WellFormed(order, texts) && opts.mode == Positions && !opts.duplicatesInterchangeable
    ensures ComputeResults(order, texts, opts).value.score == |order| <==> order == Identity(|order|)
  {
    var r := ComputeResults(order, texts, opts).value;
    PositionsResults(order, texts, opts);
    CountAllTrue(r.correctAnswers.value);
    var right := Count(r.correctAnswers.value);
    if r.score == |order| {
      assert right == |order|;
      forall p | 0 <= p < |order|
        ensures order[p] == Identity(|order|)[p]
      {
        assert r.correctAnswers.value[p];
      }
    }
  }

  /**
   * With duplicates not interchangeable, transitions mode awards the maximum
   * exactly for the solution order: every neighbour following its
   * predecessor forces order[p] == order[0] + p, and an order of the n
   * paragraphs then starts at 0.
   */
  lemma TransitionsMaxIffSolution(order: seq<nat>, texts: seq<string>, opts: Options)
    requires WellFormed(order, texts) && IsPermutation(order, |order|) && |order| >= 1
    requires opts.mode == Transitions && !opts.duplicatesInterchangeable
    ensures ComputeResults(order, texts, opts).value.score == |order| - 1 <==> order == Identity(|order|)
  {
    var n := |order|;
    var r := ComputeResults(order, texts, opts).value;
    CountAllTrue(r.correctAnswers.value);
    if r.score == n - 1 {
      forall p | 0 <= p < n - 1
        ensures order[p] as int == order[p + 1] as int - 1
      {
        assert r.correctAnswers.value[p];
      }
      ConsecutiveFromStart(order, n - 1);
      assert order[0] == 0;
      forall p | 0 <= p < n
        ensures order[p] == Identity(n)[p]
      {
        ConsecutiveFromStart(order, p);
      }
    }
  }

  lemma {:induction false} ConsecutiveFromStart(order: seq<nat>, k: nat)
    requires k < |order|
    requires forall p :: 0 <= p < |order| - 1 ==> order[p] as int == order[p + 1] as int - 1
    ensures order[k] == order[0] + k
  {
    if k > 0 {
      ConsecutiveFromStart(order, k - 1);
    }
  }

  // ---------------------------------------------------------------------------
  // Worked examples
  // ---------------------------------------------------------------------------

  /** Texts A, B, C in the solution order, positions mode with penalties: all right, 3 points. */
  lemma ExampleSolvedPositions()
    ensures var r := ComputeResults([0, 1, 2], ["A", "B", "C"], Options(Positions, true, false));
      r == Success(Results(Some([true, true, true]), 3))
  {
    var r := ComputeResults([0, 1, 2], ["A", "B", "C"], Options(Positions, true, false));
    assert r.value.correctAnswers.value == [true, true, true];
  }

  /** B, A, C in positions mode with penalties: one right, two wrong, floored at 0. */
  lemma ExampleSwappedPositions()
    ensures var r := ComputeResults([1, 0, 2], ["A", "B", "C"], Options(Positions, true, false));
      r == Success(Results(Some([false, false, true]), 0))
  {
    var r := ComputeResults([1, 0, 2], ["A", "B", "C"], Options(Positions, true, false));
    PositionsResults([1, 0, 2], ["A", "B", "C"], Options(Positions, true, false));
    assert r.value.correctAnswers.value == [false, false, true];
    assert Count([false, false, true]) == 1 by {
      assert [false, false, true][..2] == [false, false];
      assert [false, false][..1] == [false];
    }
  }

  /** B, A, C in transitions mode: neither pair follows the solution, 0 points. */
  lemma ExampleSwappedTransitions()
    ensures var r := ComputeResults([1, 0, 2], ["A", "B", "C"], Options(Transitions, true, true));
      r == Success(Results(Some([false, false]), 0))
  {
    var texts := ["A", "B", "C"];
    MatchPlainIsAdjacent(texts, "B", "A");
    MatchPlainIsAdjacent(texts, "A", "C");
    var r := ComputeResults([1, 0, 2], texts, Options(Transitions, true, true));
    assert r.value.correctAnswers.value == [false, false];
  }

  /** X, Y, X with the two X exchanged: duplicates interchangeable makes all three positions right. */
  lemma ExampleDuplicatesPositions()
    ensures var r := ComputeResults([2, 1, 0], ["X", "Y", "X"], Options(Positions, true, true));
      r == Success(Results(Some([true, true, true]), 3))
  {
    var r := ComputeResults([2, 1, 0], ["X", "Y", "X"], Options(Positions, true, true));
    assert r.value.correctAnswers.value == [true, true, true];
  }
}
