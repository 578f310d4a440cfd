/**
 * The question type around the content (h5p-sort-paragraphs.js): the
 * maximum score, the cached score, the pass test, the view state, the
 * state saved for the next session and the xAPI response strings.
 */
module Host {
  import opened Wrappers
  import opened Js
  import opened Order
  import opened Scoring
  import Interaction
  import opened Paragraphs
  import Content
  import Util

  // ---------------------------------------------------------------------------
  // View states
  // ---------------------------------------------------------------------------

  /** VIEW_STATES: task 0, results 1, solutions 2. */
  datatype ViewState = TaskView | ResultsView | SolutionsView

  function Code(v: ViewState): nat {
    match v
    case TaskView => 0
    case ResultsView => 1
    case SolutionsView => 2
  }

  function Name(v: ViewState): string {
    match v
    case TaskView => "task"
    case ResultsView => "results"
    case SolutionsView => "solutions"
  }

  /** `VIEW_STATES[name]` for a string name: only the three names are defined. */
  function Named(name: string): Option<ViewState> {
    if name == "task" then Some(TaskView)
    else if name == "results" then Some(ResultsView)
    else if name == "solutions" then Some(SolutionsView)
    else None
  }

  /** `Object.values(VIEW_STATES).includes(n)`: the view state whose code is n. */
  function FromCode(n: int): (r: Option<ViewState>)
    ensures r.Some? <==> 0 <= n <= 2
    ensures r.Some? ==> Code(r.value) == n
  {
    if n == 0 then Some(TaskView)
    else if n == 1 then Some(ResultsView)
    else if n == 2 then Some(SolutionsView)
    else None
  }

  /** The names and the codes identify the view states: each name looks up its own state and no other string does. */
  lemma NamedIffName(name: string, v: ViewState)
    ensures Named(name) == Some(v) <==> name == Name(v)
    ensures Code(v) <= 2 && forall w :: Code(w) == Code(v) ==> w == v
  {
  }

  // ---------------------------------------------------------------------------
  // Scores
  // ---------------------------------------------------------------------------

  /** getMaxScore: the number of paragraphs in positions mode, the number of transitions otherwise. */
  function MaxScore(scoringMode: Value, n: nat): (m: int)
    ensures n - 1 <= m <= n
    ensures m == n <==> scoringMode == Str("positions")
  {
    if scoringMode == Str("positions") then n else n - 1
  }

  /** The host's maximum is the content's: the same mode value decides both. */
  lemma MaxScoreAgrees(scoringMode: Value, penalties: Value, duplicates: Value, n: nat)
    ensures MaxScore(scoringMode, n) == MaxPoints(OptionsFrom(scoringMode, penalties, duplicates).mode, n)
  {
  }

  /** `this.currentScore || this.previousState?.score || 0`: the first score that is not 0. */
  function CachedScore(current: Option<int>, stored: Option<int>): (s: int)
    ensures s != 0 ==> Some(s) == current || Some(s) == stored
    ensures current.Some? && current.value != 0 ==> s == current.value
    ensures (current.None? || current.value == 0) ==> s == (if stored.Some? then stored.value else 0)
  {
    if current.Some? && current.value != 0 then current.value
    else if stored.Some? && stored.value != 0 then stored.value
    else 0
  }

  /**
   * getScore: in the solutions view the cached score (the list then shows
   * the solution, not the answer); otherwise the score computed on the
   * current order, which throws where computeResults does.
   */
  function Score(view: ViewState, current: Option<int>, stored: Option<int>,
                 order: seq<nat>, texts: seq<string>, opts: Options): (r: Result<int, Error>)
    requires WellFormed(order, texts)
    ensures view == SolutionsView ==> r == Success(CachedScore(current, stored))
    ensures view != SolutionsView ==>
      (r.Failure? <==> ComputeResults(order, texts, opts).Failure?)
      && (r.Success? ==> r.value == ComputeResults(order, texts, opts).value.score as int)
  {
    if view == SolutionsView then Success(CachedScore(current, stored))
    else match ComputeResults(order, texts, opts)
      case Failure(e) => Failure(e)
      case Success(results) => Success(results.score as int)
  }

  /** Outside the solutions view the score lies between 0 and the maximum. */
  lemma ScoreWithinMax(view: ViewState, current: Option<int>, stored: Option<int>,
                       order: seq<nat>, texts: seq<string>, opts: Options, scoringMode: Value)
    requires WellFormed(order, texts) && view != SolutionsView
    requires opts.mode == OptionsFrom(scoringMode, Undefined, Undefined).mode
    requires Score(view, current, stored, order, texts, opts).Success?
    ensures 0 <= Score(view, current, stored, order, texts, opts).value
    ensures opts.mode != OtherMode ==> Score(view, current, stored, order, texts, opts).value <= MaxScore(scoringMode, |order|)
  {
    ScoreBounds(order, texts, opts);
  }

  /**
   * isPassed outside the solutions view: with duplicates not interchangeable
   * and a mode that scores, the task is passed exactly when the paragraphs
   * are in the solution order.
   */
  lemma PassedIffSolved(view: ViewState, current: Option<int>, stored: Option<int>,
                        order: seq<nat>, texts: seq<string>, opts: Options, scoringMode: Value)
    requires WellFormed(order, texts) && IsPermutation(order, |order|) && view != SolutionsView
    requires opts.mode == OptionsFrom(scoringMode, Undefined, Undefined).mode && !opts.duplicatesInterchangeable
    requires opts.mode == Positions || (opts.mode == Transitions && |order| >= 1)
    ensures Score(view, current, stored, order, texts, opts).Success?
    ensures Score(view, current, stored, order, texts, opts).value >= MaxScore(scoringMode, |order|)
            <==> order == Identity(|order|)
  {
    ScoreBounds(order, texts, opts);
    if opts.mode == Positions {
      PositionsMaxIffSolution(order, texts, opts);
    } else {
      TransitionsMaxIffSolution(order, texts, opts);
    }
  }

  /**
   * The show-solution button is offered after a check unless in the
   * solutions view, when the button is enabled and the score is not the
   * maximum.
   */
  predicate SolutionOffered(view: ViewState, enableSolutionsButton: bool, score: int, maxScore: int) {
    view != SolutionsView && enableSolutionsButton && score != maxScore
  }

  /**
   * After a check (the results view) with duplicates not interchangeable,
   * the solution is offered exactly when it is enabled and the answer is
   * not the solution.
   */
  lemma SolutionOfferedIffUnsolved(current: Option<int>, stored: Option<int>, order: seq<nat>,
                                   texts: seq<string>, opts: Options, scoringMode: Value, enabled: bool)
    requires WellFormed(order, texts) && IsPermutation(order, |order|)
    requires opts.mode == OptionsFrom(scoringMode, Undefined, Undefined).mode && !opts.duplicatesInterchangeable
    requires opts.mode == Positions || (opts.mode == Transitions && |order| >= 1)
    ensures Score(ResultsView, current, stored, order, texts, opts).Success?
    ensures SolutionOffered(ResultsView, enabled,
                            Score(ResultsView, current, stored, order, texts, opts).value, MaxScore(scoringMode, |order|))
            <==> enabled && order != Identity(|order|)
  {
    PassedIffSolved(ResultsView, current, stored, order, texts, opts, scoringMode);
    ScoreWithinMax(ResultsView, current, stored, order, texts, opts, scoringMode);
  }

  // ---------------------------------------------------------------------------
  // Saved state
  // ---------------------------------------------------------------------------

  /** A previous session's state, as far as it is read: the order, the score and the view state. */
  datatype Stored = Stored(order: Option<seq<int>>, score: Option<int>, viewState: Option<nat>)

  /** What getCurrentState returns: `{}`, or the order, the view state's code and the score. */
  datatype Snapshot = EmptyState | Snapshot(order: seq<nat>, viewState: nat, score: int)

  /** The previous state is kept only when it has an order. */
  function KeptPrevious(extras: Option<Stored>): (r: Option<Stored>)
    ensures r.Some? <==> extras.Some? && extras.value.order.Some?
    ensures r.Some? ==> r == extras
  {
    if extras.Some? && extras.value.order.Some? then extras else None
  }

  /** The order handed to the content: that of the kept previous state. */
  function PreviousOrder(extras: Option<Stored>): Option<seq<int>> {
    match KeptPrevious(extras)
    case None => None
    case Some(p) => p.order
  }

  /**
   * registerDomElements: no previous state becomes `{}`, and one whose view
   * state is neither results nor solutions is set to the task view.
   */
  function Registered(kept: Option<Stored>): (r: Stored)
    ensures r.order == (if kept.Some? then kept.value.order else None)
    ensures r.viewState in {Some(1), Some(2)} || r.viewState == Some(0)
    ensures kept.Some? && kept.value.viewState in {Some(1), Some(2)} ==> r == kept.value
    ensures kept.Some? && kept.value.viewState !in {Some(1), Some(2)} ==> r == kept.value.(viewState := Some(0))
    ensures kept.None? ==> r == Stored(None, None, Some(0))
  {
    var p := kept.GetOr(Stored(None, None, None));
    if p.viewState == Some(Code(ResultsView)) || p.viewState == Some(Code(SolutionsView)) then p
    else p.(viewState := Some(Code(TaskView)))
  }

  /** The state a snapshot is read back as in the next session. */
  function Restored(s: Snapshot): Stored {
    match s
    case EmptyState => Stored(None, None, None)
    case Snapshot(order, view, score) => Stored(Some(AsNumbers(order)), Some(score), Some(view))
  }

  /**
   * A saved order of the paragraphs is restored in the next session: the
   * content starts in that order, without throwing.
   */
  lemma SnapshotRestores(s: Snapshot, n: nat, choices: seq<nat>)
    requires s.Snapshot? && IsPermutation(s.order, n)
    ensures PreviousOrder(Some(Restored(s))) == Some(AsNumbers(s.order))
    ensures Interaction.Start(n, PreviousOrder(Some(Restored(s))), choices).thrown.None?
    ensures Interaction.Start(n, PreviousOrder(Some(Restored(s))), choices).state.order == s.order
  {
    Interaction.StartRestores(n, s.order, choices);
  }

  /**
   * getCurrentState: `{}` when no answer was given and no order was kept;
   * otherwise the order, the view state's code and a score that is 0 in the
   * task view and getScore's (which may throw) in the others.
   */
  function CurrentState(answerGiven: bool, previousOrder: Option<seq<int>>, view: ViewState,
                        score: Result<int, Error>, order: seq<nat>): (r: Result<Snapshot, Error>)
    ensures r == Success(EmptyState) <==> !answerGiven && previousOrder.None?
    ensures r.Failure? ==> view != TaskView && score.Failure?
  {
    if !answerGiven && previousOrder.None? then Success(EmptyState)
    else if view == TaskView then Success(Snapshot(order, Code(view), 0))
    else match score
      case Failure(e) => Failure(e)
      case Success(v) => Success(Snapshot(order, Code(view), v))
  }

  /**
   * What a session saves is what the next one starts from: the same order of
   * the paragraphs, restored without throwing, the same view state and the
   * score (0 in the task view); a session that saved `{}` shuffles.
   */
  lemma SessionRoundTrip(answerGiven: bool, previousOrder: Option<seq<int>>, view: ViewState,
                         score: Result<int, Error>, order: seq<nat>, n: nat, choices: seq<nat>)
    requires IsPermutation(order, n)
    requires CurrentState(answerGiven, previousOrder, view, score, order).Success?
    ensures var next := Some(Restored(CurrentState(answerGiven, previousOrder, view, score, order).value));
      && (PreviousOrder(next).None? <==> !answerGiven && previousOrder.None?)
      && (PreviousOrder(next).Some? ==>
            && Interaction.Start(n, PreviousOrder(next), choices).thrown.None?
            && Interaction.Start(n, PreviousOrder(next), choices).state.order == order
            && Registered(KeptPrevious(next)).viewState == Some(Code(view))
            && Registered(KeptPrevious(next)).score == Some(if view == TaskView then 0 else score.value))
  {
    var saved := CurrentState(answerGiven, previousOrder, view, score, order).value;
    if saved.Snapshot? {
      SnapshotRestores(saved, n, choices);
    }
  }

  /** An empty snapshot keeps nothing: the next session shuffles. */
  lemma EmptySnapshotShuffles()
    ensures PreviousOrder(Some(Restored(EmptyState))) == None
  {
  }

  // ---------------------------------------------------------------------------
  // xAPI strings
  // ---------------------------------------------------------------------------

  const Separator: string := "[,]"

  function DigitChar(d: nat): char
    requires d < 10
  {
    (48 + d) as char
  }

  /** '0' to '9', character codes 48 to 57. */
  predicate IsDigit(c: char) {
    48 <= c as int <= 57
  }

  /** A number as `join` writes it: decimal, without leading zeros. */
  function NatToString(n: nat): (s: string)
    ensures |s| >= 1 && forall k :: 0 <= k < |s| ==> IsDigit(s[k])
    decreases n
  {
    if n < 10 then [DigitChar(n)] else NatToString(n / 10) + [DigitChar(n % 10)]
  }

  function DigitValue(c: char): (d: nat)
    requires IsDigit(c)
    ensures d < 10
  {
    c as int - 48
  }

  /** The value of a string of decimal digits. */
  function ParseNat(s: string): nat
    requires forall k :: 0 <= k < |s| ==> IsDigit(s[k])
  {
    if |s| == 0 then 0 else 10 * ParseNat(s[..|s| - 1]) + DigitValue(s[|s| - 1])
  }

  lemma {:induction false} ParseNatToString(n: nat)
    ensures ParseNat(NatToString(n)) == n
    decreases n
  {
    if n >= 10 {
      var s := NatToString(n);
      assert s[..|s| - 1] == NatToString(n / 10);
      ParseNatToString(n / 10);
    }
  }

  /** `parts.join('[,]')` */
  function Join(parts: seq<string>): string {
    if |parts| == 0 then ""
    else if |parts| == 1 then parts[0]
    else parts[0] + Separator + Join(parts[1..])
  }

  /** `s.split('[,]')` for strings whose only '[' start a separator. */
  function Split(s: string): (r: seq<string>)
    ensures |r| >= 1
    decreases |s|
  {
    if |s| == 0 then [""]
    else if s[0] == '[' && |s| >= 3 then [""] + Split(s[3..])
    else
      var rest := Split(s[1..]);
      [[s[0]] + rest[0]] + rest[1..]
  }

  lemma {:induction false} SplitPrefix(p: string, rest: string)
    requires '[' !in p
    ensures Split(p + rest) == [p + Split(rest)[0]] + Split(rest)[1..]
    decreases |p|
  {
    if |p| > 0 {
      assert p[0] in p;
      assert (p + rest)[0] == p[0];
      assert (p + rest)[1..] == p[1..] + rest;
      SplitPrefix(p[1..], rest);
      assert [p[0]] + (p[1..] + Split(rest)[0]) == p + Split(rest)[0];
    } else {
      assert p + rest == rest && p + Split(rest)[0] == Split(rest)[0];
      assert Split(rest) == [Split(rest)[0]] + Split(rest)[1..];
    }
  }

  lemma {:induction false} SplitJoin(parts: seq<string>)
    requires |parts| >= 1 && forall k :: 0 <= k < |parts| ==> '[' !in parts[k]
    ensures Split(Join(parts)) == parts
    decreases |parts|
  {
    if |parts| == 1 {
      SplitPrefix(parts[0], "");
      assert parts[0] + "" == parts[0];
    } else {
      var tail := Join(parts[1..]);
      assert Join(parts) == parts[0] + (Separator + tail);
      SplitPrefix(parts[0], Separator + tail);
      assert (Separator + tail)[0] == '[';
      assert (Separator + tail)[3..] == tail;
      assert Split(Separator + tail) == [""] + Split(tail);
      SplitJoin(parts[1..]);
      assert parts[0] + "" == parts[0];
      assert parts == [parts[0]] + parts[1..];
    }
  }

  function Strings(order: seq<nat>): (r: seq<string>)
    ensures |r| == |order| && forall k :: 0 <= k < |r| ==> r[k] == NatToString(order[k])
    ensures forall k :: 0 <= k < |r| ==> '[' !in r[k]
  {
    seq(|order|, k requires 0 <= k < |order| => NatToString(order[k]))
  }

  /** The xAPI response: the current order joined by '[,]'. */
  function Response(order: seq<nat>): (r: string)
    ensures |order| >= 1 ==> Split(r) == Strings(order)
  {
    var parts := Strings(order);
    if |parts| >= 1 then SplitJoin(parts); Join(parts) else Join(parts)
  }

  /** correctResponsesPattern: a single string, the solution order joined by '[,]'. */
  function CorrectResponsesPattern(n: nat): (r: seq<string>)
    ensures |r| == 1
    ensures n >= 1 ==> ParseResponse(r[0]) == AsNumbers(Identity(n))
  {
    if n >= 1 then ResponseRoundTrip(Identity(n)); [Response(Identity(n))] else [Response(Identity(n))]
  }

  /** Reading a response back: split at the separators, each part a number. */
  function ParseResponse(s: string): seq<int> {
    var parts := Split(s);
    seq(|parts|, k requires 0 <= k < |parts| =>
      if forall i :: 0 <= i < |parts[k]| ==> IsDigit(parts[k][i]) then ParseNat(parts[k]) as int else -1)
  }

  /** A response of at least one paragraph reads back as the order it was made from. */
  lemma ResponseRoundTrip(order: seq<nat>)
    requires |order| >= 1
    ensures ParseResponse(Response(order)) == AsNumbers(order)
  {
    var parts := Strings(order);
    forall k | 0 <= k < |parts|
      ensures '[' !in parts[k]
    {
      assert !IsDigit('[');
    }
    SplitJoin(parts);
    forall k | 0 <= k < |order|
      ensures ParseResponse(Response(order))[k] == order[k] as int
    {
      ParseNatToString(order[k]);
    }
  }

  /** The response matches the correct responses pattern exactly when the order is the solution. */
  lemma ResponseCorrectIffSolution(order: seq<nat>)
    ensures Response(order) == CorrectResponsesPattern(|order|)[0] <==> order == Identity(|order|)
  {
    var n := |order|;
    if n >= 1 && Response(order) == Response(Identity(n)) {
      ResponseRoundTrip(order);
      ResponseRoundTrip(Identity(n));
      forall k | 0 <= k < n
        ensures order[k] == Identity(n)[k]
      {
        assert AsNumbers(order)[k] == AsNumbers(Identity(n))[k];
      }
    }
  }

  // ---------------------------------------------------------------------------
  // The question type
  // ---------------------------------------------------------------------------

  /**
   * The question type around the content, after its constructor and
   * registerDomElements: the behaviour settings (after the defaults are
   * filled in), the view state, the cached score and the previous
   * session's state.
   */
  class SortParagraphs {
    const content: Content.SortContent
    const scoringMode: Value
    const penalties: Value
    const duplicates: Value
    const enableSolutionsButton: bool
    var viewState: ViewState
    var currentScore: Option<int>
    var previousState: Stored

    ghost predicate Valid()
      reads this, content, content.order, content.Repr
    {
      && content.Valid()
      && this !in content.Repr
      && content.options == OptionsFrom(scoringMode, penalties, duplicates)
    }

    /** The number of paragraphs. */
    function Size(): nat {
      |content.texts|
    }

    /** The score getScore would return now. */
    ghost function CurrentScore(): Result<int, Error>
      requires Valid()
      reads this, content, content.order, content.Repr
    {
      Score(viewState, currentScore, previousState.score, content.Abs().order, content.texts, content.options)
    }

    constructor(content: Content.SortContent, scoringMode: Value, penalties: Value, duplicates: Value,
                enableSolutionsButton: bool, previous: Stored)
      requires content.Valid() && content.options == OptionsFrom(scoringMode, penalties, duplicates)
      ensures Valid() && this.content == content && this.scoringMode == scoringMode
      ensures this.enableSolutionsButton == enableSolutionsButton
      ensures viewState == TaskView && currentScore.None? && previousState == previous
    {
      this.content := content;
      this.scoringMode := scoringMode;
      this.penalties := penalties;
      this.duplicates := duplicates;
      this.enableSolutionsButton := enableSolutionsButton;
      viewState := TaskView;
      currentScore := None;
      previousState := previous;
    }

    /**
     * The constructor and registerDomElements: a previous state is kept only
     * with an order, which the content restores (throwing on a malformed
     * one) or else shuffles; the view is the task view, and the previous
     * state is `{}` when none was kept and is set to the task view unless
     * it was the results or the solutions view.
     */
    static method Create(texts: seq<string>, l10n: MoveLabels, scoringMode: Value, penalties: Value,
                         duplicates: Value, enableSolutionsButton: bool, extras: Option<Stored>, choices: seq<nat>)
      returns (r: Result<SortParagraphs, Error>)
      requires PreviousOrder(extras).None? ==> Util.ValidChoices(|texts|, choices)
      ensures r.Failure? <==> Interaction.Start(|texts|, PreviousOrder(extras), choices).thrown.Some?
      ensures r.Success? ==>
        && r.value.Valid() && r.value.Size() == |texts|
        && r.value.viewState == TaskView && r.value.currentScore.None?
        && r.value.previousState == Registered(KeptPrevious(extras))
        && r.value.content.Abs() == Interaction.Start(|texts|, PreviousOrder(extras), choices).state
    {
      var options := OptionsFrom(scoringMode, penalties, duplicates);
      var c := Content.SortContent.Create(texts, l10n, options, PreviousOrder(extras), choices);
      if c.Failure? {
        return Failure(c.error);
      }
      var h := new SortParagraphs(c.value, scoringMode, penalties, duplicates, enableSolutionsButton,
                                  Registered(KeptPrevious(extras)));
      return Success(h);
    }

    /**
     * getScore: the cached score in the solutions view, otherwise the score
     * of the current order; a score that is returned is cached.
     */
    method GetScore() returns (r: Result<int, Error>)
      requires Valid()
      modifies this
      ensures Valid() && viewState == old(viewState) && previousState == old(previousState)
      ensures r == old(CurrentScore())
      ensures currentScore == if r.Success? then Some(r.value) else old(currentScore)
    {
      if viewState == SolutionsView {
        r := Success(CachedScore(currentScore, previousState.score));
      } else {
        var results := content.ComputeResults();
        if results.Failure? {
          return Failure(results.error);
        }
        r := Success(results.value.score as int);
      }
      currentScore := Some(r.value);
    }

    /** isPassed: the score reaches the maximum. */
    method IsPassed() returns (r: Result<bool, Error>)
      requires Valid()
      modifies this
      ensures Valid() && viewState == old(viewState) && previousState == old(previousState)
      ensures r.Failure? <==> old(CurrentScore()).Failure?
      ensures r.Success? ==> (r.value <==> old(CurrentScore()).value >= MaxScore(scoringMode, Size()))
    {
      var score := GetScore();
      if score.Failure? {
        return Failure(score.error);
      }
      r := Success(score.value >= MaxScore(scoringMode, Size()));
    }

    /** The xAPI response: the current order joined by the separator. */
    method XAPIResponse() returns (r: string)
      requires Valid()
      ensures r == Response(content.Abs().order)
    {
      var order := content.GetDraggablesOrder();
      r := Response(order);
    }

    /** getCurrentState, where a score other than the task view's is getScore's. */
    method GetCurrentState() returns (r: Result<Snapshot, Error>)
      requires Valid()
      modifies this
      ensures Valid() && viewState == old(viewState) && previousState == old(previousState)
      ensures r == CurrentState(content.answerGiven, previousState.order, viewState, old(CurrentScore()), content.Abs().order)
      ensures currentScore == if r.Success? && r.value.Snapshot? && viewState != TaskView then Some(r.value.score)
                              else old(currentScore)
    {
      if !content.answerGiven && previousState.order.None? {
        return Success(EmptyState);
      }
      var order := content.GetDraggablesOrder();
      if viewState == TaskView {
        return Success(Snapshot(order, Code(viewState), 0));
      }
      var score := GetScore();
      if score.Failure? {
        return Failure(score.error);
      }
      r := Success(Snapshot(order, Code(viewState), score.value));
    }

    /**
     * setViewState: a string changes the view only when it names one; a
     * number that is one of the codes is set as the view state, and then
     * the lookup of its name throws (a plain object has no `find`).
     */
    method SetViewState(state: Value) returns (thrown: Option<Error>)
      requires Valid()
      modifies this
      ensures Valid() && currentScore == old(currentScore) && previousState == old(previousState)
      ensures state.Str? ==> thrown.None? && viewState == Named(state.s).GetOr(old(viewState))
      ensures state.Num? ==> viewState == FromCode(state.n).GetOr(old(viewState))
                             && (thrown.Some? <==> FromCode(state.n).Some?)
      ensures !state.Str? && !state.Num? ==> thrown.None? && viewState == old(viewState)
      ensures thrown.Some? ==> thrown.value == TypeError
    {
      thrown := None;
      if state.Str? && Named(state.s).Some? {
        viewState := Named(state.s).value;
      } else if state.Num? && FromCode(state.n).Some? {
        viewState := FromCode(state.n).value;
        thrown := Some(TypeError);
      }
    }

    /** showSolutions: the solutions view, every paragraph moved to its own index. */
    method ShowSolutions()
      requires Valid()
      modifies this, content.order, content.Repr
      ensures Valid() && viewState == SolutionsView
      ensures currentScore == old(currentScore) && previousState == old(previousState)
      ensures content.Abs() == Interaction.ShowSolutions(old(content.Abs()))
    {
      viewState := SolutionsView;
      content.ShowSolutions();
    }

    /** resetTask: the content reset with the supplied draws, the previous state forgotten, the task view. */
    method ResetTask(choices: seq<nat>)
      requires Valid() && Util.ValidChoices(Size(), choices)
      modifies this, content, content.order, content.Repr
      ensures Valid() && viewState == TaskView
      ensures currentScore == old(currentScore) && previousState == Stored(None, None, None)
      ensures content.Abs() == Interaction.Reset(old(content.Abs()), choices)
    {
      content.Reset(choices);
      previousState := Stored(None, None, None);
      viewState := TaskView;
    }

    /** The answer statement checkAnswer sends from the task view: getScore, which may throw. */
    method AnswerStatement() returns (thrown: Option<Error>)
      requires Valid()
      modifies this
      ensures Valid() && viewState == old(viewState) && previousState == old(previousState)
      ensures thrown.Some? <==> viewState == TaskView && old(CurrentScore()).Failure?
      ensures thrown.None? && viewState == TaskView ==> currentScore == Some(old(CurrentScore()).value)
      ensures viewState != TaskView ==> currentScore == old(currentScore)
    {
      thrown := None;
      if viewState == TaskView {
        var score := GetScore();
        if score.Failure? {
          thrown := Some(score.error);
        }
      }
    }

    /**
     * The deferred part of checkAnswer, run at once: the results view, the
     * content disabled, and the show-solution button offered (`offered`)
     * when enabled and the score is not the maximum.
     */
    method ShowResults() returns (offered: Result<bool, Error>)
      requires Valid()
      modifies this, content, content.Repr
      ensures Valid() && previousState == old(previousState) && viewState == ResultsView
      ensures content.Abs() == Interaction.Disable(old(content.Abs()))
      ensures var score := Score(ResultsView, None, None, old(content.Abs().order), content.texts, content.options);
        && (offered.Failure? <==> score.Failure?)
        && (offered.Success? ==>
              && currentScore == Some(score.value)
              && (offered.value <==> SolutionOffered(viewState, enableSolutionsButton, score.value, MaxScore(scoringMode, Size()))))
    {
      viewState := ResultsView;
      content.Disable();
      var score := GetScore();
      if score.Failure? {
        return Failure(score.error);
      }
      offered := Success(enableSolutionsButton && score.value != MaxScore(scoringMode, Size()));
    }

    /**
     * checkAnswer: from the task view the answer statement's score is taken
     * first; then the results view and the results.  It throws where the
     * score cannot be computed.
     */
    method CheckAnswer() returns (offered: Result<bool, Error>)
      requires Valid()
      modifies this, content, content.Repr
      ensures Valid() && previousState == old(previousState)
      ensures var score := Score(ResultsView, None, None, old(content.Abs().order), content.texts, content.options);
        && (offered.Failure? <==> score.Failure?)
        && (offered.Success? ==>
              && viewState == ResultsView && currentScore == Some(score.value)
              && content.Abs() == Interaction.Disable(old(content.Abs()))
              && (offered.value <==> SolutionOffered(viewState, enableSolutionsButton, score.value, MaxScore(scoringMode, Size()))))
    {
      var thrown := AnswerStatement();
      if thrown.Some? {
        return Failure(thrown.value);
      }
      offered := ShowResults();
    }
  }

  /**
   * After a check with a scoring mode and duplicates not interchangeable,
   * the show-solution button is offered exactly when enabled and the
   * paragraphs are not in the solution order.
   */
  lemma CheckOffersUnsolved(h: SortParagraphs, order: seq<nat>, enabled: bool)
    requires h.Valid() && !h.content.options.duplicatesInterchangeable
    requires h.content.options.mode == Positions || (h.content.options.mode == Transitions && h.Size() >= 1)
    requires IsPermutation(order, h.Size())
    ensures Score(ResultsView, None, None, order, h.content.texts, h.content.options).Success?
    ensures SolutionOffered(ResultsView, enabled, Score(ResultsView, None, None, order, h.content.texts, h.content.options).value,
                            MaxScore(h.scoringMode, h.Size()))
            <==> enabled && order != Identity(h.Size())
  {
    SolutionOfferedIffUnsolved(None, None, order, h.content.texts, h.content.options, h.scoringMode, enabled);
  }
}
