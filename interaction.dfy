/**
 * The handlers of h5p-sort-paragraphs-content.js as steps of a state
 * machine.  A `State` holds what the handlers read and write: the order,
 * each paragraph's selected and disabled flags and its two buttons'
 * disabled flags, the answer-given flag, the number of `onInteracted`
 * calls, the keyboard undo state, the click-to-swap selection, the mouse
 * flag, the drag bookkeeping and the enabled flag.
 *
 * Paragraphs (and their list elements) are named by their ids, the
 * solution indices; `d` is the paragraph whose element received the event.
 * A handler that throws yields the state reached so far and the error.
 */
module Interaction {
  import opened Wrappers
  import opened Js
  import opened Util
  import opened Order

  datatype Item = Item(selected: bool, disabled: bool, upDisabled: bool, downDisabled: bool)

  /** What keyboard grabbing stores to be able to cancel: the position and the order. */
  datatype Undo = Undo(position: nat, order: seq<nat>)

  datatype State = State(
    order: seq<nat>,
    items: seq<Item>,
    answerGiven: bool,
    interactions: nat,
    undo: Option<Undo>,
    selectedDraggable: Option<nat>,
    mouseDown: bool,
    dragged: Option<nat>,
    dropzone: Option<nat>,
    oldOrder: Option<seq<nat>>,
    enabled: bool)

  datatype Outcome = Outcome(state: State, thrown: Option<Error>)

  predicate IsId(s: State, x: Option<nat>) {
    x.Some? ==> x.value < |s.items|
  }

  /** What every handler keeps: the order, the stored orders and the element references stay well formed. */
  predicate Inv(s: State) {
    && IsPermutation(s.order, |s.items|)
    && (s.undo.Some? ==> s.undo.value.position < |s.items| && IsPermutation(s.undo.value.order, |s.items|))
    && (s.oldOrder.Some? ==> IsPermutation(s.oldOrder.value, |s.items|))
    && IsId(s, s.selectedDraggable)
    && IsId(s, s.dragged)
    && IsId(s, s.dropzone)
  }

  /** getDraggableIndex: the position of paragraph d in the list. */
  function Position(s: State, d: nat): (p: nat)
    requires Inv(s) && d < |s.items|
    ensures p < |s.order| && s.order[p] == d
  {
    PermutationContainsAll(s.order, |s.items|, d);
    IndexOf(s.order, d)
  }

  /** getDraggableAt(position) for a number: null (None) outside the list. */
  function DraggableAt(s: State, position: int): (r: Option<nat>)
    ensures r.Some? <==> 0 <= position < |s.order|
    ensures r.Some? ==> r.value == s.order[position]
  {
    if position < 0 || position > |s.order| - 1 then None else Some(s.order[position])
  }

  /** getDraggableAt(getDraggableIndex(d)) gives d back. */
  lemma DraggableAtPosition(s: State, d: nat)
    requires Inv(s) && d < |s.items|
    ensures DraggableAt(s, Position(s, d)) == Some(d)
  {
  }

  /** The answer-given flag is set and `onInteracted` is called once. */
  function Commit(s: State): (r: State)
    ensures Inv(s) ==> Inv(r)
    ensures r.answerGiven && r.interactions == s.interactions + 1
    ensures r.order == s.order && r.items == s.items && r.undo == s.undo
  {
    s.(answerGiven := true, interactions := s.interactions + 1)
  }

  /** swapDOMElements of the elements of paragraphs a and b. */
  function Swap(s: State, a: nat, b: nat): (r: State)
    requires Inv(s) && a < |s.items| && b < |s.items| && a != b
    ensures Inv(r) && r == s.(order := r.order)
    ensures r.order == SwapAt(s.order, Position(s, a), Position(s, b))
  {
    SwapElementsPermutation(s.order, |s.items|, a, b);
    SwapElementsAt(s.order, Position(s, a), Position(s, b));
    s.(order := SwapElements(s.order, a, b))
  }

  function SetSelected(s: State, d: nat, selected: bool): (r: State)
    requires d < |s.items|
    ensures Inv(s) ==> Inv(r)
    ensures |r.items| == |s.items| && r.items[d].selected == selected && r.order == s.order
    ensures r.items[d].disabled == s.items[d].disabled
    ensures forall e :: 0 <= e < |s.items| && e != d ==> r.items[e] == s.items[e]
  {
    s.(items := s.items[d := s.items[d].(selected := selected)])
  }

  /**
   * resetDraggables: the first paragraph's up button and the last
   * paragraph's down button are disabled, every other button enabled.  The
   * branch for the first position is taken first, so a single paragraph
   * keeps its down button enabled.
   */
  function ResetButtons(s: State): (r: State)
    requires Inv(s)
    ensures Inv(r) && r == s.(items := r.items) && |r.items| == |s.items|
    ensures forall d :: 0 <= d < |s.items| ==>
      var p := Position(s, d);
      && r.items[d].selected == s.items[d].selected
      && r.items[d].disabled == s.items[d].disabled
      && r.items[d].upDisabled == (p == 0)
      && r.items[d].downDisabled == (p != 0 && p == |s.items| - 1)
  {
    var n := |s.items|;
    s.(items := seq(n, d requires 0 <= d < n =>
      var p := Position(s, d);
      s.items[d].(upDisabled := p == 0, downDisabled := p != 0 && p == n - 1)))
  }

  /**
   * The state the constructor builds before ordering: the list in solution
   * order, nothing selected or disabled, no answer given, enabled.
   */
  function Initial(n: nat): (r: State)
    ensures Inv(r) && |r.items| == n && r.order == Identity(n) && !r.answerGiven && r.enabled
    ensures forall d :: 0 <= d < n ==> r.items[d] == Item(false, false, false, false)
  {
    IdentityIsPermutation(n);
    State(Identity(n), seq(n, d => Item(false, false, false, false)), false, 0, None, None, false, None, None, None, true)
  }

  /**
   * The constructor's ordering: a previous order, when there is one, is
   * restored by reorderDraggables (which may throw); otherwise the list is
   * shuffled with the supplied draws.  Then the move buttons are reset.
   */
  function Start(n: nat, previous: Option<seq<int>>, choices: seq<nat>): (r: Outcome)
    requires previous.None? ==> ValidChoices(n, choices)
    ensures Inv(r.state) && |r.state.items| == n && !r.state.answerGiven && r.state.interactions == 0
    ensures r.thrown.Some? ==> previous.Some? && r.thrown == Reorder(Identity(n), previous.value).thrown
    ensures previous.None? ==> r.thrown.None?
  {
    var s := Initial(n);
    match previous
    case Some(target) =>
      var run := Reorder(s.order, target);
      ReorderFromPermutes(s.order, target, 0);
      SameIdsPermutation(s.order, run.order, n);
      var reordered := s.(order := run.order);
      if run.thrown.Some? then Outcome(reordered, run.thrown) else Outcome(ResetButtons(reordered), None)
    case None =>
      ShuffledIsPermutation(s.order, Identity(n), choices);
      var shuffled := Shuffled(s.order, Identity(n), choices);
      SameIdsPermutation(s.order, shuffled, n);
      Outcome(ResetButtons(s.(order := shuffled)), None)
  }

  /** A stored order of the paragraphs is restored exactly, with nothing selected or disabled. */
  lemma StartRestores(n: nat, target: seq<nat>, choices: seq<nat>)
    requires IsPermutation(target, n)
    ensures var r := Start(n, Some(AsNumbers(target)), choices);
      && r.thrown.None? && r.state.order == target
      && forall d :: 0 <= d < n ==> !r.state.items[d].selected && !r.state.items[d].disabled
  {
    IdentityIsPermutation(n);
    ReorderToPermutation(Identity(n), target, n);
  }

  /** Without a stored order the list is a shuffle of the solution order. */
  lemma StartShuffles(n: nat, choices: seq<nat>)
    requires ValidChoices(n, choices)
    ensures var r := Start(n, None, choices);
      && r.thrown.None?
      && r.state.order == Shuffled(Identity(n), Identity(n), choices)
      && multiset(r.state.order) == multiset(Identity(n))
  {
    IdentityIsPermutation(n);
    ShuffledIsPermutation(Identity(n), Identity(n), choices);
  }

  // ---------------------------------------------------------------------------
  // Move buttons
  // ---------------------------------------------------------------------------

  /** handleDraggableMoveUp: above the top nothing happens; otherwise swap with the one above and commit. */
  function MoveUp(s: State, d: nat): (r: State)
    requires Inv(s) && d < |s.items|
    ensures Inv(r) && |r.items| == |s.items|
    ensures Position(s, d) == 0 ==> r == s
    ensures Position(s, d) > 0 ==>
      && r.order == SwapAt(s.order, Position(s, d) - 1, Position(s, d))
      && r.answerGiven && r.interactions == s.interactions + 1
      && r.undo == s.undo && r.selectedDraggable == s.selectedDraggable
  {
    var p := Position(s, d);
    if p > 0 then ResetButtons(Swap(Commit(s), d, s.order[p - 1])) else s
  }

  /**
   * handleDraggableMoveDown as written: the guard `position < length` holds
   * at every position, so at the bottom it commits and then throws a
   * TypeError, swapping with the null of getDraggableAt(n).
   */
  function MoveDownAsWritten(s: State, d: nat): (r: Outcome)
    requires Inv(s) && d < |s.items|
    ensures Inv(r.state)
  {
    var p := Position(s, d);
    if p < |s.items| then
      var c := Commit(s);
      if p + 1 > |s.items| - 1 then Outcome(c, Some(TypeError))
      else Outcome(ResetButtons(Swap(c, d, s.order[p + 1])), None)
    else Outcome(s, None)
  }

  /** handleDraggableMoveDown with the guard `position < length - 1`, mirroring move-up. */
  function MoveDown(s: State, d: nat): (r: State)
    requires Inv(s) && d < |s.items|
    ensures Inv(r) && |r.items| == |s.items|
    ensures Position(s, d) == |s.items| - 1 ==> r == s
    ensures Position(s, d) < |s.items| - 1 ==>
      && r.order == SwapAt(s.order, Position(s, d), Position(s, d) + 1)
      && r.answerGiven && r.interactions == s.interactions + 1
      && r.undo == s.undo && r.selectedDraggable == s.selectedDraggable
  {
    var p := Position(s, d);
    if p < |s.items| - 1 then ResetButtons(Swap(Commit(s), d, s.order[p + 1])) else s
  }

  /** Above the bottom, the handler as written and the corrected one agree. */
  lemma MoveDownAgreesAboveBottom(s: State, d: nat)
    requires Inv(s) && d < |s.items| && Position(s, d) < |s.items| - 1
    ensures MoveDownAsWritten(s, d) == Outcome(MoveDown(s, d), None)
  {
  }

  /**
   * At the bottom the handler as written marks the answer as given and calls
   * onInteracted although the order does not change, and then throws.
   */
  lemma MoveDownAsWrittenAtBottom(s: State, d: nat)
    requires Inv(s) && d < |s.items| && Position(s, d) == |s.items| - 1
    ensures var r := MoveDownAsWritten(s, d);
      && r.thrown == Some(TypeError)
      && r.state.order == s.order
      && r.state.answerGiven && r.state.interactions == s.interactions + 1
    ensures MoveDown(s, d) == s
  {
  }

  /**
   * The button that reaches the bottom case: with a single paragraph,
   * resetDraggables leaves its down button enabled.
   */
  lemma SingleParagraphDownEnabled(s: State)
    requires Inv(s) && |s.items| == 1
    ensures !ResetButtons(s).items[0].downDisabled
    ensures ResetButtons(s).items[0].upDisabled
    ensures Position(s, 0) == |s.items| - 1
  {
  }

  /** With two or more paragraphs the bottom paragraph's down button is disabled, so no click reaches it. */
  lemma BottomDownDisabled(s: State)
    requires Inv(s) && |s.items| >= 2
    ensures var r := ResetButtons(s);
      forall d :: 0 <= d < |s.items| && Position(s, d) == |s.items| - 1 ==> r.items[d].downDisabled
  {
  }

  // ---------------------------------------------------------------------------
  // Keyboard
  // ---------------------------------------------------------------------------

  /** A grabbed paragraph d trades places with the one at position q and stays selected. */
  function Carry(s: State, d: nat, q: nat): (r: State)
    requires Inv(s) && d < |s.items| && q < |s.items| && s.order[q] != d
    ensures Inv(r) && |r.items| == |s.items| && r.items[d].selected
    ensures r.order == SwapAt(s.order, Position(s, d), q)
    ensures r.answerGiven == s.answerGiven && r.interactions == s.interactions && r.undo == s.undo
  {
    IndexOfDistinct(s.order, q);
    SetSelected(ResetButtons(Swap(s, d, s.order[q])), d, true)
  }

  /**
   * handleDraggableKeyboardUp: nothing at the top; a grabbed (selected)
   * paragraph swaps with the one above and stays selected; otherwise only
   * the focus moves.
   */
  function KeyboardUp(s: State, d: nat): (r: State)
    requires Inv(s) && d < |s.items|
    ensures Inv(r) && |r.items| == |s.items|
    ensures Position(s, d) == 0 || !s.items[d].selected ==> r == s
    ensures Position(s, d) > 0 && s.items[d].selected ==>
      && r.order == SwapAt(s.order, Position(s, d) - 1, Position(s, d))
      && r.items[d].selected
    ensures r.answerGiven == s.answerGiven && r.interactions == s.interactions && r.undo == s.undo
  {
    var p := Position(s, d);
    if p <= 0 then s
    else if s.items[d].selected then
      SwapAtSymmetric(s.order, p - 1, p);
      Carry(s, d, p - 1)
    else s
  }

  /** handleDraggableKeyboardDown, the same one position lower. */
  function KeyboardDown(s: State, d: nat): (r: State)
    requires Inv(s) && d < |s.items|
    ensures Inv(r) && |r.items| == |s.items|
    ensures Position(s, d) == |s.items| - 1 || !s.items[d].selected ==> r == s
    ensures Position(s, d) < |s.items| - 1 && s.items[d].selected ==>
      && r.order == SwapAt(s.order, Position(s, d), Position(s, d) + 1)
      && r.items[d].selected
    ensures r.answerGiven == s.answerGiven && r.interactions == s.interactions && r.undo == s.undo
  {
    var p := Position(s, d);
    if p >= |s.items| - 1 then s
    else if s.items[d].selected then Carry(s, d, p + 1)
    else s
  }

  /**
   * handleDraggableKeyboardSelect: grabbing selects the paragraph and stores
   * its position and the order; dropping unselects it, commits only when
   * the position differs from the stored one, and clears the stored state.
   */
  function KeyboardSelect(s: State, d: nat): (r: State)
    requires Inv(s) && d < |s.items|
    ensures Inv(r) && |r.items| == |s.items| && r.order == s.order
    ensures !s.items[d].selected ==>
      r == SetSelected(s, d, true).(undo := Some(Undo(Position(s, d), s.order)))
    ensures s.items[d].selected ==>
      && !r.items[d].selected && r.undo.None?
      && r.answerGiven == (s.answerGiven || (s.undo.Some? && s.undo.value.position != Position(s, d)))
      && r.interactions == s.interactions + (if s.undo.Some? && s.undo.value.position != Position(s, d) then 1 else 0)
  {
    var p := Position(s, d);
    if !s.items[d].selected then
      SetSelected(s, d, true).(undo := Some(Undo(p, s.order)))
    else
      var c := if s.undo.Some? && s.undo.value.position != p then Commit(s) else s;
      SetSelected(c, d, false).(undo := None)
  }

  /**
   * handleDraggableKeyboardCancel: the paragraph is unselected; with a stored
   * state the stored order is restored by reorderDraggables and the stored
   * state cleared.  It never commits.
   */
  function KeyboardCancel(s: State, d: nat): (r: State)
    requires Inv(s) && d < |s.items|
    ensures Inv(r) && |r.items| == |s.items|
    ensures !r.items[d].selected && r.undo.None?
    ensures r.order == if s.undo.Some? then s.undo.value.order else s.order
    ensures r.answerGiven == s.answerGiven && r.interactions == s.interactions
  {
    var u := SetSelected(s, d, false);
    match s.undo
    case None => u
    case Some(undo) =>
      ReorderToPermutation(s.order, undo.order, |s.items|);
      ResetButtons(u.(order := Reorder(s.order, AsNumbers(undo.order)).order)).(undo := None)
  }

  // ---------------------------------------------------------------------------
  // Mouse
  // ---------------------------------------------------------------------------

  function MouseDown(s: State): (r: State)
    ensures r == s.(mouseDown := true)
  {
    s.(mouseDown := true)
  }

  /**
   * handleDraggableMouseUp: on a selected paragraph the selection is
   * dropped; on another paragraph while one is selected for click-to-swap
   * the two swap and the answer is committed; otherwise the paragraph is
   * selected for click-to-swap.  The mouse flag is cleared in every case.
   */
  function MouseUp(s: State, d: nat): (r: State)
    requires Inv(s) && d < |s.items|
    ensures Inv(r) && |r.items| == |s.items| && !r.mouseDown
    ensures s.items[d].selected ==>
      r.order == s.order && !r.items[d].selected && r.selectedDraggable.None? && r.answerGiven == s.answerGiven
    ensures !s.items[d].selected && s.selectedDraggable.Some? && s.selectedDraggable.value != d ==>
      && r.order == SwapAt(s.order, Position(s, d), Position(s, s.selectedDraggable.value))
      && r.answerGiven && r.interactions == s.interactions + 1
      && r.selectedDraggable.None?
    ensures !s.items[d].selected && (s.selectedDraggable.None? || s.selectedDraggable.value == d) ==>
      r.order == s.order && r.items[d].selected && r.selectedDraggable == Some(d) && r.answerGiven == s.answerGiven
  {
    if s.items[d].selected then Release(s, d)
    else if s.selectedDraggable.Some? && s.selectedDraggable.value != d then
      ClickSwap(s, d, s.selectedDraggable.value)
    else Pick(s, d)
  }

  /** The branch of handleDraggableMouseUp for a paragraph that is selected: it is released. */
  function Release(s: State, d: nat): (r: State)
    requires Inv(s) && d < |s.items|
    ensures Inv(r) && |r.items| == |s.items| && !r.mouseDown
    ensures r.order == s.order && !r.items[d].selected && r.selectedDraggable.None? && r.answerGiven == s.answerGiven
  {
    SetSelected(s.(selectedDraggable := None, mouseDown := false), d, false)
  }

  /** The branch of handleDraggableMouseUp that selects the paragraph for a click-to-swap. */
  function Pick(s: State, d: nat): (r: State)
    requires Inv(s) && d < |s.items|
    ensures Inv(r) && |r.items| == |s.items| && !r.mouseDown
    ensures r.order == s.order && r.items[d].selected && r.selectedDraggable == Some(d) && r.answerGiven == s.answerGiven
  {
    SetSelected(s, d, true).(selectedDraggable := Some(d), mouseDown := false)
  }

  /** The click-to-swap branch of handleDraggableMouseUp. */
  function ClickSwap(s: State, d: nat, e: nat): (r: State)
    requires Inv(s) && d < |s.items| && e < |s.items| && d != e
    ensures Inv(r) && |r.items| == |s.items| && !r.mouseDown && r.selectedDraggable.None?
    ensures r.order == SwapAt(s.order, Position(s, d), Position(s, e))
    ensures r.answerGiven && r.interactions == s.interactions + 1
  {
    ResetButtons(Swap(Commit(s), d, e)).(selectedDraggable := None, mouseDown := false)
  }

  /** handleDraggableFocusOut: unselect; forget the click-to-swap selection unless the mouse is down. */
  function FocusOut(s: State, d: nat): (r: State)
    requires Inv(s) && d < |s.items|
    ensures Inv(r) && r.order == s.order && !r.items[d].selected
    ensures r.selectedDraggable == if s.mouseDown then s.selectedDraggable else None
    ensures r.answerGiven == s.answerGiven && r.interactions == s.interactions
  {
    var u := SetSelected(s, d, false);
    if !s.mouseDown then u.(selectedDraggable := None) else u
  }

  /** handleDraggableDragStart: remember the order and the dragged element. */
  function DragStart(s: State, d: nat): (r: State)
    requires Inv(s) && d < |s.items|
    ensures Inv(r) && r.order == s.order && r.oldOrder == Some(s.order) && r.dragged == Some(d)
  {
    s.(oldOrder := Some(s.order), dragged := Some(d))
  }

  /**
   * handleDraggableDragEnter: the entered element becomes the drop zone and
   * swaps with the dragged one when they differ.  With nothing dragged (a
   * drag that did not start on a paragraph) the swap throws a TypeError.
   */
  function DragEnter(s: State, d: nat): (r: Outcome)
    requires Inv(s) && d < |s.items|
    ensures Inv(r.state) && r.state.dropzone == Some(d)
    ensures r.state.answerGiven == s.answerGiven && r.state.interactions == s.interactions
    ensures r.thrown.Some? <==> s.dragged.None?
    ensures s.dragged.Some? && s.dragged.value != d ==>
      r.state.order == SwapAt(s.order, Position(s, s.dragged.value), Position(s, d))
    ensures s.dragged.None? || s.dragged.value == d ==> r.state.order == s.order
  {
    var u := s.(dropzone := Some(d));
    if s.dragged == Some(d) then Outcome(u, None)
    else if s.dragged.None? then Outcome(u, Some(TypeError))
    else Outcome(Swap(u, s.dragged.value, d), None)
  }

  function DragLeave(s: State): (r: State)
    ensures r == s.(dropzone := None)
  {
    s.(dropzone := None)
  }

  /** `oldOrder.some((item, index) => item !== newOrder[index])` */
  predicate Moved(oldOrder: seq<nat>, newOrder: seq<nat>)
    requires |oldOrder| == |newOrder|
  {
    exists index :: 0 <= index < |oldOrder| && oldOrder[index] != newOrder[index]
  }

  lemma MovedIffDifferent(oldOrder: seq<nat>, newOrder: seq<nat>)
    requires |oldOrder| == |newOrder|
    ensures Moved(oldOrder, newOrder) <==> oldOrder != newOrder
  {
    if oldOrder != newOrder {
      var index :| 0 <= index < |oldOrder| && oldOrder[index] != newOrder[index];
    }
  }

  /**
   * handleDraggableDragEnd: commit when the order differs from the one at
   * drag start, then forget the drag.  Without a drag start the order to
   * compare with is null and the handler throws a TypeError.
   */
  function DragEnd(s: State): (r: Outcome)
    requires Inv(s)
    ensures Inv(r.state) && r.state.order == s.order
    ensures r.thrown.Some? <==> s.oldOrder.None?
    ensures s.oldOrder.Some? ==>
      && r.state.answerGiven == (s.answerGiven || s.oldOrder.value != s.order)
      && r.state.interactions == s.interactions + (if s.oldOrder.value != s.order then 1 else 0)
      && r.state.selectedDraggable.None? && r.state.dragged.None?
      && r.state.dropzone.None? && r.state.oldOrder.None?
  {
    match s.oldOrder
    case None => Outcome(s, Some(TypeError))
    case Some(before) =>
      MovedIffDifferent(before, s.order);
      var c := if Moved(before, s.order) then Commit(s) else s;
      Outcome(ResetButtons(c).(selectedDraggable := None, dragged := None, dropzone := None, oldOrder := None), None)
  }

  // ---------------------------------------------------------------------------
  // Enabling, solutions, reset
  // ---------------------------------------------------------------------------

  /** enable: every paragraph and both its buttons enabled. */
  function Enable(s: State): (r: State)
    requires Inv(s)
    ensures Inv(r) && r == s.(items := r.items, enabled := true) && |r.items| == |s.items|
    ensures forall d :: 0 <= d < |s.items| ==>
      r.items[d] == Item(s.items[d].selected, false, false, false)
  {
    s.(items := seq(|s.items|, d requires 0 <= d < |s.items| => Item(s.items[d].selected, false, false, false)),
       enabled := true)
  }

  /** disable: every paragraph and both its buttons disabled. */
  function Disable(s: State): (r: State)
    requires Inv(s)
    ensures Inv(r) && r == s.(items := r.items, enabled := false) && |r.items| == |s.items|
    ensures forall d :: 0 <= d < |s.items| ==>
      r.items[d] == Item(s.items[d].selected, true, true, true)
  {
    s.(items := seq(|s.items|, d requires 0 <= d < |s.items| => Item(s.items[d].selected, true, true, true)),
       enabled := false)
  }

  /**
   * disable does not stop the arrow keys: a paragraph that was grabbed
   * before stays selected and still moves up.
   */
  lemma DisabledGrabbedStillMoves(s: State, d: nat)
    requires Inv(s) && d < |s.items| && s.items[d].selected && Position(s, d) > 0
    ensures Disable(s).items[d].disabled
    ensures KeyboardUp(Disable(s), d).order == SwapAt(s.order, Position(s, d) - 1, Position(s, d))
    ensures KeyboardUp(Disable(s), d).order != s.order
  {
    var p := Position(s, d);
    assert Position(Disable(s), d) == p;
    assert SwapAt(s.order, p - 1, p)[p] == s.order[p - 1] != s.order[p];
  }

  /** showSolutions: every paragraph moved to its own index. */
  function ShowSolutions(s: State): (r: State)
    requires Inv(s)
    ensures Inv(r) && r == s.(order := Identity(|s.items|))
  {
    IdentityIsPermutation(|s.items|);
    s.(order := Identity(|s.items|))
  }

  /**
   * reset: the answer flag cleared, the elements shuffled with the supplied
   * draws (the elements taken in solution order), everything enabled and
   * the move buttons reset.
   */
  function Reset(s: State, choices: seq<nat>): (r: State)
    requires Inv(s) && ValidChoices(|s.items|, choices)
    ensures Inv(r) && |r.items| == |s.items| && !r.answerGiven && r.interactions == s.interactions
    ensures multiset(r.order) == multiset(s.order)
    ensures forall d :: 0 <= d < |s.items| ==> !r.items[d].disabled && r.items[d].selected == s.items[d].selected
    ensures r.enabled
    ensures r.order == Shuffled(s.order, Identity(|s.items|), choices)
    ensures forall d :: 0 <= d < |s.items| ==>
      var p := Position(r, d);
      r.items[d].upDisabled == (p == 0) && r.items[d].downDisabled == (p != 0 && p == |s.items| - 1)
  {
    var n := |s.items|;
    IdentityIsPermutation(n);
    ShuffledIsPermutation(s.order, Identity(n), choices);
    var shuffled := Shuffled(s.order, Identity(n), choices);
    SameIdsPermutation(s.order, shuffled, n);
    ResetButtons(Enable(s.(answerGiven := false, order := shuffled)))
  }

  // ---------------------------------------------------------------------------
  // Sequences of events
  // ---------------------------------------------------------------------------

  datatype Arrow = ArrowUp | ArrowDown

  /** The arrow keys pressed on paragraph d, in turn. */
  function Arrows(s: State, d: nat, keys: seq<Arrow>): (r: State)
    requires Inv(s) && d < |s.items|
    ensures Inv(r) && |r.items| == |s.items|
    decreases |keys|
  {
    if |keys| == 0 then s
    else
      var next := if keys[0] == ArrowUp then KeyboardUp(s, d) else KeyboardDown(s, d);
      Arrows(next, d, keys[1..])
  }

  /** Arrow keys never commit and keep the stored undo state. */
  lemma {:induction false} ArrowsKeepUndo(s: State, d: nat, keys: seq<Arrow>)
    requires Inv(s) && d < |s.items|
    ensures var r := Arrows(s, d, keys);
      r.undo == s.undo && r.answerGiven == s.answerGiven && r.interactions == s.interactions
    decreases |keys|
  {
    if |keys| > 0 {
      var next := if keys[0] == ArrowUp then KeyboardUp(s, d) else KeyboardDown(s, d);
      ArrowsKeepUndo(next, d, keys[1..]);
    }
  }

  /**
   * Grab with the keyboard, move with any arrow keys, cancel: the order is
   * the one before the grab and nothing was committed.
   */
  lemma CancelRestoresOrder(s: State, d: nat, keys: seq<Arrow>)
    requires Inv(s) && d < |s.items| && !s.items[d].selected
    ensures var grabbed := KeyboardSelect(s, d);
      var r := KeyboardCancel(Arrows(grabbed, d, keys), d);
      && r.order == s.order
      && r.answerGiven == s.answerGiven && r.interactions == s.interactions
      && r.undo.None? && !r.items[d].selected
  {
    ArrowsKeepUndo(KeyboardSelect(s, d), d, keys);
  }

  /**
   * Grab the paragraph at position 1, move it down, press Escape: the order
   * is the one before, the paragraph is back at position 1 and no answer
   * was committed.
   */
  lemma GrabMoveDownCancel(s: State, d: nat)
    requires Inv(s) && d < |s.items| && |s.items| >= 3 && Position(s, d) == 1 && !s.items[d].selected
    ensures var moved := KeyboardDown(KeyboardSelect(s, d), d);
      var r := KeyboardCancel(moved, d);
      && moved.order != s.order
      && r.order == s.order && Position(r, d) == 1
      && r.answerGiven == s.answerGiven && r.interactions == s.interactions
  {
    var grabbed := KeyboardSelect(s, d);
    var moved := KeyboardDown(grabbed, d);
    assert moved.order[2] == d != s.order[2];
    CancelRestoresOrder(s, d, [ArrowDown]);
    assert Arrows(grabbed, d, [ArrowDown]) == Arrows(moved, d, []);
  }
}
