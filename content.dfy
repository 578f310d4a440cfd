/**
 * The content (h5p-sort-paragraphs-content.js): the paragraphs, the list
 * whose child order is the current order, and the handler state.  Each
 * method changes the objects in place and is proved to move the abstract
 * state `Abs()` exactly as the corresponding step of `Interaction` does.
 *
 * The list is the array `order`: order[p] is the id (solution index) of
 * the paragraph at position p; the separators between the paragraphs are
 * left out.  A handler receives the id of the paragraph whose element the
 * event reached.
 */
module Content {
  import opened Wrappers
  import opened Js
  import opened Util
  import opened Order
  import opened Scoring
  import Interaction
  import opened Buttons
  import opened Paragraphs

  /**
   * One iteration of reorderDraggables: when the entry at i is not the
   * wanted one, it is swapped with the entry holding the wanted id; `ok` is
   * false when that swap throws (no entry at i, or the id is not in the list).
   */
  method ReorderEntry(list: array<nat>, target: seq<int>, i: nat) returns (ok: bool)
    requires Distinct(list[..]) && i < |target|
    modifies list
    ensures ok <==> ReorderStep(old(list[..]), target, i).Some?
    ensures ok ==> list[..] == ReorderStep(old(list[..]), target, i).value
    ensures !ok ==> list[..] == old(list[..])
  {
    var current := list[..];
    if i < list.Length && list[i] as int == target[i] {
      return true;
    }
    if i >= list.Length || target[i] < 0 || target[i] as nat !in current {
      return false;
    }
    var k := IndexOf(current, target[i] as nat);
    SwapElementsAt(current, i, k);
    SwapDOMElements(list, list[i], list[k]);
    return true;
  }

  /** The loop of reorderDraggables on the list, ending at the first swap that throws. */
  method ReorderList(list: array<nat>, target: seq<int>) returns (thrown: Option<Error>)
    requires Distinct(list[..])
    modifies list
    ensures Run(list[..], thrown) == Reorder(old(list[..]), target)
  {
    ghost var goal := Reorder(list[..], target);
    var i := 0;
    while i < |target|
      invariant i <= |target|
      invariant Distinct(list[..])
      invariant ReorderFrom(list[..], target, i) == goal
    {
      var ok := ReorderEntry(list, target, i);
      if !ok {
        return Some(TypeError);
      }
      i := i + 1;
    }
    return None;
  }

  /**
   * One paragraph per text, each with fresh buttons, nothing selected or
   * disabled; `slot` places each paragraph and button.
   */
  method BuildParagraphs(texts: seq<string>, l10n: MoveLabels)
    returns (built: seq<Paragraph>, ghost slot: map<object, (nat, nat)>)
    ensures |built| == |texts| && fresh(slot.Keys)
    ensures forall i :: 0 <= i < |built| ==>
      && built[i] in slot && slot[built[i]] == (i, 0)
      && built[i].up in slot && slot[built[i].up] == (i, 1)
      && built[i].down in slot && slot[built[i].down] == (i, 2)
    ensures forall i :: 0 <= i < |built| ==>
      && built[i].Valid() && built[i].text == texts[i]
      && !built[i].selected && !built[i].disabled && !built[i].up.disabled && !built[i].down.disabled
  {
    built := [];
    slot := map[];
    while |built| < |texts|
      invariant |built| <= |texts|
      invariant fresh(slot.Keys)
      invariant forall i :: 0 <= i < |built| ==>
        && built[i] in slot && slot[built[i]] == (i, 0)
        && built[i].up in slot && slot[built[i].up] == (i, 1)
        && built[i].down in slot && slot[built[i].down] == (i, 2)
      invariant forall i :: 0 <= i < |built| ==>
        && built[i].Valid() && built[i].text == texts[i]
        && !built[i].selected && !built[i].disabled && !built[i].up.disabled && !built[i].down.disabled
    {
      var paragraph := new Paragraph(texts[|built|], l10n);
      slot := slot[paragraph := (|built|, 0)][paragraph.up := (|built|, 1)][paragraph.down := (|built|, 2)];
      built := built + [paragraph];
    }
  }

  class SortContent {
    const paragraphs: seq<Paragraph>
    const order: array<nat>
    /** The paragraph texts in solution order. */
    const texts: seq<string>
    const options: Options
    var answerGiven: bool
    /** How often `onInteracted` was called. */
    var interactions: nat
    var undo: Option<Interaction.Undo>
    var selectedDraggable: Option<nat>
    var mouseDown: bool
    var dragged: Option<nat>
    var dropzone: Option<nat>
    var oldOrder: Option<seq<nat>>
    var enabled: bool

    /** The paragraphs and their buttons. */
    ghost const Repr: set<object>
    /** Where each object of Repr belongs: (i, 0) is paragraph i, (i, 1) its up button, (i, 2) its down button. */
    ghost const Slot: map<object, (nat, nat)>

    /** The paragraphs and their buttons are distinct objects, one paragraph per list entry. */
    ghost predicate Structure() {
      && |paragraphs| == order.Length == |texts|
      && Repr == Slot.Keys
      && this !in Repr && order !in Repr
      && forall i :: 0 <= i < |paragraphs| ==>
           && paragraphs[i] in Slot && Slot[paragraphs[i]] == (i, 0)
           && paragraphs[i].up in Slot && Slot[paragraphs[i].up] == (i, 1)
           && paragraphs[i].down in Slot && Slot[paragraphs[i].down] == (i, 2)
    }

    /** Every paragraph keeps its buttons consistent. */
    ghost predicate ParagraphsValid()
      requires Structure()
      reads Repr
    {
      forall i :: 0 <= i < |paragraphs| ==> paragraphs[i].Valid()
    }

    /** What the handlers read of paragraph i: its flags and its buttons' disabled flags. */
    ghost function ItemAt(i: nat): Interaction.Item
      requires i < |paragraphs|
      reads paragraphs[i], paragraphs[i].up, paragraphs[i].down
    {
      Interaction.Item(paragraphs[i].selected, paragraphs[i].disabled, paragraphs[i].up.disabled, paragraphs[i].down.disabled)
    }

    ghost function Items(): (r: seq<Interaction.Item>)
      requires Structure()
      reads Repr
      ensures |r| == |paragraphs| && forall i :: 0 <= i < |paragraphs| ==> r[i] == ItemAt(i)
    {
      seq(|paragraphs|, i requires 0 <= i < |paragraphs| reads Repr => ItemAt(i))
    }

    ghost function Abs(): Interaction.State
      requires Structure()
      reads this, order, Repr
    {
      Interaction.State(order[..], Items(), answerGiven, interactions, undo, selectedDraggable,
        mouseDown, dragged, dropzone, oldOrder, enabled)
    }

    ghost predicate Valid()
      reads this, order, Repr
    {
      && Structure()
      && ParagraphsValid()
      && Interaction.Inv(Abs())
    }

    /**
     * The constructor before ordering: one paragraph per text, the list in
     * solution order, the handler state cleared.
     */
    constructor(texts: seq<string>, l10n: MoveLabels, options: Options)
      ensures Valid() && fresh(order) && fresh(Repr)
      ensures Abs() == Interaction.Initial(|texts|)
      ensures this.texts == texts && this.options == options
    {
      var built: seq<Paragraph>;
      ghost var slot: map<object, (nat, nat)>;
      built, slot := BuildParagraphs(texts, l10n);
      paragraphs := built;
      Slot := slot;
      Repr := slot.Keys;
      order := new nat[|texts|](p => p);
      this.texts := texts;
      this.options := options;
      answerGiven := false;
      interactions := 0;
      undo := None;
      selectedDraggable := None;
      mouseDown := false;
      dragged := None;
      dropzone := None;
      oldOrder := None;
      enabled := true;
      new;
      assert order[..] == Identity(|texts|);
      assert Items() == Interaction.Initial(|texts|).items;
    }

    /**
     * The constructor: builds the content, restores the previous order when
     * there is one (a malformed one makes it throw) or shuffles, and resets
     * the move buttons.
     */
    static method Create(texts: seq<string>, l10n: MoveLabels, options: Options,
                         previous: Option<seq<int>>, choices: seq<nat>)
      returns (r: Result<SortContent, Error>)
      requires previous.None? ==> ValidChoices(|texts|, choices)
      ensures r.Failure? <==> Interaction.Start(|texts|, previous, choices).thrown.Some?
      ensures r.Failure? ==> r.error == Interaction.Start(|texts|, previous, choices).thrown.value
      ensures r.Success? ==>
        && r.value.Valid() && r.value.texts == texts && r.value.options == options
        && r.value.Abs() == Interaction.Start(|texts|, previous, choices).state
    {
      var c := new SortContent(texts, l10n, options);
      match previous {
        case Some(target) =>
          var thrown := c.ReorderDraggables(target);
          if thrown.Some? {
            return Failure(thrown.value);
          }
        case None =>
          c.Shuffle(choices);
      }
      c.ResetDraggables();
      return Success(c);
    }

    // -------------------------------------------------------------------------
    // Reading the order
    // -------------------------------------------------------------------------

    /** getDraggablesOrder: the ids of the list entries, an order of the paragraphs. */
    method GetDraggablesOrder() returns (r: seq<nat>)
      requires Valid()
      ensures r == Abs().order && IsPermutation(r, |paragraphs|)
    {
      r := order[..];
    }

    /** getDraggableIndex: the position of paragraph d. */
    method GetDraggableIndex(d: nat) returns (r: nat)
      requires Valid() && d < |paragraphs|
      ensures r == Interaction.Position(Abs(), d)
      ensures r < order.Length && order[r] == d
    {
      PermutationContainsAll(order[..], |paragraphs|, d);
      r := IndexOf(order[..], d);
    }

    /** getDraggableAt: the paragraph at a position; null (None) for a non-number or a position outside the list. */
    method GetDraggableAt(position: Value) returns (r: Option<nat>)
      requires Valid()
      ensures r.Some? <==> position.Num? && 0 <= position.n < |paragraphs|
      ensures r.Some? ==> r.value == Abs().order[position.n] && r.value < |paragraphs|
    {
      if !position.Num? || position.n < 0 || position.n > |paragraphs| - 1 {
        return None;
      }
      r := Some(order[position.n]);
    }

    /** computeResults on the current order. */
    method ComputeResults() returns (r: Result<Results, Error>)
      requires Valid()
      ensures r == Scoring.ComputeResults(Abs().order, texts, options)
      ensures r.Failure? <==> options.mode == Transitions && |paragraphs| == 0
    {
      r := Scoring.ComputeResults(order[..], texts, options);
    }

    // -------------------------------------------------------------------------
    // Steps the handlers are made of
    // -------------------------------------------------------------------------

    /** The answer is marked as given and `onInteracted` called. */
    method Commit()
      requires Valid()
      modifies this
      ensures Valid() && Abs() == Interaction.Commit(old(Abs()))
    {
      answerGiven := true;
      interactions := interactions + 1;
    }

    /** swapDOMElements on the elements of paragraphs a and b. */
    method SwapEntries(a: nat, b: nat)
      requires Valid() && a < |paragraphs| && b < |paragraphs| && a != b
      modifies order
      ensures Valid() && Abs() == Interaction.Swap(old(Abs()), a, b)
    {
      SwapDOMElements(order, a, b);
    }

    /** select or unselect on paragraph d. */
    method Select(d: nat, selected: bool)
      requires Valid() && d < |paragraphs|
      modifies paragraphs[d]
      ensures Valid() && Abs() == Interaction.SetSelected(old(Abs()), d, selected)
    {
      if selected {
        paragraphs[d].Select();
      } else {
        paragraphs[d].Unselect();
      }
      assert Items() == Interaction.SetSelected(old(Abs()), d, selected).items;
    }

    /** The body of resetDraggables' loop: the drag effects cleared and the move buttons set for position p of n. */
    static method ResetParagraph(paragraph: Paragraph, p: nat, n: nat)
      requires paragraph.Valid()
      modifies paragraph, paragraph.up, paragraph.down
      ensures paragraph.Valid()
      ensures paragraph.selected == old(paragraph.selected) && paragraph.disabled == old(paragraph.disabled)
      ensures paragraph.up.disabled == (p == 0)
      ensures paragraph.down.disabled == (p != 0 && p == n - 1)
    {
      paragraph.ToggleEffect("over", Bool(false));
      paragraph.ToggleEffect("ghosted", Bool(false));
      if p == 0 {
        paragraph.ToggleButton(Str("up"), Bool(false));
        paragraph.ToggleButton(Str("down"), Bool(true));
      } else if p == n - 1 {
        paragraph.ToggleButton(Str("up"), Bool(true));
        paragraph.ToggleButton(Str("down"), Bool(false));
      } else {
        paragraph.ToggleButton(Str("up"), Bool(true));
        paragraph.ToggleButton(Str("down"), Bool(true));
      }
    }

    /** The buttons of the paragraph at position p set for that position; the other paragraphs unchanged. */
    method ResetDraggableAt(p: nat)
      requires Structure() && ParagraphsValid() && p < order.Length && order[p] < |paragraphs|
      modifies paragraphs[order[p]], paragraphs[order[p]].up, paragraphs[order[p]].down
      ensures ParagraphsValid()
      ensures ItemAt(order[p]) == old(ItemAt(order[p])).(upDisabled := p == 0, downDisabled := p != 0 && p == order.Length - 1)
      ensures forall j :: 0 <= j < |paragraphs| && j != order[p] ==> ItemAt(j) == old(ItemAt(j))
    {
      ResetParagraph(paragraphs[order[p]], p, order.Length);
    }

    /** The loop of resetDraggables, over the positions. */
    method ResetDraggablesLoop()
      requires Structure() && ParagraphsValid() && IsPermutation(order[..], |paragraphs|)
      modifies Repr
      ensures ParagraphsValid()
      ensures forall i :: 0 <= i < |paragraphs| ==>
        ItemAt(i).selected == old(ItemAt(i).selected) && ItemAt(i).disabled == old(ItemAt(i).disabled)
      ensures forall q :: 0 <= q < order.Length ==>
        ItemAt(order[q]).upDisabled == (q == 0) && ItemAt(order[q]).downDisabled == (q != 0 && q == order.Length - 1)
    {
      var n := order.Length;
      var p := 0;
      while p < n
        invariant 0 <= p <= n
        invariant ParagraphsValid()
        invariant forall i :: 0 <= i < n ==>
          ItemAt(i).selected == old(ItemAt(i).selected) && ItemAt(i).disabled == old(ItemAt(i).disabled)
        invariant forall q :: 0 <= q < p ==>
          ItemAt(order[q]).upDisabled == (q == 0) && ItemAt(order[q]).downDisabled == (q != 0 && q == n - 1)
      {
        ResetDraggableAt(p);
        p := p + 1;
      }
    }

    /** resetDraggables: the move buttons set for each paragraph's position. */
    method ResetDraggables()
      requires Valid()
      modifies Repr
      ensures Valid() && Abs() == Interaction.ResetButtons(old(Abs()))
    {
      ghost var s0 := Abs();
      ResetDraggablesLoop();
      forall d | 0 <= d < |paragraphs|
        ensures Items()[d] == Interaction.ResetButtons(s0).items[d]
      {
        var pos := Interaction.Position(s0, d);
        assert order[pos] == d;
      }
      assert Items() == Interaction.ResetButtons(s0).items;
    }

    /**
     * reorderDraggables: the list brought into the target order as far as
     * the swaps go; a missing entry makes it throw.
     */
    method ReorderDraggables(target: seq<int>) returns (thrown: Option<Error>)
      requires Valid()
      modifies order
      ensures Valid()
      ensures Run(order[..], thrown) == Reorder(old(order[..]), target)
      ensures Abs() == old(Abs()).(order := order[..])
    {
      ghost var before := order[..];
      thrown := ReorderList(order, target);
      ReorderFromPermutes(before, target, 0);
      SameIdsPermutation(before, order[..], |paragraphs|);
    }

    /** shuffleDOMElements on the paragraphs' elements taken in solution order. */
    method Shuffle(choices: seq<nat>)
      requires Valid() && ValidChoices(|paragraphs|, choices)
      modifies order
      ensures Valid()
      ensures Abs() == old(Abs()).(order := Shuffled(old(order[..]), Identity(|paragraphs|), choices))
    {
      ghost var before := order[..];
      IdentityIsPermutation(|paragraphs|);
      ShuffleDOMElements(order, Identity(|paragraphs|), choices);
      ShuffledIsPermutation(before, Identity(|paragraphs|), choices);
      SameIdsPermutation(before, order[..], |paragraphs|);
    }

    /** toggleEffect on paragraph i: only its effects change. */
    method ToggleEffectAt(i: nat, name: string, flag: bool)
      requires Valid() && i < |paragraphs|
      modifies paragraphs[i]
      ensures Valid() && Abs() == old(Abs())
      ensures name in Effects ==>
        paragraphs[i].effects == if flag then old(paragraphs[i].effects) + {name} else old(paragraphs[i].effects) - {name}
    {
      paragraphs[i].ToggleEffect(name, Bool(flag));
      assert Items() == old(Items());
    }

    /** showButtons on paragraph i: the move buttons lose the hiding class. */
    method ShowButtonsAt(i: nat)
      requires Valid() && i < |paragraphs|
      modifies paragraphs[i].up, paragraphs[i].down
      ensures Valid() && Abs() == old(Abs())
      ensures HiddenClass !in paragraphs[i].up.classes && HiddenClass !in paragraphs[i].down.classes
    {
      paragraphs[i].ShowButtons();
      assert Items() == old(Items());
    }

    /** The move of showSolutions for paragraph `index`: its entry is swapped into position `index`. */
    method MoveToIndex(index: nat)
      requires Valid() && index < |paragraphs|
      requires forall q :: 0 <= q < index ==> order[q] == q
      modifies order
      ensures Valid() && Abs() == old(Abs()).(order := order[..])
      ensures forall q :: 0 <= q <= index ==> order[q] == q
    {
      var n := |paragraphs|;
      PermutationContainsAll(order[..], n, index);
      var position := IndexOf(order[..], index);
      if position != index {
        assert position > index;
        SwapAtPermutation(order[..], n, index, position);
        SwapElementsAt(order[..], index, position);
        SwapDOMElements(order, order[index], order[position]);
      }
    }

    /** showSolutions, order part: each paragraph in turn is marked and moved to its own index. */
    method ShowSolutions()
      requires Valid()
      modifies order, Repr
      ensures Valid() && Abs() == Interaction.ShowSolutions(old(Abs()))
    {
      ghost var s0 := Abs();
      var n := order.Length;
      var index := 0;
      while index < n
        invariant index <= n
        invariant Valid() && Abs() == s0.(order := order[..])
        invariant forall q :: 0 <= q < index ==> order[q] == q
      {
        ToggleEffectAt(index, "solution", true);
        MoveToIndex(index);
        index := index + 1;
      }
      assert order[..] == Identity(n);
    }

    /** enable or disable on paragraph i: it and both its buttons enabled or disabled, nothing else changed. */
    method EnableAt(i: nat, flag: bool)
      requires Structure() && ParagraphsValid() && i < |paragraphs|
      modifies paragraphs[i], paragraphs[i].up, paragraphs[i].down
      ensures ParagraphsValid()
      ensures ItemAt(i) == Interaction.Item(old(ItemAt(i)).selected, !flag, !flag, !flag)
      ensures forall j :: 0 <= j < |paragraphs| && j != i ==> ItemAt(j) == old(ItemAt(j))
    {
      if flag {
        paragraphs[i].Enable();
      } else {
        paragraphs[i].Disable();
      }
    }

    /** The enabled flag set. */
    method SetEnabled(flag: bool)
      requires Valid()
      modifies this
      ensures Valid() && Abs() == old(Abs()).(enabled := flag)
    {
      enabled := flag;
    }

    /** enable: every paragraph enabled. */
    method Enable()
      requires Valid()
      modifies this, Repr
      ensures Valid() && Abs() == Interaction.Enable(old(Abs()))
    {
      ghost var s0 := Abs();
      var n := |paragraphs|;
      var i := 0;
      while i < n
        modifies Repr
        invariant i <= n
        invariant ParagraphsValid()
        invariant forall j :: 0 <= j < i ==> ItemAt(j) == Interaction.Item(s0.items[j].selected, false, false, false)
        invariant forall j :: i <= j < n ==> ItemAt(j) == s0.items[j]
      {
        EnableAt(i, true);
        i := i + 1;
      }
      assert Items() == Interaction.Enable(s0).items;
      SetEnabled(true);
    }

    /** disable: every paragraph disabled. */
    method Disable()
      requires Valid()
      modifies this, Repr
      ensures Valid() && Abs() == Interaction.Disable(old(Abs()))
    {
      SetEnabled(false);
      ghost var s0 := Abs();
      var n := |paragraphs|;
      var i := 0;
      while i < n
        modifies Repr
        invariant i <= n
        invariant ParagraphsValid()
        invariant forall j :: 0 <= j < i ==> ItemAt(j) == Interaction.Item(s0.items[j].selected, true, true, true)
        invariant forall j :: i <= j < n ==> ItemAt(j) == s0.items[j]
      {
        EnableAt(i, false);
        i := i + 1;
      }
      assert Items() == Interaction.Disable(s0).items;
    }

    /** The loop of reset: the result effects cleared and the buttons shown. */
    method ClearResults()
      requires Valid()
      modifies Repr
      ensures Valid() && Abs() == old(Abs())
    {
      var n := |paragraphs|;
      var i := 0;
      while i < n
        invariant i <= n
        invariant Valid() && Abs() == old(Abs())
      {
        ToggleEffectAt(i, "correct", false);
        ToggleEffectAt(i, "wrong", false);
        ToggleEffectAt(i, "solution", false);
        ShowButtonsAt(i);
        i := i + 1;
      }
    }

    /**
     * reset: the answer flag cleared, the result effects cleared and the
     * buttons shown, the list shuffled with the supplied draws, everything
     * enabled and the move buttons reset.
     */
    method Reset(choices: seq<nat>)
      requires Valid() && ValidChoices(|paragraphs|, choices)
      modifies this, order, Repr
      ensures Valid() && Abs() == Interaction.Reset(old(Abs()), choices)
    {
      answerGiven := false;
      ClearResults();
      Shuffle(choices);
      Enable();
      ResetDraggables();
    }

    // -------------------------------------------------------------------------
    // Handlers
    // -------------------------------------------------------------------------

    /** The move buttons' swap: commit, swap d with the entry at position q, reset the buttons. */
    method CommitSwap(d: nat, q: nat)
      requires Valid() && d < |paragraphs| && q < |paragraphs| && order[q] != d
      modifies this, order, Repr
      ensures Valid()
      ensures Abs() == Interaction.ResetButtons(Interaction.Swap(Interaction.Commit(old(Abs())), d, old(order[q])))
    {
      Commit();
      SwapEntries(d, order[q]);
      ResetDraggables();
    }

    /** handleDraggableMoveUp. */
    method MoveUp(d: nat)
      requires Valid() && d < |paragraphs|
      modifies this, order, Repr
      ensures Valid() && Abs() == Interaction.MoveUp(old(Abs()), d)
    {
      var position := GetDraggableIndex(d);
      if position > 0 {
        CommitSwap(d, position - 1);
      }
    }

    /** handleDraggableMoveDown, with the guard that keeps the bottom paragraph in place. */
    method MoveDown(d: nat)
      requires Valid() && d < |paragraphs|
      modifies this, order, Repr
      ensures Valid() && Abs() == Interaction.MoveDown(old(Abs()), d)
    {
      var position := GetDraggableIndex(d);
      if position < |paragraphs| - 1 {
        CommitSwap(d, position + 1);
      }
    }

    /** The grabbing branch of the arrow keys: d trades places with the entry at position q and is selected again. */
    method Carry(d: nat, q: nat)
      requires Valid() && d < |paragraphs| && q < |paragraphs| && order[q] != d
      modifies order, Repr
      ensures Valid() && Abs() == Interaction.Carry(old(Abs()), d, q)
    {
      SwapEntries(d, order[q]);
      ResetDraggables();
      Select(d, true);
    }

    /** handleDraggableKeyboardUp (the focus moves are left out). */
    method KeyboardUp(d: nat)
      requires Valid() && d < |paragraphs|
      modifies order, Repr
      ensures Valid() && Abs() == Interaction.KeyboardUp(old(Abs()), d)
    {
      var position := GetDraggableIndex(d);
      if position <= 0 {
        return;
      }
      if paragraphs[d].selected {
        Carry(d, position - 1);
      }
    }

    /** handleDraggableKeyboardDown (the focus moves are left out). */
    method KeyboardDown(d: nat)
      requires Valid() && d < |paragraphs|
      modifies order, Repr
      ensures Valid() && Abs() == Interaction.KeyboardDown(old(Abs()), d)
    {
      var position := GetDraggableIndex(d);
      if position >= |paragraphs| - 1 {
        return;
      }
      if paragraphs[d].selected {
        Carry(d, position + 1);
      }
    }

    /** The undo state stored or cleared. */
    method SetUndo(u: Option<Interaction.Undo>)
      requires Valid()
      requires u.Some? ==> u.value.position < |paragraphs| && IsPermutation(u.value.order, |paragraphs|)
      modifies this
      ensures Valid() && Abs() == old(Abs()).(undo := u)
    {
      undo := u;
    }

    /** The grabbing branch of handleDraggableKeyboardSelect: select, and store the position and the order. */
    method Grab(d: nat)
      requires Valid() && d < |paragraphs| && !paragraphs[d].selected
      modifies this, paragraphs[d]
      ensures Valid() && Abs() == Interaction.KeyboardSelect(old(Abs()), d)
    {
      Select(d, true);
      var position := GetDraggableIndex(d);
      var current := GetDraggablesOrder();
      SetUndo(Some(Interaction.Undo(position, current)));
    }

    /** The dropping branch of handleDraggableKeyboardSelect: commit on a new position, unselect, forget. */
    method Drop(d: nat)
      requires Valid() && d < |paragraphs| && paragraphs[d].selected
      modifies this, paragraphs[d]
      ensures Valid() && Abs() == Interaction.KeyboardSelect(old(Abs()), d)
    {
      var position := GetDraggableIndex(d);
      if undo.Some? && undo.value.position != position {
        Commit();
      }
      Select(d, false);
      SetUndo(None);
    }

    /** handleDraggableKeyboardSelect. */
    method KeyboardSelect(d: nat)
      requires Valid() && d < |paragraphs|
      modifies this, Repr
      ensures Valid() && Abs() == Interaction.KeyboardSelect(old(Abs()), d)
    {
      if !paragraphs[d].selected {
        Grab(d);
      } else {
        Drop(d);
      }
    }

    /** handleDraggableKeyboardCancel (the focus moves are left out). */
    method KeyboardCancel(d: nat)
      requires Valid() && d < |paragraphs|
      modifies this, order, Repr
      ensures Valid() && Abs() == Interaction.KeyboardCancel(old(Abs()), d)
    {
      Select(d, false);
      if undo.Some? {
        var thrown := ReorderDraggables(AsNumbers(undo.value.order));
        ResetDraggables();
        SetUndo(None);
      }
    }

    /** handleDraggableMouseDown. */
    method MouseDown()
      requires Valid()
      modifies this
      ensures Valid() && Abs() == Interaction.MouseDown(old(Abs()))
    {
      mouseDown := true;
    }

    /** The end of handleDraggableMouseUp: the click-to-swap selection set to `selected`, the mouse flag cleared. */
    method ForgetClick(selected: Option<nat>)
      requires Valid() && (selected.Some? ==> selected.value < |paragraphs|)
      modifies this
      ensures Valid() && Abs() == old(Abs()).(selectedDraggable := selected, mouseDown := false)
    {
      selectedDraggable := selected;
      mouseDown := false;
    }

    /** The click-to-swap branch of handleDraggableMouseUp. */
    method ClickSwap(d: nat, e: nat)
      requires Valid() && d < |paragraphs| && e < |paragraphs| && d != e
      modifies this, order, Repr
      ensures Valid() && Abs() == Interaction.ClickSwap(old(Abs()), d, e)
    {
      Commit();
      SwapEntries(d, e);
      ResetDraggables();
      ForgetClick(None);
    }

    /** The branch of handleDraggableMouseUp on a selected paragraph: the selection dropped. */
    method Release(d: nat)
      requires Valid() && d < |paragraphs| && paragraphs[d].selected
      modifies this, paragraphs[d]
      ensures Valid() && Abs() == Interaction.MouseUp(old(Abs()), d)
    {
      selectedDraggable := None;
      Select(d, false);
      ForgetClick(None);
    }

    /** The branch of handleDraggableMouseUp that selects the paragraph for click-to-swap. */
    method Pick(d: nat)
      requires Valid() && d < |paragraphs| && !paragraphs[d].selected
      requires selectedDraggable.None? || selectedDraggable.value == d
      modifies this, paragraphs[d]
      ensures Valid() && Abs() == Interaction.MouseUp(old(Abs()), d)
    {
      Select(d, true);
      ForgetClick(Some(d));
    }

    /** handleDraggableMouseUp. */
    method MouseUp(d: nat)
      requires Valid() && d < |paragraphs|
      modifies this, order, Repr
      ensures Valid() && Abs() == Interaction.MouseUp(old(Abs()), d)
    {
      if paragraphs[d].selected {
        Release(d);
      } else if selectedDraggable.Some? && selectedDraggable.value != d {
        ClickSwap(d, selectedDraggable.value);
      } else {
        Pick(d);
      }
    }

    /** handleDraggableFocusOut. */
    method FocusOut(d: nat)
      requires Valid() && d < |paragraphs|
      modifies this, Repr
      ensures Valid() && Abs() == Interaction.FocusOut(old(Abs()), d)
    {
      Select(d, false);
      if !mouseDown {
        selectedDraggable := None;
      }
    }

    /** handleDraggableDragStart. */
    method DragStart(d: nat)
      requires Valid() && d < |paragraphs|
      modifies this
      ensures Valid() && Abs() == Interaction.DragStart(old(Abs()), d)
    {
      oldOrder := Some(order[..]);
      dragged := Some(d);
    }

    /** handleDraggableDragEnter. */
    method DragEnter(d: nat) returns (thrown: Option<Error>)
      requires Valid() && d < |paragraphs|
      modifies this, order
      ensures Valid()
      ensures Interaction.Outcome(Abs(), thrown) == Interaction.DragEnter(old(Abs()), d)
    {
      dropzone := Some(d);
      if dragged != Some(d) {
        if dragged.None? {
          return Some(TypeError);
        }
        SwapEntries(dragged.value, d);
      }
      return None;
    }

    /** handleDraggableDragLeave. */
    method DragLeave()
      requires Valid()
      modifies this
      ensures Valid() && Abs() == Interaction.DragLeave(old(Abs()))
    {
      dropzone := None;
    }

    /** Whether the order differs from the one at drag start: the `some` over the old order. */
    method OrderChanged(before: seq<nat>) returns (changed: bool)
      requires |before| == order.Length
      ensures changed == Interaction.Moved(before, order[..])
    {
      changed := false;
      var index := 0;
      while index < |before|
        invariant index <= |before|
        invariant changed <==> exists k :: 0 <= k < index && before[k] != order[k]
      {
        if before[index] != order[index] {
          changed := true;
        }
        index := index + 1;
      }
    }

    /** The end of handleDraggableDragEnd: the selection and the drag bookkeeping cleared. */
    method ForgetDrag()
      requires Valid()
      modifies this
      ensures Valid()
      ensures Abs() == old(Abs()).(selectedDraggable := None, dragged := None, dropzone := None, oldOrder := None)
    {
      selectedDraggable := None;
      dragged := None;
      dropzone := None;
      oldOrder := None;
    }

    /** handleDraggableDragEnd. */
    method DragEnd() returns (thrown: Option<Error>)
      requires Valid()
      modifies this, Repr
      ensures Valid()
      ensures Interaction.Outcome(Abs(), thrown) == Interaction.DragEnd(old(Abs()))
    {
      if oldOrder.None? {
        return Some(TypeError);
      }
      var changed := OrderChanged(oldOrder.value);
      if changed {
        Commit();
      }
      ResetDraggables();
      ForgetDrag();
      return None;
    }
  }
}
