/**
 * One paragraph of the list (h5p-sort-paragraphs-paragraph.js): its
 * selected and disabled flags, its two move buttons, and the guards of its
 * event handlers, which decide which events reach the content's handlers.
 * The element is reduced to its draggable attribute, its tab index, its
 * text and the effects whose class it carries.
 */
module Paragraphs {
  import opened Wrappers
  import opened Js
  import opened Buttons

  /** The effects toggleEffect accepts; each is shown by a class named after it. */
  const Effects: set<string> := {"over", "ghosted", "disabled", "selected", "correct", "wrong", "solution"}

  /** Texts for the move buttons. */
  datatype MoveLabels = MoveLabels(up: string, down: string, disabled: string)

  /** Which callback a key press reaches. */
  datatype KeyAction = NoAction | KeyUp | KeyDown | KeySelect | KeyCancel

  /** Where a mouse event happened: on one of the move buttons or elsewhere in the paragraph. */
  datatype Target = OnUpButton | OnDownButton | Elsewhere

  /** The move buttons' parameters: the given labels, the pulse type by default. */
  function MoveButtonParams(text: string, disabledLabel: string, direction: string): (p: Params)
    ensures Defaulted(p).kind == Str("pulse")
    ensures !Truthy(Defaulted(p).active) && !Truthy(Defaulted(p).disabled)
    ensures ClassSet(Defaulted(p).classes) == {"h5p-sort-paragraphs-button", "h5p-sort-paragraphs-paragraph-button-" + direction}
  {
    Params(
      Some(A11y(Some(text), Some(disabledLabel), None)),
      None,
      Some(ClassList(["h5p-sort-paragraphs-button", "h5p-sort-paragraphs-paragraph-button-" + direction])),
      None,
      None)
  }

  /** A move button says its label whether active or not, as the pulse fallback fills in the inactive one. */
  lemma MoveButtonLabels(text: string, disabledLabel: string, direction: string)
    ensures ButtonLabels(Defaulted(MoveButtonParams(text, disabledLabel, direction)))
      == Labels(text, disabledLabel, text)
  {
  }

  class Paragraph {
    const up: Button
    const down: Button
    var selected: bool
    var disabled: bool
    var draggable: bool
    var tabIndex: Option<int>
    var text: string
    /** The effects whose class the element carries. */
    var effects: set<string>

    predicate Valid()
      reads up, down
    {
      up != down && up.Valid() && down.Valid()
    }

    constructor(text: string, l10n: MoveLabels)
      ensures Valid() && fresh(up) && fresh(down)
      ensures !selected && !disabled && draggable && effects == {} && tabIndex.None?
      ensures this.text == text
      ensures up.labels == Labels(l10n.up, l10n.disabled, l10n.up)
      ensures down.labels == Labels(l10n.down, l10n.disabled, l10n.down)
      ensures !up.active && !up.disabled && !up.toggles
      ensures !down.active && !down.disabled && !down.toggles
    {
      MoveButtonLabels(l10n.up, l10n.disabled, "up");
      MoveButtonLabels(l10n.down, l10n.disabled, "down");
      up := new Button(MoveButtonParams(l10n.up, l10n.disabled, "up"));
      down := new Button(MoveButtonParams(l10n.down, l10n.disabled, "down"));
      selected := false;
      disabled := false;
      draggable := true;
      tabIndex := None;
      this.text := text;
      effects := {};
    }

    /**
     * toggleEffect: sets or clears an effect's class; names outside the
     * list of effects and flags that are not booleans are ignored.
     */
    method ToggleEffect(name: string, flag: Value)
      modifies this
      ensures !flag.Bool? || name !in Effects ==> effects == old(effects)
      ensures flag.Bool? && name in Effects ==>
        effects == if flag.b then old(effects) + {name} else old(effects) - {name}
      ensures selected == old(selected) && disabled == old(disabled) && draggable == old(draggable)
      ensures tabIndex == old(tabIndex) && text == old(text)
    {
      if !flag.Bool? || name !in Effects {
        return;
      }
      if flag.b {
        effects := effects + {name};
      } else {
        effects := effects - {name};
      }
    }

    method Select()
      modifies this
      ensures selected && effects == old(effects) + {"selected"}
      ensures disabled == old(disabled) && draggable == old(draggable)
    {
      selected := true;
      ToggleEffect("selected", Bool(true));
    }

    method Unselect()
      modifies this
      ensures !selected && effects == old(effects) - {"selected"}
      ensures disabled == old(disabled) && draggable == old(draggable)
    {
      selected := false;
      ToggleEffect("selected", Bool(false));
    }

    /**
     * reset: unselects.  The class names it removes besides are not those of
     * the effects, so the other effects stay.
     */
    method Reset()
      modifies this
      ensures !selected && effects == old(effects) - {"selected"}
      ensures disabled == old(disabled) && draggable == old(draggable)
    {
      Unselect();
    }

    /** enable: draggable, the disabled effect cleared, both buttons enabled. */
    method Enable()
      requires Valid()
      modifies this, up, down
      ensures Valid() && !disabled && draggable && effects == old(effects) - {"disabled"}
      ensures !up.disabled && !down.disabled
      ensures up.active == old(up.active) && down.active == old(down.active)
      ensures selected == old(selected)
    {
      draggable := true;
      ToggleEffect("disabled", Bool(false));
      up.Enable();
      down.Enable();
      disabled := false;
    }

    /** disable: not draggable, the disabled effect set, both buttons disabled. */
    method Disable()
      requires Valid()
      modifies this, up, down
      ensures Valid() && disabled && !draggable && effects == old(effects) + {"disabled"}
      ensures up.disabled && down.disabled
      ensures up.active == old(up.active) && down.active == old(down.active)
      ensures selected == old(selected)
    {
      disabled := true;
      draggable := false;
      ToggleEffect("disabled", Bool(true));
      up.Disable();
      down.Disable();
    }

    /**
     * toggleButton: enables or disables the button named by `id`; other ids
     * and flags that are not booleans are ignored.
     */
    method ToggleButton(id: Value, flag: Value)
      requires Valid()
      modifies up, down
      ensures Valid()
      ensures id == Str("up") && flag.Bool? ==> up.disabled == !flag.b && up.active == old(up.active)
      ensures id == Str("down") && flag.Bool? ==> down.disabled == !flag.b && down.active == old(down.active)
      ensures !(id == Str("up") && flag.Bool?) ==> unchanged(up)
      ensures !(id == Str("down") && flag.Bool?) ==> unchanged(down)
    {
      if !Truthy(id) || (id != Str("up") && id != Str("down")) || !flag.Bool? {
        return;
      }
      var button := if id == Str("up") then up else down;
      if flag.b {
        button.Enable();
      } else {
        button.Disable();
      }
    }

    /** setTabIndex: only numbers are accepted. */
    method SetTabIndex(index: Value)
      modifies this
      ensures tabIndex == if index.Num? then Some(index.n) else old(tabIndex)
      ensures selected == old(selected) && disabled == old(disabled) && effects == old(effects)
    {
      if index.Num? {
        tabIndex := Some(index.n);
      }
    }

    /** setText: only strings are accepted. */
    method SetText(newText: Value)
      modifies this
      ensures text == if newText.Str? then newText.s else old(text)
      ensures selected == old(selected) && disabled == old(disabled) && effects == old(effects)
    {
      if newText.Str? {
        text := newText.s;
      }
    }

    /**
     * The keydown handler: the arrows are passed on except on the first
     * (up) or last (down) paragraph; Enter and Space select and Escape
     * cancels unless the paragraph is disabled; other keys do nothing.
     */
    function KeyAction(keyCode: int, first: bool, last: bool): (a: KeyAction)
      reads this
      ensures a == KeyUp <==> keyCode == 38 && !first
      ensures a == KeyDown <==> keyCode == 40 && !last
      ensures a == KeySelect <==> (keyCode == 13 || keyCode == 32) && !disabled
      ensures a == KeyCancel <==> keyCode == 27 && !disabled
    {
      if keyCode == 38 then (if first then NoAction else KeyUp)
      else if keyCode == 40 then (if last then NoAction else KeyDown)
      else if keyCode == 13 || keyCode == 32 then (if disabled then NoAction else KeySelect)
      else if keyCode == 27 then (if disabled then NoAction else KeyCancel)
      else NoAction
    }

    /**
     * mousedown: ignored while disabled; on a move button the paragraph
     * stops being draggable; elsewhere the event is passed on (`forward`).
     */
    method MouseDown(target: Target) returns (forward: bool)
      modifies this
      ensures forward <==> !disabled && target == Elsewhere
      ensures draggable == if !disabled && target != Elsewhere then false else old(draggable)
      ensures selected == old(selected) && disabled == old(disabled) && effects == old(effects)
    {
      if disabled {
        return false;
      }
      if target != Elsewhere {
        draggable := false;
        return false;
      }
      return true;
    }

    /** mouseup: the same, making the paragraph draggable again after a move button. */
    method MouseUp(target: Target) returns (forward: bool)
      modifies this
      ensures forward <==> !disabled && target == Elsewhere
      ensures draggable == if !disabled && target != Elsewhere then true else old(draggable)
      ensures selected == old(selected) && disabled == old(disabled) && effects == old(effects)
    {
      if disabled {
        return false;
      }
      if target != Elsewhere {
        draggable := true;
        return false;
      }
      return true;
    }

    /** focusout: the selected effect is cleared (the flag is left) and the event is passed on. */
    method FocusOut()
      modifies this
      ensures effects == old(effects) - {"selected"}
      ensures selected == old(selected) && disabled == old(disabled) && draggable == old(draggable)
    {
      ToggleEffect("selected", Bool(false));
    }

    /** dragstart: ignored while disabled; otherwise shows the drag effects and is passed on. */
    method DragStart() returns (forward: bool)
      modifies this
      ensures forward <==> !disabled
      ensures effects == if disabled then old(effects) else old(effects) + {"over", "ghosted"}
      ensures selected == old(selected) && disabled == old(disabled) && draggable == old(draggable)
    {
      if disabled {
        return false;
      }
      ToggleEffect("over", Bool(true));
      ToggleEffect("ghosted", Bool(true));
      return true;
    }

    /** dragend: clears the drag effects and is passed on. */
    method DragEnd()
      modifies this
      ensures effects == old(effects) - {"over", "ghosted"}
      ensures selected == old(selected) && disabled == old(disabled) && draggable == old(draggable)
    {
      ToggleEffect("over", Bool(false));
      ToggleEffect("ghosted", Bool(false));
    }

    /** touchstart: a cancelable touch on an enabled paragraph stops it being draggable. */
    method TouchStart(cancelable: bool)
      modifies this
      ensures draggable == if cancelable && !disabled then false else old(draggable)
      ensures selected == old(selected) && disabled == old(disabled) && effects == old(effects)
    {
      if !cancelable || disabled {
        return;
      }
      draggable := false;
    }

    /** touchend: an enabled paragraph becomes draggable again. */
    method TouchEnd()
      modifies this
      ensures draggable == if !disabled then true else old(draggable)
      ensures selected == old(selected) && disabled == old(disabled) && effects == old(effects)
    {
      if disabled {
        return;
      }
      draggable := true;
    }

    method ShowButtons()
      requires Valid()
      modifies up, down
      ensures Valid()
      ensures HiddenClass !in up.classes && HiddenClass !in down.classes
      ensures up.active == old(up.active) && up.disabled == old(up.disabled)
      ensures down.active == old(down.active) && down.disabled == old(down.disabled)
    {
      up.Show();
      down.Show();
    }

    method HideButtons()
      requires Valid()
      modifies up, down
      ensures Valid()
      ensures HiddenClass in up.classes && HiddenClass in down.classes
      ensures up.active == old(up.active) && up.disabled == old(up.disabled)
      ensures down.active == old(down.active) && down.disabled == old(down.disabled)
    {
      up.Hide();
      down.Hide();
    }
  }

  /** A disabled paragraph passes on only the arrow keys, and the arrows do not depend on the flag. */
  lemma DisabledPassesArrowsOnly(p: Paragraph, keyCode: int, first: bool, last: bool)
    ensures p.disabled ==> p.KeyAction(keyCode, first, last) in {NoAction, KeyUp, KeyDown}
    ensures keyCode == 38 || keyCode == 40 ==>
      p.KeyAction(keyCode, first, last) == (if keyCode == 38 then (if first then NoAction else KeyUp)
                                           else (if last then NoAction else KeyDown))
  {
  }
}
