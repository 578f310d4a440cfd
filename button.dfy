/**
 * The move buttons (h5p-sort-paragraphs-button.js): an active flag and a
 * disabled flag, changed by activate/deactivate/toggle and enable/disable,
 * and a mouse-up handler that is ignored while disabled.  The button's
 * element is reduced to what these change: its class names and the text of
 * its aria-label and title attributes (`title`).
 */
module Buttons {
  import opened Wrappers
  import opened Js

  const ActiveClass: string := "h5p-sort-paragraphs-button-active"
  /** The class name deactivate removes as written. */
  const ActiveClassAsWritten: string := "h5p-sort-paragraphs-active"
  const DisabledClass: string := "h5p-sort-paragraphs-disabled"
  const HiddenClass: string := "h5p-sort-paragraphs-no-display"

  datatype Labels = Labels(active: string, disabled: string, inactive: string)

  /** The constructor's parameters, each key absent (None) or given. */
  datatype A11y = A11y(active: Option<string>, disabled: Option<string>, inactive: Option<string>)
  datatype Classes = ClassList(names: seq<string>) | ClassName(name: string)
  datatype Params = Params(
    a11y: Option<A11y>,
    active: Option<Value>,
    classes: Option<Classes>,
    disabled: Option<Value>,
    kind: Option<Value>)

  /** The parameters after the defaults have been filled in and `classes` made a list. */
  datatype Settings = Settings(labels: Labels, active: Value, classes: seq<string>, disabled: Value, kind: Value)

  /**
   * `extend` of the defaults (empty labels, not active, no classes, not
   * disabled, type 'pulse') with the parameters, then a single class name
   * wrapped into a one-element list.
   */
  function Defaulted(p: Params): (r: Settings)
    ensures p.a11y.None? ==> r.labels == Labels("", "", "")
    ensures p.a11y.Some? ==>
      && r.labels.active == p.a11y.value.active.GetOr("")
      && r.labels.disabled == p.a11y.value.disabled.GetOr("")
      && r.labels.inactive == p.a11y.value.inactive.GetOr("")
    ensures r.active == p.active.GetOr(Bool(false))
    ensures r.disabled == p.disabled.GetOr(Bool(false))
    ensures r.kind == p.kind.GetOr(Str("pulse"))
    ensures p.classes.None? ==> r.classes == []
    ensures p.classes.Some? && p.classes.value.ClassName? ==> r.classes == [p.classes.value.name]
    ensures p.classes.Some? && p.classes.value.ClassList? ==> r.classes == p.classes.value.names
  {
    var labels := match p.a11y
      case None => Labels("", "", "")
      case Some(a) => Labels(a.active.GetOr(""), a.disabled.GetOr(""), a.inactive.GetOr(""));
    var classes := match p.classes
      case None => []
      case Some(ClassList(names)) => names
      case Some(ClassName(name)) => [name];
    Settings(labels, p.active.GetOr(Bool(false)), classes, p.disabled.GetOr(Bool(false)), p.kind.GetOr(Str("pulse")))
  }

  /**
   * The fallback for pulse buttons: an empty inactive label takes the active
   * one, then an empty active label takes the (new) inactive one.
   */
  function PulseLabels(l: Labels): (r: Labels)
    ensures r.disabled == l.disabled
    ensures l.active != "" ==> r.active == l.active
    ensures l.inactive != "" ==> r.inactive == l.inactive
    ensures l.active == "" ==> r.active == r.inactive
    ensures l.inactive == "" ==> r.inactive == r.active
  {
    var l1 := if l.inactive == "" then l.(inactive := l.active) else l;
    if l1.active == "" then l1.(active := l1.inactive) else l1
  }

  /** After the fallback a label is empty only when both were. */
  lemma PulseLabelsEmpty(l: Labels)
    ensures PulseLabels(l).active == "" <==> l.active == "" && l.inactive == ""
    ensures PulseLabels(l).inactive == "" <==> l.active == "" && l.inactive == ""
  {
  }

  lemma PulseLabelsIdempotent(l: Labels)
    ensures PulseLabels(PulseLabels(l)) == PulseLabels(l)
  {
  }

  /** The labels a button uses: with the fallback only for the 'pulse' type. */
  function ButtonLabels(s: Settings): (r: Labels)
    ensures r.disabled == s.labels.disabled
    ensures s.kind != Str("pulse") ==> r == s.labels
    ensures s.kind == Str("pulse") && (s.labels.active != "" || s.labels.inactive != "") ==>
      r.active != "" && r.inactive != ""
  {
    if s.kind == Str("pulse") then PulseLabels(s.labels) else s.labels
  }

  function ClassSet(names: seq<string>): (r: set<string>)
    ensures forall c :: c in r <==> c in names
  {
    set k | 0 <= k < |names| :: names[k]
  }

  class Button {
    const labels: Labels
    /** The 'toggle' type: a click flips the active flag and the active class tracks it. */
    const toggles: bool
    var active: bool
    var disabled: bool
    var title: string
    var classes: set<string>

    /**
     * A disabled button shows the disabled label and class; an enabled one
     * the label of its active flag and, for the toggle type, the active
     * class exactly when it is active.
     */
    predicate Valid()
      reads this
    {
      && (disabled ==> title == labels.disabled && DisabledClass in classes)
      && (!disabled ==> title == (if active then labels.active else labels.inactive) && DisabledClass !in classes)
      && (toggles && !disabled ==> (ActiveClass in classes <==> active))
    }

    /**
     * The constructor: the active flag is set by activate/deactivate unless
     * the disabled parameter is truthy, then the button is disabled when
     * that parameter is exactly true and enabled otherwise.
     */
    constructor(p: Params)
      ensures Valid()
      ensures labels == ButtonLabels(Defaulted(p))
      ensures toggles <==> Defaulted(p).kind == Str("toggle")
      ensures disabled <==> Defaulted(p).disabled == Bool(true)
      ensures active == if Truthy(Defaulted(p).disabled) then Truthy(Defaulted(p).active)
                        else Defaulted(p).active == Bool(true)
      ensures HiddenClass !in ClassSet(Defaulted(p).classes) ==> HiddenClass !in classes
    {
      var s := Defaulted(p);
      labels := ButtonLabels(s);
      toggles := s.kind == Str("toggle");
      active := Truthy(s.active);
      disabled := Truthy(s.disabled);
      title := "";
      classes := ClassSet(s.classes);
      new;
      if s.active == Bool(true) {
        Activate();
      } else {
        Deactivate();
      }
      if s.disabled == Bool(true) {
        Disable();
      } else {
        Enable();
      }
    }

    /** activate: ignored while disabled. */
    method Activate()
      modifies this
      ensures old(disabled) ==> active == old(active) && title == old(title) && classes == old(classes)
      ensures !old(disabled) ==>
        && active && title == labels.active
        && classes == old(classes) + (if toggles then {ActiveClass} else {})
      ensures disabled == old(disabled)
    {
      if disabled {
        return;
      }
      if toggles {
        classes := classes + {ActiveClass};
      }
      title := labels.active;
      active := true;
    }

    /** deactivate, removing the class that activate adds. */
    method Deactivate()
      modifies this
      ensures old(disabled) ==> active == old(active) && title == old(title) && classes == old(classes)
      ensures !old(disabled) ==>
        && !active && title == labels.inactive
        && classes == old(classes) - (if toggles then {ActiveClass} else {})
      ensures disabled == old(disabled)
      ensures !disabled && toggles ==> ActiveClass !in classes
    {
      if disabled {
        return;
      }
      active := false;
      if toggles {
        classes := classes - {ActiveClass};
      }
      title := labels.inactive;
    }

    /** deactivate as written: it removes a class name activate never adds. */
    method DeactivateAsWritten()
      modifies this
      ensures old(disabled) ==> active == old(active) && title == old(title) && classes == old(classes)
      ensures !old(disabled) ==>
        && !active && title == labels.inactive
        && classes == old(classes) - (if toggles then {ActiveClassAsWritten} else {})
      ensures disabled == old(disabled)
    {
      if disabled {
        return;
      }
      active := false;
      if toggles {
        classes := classes - {ActiveClassAsWritten};
      }
      title := labels.inactive;
    }

    /** enable: not disabled any more, with the active flag kept. */
    method Enable()
      modifies this
      ensures Valid() && !disabled && active == old(active)
      ensures classes == if toggles && active then old(classes) - {DisabledClass} + {ActiveClass}
                         else if toggles then old(classes) - {DisabledClass} - {ActiveClass}
                         else old(classes) - {DisabledClass}
    {
      disabled := false;
      classes := classes - {DisabledClass};
      if active {
        Activate();
      } else {
        Deactivate();
      }
    }

    /** disable: disabled, with the active flag kept. */
    method Disable()
      modifies this
      ensures Valid() && disabled && active == old(active)
      ensures title == labels.disabled && classes == old(classes) + {DisabledClass}
    {
      classes := classes + {DisabledClass};
      title := labels.disabled;
      disabled := true;
    }

    /** toggle: flips the active flag unless disabled. */
    method Toggle()
      requires Valid()
      modifies this
      ensures Valid() && disabled == old(disabled)
      ensures active == if old(disabled) then old(active) else !old(active)
    {
      if disabled {
        return;
      }
      if active {
        Deactivate();
      } else {
        Activate();
      }
    }

    /**
     * The mouse-up handler: ignored while disabled; a toggle-type button
     * flips, and then the click callback fires (reported as `fired`).
     */
    method Click() returns (fired: bool)
      requires Valid()
      modifies this
      ensures Valid() && disabled == old(disabled)
      ensures fired <==> !old(disabled)
      ensures active == if fired && toggles then !old(active) else old(active)
    {
      if disabled {
        return false;
      }
      if toggles {
        Toggle();
      }
      fired := true;
    }

    method Show()
      requires Valid()
      modifies this
      ensures Valid() && classes == old(classes) - {HiddenClass}
      ensures active == old(active) && disabled == old(disabled) && title == old(title)
    {
      classes := classes - {HiddenClass};
    }

    method Hide()
      requires Valid()
      modifies this
      ensures Valid() && classes == old(classes) + {HiddenClass}
      ensures active == old(active) && disabled == old(disabled) && title == old(title)
    {
      classes := classes + {HiddenClass};
    }
  }

  /**
   * A toggle-type button activated and then deactivated as written is
   * inactive but still carries the active class.
   */
  method ActiveClassLingers() returns (b: Button)
    ensures !b.disabled && !b.active && ActiveClass in b.classes
  {
    b := new Button(Params(None, None, None, None, Some(Str("toggle"))));
    b.Activate();
    b.DeactivateAsWritten();
  }

  /** With deactivate removing the class activate adds, the class follows the flag through activate/deactivate. */
  method ActiveClassFollows() returns (b: Button)
    ensures b.Valid() && !b.disabled && !b.active && ActiveClass !in b.classes
  {
    b := new Button(Params(None, None, None, None, Some(Str("toggle"))));
    b.Activate();
    b.Deactivate();
  }
}
