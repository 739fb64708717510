/**
 * The shared hooks: a value that is either owned by the component or
 * supplied by its parent (`useControlledState`), and the rule that decides
 * whether a key press triggers a registered keyboard shortcut
 * (`useKeyboardShortcut`).
 */
module Hooks {
  import opened Wrappers

  // ---------------------------------------------------------------
  // useControlledState
  // ---------------------------------------------------------------

  class ControlledState<T> {
    /** The `controlledValue` argument; `None` when it is `undefined`, that is, uncontrolled. */
    var controlledValue: Option<T>
    var internalValue: T
    /** Whether an `onChange` callback was passed. */
    const hasOnChange: bool
    /** The arguments `onChange` has received, oldest first. */
    var changes: seq<T>

    constructor(controlledValue: Option<T>, defaultValue: T, hasOnChange: bool)
      ensures this.controlledValue == controlledValue && this.hasOnChange == hasOnChange
      ensures internalValue == defaultValue && changes == []
    {
      this.controlledValue := controlledValue;
      internalValue := defaultValue;
      this.hasOnChange := hasOnChange;
      changes := [];
    }

    function IsControlled(): bool
      reads this
    {
      controlledValue.Some?
    }

    /** `currentValue`: the controlled value when there is one, the internal value otherwise. */
    function Current(): (v: T)
      reads this
      ensures IsControlled() ==> v == controlledValue.value
      ensures !IsControlled() ==> v == internalValue
    {
      controlledValue.GetOr(internalValue)
    }

    /** The parent re-renders with another `controlledValue`. */
    method SetControlledValue(value: Option<T>)
      modifies this
      ensures controlledValue == value
      ensures internalValue == old(internalValue) && changes == old(changes)
    {
      controlledValue := value;
    }

    /**
     * `setValue`: an uncontrolled state takes the new value, a controlled
     * one keeps its internal value and its current value; `onChange`, when
     * given, receives the new value in both modes.
     */
    method SetValue(newValue: T)
      modifies this
      ensures controlledValue == old(controlledValue)
      ensures internalValue == (if old(IsControlled()) then old(internalValue) else newValue)
      ensures changes == old(changes) + (if hasOnChange then [newValue] else [])
      ensures !IsControlled() ==> Current() == newValue
      ensures IsControlled() ==> Current() == old(Current())
    {
      if controlledValue.None? {
        internalValue := newValue;
      }
      if hasOnChange {
        changes := changes + [newValue];
      }
    }
  }

  /**
   * An uncontrolled state starts at its default and follows `setValue`; a
   * controlled one at 3 stays at 3 while `onChange` receives the request.
   */
  method ControlledStateScenario() returns (initial: int, afterSet: int, controlled: int, reported: seq<int>)
    ensures initial == 0 && afterSet == 5
    ensures controlled == 3 && reported == [7]
  {
    var u := new ControlledState<int>(None, 0, false);
    initial := u.Current();
    u.SetValue(5);
    afterSet := u.Current();
    var c := new ControlledState<int>(Some(3), 0, true);
    c.SetValue(7);
    controlled := c.Current();
    reported := c.changes;
  }

  // ---------------------------------------------------------------
  // useKeyboardShortcut: the matching rule
  // ---------------------------------------------------------------

  datatype Modifier = Meta | Ctrl | Shift | Alt

  /** The parts of a `keydown` event the rule reads. */
  datatype KeyEvent = KeyEvent(key: string, metaKey: bool, ctrlKey: bool, shiftKey: bool, altKey: bool)

  /** The `modifiers` argument; an omitted flag reads as `false`. */
  datatype Modifiers = Modifiers(metaKey: bool, ctrlKey: bool, shiftKey: bool, altKey: bool)

  const NoModifiers: Modifiers := Modifiers(false, false, false, false)

  /** The inner `handleKeyDown`: returns early on another key or a missing requested modifier, otherwise calls the handler. */
  predicate Fires(key: string, modifiers: Modifiers, event: KeyEvent) {
    if event.key != key then false
    else if modifiers.metaKey && !event.metaKey then false
    else if modifiers.ctrlKey && !event.ctrlKey then false
    else if modifiers.shiftKey && !event.shiftKey then false
    else if modifiers.altKey && !event.altKey then false
    else true
  }

  /** The modifiers whose flag is set. */
  function ModifierSet(meta: bool, ctrl: bool, shift: bool, alt: bool): (r: set<Modifier>)
    ensures Meta in r <==> meta
    ensures Ctrl in r <==> ctrl
    ensures Shift in r <==> shift
    ensures Alt in r <==> alt
  {
    (if meta then {Meta} else {}) + (if ctrl then {Ctrl} else {})
    + (if shift then {Shift} else {}) + (if alt then {Alt} else {})
  }

  /** The modifiers the shortcut asks for. */
  function Requested(m: Modifiers): set<Modifier> {
    ModifierSet(m.metaKey, m.ctrlKey, m.shiftKey, m.altKey)
  }

  /** The modifiers held during the event. */
  function Pressed(e: KeyEvent): set<Modifier> {
    ModifierSet(e.metaKey, e.ctrlKey, e.shiftKey, e.altKey)
  }

  /** The shortcut fires exactly when the key matches and every requested modifier is pressed. */
  lemma FiresIff(key: string, modifiers: Modifiers, event: KeyEvent)
    ensures Fires(key, modifiers, event) <==> event.key == key && Requested(modifiers) <= Pressed(event)
  {
    if event.key == key && Requested(modifiers) <= Pressed(event) {
      assert modifiers.metaKey ==> Meta in Pressed(event);
      assert modifiers.ctrlKey ==> Ctrl in Pressed(event);
      assert modifiers.shiftKey ==> Shift in Pressed(event);
      assert modifiers.altKey ==> Alt in Pressed(event);
    }
    if Fires(key, modifiers, event) {
      forall m | m in Requested(modifiers) ensures m in Pressed(event) {
        match m
        case Meta =>
        case Ctrl =>
        case Shift =>
        case Alt =>
      }
    }
  }

  /** Pressing further modifiers never stops a shortcut from firing. */
  lemma ExtraModifiersDoNotBlock(key: string, modifiers: Modifiers, event: KeyEvent, more: KeyEvent)
    requires Fires(key, modifiers, event)
    requires more.key == event.key && Pressed(event) <= Pressed(more)
    ensures Fires(key, modifiers, more)
  {
    FiresIff(key, modifiers, event);
    FiresIff(key, modifiers, more);
  }

  /** Without requested modifiers the shortcut fires on its key alone, whatever else is held. */
  lemma NoModifiersFiresOnKey(key: string, event: KeyEvent)
    ensures Fires(key, NoModifiers, event) <==> event.key == key
  {
  }

  /** Cmd+K triggers a `{ metaKey: true }` shortcut on 'k'; a plain 'k' does not. */
  lemma CmdKExample()
    ensures Fires("k", Modifiers(true, false, false, false), KeyEvent("k", true, false, false, false))
    ensures !Fires("k", Modifiers(true, false, false, false), KeyEvent("k", false, false, false, false))
  {
  }
}
