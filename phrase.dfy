/**
 * The phrase input box: a line of text typed key by key, with an optional
 * completion suggested from the search history, and focus.
 */
module Phrase {
  import opened Wrappers
  import opened TermEvents
  import SearchCompleter

  datatype Event = Focus | Unfocus | Set(phrase: string) | Term(event: TermEvent)

  datatype Action = FocusAction | UnfocusAction | SetAction(phrase: string)
    | Push(character: char) | Pop | Complete | Enter | Quit

  datatype Effect = EnterEffect(phrase: string) | Bell | QuitEffect

  /**
   * The key map: Ctrl+q quits, Delete pops, a plain tab completes, Enter
   * enters, and a character typed plain or with shift is pushed; any other
   * key or terminal event has no action.
   */
  function ActionOf(event: Event): (r: Option<Action>)
    ensures event.Term? && event.event.Resize? ==> r.None?
    ensures event.Term? && event.event.KeyInput? && event.event.event.key.Char?
      && (event.event.event.mods == NONE || event.event.event.mods == SHIFT)
      ==> r == Some(Push(event.event.event.key.c))
    ensures r.Some? && r.value.Push? ==> event.Term? && event.event == KeyInput(KeyEvent(Char(r.value.character), event.event.event.mods))
  {
    match event
    case Focus => Some(FocusAction)
    case Unfocus => Some(UnfocusAction)
    case Set(p) => Some(SetAction(p))
    case Term(Resize(_)) => None
    case Term(KeyInput(KeyEvent(key, mods))) =>
      if key == Char('q') && mods == CONTROL then Some(Quit)
      else if key == Delete then Some(Pop)
      else if key == HorizontalTab && mods == NONE then Some(Complete)
      else if key == CarriageReturn then Some(Enter)
      else if key.Char? && (mods == NONE || mods == SHIFT) then Some(Push(key.c))
      else None
  }

  /** Ctrl+q is the only key with control that maps to an action other than Delete, Enter and the tab. */
  lemma ControlCharactersAreNotTyped(c: char)
    ensures ActionOf(Term(KeyInput(KeyEvent(Char(c), CONTROL)))) == if c == 'q' then Some(Quit) else None
  {
  }

  /**
   * The phrase's state. The auto-completer, when there is one, is the search
   * completer over the history `completer` holds.
   */
  class PhraseState {
    var value: string
    var completion: Option<string>
    var focus: bool

    /** The default state: focused, empty, with no completion. */
    constructor ()
      ensures value == [] && completion.None? && focus
    {
      value := [];
      completion := None;
      focus := true;
    }

    /** The state a component starts with: the given value, if any. */
    constructor WithValue(initial: Option<string>)
      ensures value == (if initial.Some? then initial.value else []) && completion.None? && focus
    {
      value := if initial.Some? then initial.value else [];
      completion := None;
      focus := true;
    }

    /** `push`: the character appended and, with a completer, the new value completed. */
    twostate predicate Pushed(c: char, completer: Option<seq<string>>)
      reads this
    {
      value == old(value) + [c] && focus == old(focus)
      && completion == if completer.Some? then SearchCompleter.NewestWithPrefix(completer.value, value)
                       else old(completion)
    }

    /**
     * `pop`: the last character removed, if any; with a completer the new
     * value completed, or the completion cleared once the value is empty.
     */
    twostate predicate Popped(completer: Option<seq<string>>)
      reads this
    {
      value == (if old(value) == [] then [] else old(value)[..|old(value)| - 1])
      && focus == old(focus)
      && completion == if completer.None? then old(completion)
                       else if value == [] then None
                       else SearchCompleter.NewestWithPrefix(completer.value, value)
    }

    /** `complete`: the completion taken as the value and cleared; without one nothing changes. */
    twostate predicate Completed()
      reads this
    {
      value == (if old(completion).Some? then old(completion).value else old(value))
      && completion.None? && focus == old(focus)
    }

    /** Appends the character and, with a completer, completes the new value. */
    method PushCharacter(c: char, completer: Option<seq<string>>)
      modifies this
      ensures Pushed(c, completer)
    {
      value := value + [c];
      if completer.Some? {
        completion := SearchCompleter.Complete(completer.value, value);
      }
    }

    /**
     * Removes the last character, if any, and with a completer completes the
     * new value, or clears the completion once the value is empty.
     */
    method PopCharacter(completer: Option<seq<string>>)
      modifies this
      ensures Popped(completer)
    {
      if value != [] {
        value := value[..|value| - 1];
      }
      if completer.Some? {
        if value == [] {
          completion := None;
        } else {
          completion := SearchCompleter.Complete(completer.value, value);
        }
      }
    }

    /** Takes the completion as the value and clears it; without one nothing changes. */
    method CompleteValue()
      modifies this
      ensures Completed()
    {
      if completion.Some? {
        value := completion.value;
        completion := None;
      }
    }

    /** What `perform` does for each action: the post-state of the operation it dispatches to, and its effect. */
    twostate predicate Performed(action: Action, completer: Option<seq<string>>, new effect: Option<Effect>)
      reads this
    {
      match action
      case FocusAction => focus && value == old(value) && completion == old(completion) && effect.None?
      case UnfocusAction => !focus && value == old(value) && completion == old(completion) && effect.None?
      case SetAction(p) => value == p && focus == old(focus) && completion == old(completion) && effect.None?
      case Push(c) => Pushed(c, completer) && effect.None?
      case Pop => Popped(completer) && effect.None?
      case Complete => Completed() && effect.None?
      case Enter =>
        effect == Some(EnterEffect(old(value))) && !focus && value == old(value) && completion == old(completion)
      case Quit =>
        effect == Some(QuitEffect) && value == old(value) && completion == old(completion) && focus == old(focus)
    }

    /** Performs an action, giving its effect. */
    method Perform(action: Action, completer: Option<seq<string>>) returns (effect: Option<Effect>)
      modifies this
      ensures Performed(action, completer, effect)
    {
      match action
      case FocusAction =>
        focus := true;
        effect := None;
      case UnfocusAction =>
        focus := false;
        effect := None;
      case SetAction(p) =>
        value := p;
        effect := None;
      case Push(c) =>
        PushCharacter(c, completer);
        effect := None;
      case Pop =>
        PopCharacter(completer);
        effect := None;
      case Complete =>
        CompleteValue();
        effect := None;
      case Enter =>
        focus := false;
        effect := Some(EnterEffect(value));
      case Quit =>
        effect := Some(QuitEffect);
    }

    /** Handles an event: performs its action, or rings the bell and changes nothing when it has none. */
    method Handle(event: Event, completer: Option<seq<string>>) returns (effect: Option<Effect>)
      modifies this
      ensures ActionOf(event).None? ==>
        effect == Some(Effect.Bell) && value == old(value) && completion == old(completion) && focus == old(focus)
      ensures ActionOf(event).Some? ==> Performed(ActionOf(event).value, completer, effect)
      ensures event.Term? && event.event == KeyInput(KeyEvent(CarriageReturn, NONE)) ==>
        effect == Some(EnterEffect(old(value))) && !focus
    {
      var action := ActionOf(event);
      if action.Some? {
        effect := Perform(action.value, completer);
      } else {
        effect := Some(Effect.Bell);
      }
    }
  }
}
