/**
 * The file finder's contents: the paths under a directory that match a
 * phrase, streamed back by the daemon one response at a time, shown a
 * window at a time with a selected entry that keys move, open or copy.
 */
module Finder {
  import opened Wrappers
  import opened Ids
  import opened TermEvents
  import opened ListCursor
  import Args

  /** A found path. */
  datatype Entry = Entry(path: string)

  /** A response to a find: the entries it carries and whether it is the last one. */
  datatype ResponseParams = FindFilesResult(entries: seq<Entry>) | OtherParams

  datatype Response = Response(uuid: Uuid, params: ResponseParams, last: bool)

  datatype Effect =
    | Unfocus
    | SendFindFilesRequest(uuid: Uuid, dir: string, pattern: string)
    | Goto(gotoDir: string, file: Option<string>)
    | OpenVim(path: string)
    | Bell
    | Panic

  datatype Event = Find(phrase: string) | ResponseEvent(response: Response) | Term(event: TermEvent)

  datatype Action =
    | UnfocusAction
    | FindAction(phrase: string)
    | Resize(size: Size)
    | Down | ReallyDown | Up | ReallyUp
    | Refresh | Edit | GotoAction(really: bool) | Yank(really: bool)
    | HandleResponse(response: Response)

  /**
   * The key map: Ctrl+q unfocuses, j, J, k and K move the selection, a
   * plain r refreshes, l or Enter edits, g and G go to the entry's
   * directory, y and Y copy; any other key has no action (and rings the bell).
   */
  function ActionOf(event: Event): (r: Option<Action>)
    ensures event.Find? ==> r == Some(FindAction(event.phrase))
    ensures event.ResponseEvent? ==> r == Some(HandleResponse(event.response))
    ensures event == Term(KeyInput(KeyEvent(Char('q'), CONTROL))) ==> r == Some(UnfocusAction)
    ensures r == Some(Refresh) <==> event == Term(KeyInput(KeyEvent(Char('r'), NONE)))
    ensures (event.Term? && event.event.KeyInput? && event.event.event.key.Char?
      && event.event.event.key.c !in "qjJkKrlgGyY") ==> r.None?
  {
    match event
    case Find(phrase) => Some(FindAction(phrase))
    case ResponseEvent(response) => Some(HandleResponse(response))
    case Term(Resize(size)) => Some(Action.Resize(size))
    case Term(KeyInput(KeyEvent(key, mods))) =>
      if key == Char('q') && mods == CONTROL then Some(UnfocusAction)
      else if key == Char('j') && mods == NONE then Some(Action.Down)
      else if key == Char('J') && mods == SHIFT then Some(Action.ReallyDown)
      else if key == Char('k') && mods == NONE then Some(Action.Up)
      else if key == Char('K') && mods == SHIFT then Some(Action.ReallyUp)
      else if key == Char('r') && mods == NONE then Some(Refresh)
      else if key == Char('l') || key == CarriageReturn then Some(Edit)
      else if key == Char('g') && mods == NONE then Some(GotoAction(false))
      else if key == Char('G') && mods == SHIFT then Some(GotoAction(true))
      else if key == Char('y') && mods == NONE then Some(Yank(false))
      else if key == Char('Y') && mods == SHIFT then Some(Yank(true))
      else None
  }

  /**
   * The cursor of the finder's list. It fits a non-empty list; an empty
   * one is unscrolled, with nothing or its missing first entry selected
   * (a `really_up`, or a response carrying no entries, selects it).
   */
  predicate Shown(c: Cursor, len: nat, rows: nat) {
    if len == 0 then rows > 0 && c.offset == 0 && (c.selected.None? || c.selected == Some(0))
    else Fits(c, len, rows)
  }

  /** Appending entries keeps a cursor that fits. */
  lemma FitsGrows(c: Cursor, len: nat, more: nat, rows: nat)
    requires Fits(c, len, rows) && len > 0
    ensures Fits(c, len + more, rows)
  {
  }

  /**
   * The text `y` (`really` false) or `Y` copies: the path, relative to the
   * directory searched for `y`; a path outside that directory panics.
   */
  function YankText(path: string, dir: string, really: bool): (r: Option<string>)
    ensures really ==> r == Some(path)
    ensures !really ==> (r.Some? <==> dir <= path)
    ensures !really && r.Some? ==>
      if |path| > |dir| && path[|dir|] == '/' then dir + "/" + r.value == path else dir + r.value == path
  {
    if really then Some(path)
    else if !(dir <= path) then None
    else
      var rest := path[|dir|..];
      assert dir + rest == path;
      if |rest| > 0 && rest[0] == '/' then
        assert dir + "/" + rest[1..] == path by {
          assert rest == "/" + rest[1..];
        }
        Some(rest[1..])
      else Some(rest)
  }

  /** `y` strips the directory and exactly one separator after it, whatever follows. */
  lemma YankTextStripsOneSeparator(dir: string, name: string)
    ensures YankText(dir + "/" + name, dir, false) == Some(name)
    ensures name == [] || name[0] != '/' ==> YankText(dir + name, dir, false) == Some(name)
  {
    assert (dir + "/" + name)[|dir|..] == "/" + name;
    assert (dir + name)[|dir|..] == name;
  }

  class FinderState {
    var rows: nat
    var dir: string
    var phrase: Option<string>
    var focussed: bool
    var hits: Option<bool>
    var entries: seq<Entry>
    var selected: Option<nat>
    var offset: nat
    var pendingRequest: Option<Uuid>
    var receivedFirstResp: bool

    function CursorOf(): Cursor
      reads this
    {
      Cursor(selected, offset)
    }

    predicate Valid()
      reads this
    {
      Shown(CursorOf(), |entries|, rows)
    }

    /** The state a finder starts with: unfocused, with no phrase and nothing found. */
    constructor (rows: nat, dir: string)
      requires rows > 0
      ensures Valid()
      ensures this.rows == rows && this.dir == dir && phrase.None? && !focussed && hits.None?
      ensures entries == [] && CursorOf() == UNSELECTED && pendingRequest.None? && !receivedFirstResp
    {
      this.rows := rows;
      this.dir := dir;
      phrase := None;
      focussed := false;
      hits := None;
      entries := [];
      selected := None;
      offset := 0;
      pendingRequest := None;
      receivedFirstResp := false;
    }

    /** Only the cursor may have changed. */
    twostate predicate KeepsEntries()
      reads this
    {
      entries == old(entries) && rows == old(rows)
      && dir == old(dir) && phrase == old(phrase) && focussed == old(focussed) && hits == old(hits)
      && pendingRequest == old(pendingRequest) && receivedFirstResp == old(receivedFirstResp)
    }

    /** `find`: focused, the phrase kept and its request pending as `next`; what was found stays until a response. */
    twostate predicate Found(p: string, next: Uuid, new effect: Effect)
      reads this
    {
      focussed && phrase == Some(p) && pendingRequest == Some(next) && !receivedFirstResp
      && effect == SendFindFilesRequest(next, dir, p)
      && rows == old(rows) && dir == old(dir) && hits == old(hits) && entries == old(entries)
      && CursorOf() == old(CursorOf())
    }

    /** `refresh`: the last phrase found again; nothing before the first find. */
    twostate predicate Refreshed(next: Uuid, new effect: Option<Effect>)
      reads this
    {
      && phrase == old(phrase)
      && (old(phrase).None? ==> effect.None? && unchanged(this))
      && (old(phrase).Some? ==> (effect == Some(SendFindFilesRequest(next, dir, old(phrase).value))
        && pendingRequest == Some(next) && !receivedFirstResp && focussed))
      && rows == old(rows) && dir == old(dir) && hits == old(hits) && entries == old(entries)
      && CursorOf() == old(CursorOf())
    }

    /** `down`: the cursor moved down the entries; nothing moves in an empty list. */
    twostate predicate MovedDown()
      requires old(Valid())
      reads this
    {
      KeepsEntries()
      && CursorOf() == if entries == [] then old(CursorOf()) else ListCursor.Down(old(CursorOf()), |entries|, rows)
    }

    /** `really_down`: the cursor on the last entry. */
    twostate predicate MovedReallyDown()
      requires old(Valid())
      reads this
    {
      KeepsEntries()
      && CursorOf() == if entries == [] then old(CursorOf()) else ListCursor.ReallyDown(old(CursorOf()), |entries|, rows)
    }

    /** `up`: the cursor moved up. */
    twostate predicate MovedUp()
      reads this
    {
      KeepsEntries() && CursorOf() == ListCursor.Up(old(CursorOf()))
    }

    /** `really_up`, as the source has it. */
    twostate predicate MovedReallyUp()
      reads this
    {
      KeepsEntries() && CursorOf() == ReallyUpAsWritten(old(CursorOf()))
    }

    /** `handle_response`: see `HandleResponse`. */
    twostate predicate Responded(response: Response, new effect: Option<Effect>)
      reads this
    {
      && rows == old(rows) && dir == old(dir) && phrase == old(phrase) && focussed == old(focussed)
      && (old(pendingRequest).None? ==> effect.None? && unchanged(this))
      && (old(pendingRequest).Some? ==> receivedFirstResp)
      && var cleared := old(pendingRequest).Some? && !old(receivedFirstResp);
        var accepted := old(pendingRequest) == Some(response.uuid) && response.params.FindFilesResult?;
        var before := if cleared then [] else old(entries);
        (old(pendingRequest).Some? && !accepted ==>
          effect.None? && entries == before && pendingRequest == old(pendingRequest)
          && hits == (if cleared then None else old(hits))
          && CursorOf() == (if cleared then UNSELECTED else old(CursorOf()))) &&
        (accepted ==>
          entries == before + response.params.entries &&
          offset == (if cleared then 0 else old(offset)) &&
          (if entries == [] && response.last then
             hits == Some(false) && selected.None? && effect == Some(Unfocus) && pendingRequest == old(pendingRequest)
           else
             hits == Some(true) && selected.Some? && effect.None?
             && (old(selected).Some? && !cleared ==> CursorOf() == old(CursorOf()))
             && (old(selected).None? || cleared ==> selected == Some(0))
             && pendingRequest == (if response.last then None else old(pendingRequest))))
    }

    /** Ctrl+q: unfocused, and nothing else changes. */
    twostate predicate Defocused(new effect: Effect)
      reads this
    {
      !focussed && effect == Effect.Unfocus
      && rows == old(rows) && dir == old(dir) && phrase == old(phrase) && hits == old(hits)
      && entries == old(entries) && CursorOf() == old(CursorOf())
      && pendingRequest == old(pendingRequest) && receivedFirstResp == old(receivedFirstResp)
    }

    /** Focuses and sends a find request for the phrase, with the uuid `next` now pending. */
    method Find(phrase: string, next: Uuid) returns (effect: Effect)
      requires Valid()
      modifies this
      ensures Valid()
      ensures Found(phrase, next, effect)
    {
      focussed := true;
      this.phrase := Some(phrase);
      pendingRequest := Some(next);
      receivedFirstResp := false;
      effect := SendFindFilesRequest(next, dir, phrase);
    }

    /** Finds the last phrase again; nothing before the first find. */
    method Refresh(next: Uuid) returns (effect: Option<Effect>)
      requires Valid()
      modifies this
      ensures Valid()
      ensures Refreshed(next, effect)
    {
      effect := None;
      if phrase.Some? {
        var e := Find(phrase.value, next);
        effect := Some(e);
      }
    }

    method MoveDown()
      requires Valid()
      modifies this
      ensures Valid()
      ensures MovedDown()
    {
      if entries != [] {
        var c := ListCursor.Down(CursorOf(), |entries|, rows);
        selected, offset := c.selected, c.offset;
      }
    }

    method MoveReallyDown()
      requires Valid()
      modifies this
      ensures Valid()
      ensures MovedReallyDown()
    {
      if entries != [] {
        var c := ListCursor.ReallyDown(CursorOf(), |entries|, rows);
        selected, offset := c.selected, c.offset;
      }
    }

    method MoveUp()
      requires Valid()
      modifies this
      ensures Valid()
      ensures MovedUp()
    {
      if entries != [] {
        UpMovesBack(CursorOf(), |entries|, rows);
      }
      var c := ListCursor.Up(CursorOf());
      selected, offset := c.selected, c.offset;
    }

    /** `really_up` as the source has it: the first row of an unscrolled window, even in an empty list. */
    method MoveReallyUp()
      requires Valid()
      modifies this
      ensures Valid()
      ensures MovedReallyUp()
    {
      var c := ReallyUpAsWritten(CursorOf());
      selected, offset := c.selected, c.offset;
    }

    /** The selected entry; past the end only when an empty list has its first entry selected. */
    function EntryPath(): (r: Lookup<Entry>)
      reads this
      requires Valid()
      ensures r.OutOfRange? <==> entries == [] && selected == Some(0)
      ensures r.Selected? ==> r == SelectedEntry(entries, CursorOf())
    {
      if entries != [] then
        FitsFindsEntry(entries, rows, CursorOf());
        SelectedEntry(entries, CursorOf())
      else SelectedEntry(entries, CursorOf())
    }

    /** `l`: opens the selected entry in the editor. */
    function Edited(): (effect: Option<Effect>)
      reads this
      requires Valid()
      ensures effect.None? <==> selected.None?
      ensures effect == Some(Panic) <==> EntryPath().OutOfRange?
      ensures EntryPath().Selected? ==> effect == Some(OpenVim(EntryPath().entry.path))
    {
      match EntryPath()
      case NoSelection => None
      case OutOfRange => Some(Panic)
      case Selected(entry) => Some(OpenVim(entry.path))
    }

    /** `g` and `G`: goes to the selected entry's directory, with the entry itself for `G`. */
    function Went(really: bool): (effect: Option<Effect>)
      reads this
      requires Valid()
      ensures effect.None? <==> selected.None?
      ensures EntryPath().Selected? && Args.Parent(EntryPath().entry.path).Some? ==>
        effect == Some(Goto(Args.Parent(EntryPath().entry.path).value, if really then Some(EntryPath().entry.path) else None))
      ensures effect == Some(Panic) <==> EntryPath().OutOfRange? || (EntryPath().Selected? && Args.Parent(EntryPath().entry.path).None?)
    {
      match EntryPath()
      case NoSelection => None
      case OutOfRange => Some(Panic)
      case Selected(entry) =>
        match Args.Parent(entry.path)
        case None => Some(Panic)
        case Some(parent) => Some(Goto(parent, if really then Some(entry.path) else None))
    }

    /**
     * `y` and `Y`: what goes to the clipboard, and whether the thread
     * panics (an index past the end, or a path outside the directory).
     */
    function Yanked(really: bool): (r: (Option<string>, bool))
      reads this
      requires Valid()
      ensures r.0.Some? ==> EntryPath().Selected? && YankText(EntryPath().entry.path, dir, really) == r.0
      ensures r.1 <==> EntryPath().OutOfRange? || (EntryPath().Selected? && YankText(EntryPath().entry.path, dir, really).None?)
      ensures selected.None? ==> r == (None, false)
    {
      match EntryPath()
      case NoSelection => (None, false)
      case OutOfRange => (None, true)
      case Selected(entry) =>
        var text := YankText(entry.path, dir, really);
        (text, text.None?)
    }

    /**
     * A response while a request is pending: the first one after a find
     * clears what the last find showed, whatever its uuid. One for the
     * pending request appends its entries; the last one with nothing found
     * reports no hits and unfocuses; otherwise the first entry is selected
     * if nothing was, and the last response ends the request.
     */
    method HandleResponse(response: Response) returns (effect: Option<Effect>)
      requires Valid()
      modifies this
      ensures Valid()
      ensures Responded(response, effect)
    {
      effect := None;
      if pendingRequest.None? {
        return;
      }
      if !receivedFirstResp {
        hits, entries, selected, offset := None, [], None, 0;
      }
      receivedFirstResp := true;
      if pendingRequest != Some(response.uuid) || !response.params.FindFilesResult? {
        return;
      }
      effect := AcceptEntries(response);
    }

    /** The accepted part of `handle_response`: the entries are appended and the first one selected. */
    method AcceptEntries(response: Response) returns (effect: Option<Effect>)
      requires Valid() && receivedFirstResp
      requires pendingRequest == Some(response.uuid) && response.params.FindFilesResult?
      modifies this
      ensures Valid() && receivedFirstResp
      ensures rows == old(rows) && dir == old(dir) && phrase == old(phrase) && focussed == old(focussed)
      ensures entries == old(entries) + response.params.entries && offset == old(offset)
      ensures if entries == [] && response.last then
          hits == Some(false) && selected.None? && effect == Some(Unfocus) && pendingRequest == old(pendingRequest)
        else
          hits == Some(true) && selected.Some? && effect.None?
          && (old(selected).Some? ==> CursorOf() == old(CursorOf()))
          && (old(selected).None? ==> selected == Some(0))
          && pendingRequest == (if response.last then None else old(pendingRequest))
    {
      var before := CursorOf();
      var count := |entries|;
      entries := entries + response.params.entries;
      if entries == [] && response.last {
        hits := Some(false);
        selected := None;
        effect := Some(Unfocus);
        return;
      }
      if count > 0 {
        FitsGrows(before, count, |response.params.entries|, rows);
      }
      effect := None;
      hits := Some(true);
      if selected.None? {
        selected := Some(0);
      }
      if response.last {
        pendingRequest := None;
      }
    }

    /** Ctrl+q: gives up the focus and tells the finder's owner so. */
    method Defocus() returns (effect: Effect)
      requires Valid()
      modifies this
      ensures Valid()
      ensures Defocused(effect)
    {
      focussed := false;
      effect := Effect.Unfocus;
    }

    /**
     * Handles an event: an action of the key map is performed, any other
     * key rings the bell and changes nothing. `next` is the uuid a new
     * request gets; `copied` is what goes to the clipboard, and a `Panic`
     * effect stands for the thread panicking.
     */
    method Handle(event: Event, next: Uuid) returns (effect: Option<Effect>, copied: Option<string>)
      requires Valid()
      requires !(event.Term? && event.event.Resize?)
      modifies this
      ensures Valid()
      ensures ActionOf(event).None? ==> effect == Some(Effect.Bell) && copied.None? && unchanged(this)
      ensures copied.Some? ==> ActionOf(event) == Some(Yank(false)) || ActionOf(event) == Some(Yank(true))
      ensures ActionOf(event) == Some(Edit) ==> effect == old(Edited()) && unchanged(this)
      ensures rows == old(rows) && dir == old(dir)
      ensures ActionOf(event) == Some(UnfocusAction) ==> effect.Some? && Defocused(effect.value) && copied.None?
      ensures ActionOf(event).Some? && ActionOf(event).value.FindAction? ==>
        effect.Some? && Found(ActionOf(event).value.phrase, next, effect.value) && copied.None?
      ensures ActionOf(event) == Some(Action.Down) ==> MovedDown() && effect.None? && copied.None?
      ensures ActionOf(event) == Some(Action.ReallyDown) ==> MovedReallyDown() && effect.None? && copied.None?
      ensures ActionOf(event) == Some(Action.Up) ==> MovedUp() && effect.None? && copied.None?
      ensures ActionOf(event) == Some(Action.ReallyUp) ==> MovedReallyUp() && effect.None? && copied.None?
      ensures ActionOf(event) == Some(Action.Refresh) ==> Refreshed(next, effect) && copied.None?
      ensures ActionOf(event).Some? && ActionOf(event).value.GotoAction? ==>
        effect == old(Went(ActionOf(event).value.really)) && copied.None? && unchanged(this)
      ensures ActionOf(event).Some? && ActionOf(event).value.Yank? ==>
        var (text, panicked) := old(Yanked(ActionOf(event).value.really));
        copied == text && effect == (if panicked then Some(Panic) else None) && unchanged(this)
      ensures ActionOf(event).Some? && ActionOf(event).value.HandleResponse? ==>
        Responded(ActionOf(event).value.response, effect) && copied.None?
    {
      copied := None;
      effect := None;
      match ActionOf(event)
      case None => effect := Some(Effect.Bell);
      case Some(action) =>
        match action
        case UnfocusAction => var e := Defocus(); effect := Some(e);
        case FindAction(phrase) => var e := Find(phrase, next); effect := Some(e);
        case Down => MoveDown();
        case ReallyDown => MoveReallyDown();
        case Up => MoveUp();
        case ReallyUp => MoveReallyUp();
        case Refresh => effect := Refresh(next);
        case Edit => effect := Edited();
        case GotoAction(really) => effect := Went(really);
        case Yank(really) =>
          var (text, panicked) := Yanked(really);
          copied := text;
          if panicked {
            effect := Some(Panic);
          }
        case HandleResponse(response) => effect := HandleResponse(response);
        case Resize(_) => assert false;
    }
  }

  /**
   * A find's responses in the daemon's order, every one but the last
   * carrying one entry, leave every entry found, in order, with the first
   * one selected when there is one. When nothing is found the request
   * stays pending, as the no-hits case returns before clearing it.
   */
  method Collect(finder: FinderState, uuid: Uuid, found: seq<Entry>) returns (effects: seq<Option<Effect>>)
    requires finder.Valid() && finder.pendingRequest == Some(uuid) && !finder.receivedFirstResp
    modifies finder
    ensures finder.Valid()
    ensures finder.entries == found
    ensures finder.pendingRequest == if found == [] then Some(uuid) else None
    ensures finder.hits == Some(found != [])
    ensures found != [] ==> finder.EntryPath() == Selected(found[0])
    ensures |effects| == |found| + 1 && forall i :: 0 <= i < |found| ==> effects[i].None?
    ensures effects[|found|] == if found == [] then Some(Unfocus) else None
  {
    effects := [];
    var i := 0;
    while i < |found|
      invariant 0 <= i <= |found|
      invariant finder.Valid() && finder.rows == old(finder.rows)
      invariant finder.pendingRequest == Some(uuid)
      invariant i > 0 ==> finder.receivedFirstResp
      invariant i == 0 ==> !finder.receivedFirstResp
      invariant i > 0 ==> finder.entries == found[..i] && finder.hits == Some(true)
      invariant i > 0 ==> finder.EntryPath() == Selected(found[0])
      invariant |effects| == i && forall k :: 0 <= k < i ==> effects[k].None?
    {
      var e := finder.HandleResponse(Response(uuid, FindFilesResult([found[i]]), false));
      assert found[..i + 1] == found[..i] + [found[i]];
      if i == 0 {
        assert finder.CursorOf() == Cursor(Some(0), 0);
      }
      effects := effects + [e];
      i := i + 1;
    }
    var e := finder.HandleResponse(Response(uuid, FindFilesResult([]), true));
    effects := effects + [e];
    if found != [] {
      assert found[..|found|] == found;
    }
  }
}
