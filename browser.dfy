/**
 * The file browser's contents: a directory's listing, requested from the
 * daemon and shown a window at a time, with a selected entry that keys move,
 * open, copy or descend into.
 */
module Browser {
  import opened Wrappers
  import opened Ids
  import opened TermEvents
  import opened ListCursor
  import Args

  /**
   * A directory entry. Whether its path is a directory or a file is asked of
   * the file system when a key is handled; here it is part of the entry.
   */
  datatype FileInfo = FileInfo(path: string, name: string, isDir: bool, isFile: bool)

  /** The listing: not received yet, unreadable, or the entries. */
  datatype Listing = Unlisted | Unreadable(error: string) | Listed(entries: seq<FileInfo>)

  /** A request for a directory's entries. */
  datatype Request = GetFiles(uuid: Uuid, dir: string)

  datatype ResponseParams = GetFilesResult(result: Result<seq<FileInfo>, string>) | OtherParams

  datatype Response = Response(uuid: Uuid, params: ResponseParams)

  datatype FileType = File | Dir

  datatype Effect =
    | SetDir(dir: string, getFiles: Request)
    | PopDir(getFiles: Request)
    | OpenFileCreator(creatorDir: string, fileType: FileType)
    | OpenFinder(finderDir: string)
    | OpenSearcher(searcherDir: string)
    | OpenVim(path: string)
    | RunBash(bashDir: string)
    | Bell
    | RequestEffect(request: Request)

  datatype Event = ResponseEvent(response: Response) | ResizeEvent(size: Size) | Term(event: TermEvent)

  datatype Action =
    | Resize(size: Size)
    | Down | ReallyDown | Up | ReallyUp
    | Refresh | Push | Pop | Yank | ReallyYank
    | CreateFile(fileType: FileType)
    | FindFiles | SearchFiles | Bash
    | HandleResponse(response: Response)

  /**
   * The key map: j, J, k and K move the selection (plain or shifted as
   * shown), r refreshes, l or Enter opens, h or Backspace goes to the
   * parent, y and Y copy, c and C create, f finds, s searches and b runs a
   * shell; any other key has no action (and rings the bell).
   */
  function ActionOf(event: Event): (r: Option<Action>)
    ensures event.ResponseEvent? ==> r == Some(HandleResponse(event.response))
    ensures event.Term? && event.event.Resize? ==> r.None?
    ensures (event.Term? && event.event.KeyInput? && event.event.event.mods == CONTROL
      && event.event.event.key in {Char('j'), Char('J'), Char('k'), Char('K'), Char('y'), Char('Y'), Char('c'), Char('C')}) ==> r.None?
    ensures r.Some? && r.value in {Action.Down, Action.ReallyDown, Action.Up, Action.ReallyUp, Yank, ReallyYank} ==>
      event.Term? && event.event.KeyInput? && event.event.event.mods != CONTROL
  {
    match event
    case ResponseEvent(response) => Some(HandleResponse(response))
    case ResizeEvent(size) => Some(Action.Resize(size))
    case Term(Resize(_)) => None
    case Term(KeyInput(KeyEvent(key, mods))) =>
      if key == Char('j') && mods == NONE then Some(Action.Down)
      else if key == Char('J') && mods == SHIFT then Some(Action.ReallyDown)
      else if key == Char('k') && mods == NONE then Some(Action.Up)
      else if key == Char('K') && mods == SHIFT then Some(Action.ReallyUp)
      else if key == Char('r') then Some(Refresh)
      else if key == Char('l') || key == CarriageReturn then Some(Push)
      else if key == Char('h') || key == Backspace then Some(Pop)
      else if key == Char('y') && mods == NONE then Some(Yank)
      else if key == Char('Y') && mods == SHIFT then Some(ReallyYank)
      else if key == Char('b') then Some(Bash)
      else if key == Char('c') && mods == NONE then Some(CreateFile(File))
      else if key == Char('C') && mods == SHIFT then Some(CreateFile(Dir))
      else if key == Char('f') then Some(FindFiles)
      else if key == Char('s') then Some(SearchFiles)
      else None
  }

  /** The index of the first entry with the path, if there is one. */
  function Position(entries: seq<FileInfo>, path: string): (r: Option<nat>)
    ensures r.Some? ==> (r.value < |entries| && entries[r.value].path == path
      && forall i :: 0 <= i < r.value ==> entries[i].path != path)
    ensures r.None? ==> forall i :: 0 <= i < |entries| ==> entries[i].path != path
  {
    if entries == [] then None
    else if entries[0].path == path then Some(0)
    else match Position(entries[1..], path)
      case None => None
      case Some(i) => Some(i + 1)
  }

  /** The cursor after a listing arrives: placed on the starting file when the listing holds it, on the first entry of an unreadable one. */
  function Arrived(result: Result<seq<FileInfo>, string>, rows: nat, startingFile: Option<string>): (c: Cursor)
    requires rows > 0
    ensures result.Ok? ==> Fits(c, |result.value|, rows)
    ensures result.Ok? && startingFile.Some? && Position(result.value, startingFile.value).Some? ==>
      SelectedEntry(result.value, c) == Selected(result.value[Position(result.value, startingFile.value).value])
    ensures result.Ok? && result.value != [] && (startingFile.None? || Position(result.value, startingFile.value).None?) ==>
      c == Cursor(Some(0), 0)
    ensures result.Err? ==> c == Cursor(Some(0), 0)
  {
    match result
    case Err(_) => Cursor(Some(0), 0)
    case Ok(entries) =>
      Placed(|entries|, rows, if startingFile.Some? then Position(entries, startingFile.value) else None)
  }

  /** The text `y` copies: the entry's name, with a trailing slash for a directory. */
  function NameText(entry: FileInfo): (r: string)
    ensures entry.name <= r && |r| <= |entry.name| + 1
    ensures entry.isDir <==> r == entry.name + "/"
  {
    if entry.isDir then entry.name + "/" else entry.name
  }

  /** The text `Y` copies: the entry's path, with a trailing slash for a directory. */
  function PathText(entry: FileInfo): (r: string)
    ensures entry.path <= r && |r| <= |entry.path| + 1
    ensures entry.isDir <==> r == entry.path + "/"
  {
    if entry.isDir then entry.path + "/" else entry.path
  }

  class BrowserState {
    var rows: nat
    var dir: string
    var startingFile: Option<string>
    var pendingRequest: Option<Uuid>
    var listing: Listing
    var selected: Option<nat>
    var offset: nat

    function CursorOf(): Cursor
      reads this
    {
      Cursor(selected, offset)
    }

    /** The window has rows, and once entries are listed the cursor fits them. */
    predicate Valid()
      reads this
    {
      rows > 0 && (listing.Listed? ==> Fits(CursorOf(), |listing.entries|, rows))
    }

    /** The selected entry of the listing; nothing before a listing arrives or when it is unreadable. */
    function Entry(): (r: Lookup<FileInfo>)
      reads this
      requires Valid()
      ensures !r.OutOfRange?
      ensures r.Selected? ==> listing.Listed? && r == SelectedEntry(listing.entries, CursorOf())
    {
      if listing.Listed? then
        FitsFindsEntry(listing.entries, rows, CursorOf());
        SelectedEntry(listing.entries, CursorOf())
      else NoSelection
    }

    /** The state a browser starts with: nothing listed, waiting for `pending`. */
    constructor (rows: nat, dir: string, file: Option<string>, pending: Option<Uuid>)
      requires rows > 0
      ensures Valid()
      ensures this.rows == rows && this.dir == dir && startingFile == file && pendingRequest == pending
      ensures listing == Unlisted && CursorOf() == UNSELECTED
    {
      this.rows := rows;
      this.dir := dir;
      startingFile := file;
      pendingRequest := pending;
      listing := Unlisted;
      selected := None;
      offset := 0;
    }

    /** Only the cursor may have changed. */
    twostate predicate KeepsListing()
      reads this
    {
      rows == old(rows) && dir == old(dir) && startingFile == old(startingFile)
      && pendingRequest == old(pendingRequest) && listing == old(listing)
    }

    /** `down`: the cursor moved down the listing; nothing moves before one arrives. */
    twostate predicate MovedDown()
      requires old(Valid())
      reads this
    {
      KeepsListing()
      && CursorOf() == (if listing.Listed? then ListCursor.Down(old(CursorOf()), |listing.entries|, rows) else old(CursorOf()))
    }

    /** `really_down`: the cursor on the last entry. */
    twostate predicate MovedReallyDown()
      requires old(Valid())
      reads this
    {
      KeepsListing()
      && CursorOf() == (if listing.Listed? then ListCursor.ReallyDown(old(CursorOf()), |listing.entries|, rows) else old(CursorOf()))
    }

    /** `up`: the cursor moved up. */
    twostate predicate MovedUp()
      requires old(Valid())
      reads this
    {
      KeepsListing() && CursorOf() == ListCursor.Up(old(CursorOf()))
    }

    /** `really_up`, as intended (see `MoveReallyUp`). */
    twostate predicate MovedReallyUp()
      requires old(Valid())
      reads this
    {
      KeepsListing()
      && CursorOf() == (if listing.Listed? then ListCursor.ReallyUp(old(CursorOf()), |listing.entries|, rows) else ReallyUpAsWritten(old(CursorOf())))
    }

    /** `refresh`: the listing and selection dropped and the directory requested again as `next`. */
    twostate predicate Refreshed(next: Uuid, new effect: Effect)
      reads this
    {
      effect == RequestEffect(GetFiles(next, dir)) && pendingRequest == Some(next)
      && listing == Unlisted && CursorOf() == UNSELECTED
      && rows == old(rows) && dir == old(dir) && startingFile == old(startingFile)
    }

    /** `push`: into the selected directory, or the selected file opened in the editor. */
    twostate predicate Pushed(next: Uuid, new effect: Option<Effect>)
      requires old(Valid())
      reads this
    {
      && (old(Entry()).Selected? && old(Entry()).entry.isDir ==>
        dir == old(Entry()).entry.path && pendingRequest == Some(next)
        && effect == Some(SetDir(dir, GetFiles(next, dir))))
      && (old(Entry()).Selected? && !old(Entry()).entry.isDir && old(Entry()).entry.isFile ==>
        effect == Some(OpenVim(old(Entry()).entry.path)))
      && (effect.None? <==> !old(Entry()).Selected? || (!old(Entry()).entry.isDir && !old(Entry()).entry.isFile))
      && (effect.None? || effect.value.OpenVim? ==> dir == old(dir) && pendingRequest == old(pendingRequest))
      && rows == old(rows) && startingFile == old(startingFile) && listing == old(listing) && CursorOf() == old(CursorOf())
    }

    /** `pop`: to the parent directory, when there is one, with its entries requested as `next`. */
    twostate predicate Popped(next: Uuid, new effect: Option<Effect>)
      reads this
    {
      && (effect.Some? <==> Args.Parent(old(dir)).Some?)
      && (effect.Some? ==> (dir == Args.Parent(old(dir)).value && |dir| < |old(dir)|
        && listing == Unlisted && CursorOf() == UNSELECTED
        && pendingRequest == Some(next) && effect.value == PopDir(GetFiles(next, dir))))
      && (effect.None? ==> (dir == old(dir) && listing == old(listing) && CursorOf() == old(CursorOf())
        && pendingRequest == old(pendingRequest)))
      && rows == old(rows) && startingFile == old(startingFile)
    }

    /** A response: accepted only when it answers the pending listing request (see `HandleResponse`). */
    twostate predicate Responded(response: Response)
      requires old(Valid())
      reads this
    {
      && rows == old(rows) && dir == old(dir) && pendingRequest == old(pendingRequest)
      && (var accepted := old(pendingRequest) == Some(response.uuid) && response.params.GetFilesResult?;
        if accepted then
          var result := response.params.result;
          listing == (if result.Ok? then Listed(result.value) else Unreadable(result.error))
          && CursorOf() == Arrived(result, rows, old(startingFile))
          && startingFile.None?
        else
          listing == old(listing) && CursorOf() == old(CursorOf()) && startingFile == old(startingFile))
    }

    method MoveDown()
      requires Valid()
      modifies this
      ensures Valid()
      ensures MovedDown()
    {
      if listing.Listed? {
        var c := ListCursor.Down(CursorOf(), |listing.entries|, rows);
        selected, offset := c.selected, c.offset;
      }
    }

    method MoveReallyDown()
      requires Valid()
      modifies this
      ensures Valid()
      ensures MovedReallyDown()
    {
      if listing.Listed? {
        var c := ListCursor.ReallyDown(CursorOf(), |listing.entries|, rows);
        selected, offset := c.selected, c.offset;
      }
    }

    method MoveUp()
      requires Valid()
      modifies this
      ensures Valid()
      ensures MovedUp()
    {
      if listing.Listed? {
        UpMovesBack(CursorOf(), |listing.entries|, rows);
      }
      var c := ListCursor.Up(CursorOf());
      selected, offset := c.selected, c.offset;
    }

    /**
     * `really_up`, as intended: the first entry, except in an empty
     * listing; before a listing arrives the first row is selected, as the
     * listing's arrival replaces the selection anyway.
     */
    method MoveReallyUp()
      requires Valid()
      modifies this
      ensures Valid()
      ensures MovedReallyUp()
    {
      var c := if listing.Listed? then ListCursor.ReallyUp(CursorOf(), |listing.entries|, rows) else ReallyUpAsWritten(CursorOf());
      selected, offset := c.selected, c.offset;
    }

    /** Drops the listing and the selection and requests the directory's entries again, as `next`. */
    method Refresh(next: Uuid) returns (effect: Effect)
      requires Valid()
      modifies this
      ensures Valid()
      ensures Refreshed(next, effect)
    {
      listing, selected, offset := Unlisted, None, 0;
      pendingRequest := Some(next);
      effect := RequestEffect(GetFiles(next, dir));
    }

    /**
     * Opens the selected entry: a directory becomes the browsed directory
     * and its entries are requested (the old listing stays until they
     * arrive); a file is opened in the editor.
     */
    method Push(next: Uuid) returns (effect: Option<Effect>)
      requires Valid()
      modifies this
      ensures Valid()
      ensures Pushed(next, effect)
    {
      var entry := Entry();
      effect := None;
      if entry.Selected? {
        if entry.entry.isDir {
          dir := entry.entry.path;
          pendingRequest := Some(next);
          effect := Some(SetDir(dir, GetFiles(next, dir)));
        } else if entry.entry.isFile {
          effect := Some(OpenVim(entry.entry.path));
        }
      }
    }

    /** Goes to the parent directory, if there is one, dropping the listing and requesting the parent's entries. */
    method Pop(next: Uuid) returns (effect: Option<Effect>)
      requires Valid()
      modifies this
      ensures Valid()
      ensures Popped(next, effect)
    {
      effect := None;
      var parent := Args.Parent(dir);
      if parent.Some? {
        dir := parent.value;
        listing, selected, offset := Unlisted, None, 0;
        pendingRequest := Some(next);
        effect := Some(PopDir(GetFiles(next, dir)));
      }
    }

    /** The text `y` (`really` false) or `Y` copies to the clipboard; nothing without a selected entry. */
    function Copied(really: bool): (copied: Option<string>)
      reads this
      requires Valid()
      ensures copied.Some? <==> Entry().Selected?
      ensures copied.Some? ==> copied.value == if really then PathText(Entry().entry) else NameText(Entry().entry)
    {
      var entry := Entry();
      if entry.Selected? then Some(if really then PathText(entry.entry) else NameText(entry.entry)) else None
    }

    /**
     * A response to the pending request replaces the listing, places the
     * cursor (on the starting file when it is listed) and forgets the
     * starting file; any other response changes nothing.
     */
    method HandleResponse(response: Response)
      requires Valid()
      modifies this
      ensures Valid()
      ensures Responded(response)
    {
      if pendingRequest != Some(response.uuid) || !response.params.GetFilesResult? {
        return;
      }
      var result := response.params.result;
      listing := if result.Ok? then Listed(result.value) else Unreadable(result.error);
      var c := Arrived(result, rows, startingFile);
      selected, offset := c.selected, c.offset;
      startingFile := None;
    }

    /**
     * Handles an event: an action of the key map is performed, any other
     * key rings the bell and changes nothing. `next` is the uuid a new
     * request gets; `copied` is what goes to the clipboard.
     */
    method Handle(event: Event, next: Uuid) returns (effect: Option<Effect>, copied: Option<string>)
      requires Valid()
      requires !event.ResizeEvent?
      modifies this
      ensures Valid()
      ensures ActionOf(event).None? ==> effect == Some(Effect.Bell) && copied.None? && unchanged(this)
      ensures copied.Some? ==> ActionOf(event) == Some(Yank) || ActionOf(event) == Some(ReallyYank)
      ensures rows == old(rows)
      ensures ActionOf(event) == Some(Action.Down) ==> MovedDown() && effect.None? && copied.None?
      ensures ActionOf(event) == Some(Action.ReallyDown) ==> MovedReallyDown() && effect.None? && copied.None?
      ensures ActionOf(event) == Some(Action.Up) ==> MovedUp() && effect.None? && copied.None?
      ensures ActionOf(event) == Some(Action.ReallyUp) ==> MovedReallyUp() && effect.None? && copied.None?
      ensures ActionOf(event) == Some(Action.Refresh) ==> effect.Some? && Refreshed(next, effect.value) && copied.None?
      ensures ActionOf(event) == Some(Action.Push) ==> Pushed(next, effect) && copied.None?
      ensures ActionOf(event) == Some(Action.Pop) ==> Popped(next, effect) && copied.None?
      ensures ActionOf(event) == Some(Yank) ==> copied == old(Copied(false)) && effect.None? && unchanged(this)
      ensures ActionOf(event) == Some(ReallyYank) ==> copied == old(Copied(true)) && effect.None? && unchanged(this)
      ensures ActionOf(event).Some? && ActionOf(event).value.CreateFile? ==>
        effect == Some(OpenFileCreator(dir, ActionOf(event).value.fileType)) && copied.None? && unchanged(this)
      ensures ActionOf(event) == Some(FindFiles) ==> effect == Some(OpenFinder(dir)) && copied.None? && unchanged(this)
      ensures ActionOf(event) == Some(SearchFiles) ==> effect == Some(OpenSearcher(dir)) && copied.None? && unchanged(this)
      ensures ActionOf(event) == Some(Bash) ==> effect == Some(RunBash(dir)) && copied.None? && unchanged(this)
      ensures ActionOf(event).Some? && ActionOf(event).value.HandleResponse? ==>
        Responded(ActionOf(event).value.response) && effect.None? && copied.None?
    {
      copied := None;
      effect := None;
      match ActionOf(event)
      case None => effect := Some(Effect.Bell);
      case Some(action) =>
        match action
        case Down => MoveDown();
        case ReallyDown => MoveReallyDown();
        case Up => MoveUp();
        case ReallyUp => MoveReallyUp();
        case Refresh => var e := Refresh(next); effect := Some(e);
        case Push => effect := Push(next);
        case Pop => effect := Pop(next);
        case Yank => copied := Copied(false);
        case ReallyYank => copied := Copied(true);
        case CreateFile(fileType) => effect := Some(OpenFileCreator(dir, fileType));
        case FindFiles => effect := Some(OpenFinder(dir));
        case SearchFiles => effect := Some(OpenSearcher(dir));
        case Bash => effect := Some(RunBash(dir));
        case HandleResponse(response) => HandleResponse(response);
        case Resize(_) => assert false;
    }
  }

  /**
   * With the source's `really_up`, an empty listing ends with an entry
   * selected that is not there: opening or copying it indexes past the end.
   */
  lemma ReallyUpAsWrittenBreaksEmptyListing(rows: nat)
    requires rows > 0
    ensures var empty: seq<FileInfo> := [];
      Arrived(Ok(empty), rows, None) == UNSELECTED
      && SelectedEntry(empty, ReallyUpAsWritten(Arrived(Ok(empty), rows, None))).OutOfRange?
  {
    var empty: seq<FileInfo> := [];
    ReallyUpAsWrittenSelectsMissingEntry(empty, rows);
  }
}
