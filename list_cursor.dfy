/**
 * The scrolling list shared by the file browser and the file finder: a
 * window of `rows` entries starting at `offset`, and the selected entry as
 * a row within that window. Both components move the selection with the
 * same four operations.
 */
module ListCursor {
  import opened Wrappers

  /** The selected row within the window (none when nothing is selected) and the window's first entry. */
  datatype Cursor = Cursor(selected: Option<nat>, offset: nat)

  /** The cursor of a fresh or reset list. */
  const UNSELECTED := Cursor(None, 0)

  /** The index of the selected entry in the whole list. */
  function EntryNumber(c: Cursor): Option<nat> {
    if c.selected.Some? then Some(c.offset + c.selected.value) else None
  }

  /**
   * The cursor invariant: nothing is selected in an empty list; otherwise
   * the selected row is inside the window and names an entry, and the
   * window is scrolled only when the list is longer than the window.
   */
  predicate Fits(c: Cursor, len: nat, rows: nat) {
    rows > 0 &&
    (len == 0 ==> c == UNSELECTED) &&
    (len > 0 ==> c.selected.Some? && c.selected.value < rows && c.offset + c.selected.value < len) &&
    (c.offset > 0 ==> len > rows)
  }

  /** The entries shown: from the offset, at most `rows` of them; none for an empty list. */
  function Visible<T>(entries: seq<T>, rows: nat, c: Cursor): (r: seq<T>)
    requires entries != [] ==> c.offset <= |entries|
    ensures entries == [] ==> r == []
    ensures entries != [] ==> |r| == Min(rows, |entries| - c.offset)
    ensures forall i :: 0 <= i < |r| ==> r[i] == entries[c.offset + i]
  {
    if entries == [] then []
    else entries[c.offset..Min(c.offset + rows, |entries|)]
  }

  function Min(a: nat, b: nat): nat {
    if a < b then a else b
  }

  /** A cursor that fits its list selects a shown entry: the selected row of the window is the selected entry. */
  lemma VisibleHoldsSelection<T>(entries: seq<T>, rows: nat, c: Cursor)
    requires Fits(c, |entries|, rows) && entries != []
    ensures c.selected.value < |Visible(entries, rows, c)|
    ensures Visible(entries, rows, c)[c.selected.value] == entries[EntryNumber(c).value]
  {
  }

  /** What looking up the selected entry gives; `OutOfRange` is an index past the end, which panics. */
  datatype Lookup<T> = NoSelection | Selected(entry: T) | OutOfRange

  function SelectedEntry<T>(entries: seq<T>, c: Cursor): (r: Lookup<T>)
    ensures r.NoSelection? <==> c.selected.None?
    ensures r.Selected? ==> EntryNumber(c).value < |entries| && r.entry == entries[EntryNumber(c).value]
    ensures r.OutOfRange? ==> EntryNumber(c).value >= |entries|
  {
    match EntryNumber(c)
    case None => NoSelection
    case Some(n) => if n < |entries| then Selected(entries[n]) else OutOfRange
  }

  /** Looking up the selection of a cursor that fits never indexes past the end. */
  lemma FitsFindsEntry<T>(entries: seq<T>, rows: nat, c: Cursor)
    requires Fits(c, |entries|, rows)
    ensures !SelectedEntry(entries, c).OutOfRange?
    ensures entries != [] <==> SelectedEntry(entries, c).Selected?
  {
  }

  /**
   * `down`: the next entry, moving the selected row while it is above the
   * window's last row and scrolling the window otherwise; nothing at the
   * last entry or in an empty list.
   */
  function Down(c: Cursor, len: nat, rows: nat): (r: Cursor)
    requires Fits(c, len, rows)
    ensures Fits(r, len, rows)
    ensures len == 0 ==> r == c
    ensures len > 0 ==> EntryNumber(r).value == if EntryNumber(c).value + 1 < len then EntryNumber(c).value + 1 else len - 1
    ensures r.offset == c.offset || r.selected == Some(rows - 1)
  {
    if len == 0 then c
    else if c.offset + c.selected.value >= len - 1 then c
    else if c.selected.value < rows - 1 then Cursor(Some(c.selected.value + 1), c.offset)
    else Cursor(c.selected, c.offset + 1)
  }

  /**
   * `really_down`: the last entry, with the window's last page shown when
   * the list is longer than the window.
   */
  function ReallyDown(c: Cursor, len: nat, rows: nat): (r: Cursor)
    requires Fits(c, len, rows)
    ensures Fits(r, len, rows)
    ensures len == 0 ==> r == c
    ensures len > 0 ==> EntryNumber(r) == Some(len - 1)
    ensures len > rows ==> r.offset == len - rows && r.selected == Some(rows - 1)
  {
    if len == 0 then c
    else if len > rows then Cursor(Some(rows - 1), len - rows)
    else Cursor(Some(len - 1), c.offset)
  }

  /**
   * `up`: the previous row, scrolling the window up by one at its first
   * row; nothing when nothing is selected. It does not look at the list.
   */
  function Up(c: Cursor): (r: Cursor)
    ensures r.selected.Some? <==> c.selected.Some?
    ensures r.offset <= c.offset
  {
    match c.selected
    case None => c
    case Some(selected) =>
      if selected > 0 then Cursor(Some(selected - 1), c.offset)
      else Cursor(Some(0), if c.offset > 0 then c.offset - 1 else 0)
  }

  /** On a list the cursor fits, `up` selects the previous entry, staying at the first. */
  lemma UpMovesBack(c: Cursor, len: nat, rows: nat)
    requires Fits(c, len, rows)
    ensures Fits(Up(c), len, rows)
    ensures len == 0 ==> Up(c) == c
    ensures len > 0 ==> EntryNumber(Up(c)).value == if EntryNumber(c).value > 0 then EntryNumber(c).value - 1 else 0
  {
  }

  /** `really_up` as written: the first row of an unscrolled window, whatever the list holds. */
  function ReallyUpAsWritten(c: Cursor): (r: Cursor)
    ensures EntryNumber(r) == Some(0)
  {
    Cursor(Some(0), 0)
  }

  /** `really_up` on an empty list selects an entry that does not exist: the next push or yank indexes past the end. */
  lemma ReallyUpAsWrittenSelectsMissingEntry<T>(entries: seq<T>, rows: nat)
    requires entries == [] && rows > 0
    ensures Fits(UNSELECTED, |entries|, rows)
    ensures !Fits(ReallyUpAsWritten(UNSELECTED), |entries|, rows)
    ensures SelectedEntry(entries, ReallyUpAsWritten(UNSELECTED)).OutOfRange?
  {
  }

  /** `really_up` as intended: the first entry, and nothing in an empty list (as the searcher's does). */
  function ReallyUp(c: Cursor, len: nat, rows: nat): (r: Cursor)
    requires Fits(c, len, rows)
    ensures Fits(r, len, rows)
    ensures len == 0 ==> r == c
    ensures len > 0 ==> r == ReallyUpAsWritten(c)
  {
    if len == 0 then c else ReallyUpAsWritten(c)
  }

  /**
   * The cursor after a listing arrives: nothing selected in an empty list;
   * the starting entry, when it is found at `index`, selected in the first
   * window when it is on it and at the top of a window scrolled to it
   * otherwise; the first entry when it is not found.
   */
  function Placed(len: nat, rows: nat, index: Option<nat>): (r: Cursor)
    requires rows > 0
    requires index.Some? ==> index.value < len
    ensures Fits(r, len, rows)
    ensures len > 0 ==> EntryNumber(r) == Some(if index.Some? then index.value else 0)
    ensures index.Some? && index.value < rows ==> r.offset == 0
  {
    if len == 0 then UNSELECTED
    else match index
      case Some(i) => if i < rows then Cursor(Some(i), 0) else Cursor(Some(0), i)
      case None => Cursor(Some(0), 0)
  }

  /** Going down and back up returns to the same entry, unless already at the last one. */
  lemma UpUndoesDown(c: Cursor, len: nat, rows: nat)
    requires Fits(c, len, rows) && len > 0
    requires EntryNumber(c).value + 1 < len
    ensures EntryNumber(Up(Down(c, len, rows))) == EntryNumber(c)
  {
  }

  /** `down` pressed `n` times. */
  function DownTimes(c: Cursor, len: nat, rows: nat, n: nat): (r: Cursor)
    requires Fits(c, len, rows)
    ensures Fits(r, len, rows)
    decreases n
  {
    if n == 0 then c else DownTimes(Down(c, len, rows), len, rows, n - 1)
  }

  /** Going down `n` times moves `n` entries on, stopping at the last entry. */
  lemma {:induction false} DownTimesReaches(c: Cursor, len: nat, rows: nat, n: nat)
    decreases n
    requires Fits(c, len, rows) && len > 0
    ensures EntryNumber(DownTimes(c, len, rows, n)).value ==
      if EntryNumber(c).value + n < len then EntryNumber(c).value + n else len - 1
  {
    if n > 0 {
      DownTimesReaches(Down(c, len, rows), len, rows, n - 1);
    }
  }
}
