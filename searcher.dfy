/**
 * The text searcher's contents: the files under a directory holding a
 * phrase, each with the lines that hold it, shown as a scrolling page. Each
 * file hit takes a row for its path, a row per line hit and a blank row.
 * The page starts inside the hit `fileOffset`, `lineOffset` rows into it,
 * and the selection is a path or a line of the hit `fileSelected` files
 * further on.
 */
module Searcher {
  import opened Wrappers
  import opened TermEvents
  import Data
  import Args
  import Finder
  import ListCursor

  datatype LineHit = LineHit(lineNumber: nat, line: string)

  datatype FileHit = FileHit(path: string, lineHits: seq<LineHit>)

  /** A file is a hit only for a line that holds the phrase, so every file hit has a line hit. */
  predicate AllHaveLines(hits: seq<FileHit>) {
    forall h :: 0 <= h < |hits| ==> |hits[h].lineHits| > 0
  }

  function Lines(hits: seq<FileHit>, h: nat): nat
    requires h < |hits|
  {
    |hits[h].lineHits|
  }

  /** The rows the first `n` file hits take. */
  function RowsBefore(hits: seq<FileHit>, n: nat): nat
    requires n <= |hits|
  {
    if n == 0 then 0 else RowsBefore(hits, n - 1) + Lines(hits, n - 1) + 2
  }

  /** A later file hit starts after all of an earlier one's rows. */
  lemma {:induction false} RowsBeforeGrows(hits: seq<FileHit>, m: nat, n: nat)
    requires m < n <= |hits|
    ensures RowsBefore(hits, m) + Lines(hits, m) + 2 <= RowsBefore(hits, n)
    decreases n
  {
    if m + 1 < n {
      RowsBeforeGrows(hits, m, n - 1);
    }
  }

  /** A selectable item: a file hit's path (no line) or one of its line hits. */
  datatype Item = Path(hit: nat) | Line(hit: nat, line: nat)

  /** The item of hit `hit`: its path, or line `line` when there is one. */
  function ItemAt(hit: nat, line: Option<nat>): (r: Item)
    ensures r.hit == hit && (r.Line? <==> line.Some?) && (r.Line? ==> r.line == line.value)
  {
    if line.Some? then Line(hit, line.value) else Path(hit)
  }

  /** The selected line of an item, if it is a line. */
  function LineOf(item: Item): (r: Option<nat>)
    ensures r.Some? <==> item.Line?
    ensures r.Some? ==> r.value == item.line
  {
    if item.Line? then Some(item.line) else None
  }

  /** The row of an item on the whole page. */
  function ItemRow(hits: seq<FileHit>, item: Item): nat
    requires item.hit <= |hits|
  {
    RowsBefore(hits, item.hit) + if item.Line? then item.line + 1 else 0
  }

  predicate IsItem(hits: seq<FileHit>, item: Item) {
    item.hit < |hits| && (item.Line? ==> item.line < Lines(hits, item.hit))
  }

  /** The item after `item`: its first line, its next line, or the next file's path; the last item has none after it. */
  function Next(hits: seq<FileHit>, item: Item): (r: Item)
    requires AllHaveLines(hits) && item.hit < |hits|
    ensures r.hit < |hits|
  {
    match item
    case Path(h) => Line(h, 0)
    case Line(h, k) =>
      if k + 1 < Lines(hits, h) then Line(h, k + 1)
      else if h + 1 < |hits| then Path(h + 1)
      else item
  }

  /** The item before `item`: its previous line, its path, or the previous file's last line. */
  function Prev(hits: seq<FileHit>, item: Item): (r: Item)
    requires AllHaveLines(hits) && item.hit < |hits|
    ensures r.hit < |hits|
  {
    match item
    case Path(h) => if h == 0 then item else Line(h - 1, Lines(hits, h - 1) - 1)
    case Line(h, k) => if k == 0 then Path(h) else Line(h, k - 1)
  }

  /** Items are in page order: the next item is further down, unless there is none. */
  lemma NextIsLower(hits: seq<FileHit>, item: Item)
    requires AllHaveLines(hits) && IsItem(hits, item)
    ensures IsItem(hits, Next(hits, item))
    ensures Next(hits, item) == item || ItemRow(hits, item) < ItemRow(hits, Next(hits, item))
  {
  }

  /** `Prev` undoes `Next` and `Next` undoes `Prev`, except at the ends. */
  lemma PrevUndoesNext(hits: seq<FileHit>, item: Item)
    requires AllHaveLines(hits) && IsItem(hits, item)
    ensures Next(hits, item) != item ==> Prev(hits, Next(hits, item)) == item
    ensures Prev(hits, item) != item ==> Next(hits, Prev(hits, item)) == item
    ensures Next(hits, item) == item <==> item == Line(|hits| - 1, Lines(hits, |hits| - 1) - 1)
    ensures Prev(hits, item) == item <==> item == Path(0)
  {
  }

  /** The four fields that place the page and the selection. */
  datatype View = View(fileOffset: nat, lineOffset: Option<nat>, fileSelected: nat, lineSelected: Option<nat>)

  const HOME := View(0, None, 0, None)

  /** The rows of the first visible file hit scrolled off the page: none, or its path and `lineOffset` lines. */
  function Skipped(lineOffset: Option<nat>): nat {
    if lineOffset.Some? then lineOffset.value + 1 else 0
  }

  /** `line_hit_number` on a view: the selected line counts from the first visible line in the first visible hit. */
  function LineNumberOf(v: View): (r: Option<nat>)
    ensures r.None? <==> v.lineSelected.None?
    ensures r.Some? ==> r.value >= v.lineSelected.value
  {
    match v.lineSelected
    case None => None
    case Some(selected) =>
      if v.fileSelected == 0 && v.lineOffset.Some? then Some(v.lineOffset.value + selected) else Some(selected)
  }

  /** The selected item. */
  function SelectionOf(v: View): Item {
    ItemAt(v.fileOffset + v.fileSelected, LineNumberOf(v))
  }

  /** The page row at the top of the screen. */
  function TopRow(hits: seq<FileHit>, v: View): nat
    requires v.fileOffset <= |hits|
  {
    RowsBefore(hits, v.fileOffset) + Skipped(v.lineOffset)
  }

  /** The furthest the page scrolls: the last file hit's blank row at the top. */
  function LastTopRow(hits: seq<FileHit>): nat
    requires |hits| > 0
  {
    RowsBefore(hits, |hits| - 1) + Lines(hits, |hits| - 1) + 1
  }

  function Min(a: nat, b: nat): nat {
    if a < b then a else b
  }

  /** The selected path scrolled off the top (the only way the selection is above the page). */
  predicate Hidden(v: View) {
    v.fileSelected == 0 && v.lineSelected.None? && v.lineOffset.Some?
  }

  /**
   * The views the searcher's operations keep: the page starts in a file
   * hit and at most past its last line; the selected hit exists and the
   * selected line is at most one past its last line (scrolling can leave
   * it there). With no hits only the first offsets and first line occur.
   */
  predicate WellFormed(hits: seq<FileHit>, v: View) {
    AllHaveLines(hits) &&
    (|hits| == 0 ==> (v.fileOffset == 0 && v.fileSelected == 0
      && (v.lineOffset.Some? ==> v.lineOffset.value == 0) && (v.lineSelected.Some? ==> v.lineSelected.value == 0))) &&
    (|hits| > 0 ==> (v.fileOffset + v.fileSelected < |hits|
      && (v.lineOffset.Some? ==> v.lineOffset.value <= Lines(hits, v.fileOffset))
      && (LineNumberOf(v).Some? ==> LineNumberOf(v).value <= Lines(hits, v.fileOffset + v.fileSelected))))
  }

  /** The selection names a path or a line that exists, so opening or copying it indexes no further than the hits. */
  predicate InRange(hits: seq<FileHit>, v: View) {
    IsItem(hits, SelectionOf(v))
  }

  /** The page never scrolls past its last position, and neither is any selection below it. */
  lemma WithinPage(hits: seq<FileHit>, v: View)
    requires WellFormed(hits, v) && |hits| > 0
    ensures TopRow(hits, v) <= LastTopRow(hits)
    ensures ItemRow(hits, SelectionOf(v)) <= LastTopRow(hits)
  {
    var last := |hits| - 1;
    if v.fileOffset < last {
      RowsBeforeGrows(hits, v.fileOffset, last);
    }
    if v.fileOffset + v.fileSelected < last {
      RowsBeforeGrows(hits, v.fileOffset + v.fileSelected, last);
    }
  }

  /** A selection that is not a hidden path is on or below the top row. */
  lemma SelectionBelowTop(hits: seq<FileHit>, v: View)
    requires WellFormed(hits, v)
    ensures Hidden(v) ==> ItemRow(hits, SelectionOf(v)) < TopRow(hits, v)
    ensures !Hidden(v) ==> TopRow(hits, v) <= ItemRow(hits, SelectionOf(v))
  {
    if v.fileSelected > 0 {
      RowsBeforeGrows(hits, v.fileOffset, v.fileOffset + v.fileSelected);
    }
  }

  /**
   * One step of `scroll_down`: the first visible hit's path, then its
   * lines, then its blank row go off the top; a line selected in it moves
   * with the page, and stays on the top row when it would leave it. There
   * is no step past the last hit's blank row.
   */
  function ScrollDownStep(hits: seq<FileHit>, v: View): (r: View)
    requires v.fileOffset <= |hits|
    requires v.lineOffset.Some? ==> v.fileOffset < |hits|
  {
    match v.lineOffset
    case None => v.(lineOffset := Some(0))
    case Some(offset) =>
      if offset < Lines(hits, v.fileOffset) then
        v.(lineOffset := Some(offset + 1),
           lineSelected := if v.fileSelected == 0 && v.lineSelected.Some? then
             Some(if v.lineSelected.value > 0 then v.lineSelected.value - 1 else 0) else v.lineSelected)
      else if v.fileOffset < |hits| - 1 then
        v.(fileOffset := v.fileOffset + 1,
           fileSelected := if v.fileSelected > 0 then v.fileSelected - 1 else 0,
           lineOffset := None)
      else v
  }

  /**
   * A step scrolls one row, except at the last position; it keeps the
   * view well formed, and it keeps a selection that is below the top row.
   */
  lemma ScrollDownStepMoves(hits: seq<FileHit>, v: View)
    requires WellFormed(hits, v) && |hits| > 0
    ensures WellFormed(hits, ScrollDownStep(hits, v))
    ensures TopRow(hits, ScrollDownStep(hits, v)) ==
      if TopRow(hits, v) < LastTopRow(hits) then TopRow(hits, v) + 1 else TopRow(hits, v)
    ensures TopRow(hits, v) < ItemRow(hits, SelectionOf(v)) ==> SelectionOf(ScrollDownStep(hits, v)) == SelectionOf(v)
  {
    ScrollDownStepKeepsWellFormed(hits, v);
    ScrollDownStepScrolls(hits, v);
    ScrollDownStepKeepsSelection(hits, v);
  }

  lemma ScrollDownStepKeepsWellFormed(hits: seq<FileHit>, v: View)
    requires WellFormed(hits, v) && |hits| > 0
    ensures WellFormed(hits, ScrollDownStep(hits, v))
  {
  }

  lemma ScrollDownStepScrolls(hits: seq<FileHit>, v: View)
    requires WellFormed(hits, v) && |hits| > 0
    ensures TopRow(hits, ScrollDownStep(hits, v)) ==
      if TopRow(hits, v) < LastTopRow(hits) then TopRow(hits, v) + 1 else TopRow(hits, v)
  {
    WithinPage(hits, v);
    var last := |hits| - 1;
    if v.fileOffset < last {
      RowsBeforeGrows(hits, v.fileOffset, last);
    }
  }

  lemma ScrollDownStepKeepsSelection(hits: seq<FileHit>, v: View)
    requires WellFormed(hits, v) && |hits| > 0
    ensures TopRow(hits, v) < ItemRow(hits, SelectionOf(v)) ==> SelectionOf(ScrollDownStep(hits, v)) == SelectionOf(v)
  {
    SelectionBelowTop(hits, v);
  }

  /** `k` steps of `scroll_down` over some hits. */
  function ScrollDownBy(hits: seq<FileHit>, v: View, k: nat): (r: View)
    requires WellFormed(hits, v) && |hits| > 0
    ensures WellFormed(hits, r)
    decreases k
  {
    if k == 0 then v
    else
      var w := ScrollDownBy(hits, v, k - 1);
      ScrollDownStepMoves(hits, w);
      ScrollDownStep(hits, w)
  }

  /** `k` steps scroll `k` rows, stopping at the last position, and keep a selection further down than that. */
  lemma {:induction false} ScrollDownByMoves(hits: seq<FileHit>, v: View, k: nat)
    requires WellFormed(hits, v) && |hits| > 0
    ensures TopRow(hits, ScrollDownBy(hits, v, k)) == Min(TopRow(hits, v) + k, LastTopRow(hits))
    ensures TopRow(hits, v) + k <= ItemRow(hits, SelectionOf(v)) ==> SelectionOf(ScrollDownBy(hits, v, k)) == SelectionOf(v)
    decreases k
  {
    if k == 0 {
      WithinPage(hits, v);
    } else {
      ScrollDownByMoves(hits, v, k - 1);
      ScrollDownStepMoves(hits, ScrollDownBy(hits, v, k - 1));
    }
  }

  /**
   * Scrolling `k` rows back within the first visible hit, `k` at most the
   * rows of it scrolled off: the selected line of that hit moves down with
   * the page; at `k` = all of them its path is shown again.
   */
  function ScrolledBack(v: View, k: nat): (r: View)
    requires v.lineOffset.Some? && k <= v.lineOffset.value + 1
  {
    var offset := v.lineOffset.value;
    if k <= offset then v.(lineSelected := Shifted(v, k), lineOffset := Some(offset - k))
    else v.(lineSelected := Shifted(v, offset), lineOffset := None)
  }

  lemma ScrolledBackMoves(hits: seq<FileHit>, v: View, k: nat)
    requires WellFormed(hits, v) && v.lineOffset.Some? && k <= v.lineOffset.value + 1
    ensures WellFormed(hits, ScrolledBack(v, k))
    ensures TopRow(hits, ScrolledBack(v, k)) + k == TopRow(hits, v)
    ensures SelectionOf(ScrolledBack(v, k)) == SelectionOf(v)
  {
    ScrolledBackKeepsSelection(v, k);
    ScrolledBackKeepsWellFormed(hits, v, k);
    ScrolledBackTop(hits, v, k);
  }

  lemma ScrolledBackTop(hits: seq<FileHit>, v: View, k: nat)
    requires v.fileOffset <= |hits| && v.lineOffset.Some? && k <= v.lineOffset.value + 1
    ensures TopRow(hits, ScrolledBack(v, k)) + k == TopRow(hits, v)
  {
  }

  /** On the empty page, scrolling back keeps the path and line numbers at 0. */
  lemma ScrolledBackEmpty(v: View, k: nat)
    requires v.fileOffset == 0 && v.fileSelected == 0 && v.lineOffset.Some? && v.lineOffset.value == 0
    requires (v.lineSelected.Some? ==> v.lineSelected.value == 0) && k <= 1
    ensures ScrolledBack(v, k).fileOffset == 0 && ScrolledBack(v, k).fileSelected == 0
    ensures ScrolledBack(v, k).lineOffset.Some? ==> ScrolledBack(v, k).lineOffset.value == 0
    ensures ScrolledBack(v, k).lineSelected.Some? ==> ScrolledBack(v, k).lineSelected.value == 0
  {
  }

  lemma ScrolledBackKeepsWellFormed(hits: seq<FileHit>, v: View, k: nat)
    requires WellFormed(hits, v) && v.lineOffset.Some? && k <= v.lineOffset.value + 1
    ensures WellFormed(hits, ScrolledBack(v, k))
  {
    if |hits| == 0 {
      ScrolledBackEmpty(v, k);
    } else {
      ScrolledBackKeepsSelection(v, k);
    }
  }

  lemma ScrolledBackKeepsSelection(v: View, k: nat)
    requires v.lineOffset.Some? && k <= v.lineOffset.value + 1
    ensures ScrolledBack(v, k).fileOffset == v.fileOffset && ScrolledBack(v, k).fileSelected == v.fileSelected
    ensures LineNumberOf(ScrolledBack(v, k)) == LineNumberOf(v)
    ensures SelectionOf(ScrolledBack(v, k)) == SelectionOf(v)
  {
    var r := ScrolledBack(v, k);
    assert r.fileOffset == v.fileOffset && r.fileSelected == v.fileSelected;
    assert LineNumberOf(r) == LineNumberOf(v);
  }

  /**
   * Scrolling back past the first visible hit's path: the hit before it
   * becomes the first visible one, with only its blank row shown, and the
   * selection is one hit further from it.
   */
  function PreviousHit(hits: seq<FileHit>, v: View): (r: View)
    requires 0 < v.fileOffset <= |hits|
  {
    v.(lineSelected := Shifted(v, if v.lineOffset.Some? then v.lineOffset.value else 0),
       fileOffset := v.fileOffset - 1, fileSelected := v.fileSelected + 1,
       lineOffset := Some(Lines(hits, v.fileOffset - 1)))
  }

  lemma PreviousHitMoves(hits: seq<FileHit>, v: View)
    requires WellFormed(hits, v) && 0 < v.fileOffset
    ensures WellFormed(hits, PreviousHit(hits, v))
    ensures TopRow(hits, PreviousHit(hits, v)) + Skipped(v.lineOffset) + 1 == TopRow(hits, v)
    ensures SelectionOf(PreviousHit(hits, v)) == SelectionOf(v)
  {
  }

  /**
   * `scroll_up` by `n` rows as intended: back within the first visible hit,
   * or past its path into the hit before it, stopping at the top of the page.
   */
  function ScrollBack(hits: seq<FileHit>, v: View, n: nat): (r: View)
    requires WellFormed(hits, v)
    ensures WellFormed(hits, r)
    decreases n
  {
    if n == 0 then v
    else if v.lineOffset.Some? && (n <= v.lineOffset.value + 1 || v.fileOffset == 0) then
      ScrolledBackKeepsWellFormed(hits, v, Min(n, v.lineOffset.value + 1));
      ScrolledBack(v, Min(n, v.lineOffset.value + 1))
    else if v.fileOffset == 0 then v
    else
      PreviousHitMoves(hits, v);
      ScrollBack(hits, PreviousHit(hits, v), n - (Skipped(v.lineOffset) + 1))
  }

  /** One round of `scroll_up`'s loop: the view it stops at, or the view and rows it goes on with. */
  lemma ScrollBackOnce(hits: seq<FileHit>, v: View, n: nat)
    requires WellFormed(hits, v) && n > 0
    ensures v.lineOffset.Some? && n <= v.lineOffset.value + 1 ==> ScrollBack(hits, v, n) == ScrolledBack(v, n)
    ensures v.lineOffset.Some? && n > v.lineOffset.value + 1 && v.fileOffset == 0 ==>
      ScrollBack(hits, v, n) == ScrolledBack(v, v.lineOffset.value + 1)
    ensures v.lineOffset.None? && v.fileOffset == 0 ==> ScrollBack(hits, v, n) == v
    ensures (v.lineOffset.None? || n > v.lineOffset.value + 1) && v.fileOffset > 0 ==>
      WellFormed(hits, PreviousHit(hits, v)) &&
      ScrollBack(hits, v, n) == ScrollBack(hits, PreviousHit(hits, v), n - (Skipped(v.lineOffset) + 1))
  {
  }

  /** Scrolling back `n` rows moves the top `n` rows up, stopping at the page top, and keeps the selection. */
  lemma {:induction false} ScrollBackMoves(hits: seq<FileHit>, v: View, n: nat)
    requires WellFormed(hits, v)
    ensures TopRow(hits, ScrollBack(hits, v, n)) == if TopRow(hits, v) >= n then TopRow(hits, v) - n else 0
    ensures SelectionOf(ScrollBack(hits, v, n)) == SelectionOf(v)
    decreases n
  {
    if n == 0 {
    } else if v.lineOffset.Some? && (n <= v.lineOffset.value + 1 || v.fileOffset == 0) {
      ScrolledBackMoves(hits, v, Min(n, v.lineOffset.value + 1));
    } else if v.fileOffset == 0 {
    } else {
      var u := PreviousHit(hits, v);
      PreviousHitMoves(hits, v);
      assert ScrollBack(hits, v, n) == ScrollBack(hits, u, n - (Skipped(v.lineOffset) + 1));
      ScrollBackMoves(hits, u, n - (Skipped(v.lineOffset) + 1));
    }
  }

  /** The screen row of the selection; a path scrolled off the top counts as the top row. */
  function ScreenRow(hits: seq<FileHit>, v: View): nat
    requires WellFormed(hits, v)
  {
    if Hidden(v) then 0
    else
      SelectionBelowTop(hits, v);
      ItemRow(hits, SelectionOf(v)) - TopRow(hits, v)
  }

  /**
   * The view after `down` selects the next item, before it scrolls: a
   * path's first line, the next line, or the next hit's path; nothing
   * after the last line of the last hit. (The page without hits is
   * `SearcherState.Down`'s own case.)
   */
  function NextView(hits: seq<FileHit>, v: View): (r: View)
    requires WellFormed(hits, v) && |hits| > 0
    ensures r.fileOffset == v.fileOffset && r.lineOffset == v.lineOffset
  {
    match v.lineSelected
    case None => v.(lineSelected := Some(0))
    case Some(selected) =>
      if LineNumberOf(v).value < Lines(hits, v.fileOffset + v.fileSelected) - 1 then v.(lineSelected := Some(selected + 1))
      else if v.fileOffset + v.fileSelected < |hits| - 1 then v.(lineSelected := None, fileSelected := v.fileSelected + 1)
      else v
  }

  /**
   * `down` selects the next item without scrolling, and never a path
   * scrolled off the top: from such a path it selects the first line on
   * the screen, skipping the lines scrolled off with the path.
   */
  lemma NextViewMoves(hits: seq<FileHit>, v: View)
    requires WellFormed(hits, v) && |hits| > 0
    ensures WellFormed(hits, NextView(hits, v))
    ensures !Hidden(v) ==> SelectionOf(NextView(hits, v)) == Next(hits, SelectionOf(v))
    ensures Hidden(v) ==> SelectionOf(NextView(hits, v)) == ItemAt(v.fileOffset, v.lineOffset)
    ensures TopRow(hits, NextView(hits, v)) == TopRow(hits, v) && !Hidden(NextView(hits, v))
  {
    var r := NextView(hits, v);
    var hit := v.fileOffset + v.fileSelected;
    if v.lineSelected.None? {
      assert r == v.(lineSelected := Some(0));
    } else {
      var k := LineNumberOf(v).value;
      if k < Lines(hits, hit) - 1 {
        assert r == v.(lineSelected := Some(v.lineSelected.value + 1));
        assert LineNumberOf(r) == Some(k + 1);
      } else if hit < |hits| - 1 {
        assert r == v.(lineSelected := None, fileSelected := v.fileSelected + 1);
      } else {
        assert r == v;
      }
    }
  }

  /** With no hits, `down` selects the first line of the missing first hit. */
  /** The rows `down` scrolls to bring the selection onto a screen of `rows` rows. */
  function DownAdjustment(hits: seq<FileHit>, v: View, rows: nat): nat
    requires WellFormed(hits, v)
  {
    if ScreenRow(hits, v) + 1 > rows then ScreenRow(hits, v) + 1 - rows else 0
  }

  /** Scrolling by that adjustment keeps the selection and puts it on the screen. */
  lemma ScrollsIntoView(hits: seq<FileHit>, v: View, rows: nat)
    requires WellFormed(hits, v) && |hits| > 0 && !Hidden(v) && rows > 0
    ensures TopRow(hits, v) + DownAdjustment(hits, v, rows) <= ItemRow(hits, SelectionOf(v))
    ensures var w := ScrollDownBy(hits, v, DownAdjustment(hits, v, rows));
      SelectionOf(w) == SelectionOf(v) && !Hidden(w) && ScreenRow(hits, w) < rows
  {
    SelectionBelowTop(hits, v);
    var w := ScrollDownBy(hits, v, DownAdjustment(hits, v, rows));
    ScrollDownByMoves(hits, v, DownAdjustment(hits, v, rows));
    SelectionBelowTop(hits, w);
    WithinPage(hits, w);
  }

  /** The view after `down`: the next item selected, then scrolled onto the screen. */
  function DownView(hits: seq<FileHit>, v: View, rows: nat): (r: View)
    requires WellFormed(hits, v) && |hits| > 0
  {
    NextViewMoves(hits, v);
    var w := NextView(hits, v);
    ScrollDownBy(hits, w, DownAdjustment(hits, w, rows))
  }

  /**
   * `down` selects the next item (the first line on the screen for a path
   * scrolled off the top), never scrolls back, and leaves the selection on
   * the screen.
   */
  lemma DownViewMoves(hits: seq<FileHit>, v: View, rows: nat)
    requires WellFormed(hits, v) && |hits| > 0 && rows > 0
    ensures WellFormed(hits, DownView(hits, v, rows))
    ensures !Hidden(v) ==> SelectionOf(DownView(hits, v, rows)) == Next(hits, SelectionOf(v))
    ensures Hidden(v) ==> SelectionOf(DownView(hits, v, rows)) == ItemAt(v.fileOffset, v.lineOffset)
    ensures TopRow(hits, v) <= TopRow(hits, DownView(hits, v, rows))
    ensures !Hidden(DownView(hits, v, rows)) && ScreenRow(hits, DownView(hits, v, rows)) < rows
  {
    NextViewMoves(hits, v);
    var w := NextView(hits, v);
    ScrollsIntoView(hits, w, rows);
    ScrollDownByMoves(hits, w, DownAdjustment(hits, w, rows));
  }

  /** The view after `up`: the previous item selected, scrolling back one row when it is above the screen. */
  function UpView(hits: seq<FileHit>, v: View): (r: View)
    requires WellFormed(hits, v)
  {
    match v.lineSelected
    case None =>
      if v.fileSelected == 0 then
        if v.fileOffset > 0 then
          v.(fileOffset := v.fileOffset - 1, lineOffset := Some(Lines(hits, v.fileOffset - 1) - 1), lineSelected := Some(0))
        else v
      else if v.fileSelected == 1 then
        match v.lineOffset
        case None => v.(fileSelected := 0, lineSelected := Some(Lines(hits, v.fileOffset) - 1))
        case Some(offset) =>
          if offset == Lines(hits, v.fileOffset) then v.(fileSelected := 0, lineOffset := Some(offset - 1), lineSelected := Some(0))
          else v.(fileSelected := 0, lineSelected := Some(Lines(hits, v.fileOffset) - 1 - offset))
      else v.(fileSelected := v.fileSelected - 1, lineSelected := Some(Lines(hits, v.fileOffset + v.fileSelected - 1) - 1))
    case Some(selected) =>
      if selected > 0 then v.(lineSelected := Some(selected - 1))
      else if v.fileSelected > 0 then v.(lineSelected := None)
      else if v.lineOffset.None? || v.lineOffset == Some(0) then v.(lineOffset := None, lineSelected := None)
      else v.(lineOffset := Some(v.lineOffset.value - 1))
  }

  /** `up` selects the previous item and never scrolls down; with no hits it only forgets a selected line. */
  lemma UpViewMoves(hits: seq<FileHit>, v: View)
    requires WellFormed(hits, v)
    ensures WellFormed(hits, UpView(hits, v))
    ensures |hits| > 0 ==> SelectionOf(UpView(hits, v)) == Prev(hits, SelectionOf(v))
    ensures |hits| == 0 ==> UpView(hits, v) == if v.lineSelected.Some? then v.(lineOffset := None, lineSelected := None) else v
    ensures TopRow(hits, UpView(hits, v)) <= TopRow(hits, v)
  {
    UpViewKeepsWellFormed(hits, v);
    if |hits| > 0 {
      UpViewSelectsPrev(hits, v);
    }
    UpViewScrollsBack(hits, v);
  }

  lemma UpViewKeepsWellFormed(hits: seq<FileHit>, v: View)
    requires WellFormed(hits, v)
    ensures WellFormed(hits, UpView(hits, v))
  {
  }

  lemma UpViewSelectsPrev(hits: seq<FileHit>, v: View)
    requires WellFormed(hits, v) && |hits| > 0
    ensures SelectionOf(UpView(hits, v)) == Prev(hits, SelectionOf(v))
  {
    if v.lineSelected.None? {
      UpFromPath(hits, v);
    } else {
      UpFromLine(hits, v);
    }
  }

  lemma UpFromPath(hits: seq<FileHit>, v: View)
    requires WellFormed(hits, v) && |hits| > 0 && v.lineSelected.None?
    ensures SelectionOf(UpView(hits, v)) == Prev(hits, SelectionOf(v))
  {
  }

  lemma UpFromLine(hits: seq<FileHit>, v: View)
    requires WellFormed(hits, v) && |hits| > 0 && v.lineSelected.Some?
    ensures SelectionOf(UpView(hits, v)) == Prev(hits, SelectionOf(v))
  {
  }

  lemma UpViewScrollsBack(hits: seq<FileHit>, v: View)
    requires WellFormed(hits, v)
    ensures TopRow(hits, UpView(hits, v)) <= TopRow(hits, v)
  {
    if v.lineSelected.None? && v.fileSelected == 0 && v.fileOffset > 0 {
      RowsBeforeGrows(hits, v.fileOffset - 1, v.fileOffset);
    }
  }

  /**
   * `up_adjustment` in `really_down` as written: the rows left under the
   * last file hit, `rows - (lines + 1)` in unsigned arithmetic, which
   * panics (none here) when the hit has as many lines as the screen has rows.
   */
  function UpAdjustmentAsWritten(rows: nat, lines: nat): (r: Option<nat>)
    ensures r.None? <==> rows < lines + 1
    ensures r.Some? ==> r.value + lines + 1 == rows
  {
    if rows < lines + 1 then None else Some(rows - (lines + 1))
  }

  /** The intended adjustment: the rows left under the last file hit, none when it fills the screen. */
  function UpAdjustment(rows: nat, lines: nat): (r: nat)
    ensures UpAdjustmentAsWritten(rows, lines).Some? ==> r == UpAdjustmentAsWritten(rows, lines).value
    ensures UpAdjustmentAsWritten(rows, lines).None? ==> r == 0
  {
    if rows < lines + 1 then 0 else rows - (lines + 1)
  }

  /** A last file hit with two lines on a two-row screen makes `really_down` subtract past zero. */
  lemma ReallyDownUnderflows()
    ensures UpAdjustmentAsWritten(2, 2).None?
    ensures UpAdjustment(2, 2) == 0
  {
  }

  /** `really_down` first shows the last hit's path at the top of the page, selected. */
  lemma LastPathOnTop(hits: seq<FileHit>)
    requires AllHaveLines(hits) && |hits| > 0
    ensures WellFormed(hits, View(|hits| - 1, None, 0, None))
    ensures TopRow(hits, View(|hits| - 1, None, 0, None)) == RowsBefore(hits, |hits| - 1)
    ensures SelectionOf(View(|hits| - 1, None, 0, None)) == Path(|hits| - 1)
  {
  }

  /**
   * Scrolled back by the adjustment, the page ends with the last hit's
   * last line on its bottom row, unless the page top came first.
   */
  lemma LastLineOnBottom(hits: seq<FileHit>, rows: nat, top: nat)
    requires AllHaveLines(hits) && |hits| > 0
    requires var adjustment := UpAdjustment(rows, Lines(hits, |hits| - 1));
      top == if RowsBefore(hits, |hits| - 1) >= adjustment then RowsBefore(hits, |hits| - 1) - adjustment else 0
    ensures Lines(hits, |hits| - 1) < rows && UpAdjustment(rows, Lines(hits, |hits| - 1)) <= RowsBefore(hits, |hits| - 1) ==>
      ItemRow(hits, Line(|hits| - 1, Lines(hits, |hits| - 1) - 1)) == top + rows - 1
  {
    LastLineRow(hits);
  }

  lemma LastLineRow(hits: seq<FileHit>)
    requires AllHaveLines(hits) && |hits| > 0
    ensures ItemRow(hits, Line(|hits| - 1, Lines(hits, |hits| - 1) - 1)) == RowsBefore(hits, |hits| - 1) + Lines(hits, |hits| - 1)
  {
  }

  /** A selected line in the first visible hit moved `k` rows down the screen. */
  function Shifted(v: View, k: nat): Option<nat> {
    if v.fileSelected == 0 && v.lineSelected.Some? then Some(v.lineSelected.value + k) else v.lineSelected
  }

  /**
   * `scroll_up` as written. When the rows to scroll reach the first
   * visible hit's path, the selected line moves `rows + 1` down the screen
   * instead of `line_offset`; when they reach further, the page jumps to
   * the previous hit's blank row without showing the path, the selected
   * hit is not counted one further from the top, and at the first hit it
   * does not scroll at all.
   */
  function ScrollUpAsWritten(hits: seq<FileHit>, v: View, rows: nat): (r: View)
    requires v.fileOffset <= |hits|
    ensures r.fileOffset <= v.fileOffset
    decreases rows
  {
    if rows == 0 then v
    else match v.lineOffset
      case Some(offset) =>
        if rows <= offset then v.(lineOffset := Some(offset - rows), lineSelected := Shifted(v, rows))
        else if rows == offset + 1 then v.(lineOffset := None, lineSelected := Shifted(v, rows + 1))
        else if v.fileOffset == 0 then v
        else
          var v' := v.(lineSelected := Shifted(v, offset), fileOffset := v.fileOffset - 1,
                       lineOffset := Some(Lines(hits, v.fileOffset - 1)));
          ScrollUpAsWritten(hits, v', rows - (offset + 1))
      case None =>
        if v.fileOffset == 0 then v
        else
          ScrollUpAsWritten(hits, v.(fileOffset := v.fileOffset - 1, fileSelected := v.fileSelected + 1,
                                     lineOffset := Some(Lines(hits, v.fileOffset - 1))), rows - 1)
  }

  /** The three cases of the source's own unit test of `scroll_up`. */
  lemma ScrollUpAsWrittenExamples()
    ensures ScrollUpAsWritten([], HOME, 0) == HOME
    ensures var one := [FileHit("", [LineHit(0, "")])];
      ScrollUpAsWritten(one, HOME, 1) == HOME
    ensures var two := [FileHit("", [LineHit(0, ""), LineHit(1, "")]), FileHit("", [LineHit(0, "")])];
      ScrollUpAsWritten(two, View(1, None, 0, None), 1) == View(0, Some(2), 0 + 1, None)
  {
  }

  /**
   * A page scrolled past a hit's path, a line of that hit selected:
   * scrolling back up by one row moves the selection two lines down, so
   * when one of the hit's last two lines was selected the selection is
   * past the hit's end and `edit` indexes past it (with a hit of two
   * lines: `j`, Ctrl+j, Ctrl+k, Enter).
   */
  lemma {:induction false} ScrollUpAsWrittenLosesLine(hits: seq<FileHit>, v: View)
    requires WellFormed(hits, v) && |hits| > 0
    requires v.lineOffset == Some(0) && v.fileSelected == 0 && v.lineSelected.Some?
    ensures SelectionOf(v) == ItemAt(v.fileOffset, v.lineSelected)
    ensures SelectionOf(ScrollUpAsWritten(hits, v, 1)) == Line(v.fileOffset, v.lineSelected.value + 2)
    ensures v.lineSelected.value + 2 >= Lines(hits, v.fileOffset) ==> !InRange(hits, ScrollUpAsWritten(hits, v, 1))
  {
  }

  /**
   * The same page below the first hit: scrolling up two rows scrolls
   * three, and the selection moves into the previous hit, past its end.
   */
  lemma {:induction false} ScrollUpAsWrittenMovesSelection(hits: seq<FileHit>, v: View)
    requires WellFormed(hits, v) && 0 < v.fileOffset < |hits|
    requires v.lineOffset == Some(0) && v.fileSelected == 0 && v.lineSelected.Some?
    ensures TopRow(hits, ScrollUpAsWritten(hits, v, 2)) + 3 == TopRow(hits, v)
    ensures SelectionOf(ScrollUpAsWritten(hits, v, 2)).hit + 1 == SelectionOf(v).hit
    ensures !InRange(hits, ScrollUpAsWritten(hits, v, 2))
  {
    var previous := Lines(hits, v.fileOffset - 1);
    var v' := v.(fileOffset := v.fileOffset - 1, lineOffset := Some(previous));
    assert ScrollUpAsWritten(hits, v, 2) == ScrollUpAsWritten(hits, v', 1);
    assert ScrollUpAsWritten(hits, v', 1) == v'.(lineOffset := Some(previous - 1), lineSelected := Some(v.lineSelected.value + 1));
  }

  datatype Effect =
    | Unfocus
    | Goto(gotoDir: string, file: Option<string>)
    | OpenVim(path: string, line: Option<nat>)
    | Bell
    | Panic

  datatype Event = Search(phrase: string) | Term(event: TermEvent)

  datatype Action =
    | UnfocusAction
    | SearchAction(phrase: string)
    | Resize(size: Size)
    | Down | ReallyDown | ScrollDown | Up | ReallyUp | ScrollUp
    | Refresh | Edit | GotoAction(really: bool) | Yank(really: bool)

  /**
   * The key map: Ctrl+q unfocuses; j, J and Ctrl+j go down, to the last
   * hit and scroll down; k, K and Ctrl+k go up, to the first hit and
   * scroll up; a plain r refreshes, l or Enter edits, g and G go to the
   * hit's directory, y and Y copy; any other key has no action (and rings
   * the bell).
   */
  function ActionOf(event: Event): (r: Option<Action>)
    ensures event.Search? ==> r == Some(SearchAction(event.phrase))
    ensures event == Term(KeyInput(KeyEvent(Char('q'), CONTROL))) ==> r == Some(UnfocusAction)
    ensures event == Term(KeyInput(KeyEvent(Char('j'), CONTROL))) ==> r == Some(Action.ScrollDown)
    ensures event == Term(KeyInput(KeyEvent(Char('k'), CONTROL))) ==> r == Some(Action.ScrollUp)
    ensures r == Some(Refresh) <==> event == Term(KeyInput(KeyEvent(Char('r'), NONE)))
    ensures (event.Term? && event.event.KeyInput? && event.event.event.key.Char?
      && event.event.event.key.c !in "qjJkKrlgGyY") ==> r.None?
  {
    match event
    case Search(phrase) => Some(SearchAction(phrase))
    case Term(Resize(size)) => Some(Action.Resize(size))
    case Term(KeyInput(KeyEvent(key, mods))) =>
      if key == Char('q') && mods == CONTROL then Some(UnfocusAction)
      else if key == Char('j') && mods == NONE then Some(Action.Down)
      else if key == Char('J') && mods == SHIFT then Some(Action.ReallyDown)
      else if key == Char('j') && mods == CONTROL then Some(Action.ScrollDown)
      else if key == Char('k') && mods == NONE then Some(Action.Up)
      else if key == Char('K') && mods == SHIFT then Some(Action.ReallyUp)
      else if key == Char('k') && mods == CONTROL then Some(Action.ScrollUp)
      else if key == Char('r') && mods == NONE then Some(Refresh)
      else if key == Char('l') || key == CarriageReturn then Some(Edit)
      else if key == Char('g') && mods == NONE then Some(GotoAction(false))
      else if key == Char('G') && mods == SHIFT then Some(GotoAction(true))
      else if key == Char('y') && mods == NONE then Some(Yank(false))
      else if key == Char('Y') && mods == SHIFT then Some(Yank(true))
      else None
  }

  /** The searcher's state: the screen, the directory searched, the phrase and its hits, and the view fields. */
  class SearcherState {
    var rows: nat
    var dir: string
    var phrase: Option<string>
    var focussed: bool
    var searched: bool
    var hits: seq<FileHit>
    var fileOffset: nat
    var lineOffset: Option<nat>
    var fileSelected: nat
    var lineSelected: Option<nat>

    function ViewOf(): View
      reads this
    {
      View(fileOffset, lineOffset, fileSelected, lineSelected)
    }

    /** A screen with rows, and a view the operations keep. */
    predicate Valid()
      reads this
    {
      rows > 0 && WellFormed(hits, ViewOf())
    }

    /** A searcher that has not searched yet. */
    constructor (rows: nat, dir: string)
      requires rows > 0
      ensures Valid()
      ensures this.rows == rows && this.dir == dir && phrase.None? && !focussed && !searched
      ensures |hits| == 0 && ViewOf() == HOME
    {
      this.rows := rows;
      this.dir := dir;
      phrase := None;
      focussed := false;
      searched := false;
      hits := [];
      fileOffset, lineOffset, fileSelected, lineSelected := 0, None, 0, None;
    }

    /** `hit_number`: the selected file hit's index, when there is such a hit. */
    function HitNumber(): (r: Option<nat>)
      reads this
      ensures r.Some? <==> fileOffset + fileSelected < |hits|
      ensures r.Some? ==> r.value == SelectionOf(ViewOf()).hit
    {
      if fileOffset + fileSelected < |hits| then Some(fileOffset + fileSelected) else None
    }

    /** `line_hit_number`: the selected line's index in its hit; the scrolled-off lines count only in the first visible hit. */
    function LineHitNumber(): (r: Option<nat>)
      reads this
      ensures r.None? <==> lineSelected.None?
      ensures r.Some? && fileSelected > 0 ==> r == lineSelected
      ensures r.Some? && fileSelected == 0 ==> r.value == Skipped(lineOffset) + lineSelected.value - (if lineOffset.Some? then 1 else 0)
      ensures r == LineOf(SelectionOf(ViewOf()))
    {
      match lineSelected
      case Some(selected) =>
        if fileSelected == 0 then
          match lineOffset
          case None => Some(selected)
          case Some(offset) => Some(offset + selected)
        else Some(selected)
      case None => None
    }

    /** Sets the four view fields. */
    method SetView(v: View)
      modifies this
      ensures rows == old(rows) && dir == old(dir) && phrase == old(phrase) && focussed == old(focussed)
      ensures searched == old(searched) && hits == old(hits)
      ensures ViewOf() == v
    {
      fileOffset, lineOffset, fileSelected, lineSelected := v.fileOffset, v.lineOffset, v.fileSelected, v.lineSelected;
    }

    /** Only the view may have changed. */
    twostate predicate KeepsHits()
      reads this
    {
      rows == old(rows) && dir == old(dir) && phrase == old(phrase) && focussed == old(focussed)
      && searched == old(searched) && hits == old(hits)
    }

    /** `scroll_down` by `n` rows, with `panicked` telling whether it panicked (see `ScrollDown`). */
    twostate predicate ScrolledDown(n: nat, panicked: bool)
      requires old(Valid())
      reads this
    {
      && KeepsHits()
      && (panicked <==> |hits| == 0 && (n >= 2 || (n == 1 && old(lineOffset).Some?)))
      && (|hits| == 0 && !panicked ==> ViewOf() == if n == 0 then old(ViewOf()) else old(ViewOf()).(lineOffset := Some(0)))
      && (|hits| > 0 ==> ViewOf() == ScrollDownBy(hits, old(ViewOf()), n))
      && (|hits| > 0 ==> TopRow(hits, ViewOf()) == Min(TopRow(hits, old(ViewOf())) + n, LastTopRow(hits)))
      && (|hits| > 0 && TopRow(hits, old(ViewOf())) + n <= ItemRow(hits, SelectionOf(old(ViewOf()))) ==>
        SelectionOf(ViewOf()) == SelectionOf(old(ViewOf())))
    }

    /** `scroll_up` by `n` rows, as intended. */
    twostate predicate ScrolledUp(n: nat)
      requires old(Valid())
      reads this
    {
      KeepsHits() && ViewOf() == ScrollBack(hits, old(ViewOf()), n)
    }

    /** `down`, with `panicked` telling whether it panicked (see `Down`). */
    twostate predicate MovedDown(panicked: bool)
      requires old(Valid())
      reads this
    {
      && KeepsHits()
      && (panicked <==> |hits| == 0 && old(lineSelected).Some?)
      && (|hits| == 0 && !panicked ==>
        ViewOf() == old(ViewOf()).(lineSelected := Some(0), lineOffset := if rows == 1 then Some(0) else old(lineOffset)))
      && (|hits| == 0 && !panicked ==> LineNumberOf(ViewOf()) == Some(0))
      && (|hits| > 0 ==> ViewOf() == DownView(hits, old(ViewOf()), rows))
    }

    /** `up`: the previous path or line selected, never scrolling down. */
    twostate predicate MovedUp()
      requires old(Valid())
      reads this
    {
      && KeepsHits()
      && ViewOf() == UpView(hits, old(ViewOf()))
      && (|hits| == 0 ==> ViewOf() == (if old(lineSelected).Some? then old(ViewOf()).(lineOffset := None, lineSelected := None)
                                          else old(ViewOf())))
      && (|hits| > 0 ==> SelectionOf(ViewOf()) == Prev(hits, SelectionOf(old(ViewOf()))))
      && (|hits| > 0 ==> TopRow(hits, ViewOf()) <= TopRow(hits, old(ViewOf())))
    }

    /** `really_down` over some hits: the last hit's path selected and its last line on the bottom row. */
    twostate predicate ShowsLastHit()
      requires old(Valid()) && |old(hits)| > 0
      reads this
    {
      && KeepsHits()
      && SelectionOf(ViewOf()) == Path(|hits| - 1)
      && (var last := RowsBefore(hits, |hits| - 1);
        var adjustment := UpAdjustment(rows, Lines(hits, |hits| - 1));
        TopRow(hits, ViewOf()) == if last >= adjustment then last - adjustment else 0)
      && (Lines(hits, |hits| - 1) < rows && UpAdjustment(rows, Lines(hits, |hits| - 1)) <= RowsBefore(hits, |hits| - 1) ==>
        ItemRow(hits, Line(|hits| - 1, Lines(hits, |hits| - 1) - 1)) == TopRow(hits, ViewOf()) + rows - 1)
    }

    /** `really_down`: nothing with no hits. */
    twostate predicate MovedReallyDown()
      requires old(Valid())
      reads this
    {
      && KeepsHits()
      && (|hits| == 0 ==> ViewOf() == old(ViewOf()))
      && (|hits| > 0 ==> ShowsLastHit())
    }

    /** `really_up`: the first hit's path on an unscrolled page; nothing with no hits. */
    twostate predicate MovedReallyUp()
      reads this
    {
      && KeepsHits()
      && (|hits| == 0 ==> ViewOf() == old(ViewOf()))
      && (|hits| > 0 ==> ViewOf() == HOME && SelectionOf(ViewOf()) == Path(0))
    }

    /** `search` for `query`, which found `found` (see `Search`). */
    twostate predicate Searched(query: string, found: seq<FileHit>, data: Data.SearcherData, maxHistoryLength: nat, new effect: Option<Effect>)
      reads this, data
    {
      rows == old(rows) && dir == old(dir)
      && focussed && searched && phrase == Some(query) && hits == found && ViewOf() == HOME
      && data.history == Data.Added(old(data.history), query, maxHistoryLength)
      && effect == if found == [] then Some(Unfocus) else None
    }

    /**
     * `scroll_down`: scrolls `n` rows, stopping at the last hit's blank
     * row; a selection below the rows scrolled off stays selected. With no
     * hits there is nothing to scroll past the (absent) first path, and a
     * second row indexes the empty hits and panics.
     */
    method ScrollDown(n: nat) returns (panicked: bool)
      requires Valid()
      modifies this
      ensures !panicked ==> Valid()
      ensures ScrolledDown(n, panicked)
    {
      ghost var start := ViewOf();
      for i := 0 to n
        invariant rows == old(rows) && dir == old(dir) && phrase == old(phrase) && focussed == old(focussed)
        invariant searched == old(searched) && hits == old(hits)
        invariant |hits| == 0 ==> i <= 1 && (i == 1 ==> old(lineOffset).None?)
        invariant |hits| == 0 ==> ViewOf() == if i == 0 then start else start.(lineOffset := Some(0))
        invariant |hits| > 0 ==> ViewOf() == ScrollDownBy(hits, start, i)
      {
        if |hits| == 0 {
          if lineOffset.Some? {
            return true;
          }
          lineOffset := Some(0);
        } else {
          SetView(ScrollDownStep(hits, ViewOf()));
        }
      }
      if |hits| > 0 {
        ScrollDownByMoves(hits, start, n);
      }
      return false;
    }

    /**
     * `scroll_up` as intended: scrolls `n` rows back, stopping at the top,
     * and keeps the selected path or line selected. Where the source moves
     * the selected line too far, skips a hit's path and stops short at the
     * first hit (`ScrollUpAsWritten`), this reveals the path of the first
     * visible hit and then the blank row of the hit before it.
     */
    method ScrollUp(n: nat)
      requires Valid()
      modifies this
      ensures Valid()
      ensures ScrolledUp(n)
    {
      ghost var start := ViewOf();
      var v := ViewOf();
      var remaining: nat := n;
      while remaining > 0
        modifies {}
        invariant WellFormed(hits, v)
        invariant ScrollBack(hits, v, remaining) == ScrollBack(hits, start, n)
        decreases remaining
      {
        if v.lineOffset.Some? && (remaining <= v.lineOffset.value + 1 || v.fileOffset == 0) {
          var k := if remaining <= v.lineOffset.value + 1 then remaining else v.lineOffset.value + 1;
          assert ScrollBack(hits, v, remaining) == ScrolledBack(v, k) by {
            ScrollBackOnce(hits, v, remaining);
          }
          ScrolledBackKeepsWellFormed(hits, v, k);
          v, remaining := ScrolledBack(v, k), 0;
        } else if v.fileOffset == 0 {
          assert ScrollBack(hits, v, remaining) == v by {
            ScrollBackOnce(hits, v, remaining);
          }
          remaining := 0;
        } else {
          var rest := remaining - (Skipped(v.lineOffset) + 1);
          assert WellFormed(hits, PreviousHit(hits, v)) && ScrollBack(hits, v, remaining) == ScrollBack(hits, PreviousHit(hits, v), rest) by {
            ScrollBackOnce(hits, v, remaining);
          }
          v, remaining := PreviousHit(hits, v), rest;
        }
      }
      SetView(v);
    }

    /**
     * `selected_row_number`: the screen row of the selection, counting the
     * rows of the hits between the first visible one and the selected one.
     */
    method SelectedRowNumber() returns (row: nat)
      requires Valid()
      ensures row == ScreenRow(hits, ViewOf())
    {
      SelectionBelowTop(hits, ViewOf());
      if fileSelected == 0 {
        row := match lineSelected
          case None => 0
          case Some(selected) => if lineOffset.None? then selected + 1 else selected;
        return;
      }
      row := (Lines(hits, fileOffset) + 1) - Skipped(lineOffset);
      var h := fileOffset + 1;
      while h < fileOffset + fileSelected
        invariant fileOffset + 1 <= h <= fileOffset + fileSelected
        invariant row + RowsBefore(hits, fileOffset + 1) == (Lines(hits, fileOffset) + 1) - Skipped(lineOffset) + RowsBefore(hits, h)
      {
        row := row + Lines(hits, h) + 2;
        h := h + 1;
      }
      row := row + if lineSelected.None? then 1 else lineSelected.value + 2;
    }

    /**
     * `down`: selects the next path or line (nothing past the last line of
     * the last hit; the first line on the screen when the selected path is
     * scrolled off) and scrolls just enough to show it on the screen's last
     * row. With no hits the first press selects a missing first line and the
     * second one unwraps the missing hit and panics.
     */
    method Down() returns (panicked: bool)
      requires Valid()
      modifies this
      ensures !panicked ==> Valid()
      ensures MovedDown(panicked)
    {
      if |hits| == 0 {
        // `hit()` is unwrapped on a selected line of no hits.
        if lineSelected.Some? {
          return true;
        }
        // The empty page selects its line 0, one row below the page top
        // until the page is scrolled, so `scroll_down` moves by at most that row.
        lineSelected := Some(0);
        if lineOffset.None? && rows == 1 {
          lineOffset := Some(0);
        }
        return false;
      }
      var start := ViewOf();
      NextViewMoves(hits, start);
      SetView(NextView(hits, start));
      var row := SelectedRowNumber();
      panicked := ScrollDown(if row + 1 > rows then row + 1 - rows else 0);
      DownViewMoves(hits, start, rows);
    }

    /**
     * `up`: selects the previous path or line (nothing before the first
     * hit's path), scrolling back when it is above the screen; it never
     * scrolls down.
     */
    method Up()
      requires Valid()
      modifies this
      ensures Valid()
      ensures MovedUp()
    {
      UpViewMoves(hits, ViewOf());
      SetView(UpView(hits, ViewOf()));
    }

    /** `really_down`: selects the last hit's path and scrolls back so that its last line is on the screen's last row. */
    method ReallyDown()
      requires Valid()
      modifies this
      ensures Valid()
      ensures MovedReallyDown()
    {
      if |hits| == 0 {
        return;
      }
      ShowLastHit();
    }

    /**
     * `really_down` over some hits: selects the last hit's path at the top
     * of the page, then scrolls up one row at a time until the hit's last
     * line is on the bottom row.
     */
    method ShowLastHit()
      requires Valid() && |hits| > 0
      modifies this
      ensures Valid()
      ensures ShowsLastHit()
    {
      LastPathOnTop(hits);
      SetView(View(|hits| - 1, None, 0, None));
      ScrollUpToLastLine();
      LastLineOnBottom(hits, rows, TopRow(hits, ViewOf()));
    }

    /** The loop of `really_down`: scrolls up one row at a time until the last hit's last line is on the bottom row. */
    method ScrollUpToLastLine()
      requires Valid() && |hits| > 0
      requires SelectionOf(ViewOf()) == Path(|hits| - 1) && TopRow(hits, ViewOf()) == RowsBefore(hits, |hits| - 1)
      modifies this
      ensures Valid()
      ensures rows == old(rows) && dir == old(dir) && phrase == old(phrase) && focussed == old(focussed)
      ensures searched == old(searched) && hits == old(hits)
      ensures SelectionOf(ViewOf()) == Path(|hits| - 1)
      ensures var last := RowsBefore(hits, |hits| - 1);
        var adjustment := UpAdjustment(rows, Lines(hits, |hits| - 1));
        TopRow(hits, ViewOf()) == if last >= adjustment then last - adjustment else 0
    {
      var adjustment := UpAdjustment(rows, Lines(hits, |hits| - 1));
      ghost var last := RowsBefore(hits, |hits| - 1);
      for i := 0 to adjustment
        invariant rows == old(rows) && dir == old(dir) && phrase == old(phrase) && focussed == old(focussed)
        invariant searched == old(searched) && hits == old(hits)
        invariant Valid()
        invariant SelectionOf(ViewOf()) == Path(|hits| - 1)
        invariant TopRow(hits, ViewOf()) == if last >= i then last - i else 0
      {
        ScrollBackMoves(hits, ViewOf(), 1);
        ScrollUp(1);
      }
    }

    /** `really_up`: the first hit's path on an unscrolled page; nothing with no hits. */
    method ReallyUp()
      requires Valid()
      modifies this
      ensures Valid()
      ensures MovedReallyUp()
    {
      if |hits| > 0 {
        SetView(HOME);
      }
    }

    /**
     * `search`: focuses, keeps the phrase and the hits found for it (the
     * file search itself is a parameter), adds the phrase to the search
     * history and resets the view; it unfocuses the searcher when nothing
     * is found.
     */
    method Search(query: string, found: seq<FileHit>, data: Data.SearcherData, maxHistoryLength: nat) returns (effect: Option<Effect>)
      requires AllHaveLines(found) && rows > 0
      modifies this, data
      ensures Valid()
      ensures Searched(query, found, data, maxHistoryLength, effect)
    {
      focussed := true;
      phrase := Some(query);
      hits := found;
      searched := true;
      data.AddToHistory(query, maxHistoryLength);
      SetView(HOME);
      effect := if |hits| == 0 then Some(Unfocus) else None;
    }

    /** The selected file hit, when there is one. */
    function Hit(): (r: Option<FileHit>)
      reads this
      ensures r.Some? <==> HitNumber().Some?
      ensures r.Some? ==> r.value == hits[HitNumber().value]
    {
      match HitNumber()
      case None => None
      case Some(h) => Some(hits[h])
    }

    /** The selected line hit; past the hit's last line (the blank row scrolled to the top) it is an index past the end. */
    function SelectedLine(): (r: ListCursor.Lookup<LineHit>)
      reads this
      requires Hit().Some?
      ensures r.NoSelection? <==> lineSelected.None?
      ensures r.Selected? ==> LineHitNumber().value < |Hit().value.lineHits| && r.entry == Hit().value.lineHits[LineHitNumber().value]
      ensures r.OutOfRange? ==> LineHitNumber().value >= |Hit().value.lineHits|
    {
      match LineHitNumber()
      case None => ListCursor.NoSelection
      case Some(n) => if n < |Hit().value.lineHits| then ListCursor.Selected(Hit().value.lineHits[n]) else ListCursor.OutOfRange
    }

    /** `l` or Enter: opens the selected hit in the editor, at the selected line's number; with no hit it panics. */
    function Edited(): (effect: Effect)
      reads this
      ensures Hit().None? ==> effect == Panic
      ensures Hit().Some? && SelectedLine().NoSelection? ==> effect == OpenVim(Hit().value.path, None)
      ensures Hit().Some? && SelectedLine().Selected? ==> effect == OpenVim(Hit().value.path, Some(SelectedLine().entry.lineNumber))
      ensures Hit().Some? && SelectedLine().OutOfRange? ==> effect == Panic
    {
      match Hit()
      case None => Panic
      case Some(hit) =>
        match SelectedLine()
        case NoSelection => OpenVim(hit.path, None)
        case Selected(line) => OpenVim(hit.path, Some(line.lineNumber))
        case OutOfRange => Panic
    }

    /** `g` and `G`: goes to the selected hit's directory, with the file itself for `G`; a path without a parent panics. */
    function Went(really: bool): (effect: Option<Effect>)
      reads this
      ensures effect.None? <==> Hit().None?
      ensures Hit().Some? && Args.Parent(Hit().value.path).Some? ==>
        effect == Some(Goto(Args.Parent(Hit().value.path).value, if really then Some(Hit().value.path) else None))
      ensures Hit().Some? && Args.Parent(Hit().value.path).None? ==> effect == Some(Panic)
    {
      match Hit()
      case None => None
      case Some(hit) =>
        match Args.Parent(hit.path)
        case None => Some(Panic)
        case Some(parent) => Some(Goto(parent, if really then Some(hit.path) else None))
    }

    /**
     * `y` and `Y`: what goes to the clipboard, and whether the thread
     * panics. A selected line copies its text; a selected path copies the
     * path, relative to the directory searched for `y`.
     */
    function Yanked(really: bool): (r: (Option<string>, bool))
      reads this
      ensures Hit().None? ==> r == (None, false)
      ensures Hit().Some? && SelectedLine().Selected? ==> r == (Some(SelectedLine().entry.line), false)
      ensures Hit().Some? && SelectedLine().OutOfRange? ==> r == (None, true)
      ensures Hit().Some? && SelectedLine().NoSelection? ==>
        var text := Finder.YankText(Hit().value.path, dir, really); r == (text, text.None?)
    {
      match Hit()
      case None => (None, false)
      case Some(hit) =>
        match SelectedLine()
        case Selected(line) => (Some(line.line), false)
        case OutOfRange => (None, true)
        case NoSelection =>
          var text := Finder.YankText(hit.path, dir, really);
          (text, text.None?)
    }

    /** `unfocus`: only the focus goes, and `Unfocus` is reported. */
    twostate predicate Defocused(new effect: Option<Effect>)
      reads this
    {
      effect == Some(Unfocus) && !focussed
      && rows == old(rows) && dir == old(dir) && phrase == old(phrase) && searched == old(searched)
      && hits == old(hits) && ViewOf() == old(ViewOf())
    }

    /** `refresh`: the last phrase searched again, or nothing at all when there is none. */
    twostate predicate Refreshed(found: seq<FileHit>, data: Data.SearcherData, maxHistoryLength: nat, new effect: Option<Effect>)
      reads this, data
    {
      if old(phrase).Some? then Searched(old(phrase).value, found, data, maxHistoryLength, effect)
      else effect.None? && unchanged(this) && unchanged(data)
    }

    /** What `perform` does for an action that moves the selection or scrolls. */
    twostate predicate ViewMoved(action: Action, new effect: Option<Effect>)
      reads this
    {
      old(Valid()) &&
      match action
      case Down => MovedDown(effect.Some?) && (effect.None? || effect == Some(Panic))
      case ReallyDown => MovedReallyDown() && effect.None?
      case ScrollDown => ScrolledDown(1, effect.Some?) && (effect.None? || effect == Some(Panic))
      case Up => MovedUp() && effect.None?
      case ReallyUp => MovedReallyUp() && effect.None?
      case ScrollUp => ScrolledUp(1) && effect.None?
      case _ => false
    }

    /** What `perform` reports for an action that changes nothing: an editor or directory to open, or the text copied. */
    twostate predicate Reported(action: Action, new effect: Option<Effect>, new copied: Option<string>)
      reads this
    {
      match action
      case Edit => effect == Some(old(Edited())) && copied.None?
      case GotoAction(really) => effect == old(Went(really)) && copied.None?
      case Yank(really) =>
        var (text, panicked) := old(Yanked(really));
        copied == text && effect == (if panicked then Some(Panic) else None)
      case _ => false
    }

    /**
     * What `perform` does for each action: the post-state of the operation
     * it dispatches to. `found` is what the file search finds for a search
     * or a refresh.
     */
    twostate predicate Performed(action: Action, found: seq<FileHit>, data: Data.SearcherData, maxHistoryLength: nat,
                                 new effect: Option<Effect>, new copied: Option<string>)
      reads this, data
    {
      match action
      case UnfocusAction => Defocused(effect) && copied.None? && unchanged(data)
      case SearchAction(query) => Searched(query, found, data, maxHistoryLength, effect) && copied.None?
      case Refresh => Refreshed(found, data, maxHistoryLength, effect) && copied.None?
      case Edit | GotoAction(_) | Yank(_) => Reported(action, effect, copied) && unchanged(this) && unchanged(data)
      case Down | ReallyDown | ScrollDown | Up | ReallyUp | ScrollUp => ViewMoved(action, effect) && copied.None? && unchanged(data)
      case Resize(_) => false
    }

    /**
     * `perform`: an action of the key map, dispatched to its operation; a
     * `Panic` effect stands for the thread panicking, and `copied` is what
     * goes to the clipboard.
     */
    method Perform(action: Action, found: seq<FileHit>, data: Data.SearcherData, maxHistoryLength: nat)
      returns (effect: Option<Effect>, copied: Option<string>)
      requires Valid() && AllHaveLines(found) && !action.Resize?
      modifies this, data
      ensures effect != Some(Panic) ==> Valid()
      ensures Performed(action, found, data, maxHistoryLength, effect, copied)
    {
      copied := None;
      effect := None;
      match action
      case UnfocusAction =>
        focussed := false;
        effect := Some(Unfocus);
      case SearchAction(query) => effect := Search(query, found, data, maxHistoryLength);
      case Down =>
        var panicked := Down();
        if panicked {
          effect := Some(Panic);
        }
      case ReallyDown => ReallyDown();
      case ScrollDown =>
        var panicked := ScrollDown(1);
        if panicked {
          effect := Some(Panic);
        }
      case Up => Up();
      case ReallyUp => ReallyUp();
      case ScrollUp => ScrollUp(1);
      case Refresh =>
        if phrase.Some? {
          effect := Search(phrase.value, found, data, maxHistoryLength);
        }
      case Edit => effect := Some(Edited());
      case GotoAction(really) => effect := Went(really);
      case Yank(really) =>
        var (text, panicked) := Yanked(really);
        copied := text;
        if panicked {
          effect := Some(Panic);
        }
    }

    /**
     * Handles an event: an action of the key map is performed, any other
     * key rings the bell and changes nothing.
     */
    method Handle(event: Event, found: seq<FileHit>, data: Data.SearcherData, maxHistoryLength: nat)
      returns (effect: Option<Effect>, copied: Option<string>)
      requires Valid() && AllHaveLines(found)
      requires !(event.Term? && event.event.Resize?)
      modifies this, data
      ensures ActionOf(event).None? ==> effect == Some(Effect.Bell) && copied.None? && unchanged(this) && unchanged(data)
      ensures ActionOf(event).Some? ==> Performed(ActionOf(event).value, found, data, maxHistoryLength, effect, copied)
      ensures effect != Some(Panic) ==> Valid()
    {
      match ActionOf(event)
      case None =>
        effect, copied := Some(Effect.Bell), None;
      case Some(action) =>
        effect, copied := Perform(action, found, data, maxHistoryLength);
    }
  }
}
