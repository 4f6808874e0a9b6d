/**
 * A fabric: a rectangle of styled text, held as rows of characters with rows
 * of text and background colours beside them, and the size it claims.
 */
module Fabrics {
  import opened Wrappers
  import opened Text
  import opened Yarns

  datatype Size = Size(rows: nat, columns: nat)

  /** The length of the longest row of a non-empty list of rows. */
  function MaxLen<T>(rows: seq<seq<T>>): (r: nat)
    requires rows != []
    ensures forall i :: 0 <= i < |rows| ==> |rows[i]| <= r
    ensures exists i :: 0 <= i < |rows| && |rows[i]| == r
  {
    if |rows| == 1 then |rows[0]|
    else
      var m := MaxLen(rows[1..]);
      assert forall i :: 1 <= i < |rows| ==> rows[i] == rows[1..][i - 1];
      if |rows[0]| >= m then |rows[0]| else m
  }

  /**
   * The size `From<Vec<Yarn>>` gives rows of these lengths: as many rows as
   * there are, as many columns as the longest has, and 0 by 0 for no rows.
   */
  function SizeOf<T>(rows: seq<seq<T>>): (r: Size)
    ensures r.rows == |rows|
    ensures forall i :: 0 <= i < |rows| ==> |rows[i]| <= r.columns
    ensures rows == [] ==> r.columns == 0
    ensures rows != [] ==> exists i :: 0 <= i < |rows| && |rows[i]| == r.columns
  {
    if rows == [] then Size(0, 0) else Size(|rows|, MaxLen(rows))
  }

  /**
   * The characters of `Fabric::center(s, size)`: blank rows, with the text
   * centred in the row `(rows - 1) / 2`, or all blank when the size has no
   * rows or no columns.
   */
  function CenterRows(s: string, size: Size): seq<seq<char>> {
    if size.rows == 0 || size.columns == 0 then Fill(Spaces(size.columns), size.rows)
    else
      var before := (size.rows - 1) / 2;
      Fill(Spaces(size.columns), before) + [CenterChars(s, size.columns)]
        + Fill(Spaces(size.columns), size.rows - 1 - before)
  }

  /**
   * With rows and columns the text sits on row `(rows - 1) / 2` (ties go
   * upwards) and every other row is blank.
   */
  lemma CenterRowsPlaces(s: string, size: Size)
    requires size.rows > 0 && size.columns > 0
    ensures |CenterRows(s, size)| == size.rows
    ensures CenterRows(s, size)[(size.rows - 1) / 2] == CenterChars(s, size.columns)
    ensures forall i :: 0 <= i < size.rows && i != (size.rows - 1) / 2 ==>
      CenterRows(s, size)[i] == Spaces(size.columns)
  {
    var before := (size.rows - 1) / 2;
    var r := CenterRows(s, size);
    var above := Fill(Spaces(size.columns), before);
    var below := Fill(Spaces(size.columns), size.rows - 1 - before);
    assert r == above + [CenterChars(s, size.columns)] + below;
    forall i | 0 <= i < size.rows && i != before
      ensures r[i] == Spaces(size.columns)
    {
      if i < before {
        assert r[i] == above[i];
      } else {
        assert r[i] == below[i - before - 1];
      }
    }
  }

  /** For ASCII text the centred fabric has exactly the size asked for. */
  lemma CenterRowsSize(s: string, size: Size)
    requires size.rows > 0 && size.columns > 0 && IsAscii(s)
    ensures SizeOf(CenterRows(s, size)) == size
  {
    CenterRowsPlaces(s, size);
    var r := CenterRows(s, size);
    assert forall i :: 0 <= i < |r| ==> |r[i]| == size.columns;
  }

  /** The worked examples of the source's tests that stack rows. */
  lemma CenterRowsExamples()
    ensures CenterRows("foo", Size(0, 0)) == []
    ensures CenterRows("foo", Size(1, 3)) == ["foo"]
    ensures CenterRows("foo", Size(3, 3)) == ["   ", "foo", "   "]
    ensures CenterRows("foo", Size(4, 3)) == ["   ", "foo", "   ", "   "]
  {
    CenterFitFoo();
    OneRow("foo", 3);
    ThreeRowsOfFoo();
    FourRowsOfFoo();
  }

  lemma ThreeRowsOfFoo()
    ensures CenterRows("foo", Size(3, 3)) == ["   ", "foo", "   "]
  {
    CenterFitFoo();
    var blank := Spaces(3);
    assert blank == "   ";
    assert Fill(blank, 1) == [blank];
    assert CenterRows("foo", Size(3, 3)) == Fill(blank, 1) + [CenterChars("foo", 3)] + Fill(blank, 1);
  }

  lemma FourRowsOfFoo()
    ensures CenterRows("foo", Size(4, 3)) == ["   ", "foo", "   ", "   "]
  {
    CenterFitFoo();
    var blank := Spaces(3);
    assert blank == "   ";
    assert Fill(blank, 1) == [blank];
    assert Fill(blank, 2) == [blank, blank];
    assert CenterRows("foo", Size(4, 3)) == Fill(blank, 1) + [CenterChars("foo", 3)] + Fill(blank, 2);
  }

  /** The worked examples of the source's tests on a single row. */
  lemma CenterRowExamples()
    ensures CenterRows("foo", Size(1, 5)) == [" foo "]
    ensures CenterRows("foo", Size(1, 6)) == [" foo  "]
    ensures CenterRows("foobar", Size(1, 5)) == ["fo..."]
  {
    CenterFitFoo();
    CenterCutExamples();
    OneRow("foo", 5);
    OneRow("foo", 6);
    OneRow("foobar", 5);
  }

  /** A single row is the text centred in it. */
  lemma OneRow(s: string, columns: nat)
    requires columns > 0
    ensures CenterRows(s, Size(1, columns)) == [CenterChars(s, columns)]
  {
    assert Fill(Spaces(columns), 0) == [];
    assert CenterRows(s, Size(1, columns)) == Fill(Spaces(columns), 0) + [CenterChars(s, columns)] + Fill(Spaces(columns), 0);
  }

  class Fabric {
    var size: Size
    var characters: seq<seq<char>>
    var colors: seq<seq<Option<Color>>>
    var backgrounds: seq<seq<Option<Color>>>

    /** The size agrees with the rows actually held. */
    predicate Valid()
      reads this
    {
      && |characters| == size.rows
      && |colors| == size.rows
      && |backgrounds| == size.rows
    }

    /** `Fabric::new(size)`: rows of spaces with no styles. */
    constructor New(size: Size)
      ensures this.size == size
      ensures characters == Fill(Spaces(size.columns), size.rows)
      ensures colors == Fill([], size.rows) && backgrounds == Fill([], size.rows)
      ensures Valid()
    {
      this.size := size;
      characters := Fill(Spaces(size.columns), size.rows);
      colors := Fill([], size.rows);
      backgrounds := Fill([], size.rows);
    }

    /** `From<Vec<Yarn>>`: one row per yarn, sized by `SizeOf`. */
    constructor FromYarns(rows: seq<Yarn>)
      ensures |characters| == |colors| == |backgrounds| == |rows|
      ensures forall i :: 0 <= i < |rows| ==>
        && characters[i] == rows[i].characters
        && colors[i] == rows[i].colors
        && backgrounds[i] == rows[i].backgrounds
      ensures size == SizeOf(characters)
      ensures Valid()
    {
      var cs: seq<seq<char>> := [];
      var fs: seq<seq<Option<Color>>> := [];
      var bs: seq<seq<Option<Color>>> := [];
      for i := 0 to |rows|
        invariant |cs| == |fs| == |bs| == i
        invariant forall j :: 0 <= j < i ==>
          && cs[j] == rows[j].characters
          && fs[j] == rows[j].colors
          && bs[j] == rows[j].backgrounds
      {
        cs := cs + [rows[i].characters];
        fs := fs + [rows[i].colors];
        bs := bs + [rows[i].backgrounds];
      }
      size := SizeOf(cs);
      characters := cs;
      colors := fs;
      backgrounds := bs;
    }

    /** `From<Yarn>`: a single row as wide as the yarn. */
    constructor FromYarn(row: Yarn)
      ensures size == Size(1, |row.characters|)
      ensures characters == [row.characters] && colors == [row.colors] && backgrounds == [row.backgrounds]
      ensures Valid()
    {
      size := Size(1, |row.characters|);
      characters := [row.characters];
      colors := [row.colors];
      backgrounds := [row.backgrounds];
    }

    /**
     * `Fabric::center(s, size)`: the text centred both ways; a size with no
     * rows or no columns gives `Fabric::new(size)`.
     */
    constructor Center(s: string, size: Size)
      ensures characters == CenterRows(s, size)
      ensures colors == Fill([], size.rows) && backgrounds == Fill([], size.rows)
      ensures this.size == if size.rows == 0 || size.columns == 0 then size else SizeOf(CenterRows(s, size))
      ensures Valid()
    {
      var rows := CenterRows(s, size);
      if size.rows > 0 && size.columns > 0 {
        CenterRowsPlaces(s, size);
      }
      this.size := if size.rows == 0 || size.columns == 0 then size else SizeOf(rows);
      characters := rows;
      colors := Fill([], size.rows);
      backgrounds := Fill([], size.rows);
    }

    /**
     * The rows `pad(n)` leaves: blank, unstyled rows above (half the
     * difference, rounded down) and below the old rows, `n` in all.
     */
    twostate predicate PaddedRows(newRows: nat)
      requires newRows >= old(size.rows)
      reads this
    {
      var top := (newRows - old(size.rows)) / 2;
      var bottom := newRows - old(size.rows) - top;
      var columns := old(size.columns);
      && characters == Fill(Spaces(columns), top) + old(characters) + Fill(Spaces(columns), bottom)
      && colors == Fill(Fill(None, columns), top) + old(colors) + Fill(Fill(None, columns), bottom)
      && backgrounds == Fill(Fill(None, columns), top) + old(backgrounds) + Fill(Fill(None, columns), bottom)
    }

    /**
     * `pad(n)`, as the source writes it: blank rows are added above (half,
     * rounded down) and below to reach `n` rows, but `size` is left as it
     * was. A smaller `n` panics, reported as `false` with nothing changed.
     */
    method Pad(newRows: nat) returns (ok: bool)
      modifies this
      ensures ok <==> newRows >= old(size.rows)
      ensures size == old(size)
      ensures !ok || newRows == old(size.rows) ==>
        characters == old(characters) && colors == old(colors) && backgrounds == old(backgrounds)
      ensures ok && newRows > old(size.rows) ==>
        var top := (newRows - old(size.rows)) / 2;
        var bottom := newRows - old(size.rows) - top;
        && characters == Fill(Spaces(size.columns), top) + old(characters) + Fill(Spaces(size.columns), bottom)
        && colors == Fill(Fill(None, size.columns), top) + old(colors) + Fill(Fill(None, size.columns), bottom)
        && backgrounds == Fill(Fill(None, size.columns), top) + old(backgrounds) + Fill(Fill(None, size.columns), bottom)
    ensures ok ==> PaddedRows(newRows)
    {
      if newRows > size.rows {
        var difference := newRows - size.rows;
        var top := difference / 2;
        var bottom := difference - top;
        characters := Fill(Spaces(size.columns), top) + characters + Fill(Spaces(size.columns), bottom);
        colors := Fill(Fill(None, size.columns), top) + colors + Fill(Fill(None, size.columns), bottom);
        backgrounds := Fill(Fill(None, size.columns), top) + backgrounds + Fill(Fill(None, size.columns), bottom);
        return true;
      }
      return newRows == size.rows;
    }

    /**
     * `pad` with the size brought up to date, as its documentation promises:
     * the padded fabric holds and claims `n` rows.
     */
    method PadIntended(newRows: nat) returns (ok: bool)
      requires Valid()
      modifies this
      ensures ok <==> newRows >= old(size.rows)
      ensures Valid()
      ensures ok ==> size == Size(newRows, old(size.columns)) && |characters| == newRows && PaddedRows(newRows)
      ensures !ok ==>
        && size == old(size) && characters == old(characters)
        && colors == old(colors) && backgrounds == old(backgrounds)
    {
      var columns := size.columns;
      ok := Pad(newRows);
      if ok {
        size := Size(newRows, columns);
      }
    }

    /**
     * `pad_bottom(n)`: blank, unstyled rows are added below to reach `n`
     * rows, and the size says so. A smaller `n` panics, reported as `false`
     * with nothing changed.
     */
    method PadBottom(newRows: nat) returns (ok: bool)
      modifies this
      ensures ok <==> newRows >= old(size.rows)
      ensures !ok ==>
        && size == old(size) && characters == old(characters)
        && colors == old(colors) && backgrounds == old(backgrounds)
      ensures ok ==>
        var extra := newRows - old(size.rows);
        && size == Size(newRows, old(size.columns))
        && characters == old(characters) + Fill(Spaces(old(size.columns)), extra)
        && colors == old(colors) + Fill([], extra)
        && backgrounds == old(backgrounds) + Fill([], extra)
      ensures old(Valid()) ==> Valid()
    {
      if newRows > size.rows {
        var difference := newRows - size.rows;
        var columns := size.columns;
        size := Size(newRows, columns);
        characters := characters + Fill(Spaces(columns), difference);
        colors := colors + Fill([], difference);
        backgrounds := backgrounds + Fill([], difference);
        return true;
      } else if newRows < size.rows {
        return false;
      }
      assert characters == characters + Fill(Spaces(size.columns), 0);
      assert colors == colors + Fill([], 0) && backgrounds == backgrounds + Fill([], 0);
      return true;
    }

    /**
     * `quilt_bottom(other)`: the other fabric's rows follow this one's. The
     * rows are taken together, so only as many as the shortest of the other
     * fabric's three row vectors are moved; the row count adds up.
     */
    method QuiltBottom(other: Fabric)
      modifies this
      ensures var n := Min(Min(|old(other.characters)|, |old(other.colors)|), |old(other.backgrounds)|);
        && characters == old(characters) + old(other.characters)[..n]
        && colors == old(colors) + old(other.colors)[..n]
        && backgrounds == old(backgrounds) + old(other.backgrounds)[..n]
      ensures size == Size(old(size.rows) + old(other.size.rows), old(size.columns))
      ensures old(Valid()) && old(other.Valid()) ==> Valid()
    {
      var rows, rowColors, rowBackgrounds := other.characters, other.colors, other.backgrounds;
      var otherRows := other.size.rows;
      var n := Min(Min(|rows|, |rowColors|), |rowBackgrounds|);
      for i := 0 to n
        invariant characters == old(characters) + rows[..i]
        invariant colors == old(colors) + rowColors[..i]
        invariant backgrounds == old(backgrounds) + rowBackgrounds[..i]
        invariant size == old(size)
      {
        assert rows[..i + 1] == rows[..i] + [rows[i]];
        assert rowColors[..i + 1] == rowColors[..i] + [rowColors[i]];
        assert rowBackgrounds[..i + 1] == rowBackgrounds[..i] + [rowBackgrounds[i]];
        characters := characters + [rows[i]];
        colors := colors + [rowColors[i]];
        backgrounds := backgrounds + [rowBackgrounds[i]];
      }
      size := Size(size.rows + otherRows, size.columns);
    }
  }

  /** After `pad`, a 1-by-1 fabric padded to 3 rows holds 3 rows but still claims 1. */
  method PadLeavesSizeStale() returns (heldRows: nat, claimedRows: nat)
    ensures heldRows == 3 && claimedRows == 1
  {
    var f := new Fabric.New(Size(1, 1));
    var ok := f.Pad(3);
    heldRows, claimedRows := |f.characters|, f.size.rows;
  }

  /** The worked example of the source's `pad_bottom` test: 1 by 1 padded to 2 rows is `new` of 2 by 1. */
  method PadBottomExample() returns (f: Fabric)
    ensures f.size == Size(2, 1)
    ensures f.characters == Fill(Spaces(1), 2)
    ensures f.colors == Fill([], 2) && f.backgrounds == Fill([], 2)
  {
    f := new Fabric.New(Size(1, 1));
    var ok := f.PadBottom(2);
    assert Fill(Spaces(1), 1) + Fill(Spaces(1), 1) == Fill(Spaces(1), 2);
    var unstyled: seq<Option<Color>> := [];
    assert Fill(unstyled, 1) + Fill(unstyled, 1) == Fill(unstyled, 2);
  }

  /** The worked example of the source's `quilt_bottom` test: 2 by 3 above 1 by 3 is `new` of 3 by 3. */
  method QuiltBottomExample() returns (f: Fabric)
    ensures f.size == Size(3, 3)
    ensures f.characters == Fill(Spaces(3), 3)
    ensures f.colors == Fill([], 3) && f.backgrounds == Fill([], 3)
  {
    f := new Fabric.New(Size(2, 3));
    var g := new Fabric.New(Size(1, 3));
    f.QuiltBottom(g);
    assert Fill(Spaces(3), 2) + Fill(Spaces(3), 1)[..1] == Fill(Spaces(3), 3);
    var unstyled: seq<Option<Color>> := [];
    assert Fill(unstyled, 2) + Fill(unstyled, 1)[..1] == Fill(unstyled, 3);
  }
}
