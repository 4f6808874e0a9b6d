/**
 * A yarn: one line of styled text, a vector of characters with a vector of
 * text colours and a vector of background colours beside it. The style
 * vectors may be shorter than the characters; a missing entry means no style.
 */
module Yarns {
  import opened Wrappers
  import opened Text

  /** A terminal colour; the model only needs colours to be told apart. */
  datatype Color = Color(code: nat)

  function Min(a: nat, b: nat): nat {
    if a <= b then a else b
  }

  /** `vec![x; n]`. */
  function Fill<T>(x: T, n: nat): (r: seq<T>)
    ensures |r| == n
    ensures forall i :: 0 <= i < n ==> r[i] == x
  {
    seq(n, _ => x)
  }

  /** Overwriting the entry after a filled prefix extends the prefix by one. */
  lemma FillOneMore<T>(x: T, i: nat, s: seq<T>)
    requires i < |s|
    ensures (Fill(x, i) + s[i..])[i := x] == Fill(x, i + 1) + s[i + 1..]
  {
    var a := (Fill(x, i) + s[i..])[i := x];
    var b := Fill(x, i + 1) + s[i + 1..];
    assert |a| == |b|;
    forall k | 0 <= k < |a|
      ensures a[k] == b[k]
    {
      if k > i {
        assert a[k] == s[k] == b[k];
      }
    }
  }

  /** `Vec::resize(n, fill)`: cut to `n` entries, or extend with `fill` up to `n`. */
  function Resized<T>(s: seq<T>, n: nat, fill: T): (r: seq<T>)
    ensures |r| == n
    ensures forall i :: 0 <= i < n ==> r[i] == if i < |s| then s[i] else fill
  {
    if n <= |s| then s[..n] else s + Fill(fill, n - |s|)
  }

  /** `Vec::truncate(n)`: keep at most the first `n` entries. */
  function Truncated<T>(s: seq<T>, n: nat): (r: seq<T>)
    ensures |r| == Min(|s|, n) && r <= s
  {
    if |s| <= n then s else s[..n]
  }

  /** `s` with the entries at indices `lo <= k < hi` replaced by `x`. */
  function SetRange<T>(s: seq<T>, lo: nat, hi: nat, x: T): (r: seq<T>)
    ensures |r| == |s|
    ensures forall k :: 0 <= k < |s| ==> r[k] == if lo <= k < hi then x else s[k]
  {
    seq(|s|, k requires 0 <= k < |s| => if lo <= k < hi then x else s[k])
  }

  /**
   * The characters of `Yarn::center(s, len)`: `s` centred in `len` columns,
   * the smaller half of the padding before it; a string longer than `len`
   * (in bytes, as `str::len` counts) is cut and ends in dots.
   */
  function CenterChars(s: string, len: nat): (r: seq<char>)
    ensures len == 0 ==> r == []
    ensures IsAscii(s) ==> |r| == len
  {
    if len == 0 then []
    else if ByteLen(s) > len then
      if len <= 3 then Fill('.', len)
      else s[..Min(|s|, len - 3)] + "..."
    else if ByteLen(s) < len then
      var before := (len - ByteLen(s)) / 2;
      Spaces(before) + s + Spaces(len - ByteLen(s) - before)
    else s
  }

  /**
   * Where the text fits it sits between two runs of spaces: the
   * `(len - len(s)) / 2` before it, and as many or one more after it.
   */
  lemma CenterFits(s: string, len: nat)
    requires 0 < len && ByteLen(s) <= len
    ensures CenterChars(s, len)
      == Spaces((len - ByteLen(s)) / 2) + s + Spaces(len - ByteLen(s) - (len - ByteLen(s)) / 2)
    ensures len - ByteLen(s) - (len - ByteLen(s)) / 2 - (len - ByteLen(s)) / 2 in {0, 1}
  {
    HalfSplit(len - ByteLen(s));
    if ByteLen(s) == len {
      CenterFitsExactly(s, len);
    } else {
      CenterFitsPadded(s, len);
    }
  }

  lemma CenterFitsPadded(s: string, len: nat)
    requires 0 < len && ByteLen(s) < len
    ensures CenterChars(s, len)
      == Spaces((len - ByteLen(s)) / 2) + s + Spaces(len - ByteLen(s) - (len - ByteLen(s)) / 2)
  {
  }

  lemma CenterFitsExactly(s: string, len: nat)
    requires 0 < len && ByteLen(s) == len
    ensures CenterChars(s, len) == Spaces(0) + s + Spaces(0)
  {
    assert Spaces(0) == [];
    assert Spaces(0) + s + Spaces(0) == s;
  }

  lemma HalfSplit(d: nat)
    ensures d - d / 2 == d / 2 || d - d / 2 == d / 2 + 1
  {
  }

  lemma SpacesAround(s: string, a: nat, b: nat)
    ensures var r := Spaces(a) + s + Spaces(b);
      && |r| == a + |s| + b
      && r[..a] == Spaces(a)
      && r[a..a + |s|] == s
      && forall k :: a + |s| <= k < |r| ==> r[k] == ' '
  {
    var r := Spaces(a) + s + Spaces(b);
    assert r[..a] == Spaces(a);
    assert r[a..a + |s|] == s;
    forall k | a + |s| <= k < |r|
      ensures r[k] == ' '
    {
      assert r[k] == Spaces(b)[k - a - |s|];
    }
  }

  /**
   * Where the text does not fit it is cut to `len - 3` characters followed
   * by three dots, or is `len` dots when `len` is at most 3.
   */
  lemma CenterCuts(s: string, len: nat)
    requires 0 < len < ByteLen(s)
    ensures len <= 3 ==> CenterChars(s, len) == Fill('.', len)
    ensures len > 3 ==>
      && s[..Min(|s|, len - 3)] <= CenterChars(s, len)
      && CenterChars(s, len)[Min(|s|, len - 3)..] == "..."
      && (IsAscii(s) ==> |CenterChars(s, len)| == len)
  {
    if len > 3 {
      var cut := s[..Min(|s|, len - 3)];
      assert CenterChars(s, len) == cut + "...";
      assert (cut + "...")[|cut|..] == "...";
    }
  }

  /** The worked examples of the source's tests in which the text fits. */
  lemma CenterFitExamples()
    ensures CenterChars("", 0) == []
    ensures CenterChars("", 3) == "   "
    ensures CenterChars("foo", 3) == "foo"
    ensures CenterChars("foo", 5) == " foo "
    ensures CenterChars("foo", 6) == " foo  "
  {
    CenterFitEmpty();
    CenterFitFoo();
  }

  lemma CenterFitEmpty()
    ensures CenterChars("", 0) == []
    ensures CenterChars("", 3) == "   "
  {
    assert ByteLen("") == 0;
    assert Spaces(1) == " " && Spaces(2) == "  ";
    assert CenterChars("", 3) == Spaces(1) + "" + Spaces(2);
  }

  lemma CenterFitFoo()
    ensures CenterChars("foo", 3) == "foo"
    ensures CenterChars("foo", 5) == " foo "
    ensures CenterChars("foo", 6) == " foo  "
  {
    assert IsAscii("foo");
    assert CenterChars("foo", 3) == "foo" by {
      assert Spaces(0) == "";
    }
    assert CenterChars("foo", 5) == " foo " by {
      assert Spaces(1) == " ";
      assert CenterChars("foo", 5) == Spaces(1) + "foo" + Spaces(1);
    }
    assert CenterChars("foo", 6) == " foo  " by {
      assert Spaces(1) == " " && Spaces(2) == "  ";
      assert CenterChars("foo", 6) == Spaces(1) + "foo" + Spaces(2);
    }
  }

  /** The worked examples of the source's tests in which the text is cut. */
  lemma CenterCutExamples()
    ensures CenterChars("foobar", 5) == "fo..."
    ensures CenterChars("foobar", 2) == ".."
  {
    assert IsAscii("foobar");
    assert CenterChars("foobar", 5) == "foobar"[..2] + "...";
    assert "foobar"[..2] == "fo";
    assert Fill('.', 2) == "..";
  }

  /** The text colours after `concat`: padded with `None` to the old length when the other yarn has any. */
  function ConcatStyle(mine: seq<Option<Color>>, lenBefore: nat, theirs: seq<Option<Color>>): (r: seq<Option<Color>>)
    ensures theirs == [] ==> r == mine
    ensures theirs != [] ==>
      && |r| == lenBefore + |theirs|
      && r[lenBefore..] == theirs
      && forall k :: 0 <= k < lenBefore ==> r[k] == if k < |mine| then mine[k] else None
  {
    if theirs == [] then mine else Resized(mine, lenBefore, None) + theirs
  }

  /** The worked example of the source's test: a coloured space after an unstyled one. */
  lemma ConcatExample(black: Color)
    ensures ConcatStyle([], 1, [Some(black)]) == [None, Some(black)]
  {
    var none: Option<Color> := None;
    assert Resized([], 1, none) == [None];
  }

  /**
   * The text colours `color_after(c, p)` leaves, as the source writes it:
   * with colours shorter than the characters, the loop colours `p..` of the
   * existing entries and the resize then colours every added entry, those
   * before `p` included.
   */
  function ColorAfterAsWritten(colors: seq<Option<Color>>, numChars: nat, c: Color, p: nat): (r: seq<Option<Color>>)
    ensures |colors| < numChars ==> |r| == numChars
    ensures |colors| >= numChars ==> |r| == |colors|
    ensures forall k :: p <= k < numChars && k < |r| ==> r[k] == Some(c)
  {
    if |colors| < numChars then Resized(SetRange(colors, p, |colors|, Some(c)), numChars, Some(c))
    else SetRange(colors, p, numChars, Some(c))
  }

  /**
   * `color_after(c, p)` as documented: the characters from `p` on get colour
   * `c`; entries before `p` keep their colour, and those the colours did not
   * reach stay unstyled.
   */
  function ColorAfterIntended(colors: seq<Option<Color>>, numChars: nat, c: Color, p: nat): (r: seq<Option<Color>>)
    ensures |r| == if |colors| < numChars then numChars else |colors|
    ensures forall k :: 0 <= k < |r| ==>
      r[k] == if p <= k < numChars then Some(c) else if k < |colors| then colors[k] else None
  {
    var n := if |colors| < numChars then numChars else |colors|;
    SetRange(Resized(colors, n, None), p, numChars, Some(c))
  }

  /**
   * A yarn of five characters with no colours, coloured from position 3 on,
   * has its first character coloured too.
   */
  lemma ColorAfterColorsBeforePosition(c: Color)
    ensures ColorAfterAsWritten([], 5, c, 3)[0] == Some(c)
    ensures ColorAfterIntended([], 5, c, 3)[0] == None
  {
  }

  /** When the colours already cover every character the two agree. */
  lemma ColorAfterAgreesWhenCovered(colors: seq<Option<Color>>, numChars: nat, c: Color, p: nat)
    requires |colors| >= numChars || p <= |colors|
    ensures ColorAfterAsWritten(colors, numChars, c, p) == ColorAfterIntended(colors, numChars, c, p)
  {
    var a := ColorAfterAsWritten(colors, numChars, c, p);
    var b := ColorAfterIntended(colors, numChars, c, p);
    assert |a| == |b|;
    forall k | 0 <= k < |a|
      ensures a[k] == b[k]
    {
      if |colors| < numChars && k >= |colors| {
        assert a[k] == Some(c);
      }
    }
  }

  class Yarn {
    var characters: seq<char>
    var colors: seq<Option<Color>>
    var backgrounds: seq<Option<Color>>

    /** `Yarn::blank(len)`: `len` unstyled spaces. */
    constructor Blank(len: nat)
      ensures characters == Spaces(len) && colors == [] && backgrounds == []
    {
      characters := Spaces(len);
      colors := [];
      backgrounds := [];
    }

    /** `From<&str>`, `From<String>` and `From<Vec<char>>`: unstyled characters. */
    constructor FromChars(s: seq<char>)
      ensures characters == s && colors == [] && backgrounds == []
    {
      characters := s;
      colors := [];
      backgrounds := [];
    }

    /** `Yarn::center(s, len)`. */
    constructor Center(s: string, len: nat)
      ensures characters == CenterChars(s, len) && colors == [] && backgrounds == []
    {
      characters := CenterChars(s, len);
      colors := [];
      backgrounds := [];
    }

    function Len(): nat
      reads this
    {
      |characters|
    }

    /**
     * `concat`: the other yarn's characters follow this one's; each style
     * vector is padded with `None` to the old length first when the other
     * yarn has entries in it.
     */
    method Concat(other: Yarn)
      modifies this
      ensures characters == old(characters) + old(other.characters)
      ensures |characters| == old(|characters|) + old(|other.characters|)
      ensures colors == ConcatStyle(old(colors), old(|characters|), old(other.colors))
      ensures backgrounds == ConcatStyle(old(backgrounds), old(|characters|), old(other.backgrounds))
    {
      var lenBefore := |characters|;
      var theirChars, theirColors, theirBackgrounds := other.characters, other.colors, other.backgrounds;
      characters := characters + theirChars;
      if theirColors != [] {
        colors := Resized(colors, lenBefore, None) + theirColors;
      }
      if theirBackgrounds != [] {
        backgrounds := Resized(backgrounds, lenBefore, None) + theirBackgrounds;
      }
    }

    /** `truncate(n)`: every vector keeps at most its first `n` entries. */
    method Truncate(newLen: nat)
      modifies this
      ensures characters == Truncated(old(characters), newLen)
      ensures colors == Truncated(old(colors), newLen)
      ensures backgrounds == Truncated(old(backgrounds), newLen)
      ensures |characters| <= newLen && |colors| <= newLen && |backgrounds| <= newLen
    {
      characters := Truncated(characters, newLen);
      colors := Truncated(colors, newLen);
      backgrounds := Truncated(backgrounds, newLen);
    }

    /**
     * `resize(n)`: the yarn has exactly `n` characters; shrinking truncates
     * every vector, growing appends spaces and leaves the styles alone.
     */
    method Resize(newLen: nat)
      modifies this
      ensures |characters| == newLen
      ensures old(|characters|) > newLen ==>
        && characters == old(characters)[..newLen]
        && colors == Truncated(old(colors), newLen)
        && backgrounds == Truncated(old(backgrounds), newLen)
      ensures old(|characters|) <= newLen ==>
        && characters == old(characters) + Spaces(newLen - old(|characters|))
        && colors == old(colors) && backgrounds == old(backgrounds)
    {
      var len := |characters|;
      if len > newLen {
        Truncate(newLen);
      } else if len < newLen {
        characters := characters + Spaces(newLen - len);
      } else {
        assert characters == characters + Spaces(0);
      }
    }

    /**
     * `pad(n)`: centre the yarn in `n` characters, the smaller half of the
     * padding on the left; the style vectors only get `None` entries on the
     * left. A smaller `n` panics, reported as `false` with nothing changed.
     */
    method Pad(newLen: nat) returns (ok: bool)
      modifies this
      ensures ok <==> newLen >= old(|characters|)
      ensures !ok ==> characters == old(characters) && colors == old(colors) && backgrounds == old(backgrounds)
      ensures ok ==>
        var left := (newLen - old(|characters|)) / 2;
        && characters == Spaces(left) + old(characters) + Spaces(newLen - old(|characters|) - left)
        && colors == Fill(None, left) + old(colors)
        && backgrounds == Fill(None, left) + old(backgrounds)
      ensures ok ==> |characters| == newLen
    {
      var len := |characters|;
      if newLen > len {
        var difference := newLen - len;
        var leftPad := difference / 2;
        var rightPad := difference - leftPad;
        characters := Spaces(leftPad) + characters + Spaces(rightPad);
        colors := Fill(None, leftPad) + colors;
        backgrounds := Fill(None, leftPad) + backgrounds;
        return true;
      } else if newLen < len {
        return false;
      }
      assert characters == Spaces(0) + characters + Spaces(0);
      assert colors == Fill(None, 0) + colors && backgrounds == Fill(None, 0) + backgrounds;
      return true;
    }

    /** `color(c)`: every character gets text colour `c`. */
    method SetColor(c: Color)
      modifies this
      ensures colors == Fill(Some(c), |characters|)
      ensures characters == old(characters) && backgrounds == old(backgrounds)
    {
      colors := Fill(Some(c), |characters|);
    }

    /** `background(c)`: every character gets background colour `c`. */
    method SetBackground(c: Color)
      modifies this
      ensures backgrounds == Fill(Some(c), |characters|)
      ensures characters == old(characters) && colors == old(colors)
    {
      backgrounds := Fill(Some(c), |characters|);
    }

    /**
     * `color_before(c, p)`: the first `p` colour entries become `c` and the
     * rest are kept; colours shorter than `p` become exactly `p` copies of `c`.
     */
    method ColorBefore(c: Color, position: nat)
      modifies this
      ensures colors == Fill(Some(c), position) + old(colors)[Min(position, |old(colors)|)..]
      ensures old(|colors|) < position ==> colors == Fill(Some(c), position)
      ensures characters == old(characters) && backgrounds == old(backgrounds)
    {
      if |colors| < position {
        colors := Fill(Some(c), position);
        assert old(colors)[|old(colors)|..] == [];
      } else {
        var index := 0;
        while index < position
          invariant 0 <= index <= position <= |colors|
          invariant colors == Fill(Some(c), index) + old(colors)[index..]
          invariant characters == old(characters) && backgrounds == old(backgrounds)
        {
          FillOneMore(Some(c), index, old(colors));
          colors := colors[index := Some(c)];
          index := index + 1;
        }
      }
    }

    /** `color_after(c, p)`, as the source writes it. */
    method ColorAfter(c: Color, position: nat)
      modifies this
      ensures colors == ColorAfterAsWritten(old(colors), |characters|, c, position)
      ensures characters == old(characters) && backgrounds == old(backgrounds)
    {
      var numChars := |characters|;
      if |colors| < numChars {
        var index := position;
        while index < |colors|
          invariant position <= index || |colors| <= index
          invariant |colors| == |old(colors)|
          invariant characters == old(characters) && backgrounds == old(backgrounds)
          invariant colors == SetRange(old(colors), position, index, Some(c))
        {
          colors := colors[index := Some(c)];
          index := index + 1;
        }
        assert colors == SetRange(old(colors), position, |old(colors)|, Some(c));
        colors := Resized(colors, numChars, Some(c));
      } else {
        var index := position;
        while index < numChars
          invariant position <= index || numChars <= index
          invariant |colors| == |old(colors)|
          invariant characters == old(characters) && backgrounds == old(backgrounds)
          invariant colors == SetRange(old(colors), position, if index < numChars then index else numChars, Some(c))
        {
          colors := colors[index := Some(c)];
          index := index + 1;
        }
      }
    }

    /**
     * `color_after(c, p)` as documented: the characters from `p` on get
     * colour `c`, and nothing before `p` changes colour.
     */
    method ColorAfterCorrected(c: Color, position: nat)
      modifies this
      ensures colors == ColorAfterIntended(old(colors), |characters|, c, position)
      ensures characters == old(characters) && backgrounds == old(backgrounds)
    {
      var numChars := |characters|;
      var n := if |colors| < numChars then numChars else |colors|;
      colors := Resized(colors, n, None);
      var index := position;
      while index < numChars
        invariant position <= index || numChars <= index
        invariant |colors| == n
        invariant characters == old(characters) && backgrounds == old(backgrounds)
        invariant colors == SetRange(Resized(old(colors), n, None), position, if index < numChars then index else numChars, Some(c))
      {
        colors := colors[index := Some(c)];
        index := index + 1;
      }
    }
  }
}
