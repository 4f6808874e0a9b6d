/**
 * Padding strings to a width with a pad string, left-, centre- or
 * right-aligned, and the builders for the padding options. Widths are
 * compared with a string's UTF-8 byte length, as the source's `len()` does.
 */
module Pad {
  import opened Wrappers
  import opened Text

  datatype Align = Left | Center | Right

  /** The options of `Pad::pad`. */
  datatype PadOptions = PadOptions(width: nat, align: Align, padChar: string)

  /**
   * The options of a one-sided padding. The source declares three structs of
   * this shape (`PadLeftOptions`, `PadCenterOptions`, `PadRightOptions`).
   */
  datatype SideOptions = SideOptions(width: nat, padChar: string)

  /** Builder failure: the source panics with "Width not set." */
  datatype BuildError = WidthNotSet

  datatype PadOptionsBuilder = PadOptionsBuilder(width: Option<nat>, align: Align, padChar: string)
  {
    function Width(w: nat): PadOptionsBuilder { this.(width := Some(w)) }
    function WithAlign(a: Align): PadOptionsBuilder { this.(align := a) }
    function PadChar(p: string): PadOptionsBuilder { this.(padChar := p) }

    function Build(): (r: Result<PadOptions, BuildError>)
      ensures r.Err? <==> width.None?
      ensures r.Ok? ==> r.value.width == width.value && r.value.align == align && r.value.padChar == padChar
    {
      if width.None? then Err(WidthNotSet) else Ok(PadOptions(width.value, align, padChar))
    }
  }

  datatype SideOptionsBuilder = SideOptionsBuilder(width: Option<nat>, padChar: string)
  {
    function Width(w: nat): SideOptionsBuilder { this.(width := Some(w)) }
    function PadChar(p: string): SideOptionsBuilder { this.(padChar := p) }

    function Build(): (r: Result<SideOptions, BuildError>)
      ensures r.Err? <==> width.None?
      ensures r.Ok? ==> r.value.width == width.value && r.value.padChar == padChar
    {
      if width.None? then Err(WidthNotSet) else Ok(SideOptions(width.value, padChar))
    }
  }

  /** A fresh builder: no width, left alignment, a space as the pad string. */
  function NewPadOptionsBuilder(): PadOptionsBuilder {
    PadOptionsBuilder(None, Left, " ")
  }

  /** A fresh one-sided builder: no width, a space as the pad string. */
  function NewSideOptionsBuilder(): SideOptionsBuilder {
    SideOptionsBuilder(None, " ")
  }

  /**
   * The one-sided options `PadOptions` hands to `pad_left`, `pad_center` and
   * `pad_right`: its width, and its pad string when that is not a space.
   */
  function SideOptionsOf(o: PadOptions): (r: SideOptions)
    ensures r.width == o.width && r.padChar == o.padChar
  {
    var b := NewSideOptionsBuilder().Width(o.width);
    var b' := if o.padChar != " " then b.PadChar(o.padChar) else b;
    b'.Build().value
  }

  /** How many pad strings are needed to bring `s` to `width`: `width.saturating_sub(len)`. */
  function PadCount(width: nat, s: string): nat {
    if width > ByteLen(s) then width - ByteLen(s) else 0
  }

  function Max(a: nat, b: nat): nat {
    if a >= b then a else b
  }

  /** `s` followed by the padding. */
  function PadLeft(s: string, o: SideOptions): (r: string)
    ensures s <= r && CopiesOf(r[|s|..], o.padChar, PadCount(o.width, s))
    ensures ByteLen(s) >= o.width ==> r == s
    ensures ByteLen(o.padChar) == 1 ==> ByteLen(r) == Max(o.width, ByteLen(s))
  {
    var pads := Repeat(o.padChar, PadCount(o.width, s));
    RepeatUnitByteLen(o.padChar, PadCount(o.width, s));
    RepeatCopies(o.padChar, PadCount(o.width, s));
    ByteLenConcat(s, pads);
    assert (s + pads)[|s|..] == pads;
    s + pads
  }

  /** `n` pad strings split around `s`, the smaller half (`n / 2`) on the left. */
  function Centered(s: string, p: string, n: nat): string {
    Repeat(p, n / 2) + s + Repeat(p, n - n / 2)
  }

  /** The padding split around `s`, the smaller half (`pad_len / 2`) on the left. */
  function PadCenter(s: string, o: SideOptions): (r: string)
    ensures ByteLen(s) >= o.width ==> r == s
    ensures ByteLen(o.padChar) == 1 ==> ByteLen(r) == Max(o.width, ByteLen(s))
    ensures |o.padChar| == 1 ==>
      var k := PadCount(o.width, s) / 2;
      && k + |s| <= |r| && r[k..k + |s|] == s
      && (|r| - (k + |s|) == k || |r| - (k + |s|) == k + 1)
    ensures var n := PadCount(o.width, s); Around(r, o.padChar, n / 2, s, n - n / 2)
  {
    var n := PadCount(o.width, s);
    CenteredByteLen(s, o.padChar, n);
    CenteredUnit(s, o.padChar, n);
    CenteredAround(s, o.padChar, n);
    Centered(s, o.padChar, n)
  }

  lemma CenteredByteLen(s: string, p: string, n: nat)
    ensures ByteLen(p) == 1 ==> ByteLen(Centered(s, p, n)) == n + ByteLen(s)
  {
    if ByteLen(p) == 1 {
      var left, right := Repeat(p, n / 2), Repeat(p, n - n / 2);
      RepeatUnitByteLen(p, n / 2);
      RepeatUnitByteLen(p, n - n / 2);
      ByteLenConcat(left, s);
      ByteLenConcat(left + s, right);
      assert ByteLen(left + s + right) == n / 2 + ByteLen(s) + (n - n / 2);
    }
  }

  lemma CenteredUnit(s: string, p: string, n: nat)
    ensures |p| == 1 ==>
      var r := Centered(s, p, n);
      |r| == n + |s| && r[n / 2..n / 2 + |s|] == s
  {
    var left, right := Repeat(p, n / 2), Repeat(p, n - n / 2);
    RepeatUnitLen(p, n / 2);
    RepeatUnitLen(p, n - n / 2);
    assert (left + s + right)[|left|..|left| + |s|] == s;
  }

  lemma CenteredAround(s: string, p: string, n: nat)
    ensures Around(Centered(s, p, n), p, n / 2, s, n - n / 2)
  {
    PadCenterCopies(s, p, n / 2, n - n / 2);
  }

  lemma PadCenterParts(s: string, p: string, a: nat, b: nat)
    ensures (Repeat(p, a) + s + Repeat(p, b))[|Repeat(p, a)|..|Repeat(p, a)| + |s|] == s
    ensures ByteLen(Repeat(p, a) + s + Repeat(p, b))
      == ByteLen(Repeat(p, a)) + ByteLen(s) + ByteLen(Repeat(p, b))
    ensures ByteLen(p) == 1 ==> ByteLen(Repeat(p, a)) == a && ByteLen(Repeat(p, b)) == b
    ensures |p| == 1 ==> |Repeat(p, a)| == a && |Repeat(p, b)| == b
  {
    var left := Repeat(p, a);
    var right := Repeat(p, b);
    ByteLenConcat(left, s);
    ByteLenConcat(left + s, right);
    assert (left + s + right)[|left|..|left| + |s|] == s;
    RepeatUnitByteLen(p, a);
    RepeatUnitByteLen(p, b);
    RepeatUnitLen(p, a);
    RepeatUnitLen(p, b);
  }

  /** `r` is `a` copies of `p`, then `s`, then `b` copies of `p`. */
  predicate Around(r: string, p: string, a: nat, s: string, b: nat) {
    var m := a * |p|;
    && m + |s| <= |r| && CopiesOf(r[..m], p, a) && r[m..m + |s|] == s && CopiesOf(r[m + |s|..], p, b)
  }

  lemma PadCenterCopies(s: string, p: string, a: nat, b: nat)
    ensures Around(Repeat(p, a) + s + Repeat(p, b), p, a, s, b)
  {
    var left := Repeat(p, a);
    var right := Repeat(p, b);
    RepeatCopies(p, a);
    RepeatCopies(p, b);
    assert (left + s + right)[..|left|] == left;
    assert (left + s + right)[|left|..|left| + |s|] == s;
    assert (left + s + right)[|left| + |s|..] == right;
  }

  /** The padding followed by `s`. */
  function PadRight(s: string, o: SideOptions): (r: string)
    ensures |s| <= |r| && r[|r| - |s|..] == s && CopiesOf(r[..|r| - |s|], o.padChar, PadCount(o.width, s))
    ensures ByteLen(s) >= o.width ==> r == s
    ensures ByteLen(o.padChar) == 1 ==> ByteLen(r) == Max(o.width, ByteLen(s))
  {
    var pads := Repeat(o.padChar, PadCount(o.width, s));
    RepeatUnitByteLen(o.padChar, PadCount(o.width, s));
    RepeatCopies(o.padChar, PadCount(o.width, s));
    ByteLenConcat(pads, s);
    assert (pads + s)[|pads|..] == s && (pads + s)[..|pads|] == pads;
    pads + s
  }

  /** Padding with a space puts `PadCount` spaces after, around or before `s`. */
  lemma LeftSpaces(s: string, width: nat)
    ensures PadLeft(s, SideOptions(width, " ")) == s + Spaces(PadCount(width, s))
  {
    RepeatSpace(PadCount(width, s));
  }

  lemma RightSpaces(s: string, width: nat)
    ensures PadRight(s, SideOptions(width, " ")) == Spaces(PadCount(width, s)) + s
  {
    RepeatSpace(PadCount(width, s));
  }

  lemma CenterSpaces(s: string, width: nat)
    ensures var n := PadCount(width, s);
      PadCenter(s, SideOptions(width, " ")) == Spaces(n / 2) + s + Spaces(n - n / 2)
  {
    var n := PadCount(width, s);
    assert PadCenter(s, SideOptions(width, " ")) == Centered(s, " ", n);
    RepeatSpace(n / 2);
    RepeatSpace(n - n / 2);
  }

  /** `Pad::pad`: pad according to the alignment in the options. */
  function PadTo(s: string, o: PadOptions): string {
    match o.align
    case Left => PadLeft(s, SideOptionsOf(o))
    case Center => PadCenter(s, SideOptionsOf(o))
    case Right => PadRight(s, SideOptionsOf(o))
  }

  /**
   * With a one-byte pad string the result reaches the width, and `s` sits at
   * the start, at `pad_len / 2`, or at the end, as the alignment says.
   */
  lemma PadPlacesString(s: string, o: PadOptions)
    requires ByteLen(o.padChar) == 1
    ensures ByteLen(PadTo(s, o)) == Max(o.width, ByteLen(s))
    ensures o.align == Left ==> s <= PadTo(s, o)
    ensures o.align == Right ==> PadTo(s, o)[|PadTo(s, o)| - |s|..] == s
    ensures o.align == Center ==> var k := PadCount(o.width, s) / 2;
      PadTo(s, o)[k..k + |s|] == s
    ensures ByteLen(s) >= o.width ==> PadTo(s, o) == s
  {
    assert |o.padChar| == 1 by {
      assert o.padChar != [];
      assert o.padChar == [o.padChar[0]] + o.padChar[1..];
      assert ByteLen(o.padChar[1..]) == 0;
    }
  }

  /** A builder used without a width cannot build. */
  lemma BuildNeedsWidth(a: Align, p: string)
    ensures NewPadOptionsBuilder().WithAlign(a).PadChar(p).Build() == Err(WidthNotSet)
    ensures NewSideOptionsBuilder().PadChar(p).Build() == Err(WidthNotSet)
  {
  }

  /** The worked examples of the source's tests. */
  lemma PadExamples()
    ensures PadTo("foo", NewPadOptionsBuilder().Width(5).WithAlign(Left).Build().value) == "foo  "
    ensures PadTo("foo", NewPadOptionsBuilder().Width(5).WithAlign(Center).Build().value) == " foo "
    ensures PadTo("foo", NewPadOptionsBuilder().Width(5).WithAlign(Right).Build().value) == "  foo"
    ensures PadTo("42", NewPadOptionsBuilder().Width(4).PadChar("0").WithAlign(Center).Build().value) == "0420"
    ensures PadCenter("a", NewSideOptionsBuilder().Width(4).Build().value) == " a  "
    ensures PadLeft("", NewSideOptionsBuilder().Width(3).Build().value) == "   "
  {
    PadFooExamples();
    PadZerosExample();
    PadSideExamples();
  }

  lemma PadFooExamples()
    ensures PadTo("foo", NewPadOptionsBuilder().Width(5).WithAlign(Left).Build().value) == "foo  "
    ensures PadTo("foo", NewPadOptionsBuilder().Width(5).WithAlign(Center).Build().value) == " foo "
    ensures PadTo("foo", NewPadOptionsBuilder().Width(5).WithAlign(Right).Build().value) == "  foo"
  {
    assert ByteLen("foo") == 3;
  }

  lemma PadZerosExample()
    ensures PadTo("42", NewPadOptionsBuilder().Width(4).PadChar("0").WithAlign(Center).Build().value) == "0420"
  {
    assert ByteLen("42") == 2;
  }

  lemma PadSideExamples()
    ensures PadCenter("a", NewSideOptionsBuilder().Width(4).Build().value) == " a  "
    ensures PadLeft("", NewSideOptionsBuilder().Width(3).Build().value) == "   "
  {
    assert ByteLen("a") == 1;
  }
}
