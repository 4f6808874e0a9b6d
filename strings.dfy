/**
 * String extensions: joining a list with commas and a conjunction,
 * capitalizing the first letter, and expanding tabs to spaces.
 */
module Strings {
  import opened Wrappers
  import opened Text

  /** `[T]::join(sep)`: the items with `sep` between each neighbouring pair. */
  function Join(items: seq<string>, sep: string): string {
    if items == [] then ""
    else if |items| == 1 then items[0]
    else Join(items[..|items| - 1], sep) + sep + items[|items| - 1]
  }

  /**
   * The items joined with commas and the conjunction: "a", "a and b", and
   * "a, b, and c" (with an Oxford comma) from three items on.
   */
  function Conjoin(items: seq<string>, conjunction: string): string {
    if |items| == 0 then ""
    else if |items| == 1 then items[0]
    else if |items| == 2 then items[0] + " " + conjunction + " " + items[1]
    else Join(items[..|items| - 1], ", ") + ", " + conjunction + " " + items[|items| - 1]
  }

  /**
   * From three items on, the result is the plain comma list in which the last
   * item carries the conjunction, so every item, the penultimate included, is
   * followed by a comma.
   */
  lemma {:induction false} ConjoinIsCommaList(items: seq<string>, conjunction: string)
    requires |items| >= 3
    ensures Conjoin(items, conjunction)
      == Join(items[..|items| - 1] + [conjunction + " " + items[|items| - 1]], ", ")
    ensures Conjoin(items, conjunction)
      == Join(items[..|items| - 2], ", ") + ", " + items[|items| - 2] + ", " + conjunction + " " + items[|items| - 1]
  {
    var n := |items|;
    var front := items[..n - 1];
    var extended := front + [conjunction + " " + items[n - 1]];
    assert extended[..|extended| - 1] == front;
    assert front[..|front| - 1] == items[..n - 2];
  }

  /** The worked examples of the source's tests. */
  lemma ConjoinExamples()
    ensures Conjoin([], "and") == ""
    ensures Conjoin(["foo"], "and") == "foo"
    ensures Conjoin(["foo", "bar"], "and") == "foo and bar"
    ensures Conjoin(["foo", "bar", "baz"], "and") == "foo, bar, and baz"
  {
    var three := ["foo", "bar", "baz"];
    assert three[..2] == ["foo", "bar"];
    assert ["foo", "bar"][..1] == ["foo"];
  }

  /**
   * The string with its first letter upper-cased. The source slices the first
   * byte, so a string whose first character is not ASCII makes it panic; that
   * panic is `None` here.
   */
  function CapitalizeFirstLetter(s: string): (r: Option<string>)
    ensures r.None? <==> s != [] && Utf8Len(s[0]) > 1
    ensures r.Some? ==> |r.value| == |s| && (s != [] ==> r.value[1..] == s[1..])
    ensures r.Some? && s != [] ==> !('a' <= r.value[0] <= 'z')
    ensures r.Some? && s != [] && 'a' <= s[0] <= 'z' ==> r.value[0] as int == s[0] as int - 32
    ensures r.Some? && s != [] && !('a' <= s[0] <= 'z') ==> r.value[0] == s[0]
  {
    if s == [] then Some([])
    else if Utf8Len(s[0]) > 1 then None
    else Some([AsciiUpper(s[0])] + s[1..])
  }

  /** Capitalizing twice is capitalizing once. */
  lemma CapitalizeIdempotent(s: string)
    requires CapitalizeFirstLetter(s).Some?
    ensures CapitalizeFirstLetter(CapitalizeFirstLetter(s).value) == CapitalizeFirstLetter(s)
  {
  }

  /** The worked examples of the source's tests. */
  lemma CapitalizeExamples()
    ensures CapitalizeFirstLetter("") == Some("")
    ensures CapitalizeFirstLetter("a") == Some("A")
    ensures CapitalizeFirstLetter("A") == Some("A")
    ensures CapitalizeFirstLetter("foo") == Some("Foo")
    ensures CapitalizeFirstLetter("Foo") == Some("Foo")
  {
    assert AsciiUpper('a') == 'A' && AsciiUpper('f') == 'F';
    assert "foo"[1..] == "oo" && "Foo"[1..] == "oo";
    assert ['F'] + "oo" == "Foo";
    assert "a"[1..] == "" && ['A'] + "" == "A";
  }

  /** The number of spaces a tab at output column `column` expands to. */
  function TabStop(column: nat, tabWidth: nat): nat {
    if tabWidth == 0 then 0 else tabWidth - column % tabWidth
  }

  /**
   * Tab expansion, character by character: a tab becomes the spaces that
   * reach the next multiple of the tab width, every other character is kept.
   */
  function DetabSpec(s: string, tabWidth: nat): string {
    if s == [] then []
    else
      var r := DetabSpec(s[..|s| - 1], tabWidth);
      if s[|s| - 1] == '\t' then r + Spaces(TabStop(|r|, tabWidth)) else r + [s[|s| - 1]]
  }

  /**
   * With a tab width of 0 the source subtracts a non-zero counter from 0 at
   * the first tab that follows another character, a `usize` underflow panic.
   */
  predicate DetabPanics(s: string, tabWidth: nat) {
    tabWidth == 0 && exists i, j :: 0 <= i < j < |s| && s[i] != '\t' && s[j] == '\t'
  }

  predicate AllTabs(s: string) {
    forall k :: 0 <= k < |s| ==> s[k] == '\t'
  }

  /** `detab`: expand tabs, keeping a counter of the column within the current tab stop. */
  method Detab(s: string, tabWidth: nat) returns (r: Option<string>)
    ensures r.None? <==> DetabPanics(s, tabWidth)
    ensures r.Some? ==> r.value == DetabSpec(s, tabWidth)
  {
    if s == [] {
      return Some([]);
    }
    var result: string := [];
    var counter: nat := 0;
    for i := 0 to |s|
      invariant result == DetabSpec(s[..i], tabWidth)
      invariant tabWidth > 0 ==> counter == |result| % tabWidth
      invariant tabWidth == 0 ==> (counter == 0 <==> AllTabs(s[..i]))
      invariant !DetabPanics(s[..i], tabWidth)
    {
      assert s[..i + 1][..i] == s[..i] && s[..i + 1][i] == s[i];
      var c := s[i];
      if c == '\t' {
        if counter > tabWidth {
          DetabUnderflowPanics(s, i);
          return None;
        }
        if tabWidth > 0 {
          ModAlign(|result|, tabWidth);
        }
        result := result + Spaces(tabWidth - counter);
        counter := 0;
      } else {
        if tabWidth > 0 {
          ModStep(|result|, tabWidth);
        }
        result := result + [c];
        counter := counter + 1;
        if counter == tabWidth {
          counter := 0;
        }
      }
      DetabNoPanicExtends(s, i, tabWidth);
    }
    assert s[..|s|] == s;
    return Some(result);
  }

  lemma DetabUnderflowPanics(s: string, i: nat)
    requires i < |s| && s[i] == '\t' && !AllTabs(s[..i])
    ensures DetabPanics(s, 0)
  {
    var k :| 0 <= k < i && s[..i][k] != '\t';
    assert s[k] != '\t';
  }

  lemma DetabNoPanicExtends(s: string, i: nat, tabWidth: nat)
    requires i < |s| && !DetabPanics(s[..i], tabWidth)
    requires tabWidth == 0 && s[i] == '\t' ==> AllTabs(s[..i])
    ensures !DetabPanics(s[..i + 1], tabWidth)
  {
    if tabWidth == 0 {
      var t := s[..i + 1];
      forall a, b | 0 <= a < b < |t|
        ensures !(t[a] != '\t' && t[b] == '\t')
      {
        assert t[a] == s[..i][a];
        if b < i {
          assert t[b] == s[..i][b];
        }
      }
    }
  }

  lemma TabStopAligns(column: nat, tabWidth: nat)
    requires tabWidth > 0
    ensures (column + TabStop(column, tabWidth)) % tabWidth == 0
  {
    ModAlign(column, tabWidth);
  }

  /** The expansion contains no tab. */
  lemma {:induction false} DetabNoTabs(s: string, tabWidth: nat)
    ensures forall k :: 0 <= k < |DetabSpec(s, tabWidth)| ==> DetabSpec(s, tabWidth)[k] != '\t'
  {
    if s != [] {
      DetabNoTabs(s[..|s| - 1], tabWidth);
    }
  }

  /** The characters other than spaces and tabs, in order. */
  function Visible(s: string): string {
    if s == [] then []
    else if s[|s| - 1] == ' ' || s[|s| - 1] == '\t' then Visible(s[..|s| - 1])
    else Visible(s[..|s| - 1]) + [s[|s| - 1]]
  }

  lemma {:induction false} VisibleConcat(a: string, b: string)
    ensures Visible(a + b) == Visible(a) + Visible(b)
  {
    if b == [] {
      assert a + b == a;
    } else {
      assert (a + b)[..|a + b| - 1] == a + b[..|b| - 1];
      VisibleConcat(a, b[..|b| - 1]);
    }
  }

  lemma {:induction false} VisibleSpaces(n: nat)
    ensures Visible(Spaces(n)) == []
  {
    if n > 0 {
      SpacesSplit(n - 1, 1);
      VisibleConcat(Spaces(n - 1), Spaces(1));
      VisibleSpaces(n - 1);
    }
  }

  /** Apart from spaces and tabs, the expansion keeps exactly the input's characters in order. */
  lemma {:induction false} DetabKeepsVisible(s: string, tabWidth: nat)
    ensures Visible(DetabSpec(s, tabWidth)) == Visible(s)
  {
    if s != [] {
      var front := s[..|s| - 1];
      var r := DetabSpec(front, tabWidth);
      DetabKeepsVisible(front, tabWidth);
      if s[|s| - 1] == '\t' {
        VisibleConcat(r, Spaces(TabStop(|r|, tabWidth)));
        VisibleSpaces(TabStop(|r|, tabWidth));
      } else {
        VisibleConcat(r, [s[|s| - 1]]);
        assert [s[|s| - 1]][..0] == [];
      }
    }
  }

  /** With a positive tab width every character yields at least one, and a tab ends on a tab stop. */
  lemma {:induction false} DetabWidths(s: string, tabWidth: nat)
    requires tabWidth > 0
    ensures |DetabSpec(s, tabWidth)| >= |s|
    ensures s != [] && s[|s| - 1] == '\t' ==> |DetabSpec(s, tabWidth)| % tabWidth == 0
  {
    if s != [] {
      var front := s[..|s| - 1];
      DetabWidths(front, tabWidth);
      if s[|s| - 1] == '\t' {
        TabStopAligns(|DetabSpec(front, tabWidth)|, tabWidth);
      }
    }
  }

  /** Two worked examples of the source's tests. */
  lemma DetabExamples()
    ensures DetabSpec("\tfoo\t", 4) == "    foo "
    ensures DetabSpec("\ttoad\t", 4) == "    toad    "
  {
    DetabFoo();
    DetabToad();
  }

  lemma DetabTab()
    ensures DetabSpec("\t", 4) == "    "
  {
    assert "\t"[..0] == "";
  }

  lemma DetabFoo1()
    ensures DetabSpec("\tf", 4) == "    f"
  {
    assert "\tf"[..1] == "\t";
    DetabTab();
  }

  lemma DetabFoo2()
    ensures DetabSpec("\tfo", 4) == "    fo"
  {
    assert "\tfo"[..2] == "\tf";
    DetabFoo1();
  }

  lemma DetabFoo3()
    ensures DetabSpec("\tfoo", 4) == "    foo"
  {
    assert "\tfoo"[..3] == "\tfo";
    DetabFoo2();
  }

  lemma DetabToad1()
    ensures DetabSpec("\tt", 4) == "    t"
  {
    assert "\tt"[..1] == "\t";
    DetabTab();
  }

  lemma DetabToad2()
    ensures DetabSpec("\tto", 4) == "    to"
  {
    assert "\tto"[..2] == "\tt";
    DetabToad1();
  }

  lemma DetabToad3()
    ensures DetabSpec("\ttoa", 4) == "    toa"
  {
    assert "\ttoa"[..3] == "\tto";
    DetabToad2();
  }

  lemma DetabToad4()
    ensures DetabSpec("\ttoad", 4) == "    toad"
  {
    assert "\ttoad"[..4] == "\ttoa";
    DetabToad3();
  }

  lemma DetabFoo()
    ensures DetabSpec("\tfoo\t", 4) == "    foo "
  {
    assert "\tfoo\t"[..4] == "\tfoo";
    DetabFoo3();
    assert TabStop(7, 4) == 1;
    assert Spaces(1) == " ";
  }

  lemma DetabToad()
    ensures DetabSpec("\ttoad\t", 4) == "    toad    "
  {
    assert "\ttoad\t"[..5] == "\ttoad";
    DetabToad4();
    assert TabStop(8, 4) == 4;
    assert Spaces(4) == "    ";
  }
}
