/**
 * Word wrapping: text is split into whitespace-separated words and laid out
 * in lines of a given number of columns, words too long for a line are
 * hyphenated, and every line is padded to the full width. Widths are counted
 * in UTF-8 bytes, as the source's `str::len` does.
 */
module Wrap {
  import opened Wrappers
  import opened Text
  import opened Pad

  /** The characters of `s` other than whitespace and hyphens: what wrapping must not lose. */
  function Letters(s: string): string {
    if s == [] then []
    else if IsWhitespace(s[|s| - 1]) || s[|s| - 1] == '-' then Letters(s[..|s| - 1])
    else Letters(s[..|s| - 1]) + [s[|s| - 1]]
  }

  lemma {:induction false} LettersConcat(a: string, b: string)
    ensures Letters(a + b) == Letters(a) + Letters(b)
  {
    if b == [] {
      assert a + b == a;
    } else {
      assert (a + b)[..|a + b| - 1] == a + b[..|b| - 1];
      LettersConcat(a, b[..|b| - 1]);
    }
  }

  lemma {:induction false} LettersSpaces(n: nat)
    ensures Letters(Spaces(n)) == []
  {
    if n > 0 {
      SpacesSplit(n - 1, 1);
      LettersConcat(Spaces(n - 1), Spaces(1));
      LettersSpaces(n - 1);
    }
  }

  /** The lines of `ls` run together. */
  function Flatten(ls: seq<string>): string {
    if ls == [] then [] else Flatten(ls[..|ls| - 1]) + ls[|ls| - 1]
  }

  lemma {:induction false} FlattenConcat(a: seq<string>, b: seq<string>)
    ensures Flatten(a + b) == Flatten(a) + Flatten(b)
  {
    if b == [] {
      assert a + b == a;
    } else {
      var front, last := b[..|b| - 1], b[|b| - 1];
      assert (a + b)[..|a + b| - 1] == a + front;
      assert (a + b)[|a + b| - 1] == last;
      FlattenConcat(a, front);
      calc {
        Flatten(a + b);
        Flatten(a + front) + last;
        (Flatten(a) + Flatten(front)) + last;
        Flatten(a) + (Flatten(front) + last);
        Flatten(a) + Flatten(b);
      }
    }
  }

  /** The letters of a list of strings are the letters of each, in order. */
  lemma LettersFlattenConcat(a: seq<string>, b: seq<string>)
    ensures Letters(Flatten(a + b)) == Letters(Flatten(a)) + Letters(Flatten(b))
  {
    FlattenConcat(a, b);
    LettersConcat(Flatten(a), Flatten(b));
  }

  lemma LettersFlattenOne(a: seq<string>, s: string)
    ensures Letters(Flatten(a + [s])) == Letters(Flatten(a)) + Letters(s)
  {
    LettersFlattenConcat(a, [s]);
    assert Flatten([s]) == s by {
      assert [s][..0] == [];
    }
  }

  predicate AllWhitespace(s: string) {
    forall i :: 0 <= i < |s| ==> IsWhitespace(s[i])
  }

  /**
   * `str::split_whitespace`, with `cur` the word being collected: the
   * maximal runs of non-whitespace characters.
   */
  function WordsFrom(s: string, cur: string): seq<string>
    decreases |s|
  {
    if s == [] then (if cur == [] then [] else [cur])
    else if IsWhitespace(s[0]) then (if cur == [] then [] else [cur]) + WordsFrom(s[1..], [])
    else WordsFrom(s[1..], cur + [s[0]])
  }

  function Words(s: string): seq<string> {
    WordsFrom(s, [])
  }

  predicate AllAscii(ws: seq<string>) {
    forall i :: 0 <= i < |ws| ==> IsAscii(ws[i])
  }

  /** Every word is non-empty. */
  lemma {:induction false} WordsNonEmpty(s: string, cur: string)
    ensures forall i :: 0 <= i < |WordsFrom(s, cur)| ==> WordsFrom(s, cur)[i] != []
    decreases |s|
  {
    if s != [] {
      if IsWhitespace(s[0]) {
        WordsNonEmpty(s[1..], []);
      } else {
        WordsNonEmpty(s[1..], cur + [s[0]]);
      }
    }
  }

  lemma LettersCons(c: char, s: string)
    ensures Letters([c] + s) == Letters([c]) + Letters(s)
    ensures IsWhitespace(c) ==> Letters([c]) == []
    ensures !IsWhitespace(c) && c != '-' ==> Letters([c]) == [c]
  {
    LettersConcat([c], s);
    assert [c][..0] == [];
  }

  lemma FlattenFirst(cur: string)
    ensures Flatten(if cur == [] then [] else [cur]) == cur
  {
    if cur != [] {
      assert [cur][..0] == [];
    }
  }

  /** The words keep every letter of the text, in order. */
  lemma {:induction false} WordsKeepLetters(s: string, cur: string)
    ensures Letters(Flatten(WordsFrom(s, cur))) == Letters(cur) + Letters(s)
    decreases |s|
  {
    if s == [] {
      FlattenFirst(cur);
      assert Letters(s) == [];
    } else if IsWhitespace(s[0]) {
      WordsKeepLetters(s[1..], []);
      WordsKeepLettersSpace(s, cur);
    } else {
      WordsKeepLetters(s[1..], cur + [s[0]]);
      WordsKeepLettersLetter(s, cur);
    }
  }

  /** A whitespace character ends the word being collected and adds no letter. */
  lemma WordsKeepLettersSpace(s: string, cur: string)
    requires s != [] && IsWhitespace(s[0])
    requires Letters(Flatten(WordsFrom(s[1..], []))) == Letters([]) + Letters(s[1..])
    ensures Letters(Flatten(WordsFrom(s, cur))) == Letters(cur) + Letters(s)
  {
    FlattenFirst(cur);
    assert s == [s[0]] + s[1..];
    LettersCons(s[0], s[1..]);
    LettersFlattenConcat(if cur == [] then [] else [cur], WordsFrom(s[1..], []));
  }

  /** Any other character joins the word being collected. */
  lemma WordsKeepLettersLetter(s: string, cur: string)
    requires s != [] && !IsWhitespace(s[0])
    requires Letters(Flatten(WordsFrom(s[1..], cur + [s[0]]))) == Letters(cur + [s[0]]) + Letters(s[1..])
    ensures Letters(Flatten(WordsFrom(s, cur))) == Letters(cur) + Letters(s)
  {
    var c, rest := s[0], s[1..];
    assert WordsFrom(s, cur) == WordsFrom(rest, cur + [c]);
    assert Letters(s) == Letters([c]) + Letters(rest) by {
      assert s == [c] + rest;
      LettersCons(c, rest);
    }
    assert Letters(cur + [c]) == Letters(cur) + Letters([c]) by {
      LettersConcat(cur, [c]);
    }
    Assoc(Letters(cur), Letters([c]), Letters(rest));
  }

  lemma AllWhitespaceCons(s: string)
    requires s != []
    ensures AllWhitespace(s) <==> IsWhitespace(s[0]) && AllWhitespace(s[1..])
  {
    if IsWhitespace(s[0]) && AllWhitespace(s[1..]) {
      forall i | 0 <= i < |s|
        ensures IsWhitespace(s[i])
      {
        if i > 0 {
          assert s[i] == s[1..][i - 1];
        }
      }
    }
    if AllWhitespace(s) {
      forall i | 0 <= i < |s[1..]|
        ensures IsWhitespace(s[1..][i])
      {
        assert s[1..][i] == s[i + 1];
      }
    }
  }

  /** There are no words exactly when the text is all whitespace. */
  lemma {:induction false} WordsEmptyIffBlank(s: string, cur: string)
    ensures WordsFrom(s, cur) == [] <==> cur == [] && AllWhitespace(s)
    decreases |s|
  {
    if s != [] {
      AllWhitespaceCons(s);
      if IsWhitespace(s[0]) {
        WordsEmptyIffBlank(s[1..], []);
      } else {
        WordsEmptyIffBlank(s[1..], cur + [s[0]]);
      }
    }
  }

  lemma AsciiTail(s: string)
    requires s != [] && IsAscii(s)
    ensures IsAscii(s[1..])
  {
    forall i | 0 <= i < |s[1..]|
      ensures s[1..][i] as int < 0x80
    {
      assert s[1..][i] == s[i + 1];
    }
  }

  /** ASCII text has ASCII words. */
  lemma {:induction false} WordsAscii(s: string, cur: string)
    requires IsAscii(cur) && IsAscii(s)
    ensures AllAscii(WordsFrom(s, cur))
    decreases |s|
  {
    if s != [] {
      AsciiTail(s);
      if IsWhitespace(s[0]) {
        WordsAscii(s[1..], []);
      } else {
        assert IsAscii(cur + [s[0]]) by {
          assert forall i :: 0 <= i < |cur| ==> (cur + [s[0]])[i] == cur[i];
        }
        WordsAscii(s[1..], cur + [s[0]]);
      }
    }
  }

  /**
   * The words are non-empty and keep every letter of the text; there are
   * none exactly when the text is all whitespace; ASCII text has ASCII words.
   */
  lemma WordsProps(s: string)
    ensures forall i :: 0 <= i < |Words(s)| ==> Words(s)[i] != []
    ensures Letters(Flatten(Words(s))) == Letters(s)
    ensures Words(s) == [] <==> AllWhitespace(s)
    ensures IsAscii(s) ==> AllAscii(Words(s))
  {
    WordsNonEmpty(s, []);
    WordsKeepLetters(s, []);
    WordsEmptyIffBlank(s, []);
    if IsAscii(s) {
      WordsAscii(s, []);
    }
  }

  /**
   * `str::split_at(k)` at a byte index: the first `k` bytes and the rest.
   * An index past the end or inside a character panics, which is `None`.
   */
  function SplitAtByte(w: string, k: nat): (r: Option<(string, string)>)
    ensures r.Some? ==> r.value.0 + r.value.1 == w && ByteLen(r.value.0) == k
    ensures IsAscii(w) && k <= |w| ==> r.Some?
  {
    if k == 0 then Some(([], w))
    else if w == [] || Utf8Len(w[0]) > k then None
    else
      assert w == [w[0]] + w[1..];
      assert IsAscii(w) ==> IsAscii(w[1..]) by {
        if IsAscii(w) {
          forall i | 0 <= i < |w[1..]|
            ensures w[1..][i] as int < 0x80
          {
            assert w[1..][i] == w[i + 1];
          }
        }
      }
      match SplitAtByte(w[1..], k - Utf8Len(w[0]))
      case None => None
      case Some(p) =>
        ByteLenConcat([w[0]], p.0);
        Some(([w[0]] + p.0, p.1))
  }

  /** The loop state of the multi-column layout. */
  datatype WrapState = WrapState(next: nat, word: string, line: string, lines: seq<string>)

  /** One pass of the loop: it finishes with a result (`None` is a panic) or goes on from a new state. */
  datatype Step = Done(result: Option<seq<string>>) | Next(st: WrapState)

  /** The loop's measure: fewer words left, or a shorter current word, or a line no longer open. */
  predicate Smaller(a: WrapState, b: WrapState) {
    a.next > b.next
    || (a.next == b.next && (|a.word| < |b.word| || (|a.word| == |b.word| && a.line == [] && b.line != [])))
  }

  /**
   * One pass of the multi-column loop, with the source's branches: a first
   * word in a line is taken whole, ends the line when it fills it, or is
   * split after `columns - 1` bytes and hyphenated; a later word joins the
   * line after a space if it fits, ends a line that has one or two columns
   * left, or is split to fill the line and hyphenated. With `dropLast`, a
   * line that is still open when a fitting word was the last one is
   * dropped, as the source does; without it, that line is kept.
   */
  function StepOf(words: seq<string>, columns: nat, st: WrapState, dropLast: bool): (r: Step)
    requires columns >= 2 && st.next <= |words|
    ensures r.Next? ==> r.st.next <= |words| && Smaller(r.st, st)
  {
    if st.line == [] then
      var n := ByteLen(st.word);
      if n < columns then
        if st.next < |words| then Next(WrapState(st.next + 1, words[st.next], st.word, st.lines))
        else Done(Some(st.lines + [st.word]))
      else if n == columns then
        if st.next < |words| then Next(WrapState(st.next + 1, words[st.next], [], st.lines + [st.word]))
        else Done(Some(st.lines + [st.word]))
      else
        match SplitAtByte(st.word, columns - 1)
        case None => Done(None)
        case Some(p) =>
          assert |p.1| < |st.word| by { assert p.0 != []; }
          Next(WrapState(st.next, p.1, [], st.lines + [p.0 + "-"]))
    else
      var total := ByteLen(st.line) + ByteLen(st.word) + 1;
      if total < columns then
        var line := st.line + " " + st.word;
        if st.next < |words| then Next(WrapState(st.next + 1, words[st.next], line, st.lines))
        else if dropLast then Done(Some(st.lines))
        else Done(Some(st.lines + [line]))
      else if total == columns then
        var lines := st.lines + [st.line + " " + st.word];
        if st.next < |words| then Next(WrapState(st.next + 1, words[st.next], [], lines))
        else Done(Some(lines))
      else if ByteLen(st.line) + 1 == columns || ByteLen(st.line) + 2 == columns then
        Next(WrapState(st.next, st.word, [], st.lines + [st.line]))
      else if ByteLen(st.line) + 2 > columns then
        // `columns - len - 2` underflows a `usize`
        Done(None)
      else
        match SplitAtByte(st.word, columns - ByteLen(st.line) - 2)
        case None => Done(None)
        case Some(p) =>
          assert |p.1| < |st.word| by { assert p.0 != []; }
          Next(WrapState(st.next, p.1, [], st.lines + [st.line + " " + p.0 + "-"]))
  }

  /** The lines the multi-column loop produces from state `st`; `None` is a panic. */
  function Run(words: seq<string>, columns: nat, st: WrapState, dropLast: bool): Option<seq<string>>
    requires columns >= 2 && st.next <= |words|
    decreases |words| - st.next, |st.word|, if st.line == [] then 0 else 1
  {
    match StepOf(words, columns, st, dropLast)
    case Done(r) => r
    case Next(st') => Run(words, columns, st', dropLast)
  }

  predicate LinesFit(lines: seq<string>, columns: nat) {
    forall i :: 0 <= i < |lines| ==> ByteLen(lines[i]) <= columns
  }

  lemma ByteLenJoin(a: string, b: string, c: string)
    ensures ByteLen(a + b + c) == ByteLen(a) + ByteLen(b) + ByteLen(c)
  {
    ByteLenConcat(a, b);
    ByteLenConcat(a + b, c);
  }

  /** A hyphen holds no letter. */
  lemma LettersHyphen(a: string)
    ensures Letters(a + "-") == Letters(a)
  {
    LettersConcat(a, "-");
    assert "-"[..0] == [];
  }

  /** A space holds no letter. */
  lemma LettersSpaced(a: string, b: string)
    ensures Letters(a + " " + b) == Letters(a) + Letters(b)
  {
    LettersConcat(a, " ");
    LettersConcat(a + " ", b);
    assert " "[..0] == [];
  }

  /** The letters of the words from `i` on: those of word `i`, then the rest. */
  lemma LettersRest(words: seq<string>, i: nat)
    requires i < |words|
    ensures Letters(Flatten(words[i..])) == Letters(words[i]) + Letters(Flatten(words[i + 1..]))
  {
    assert words[i..] == [words[i]] + words[i + 1..];
    LettersFlattenConcat([words[i]], words[i + 1..]);
    FlattenFirst(words[i]);
  }

  /** The letters a state still holds: its finished lines, its open line, its word and the words left. */
  function Pending(words: seq<string>, st: WrapState): string
    requires st.next <= |words|
  {
    Letters(Flatten(st.lines)) + Letters(st.line) + Letters(st.word) + Letters(Flatten(words[st.next..]))
  }

  /** What a pass with the last line kept promises about letters. */
  predicate KeepsLetters(words: seq<string>, st: WrapState, s: Step)
    requires st.next <= |words|
    requires s.Next? ==> s.st.next <= |words|
  {
    && (s.Next? ==> Pending(words, s.st) == Pending(words, st))
    && (s.Done? && s.result.Some? ==> Letters(Flatten(s.result.value)) == Pending(words, st))
  }

  lemma Assoc(x: string, y: string, z: string)
    ensures x + (y + z) == x + y + z
  {
  }

  /** Taking the next word keeps the pending letters. */
  lemma TakeWord(words: seq<string>, st: WrapState, line: string, lines: seq<string>)
    requires st.next < |words|
    requires Letters(Flatten(lines)) + Letters(line) == Letters(Flatten(st.lines)) + Letters(st.line) + Letters(st.word)
    ensures Pending(words, WrapState(st.next + 1, words[st.next], line, lines)) == Pending(words, st)
  {
    LettersRest(words, st.next);
    Assoc(Letters(Flatten(st.lines)) + Letters(st.line) + Letters(st.word),
      Letters(words[st.next]), Letters(Flatten(words[st.next + 1..])));
  }

  /** Finishing with no words left keeps the pending letters. */
  lemma Finish(words: seq<string>, st: WrapState, lines: seq<string>)
    requires st.next == |words|
    requires Letters(Flatten(lines)) == Letters(Flatten(st.lines)) + Letters(st.line) + Letters(st.word)
    ensures Letters(Flatten(lines)) == Pending(words, st)
  {
    assert words[st.next..] == [];
  }

  /** Splitting the word of a state with no open line keeps the pending letters. */
  lemma SplitFirst(words: seq<string>, st: WrapState, p0: string, p1: string)
    requires st.next <= |words| && st.line == [] && p0 + p1 == st.word
    ensures Pending(words, WrapState(st.next, p1, [], st.lines + [p0 + "-"])) == Pending(words, st)
  {
    assert Letters(Flatten(st.lines + [p0 + "-"])) == Letters(Flatten(st.lines)) + Letters(p0) by {
      LettersHyphen(p0);
      LettersFlattenOne(st.lines, p0 + "-");
    }
    assert Letters(st.word) == Letters(p0) + Letters(p1) by {
      LettersConcat(p0, p1);
    }
    assert Letters([]) == [];
    Assoc(Letters(Flatten(st.lines)), Letters(p0), Letters(p1));
  }

  /** Splitting the word onto the open line keeps the pending letters. */
  lemma SplitOnto(words: seq<string>, st: WrapState, p0: string, p1: string)
    requires st.next <= |words| && p0 + p1 == st.word
    ensures Pending(words, WrapState(st.next, p1, [], st.lines + [st.line + " " + p0 + "-"])) == Pending(words, st)
  {
    LettersSpaced(st.line, p0);
    LettersHyphen(st.line + " " + p0);
    LettersFlattenOne(st.lines, st.line + " " + p0 + "-");
    LettersConcat(p0, p1);
    assert Letters([]) == [];
    Assoc(Letters(Flatten(st.lines)), Letters(st.line), Letters(p0));
    Assoc(Letters(Flatten(st.lines)) + Letters(st.line), Letters(p0), Letters(p1));
  }

  /** Joining the word to the open line keeps the letters of the line and the word. */
  lemma JoinLetters(lines: seq<string>, line: string, word: string)
    ensures Letters(Flatten(lines)) + Letters(line + " " + word) == Letters(Flatten(lines)) + Letters(line) + Letters(word)
    ensures Letters(Flatten(lines + [line + " " + word])) + Letters([]) == Letters(Flatten(lines)) + Letters(line) + Letters(word)
    ensures Letters(Flatten(lines + [line + " " + word])) == Letters(Flatten(lines)) + Letters(line) + Letters(word)
  {
    LettersSpaced(line, word);
    LettersFlattenOne(lines, line + " " + word);
    Assoc(Letters(Flatten(lines)), Letters(line), Letters(word));
    assert Letters([]) == [];
  }

  /** A pass with the last line kept loses no letter when the word fits an empty line. */
  lemma StepKeepsLettersFirst(words: seq<string>, columns: nat, st: WrapState)
    requires columns >= 2 && st.next <= |words| && st.line == [] && ByteLen(st.word) <= columns
    ensures KeepsLetters(words, st, StepOf(words, columns, st, false))
  {
    if st.next == |words| {
      FirstIsLast(words, columns, st);
    } else if ByteLen(st.word) < columns {
      FirstOpensLine(words, columns, st);
    } else {
      FirstFillsLine(words, columns, st);
    }
  }

  lemma FirstIsLast(words: seq<string>, columns: nat, st: WrapState)
    requires columns >= 2 && st.next == |words| && st.line == [] && ByteLen(st.word) <= columns
    ensures KeepsLetters(words, st, StepOf(words, columns, st, false))
  {
    assert StepOf(words, columns, st, false) == Done(Some(st.lines + [st.word]));
    LettersFlattenOne(st.lines, st.word);
    assert Letters([]) == [];
    Finish(words, st, st.lines + [st.word]);
  }

  lemma FirstOpensLine(words: seq<string>, columns: nat, st: WrapState)
    requires columns >= 2 && st.next < |words| && st.line == [] && ByteLen(st.word) < columns
    ensures KeepsLetters(words, st, StepOf(words, columns, st, false))
  {
    assert StepOf(words, columns, st, false) == Next(WrapState(st.next + 1, words[st.next], st.word, st.lines));
    assert Letters([]) == [];
    TakeWord(words, st, st.word, st.lines);
  }

  lemma FirstFillsLine(words: seq<string>, columns: nat, st: WrapState)
    requires columns >= 2 && st.next < |words| && st.line == [] && ByteLen(st.word) == columns
    ensures KeepsLetters(words, st, StepOf(words, columns, st, false))
  {
    assert StepOf(words, columns, st, false) == Next(WrapState(st.next + 1, words[st.next], [], st.lines + [st.word]));
    LettersFlattenOne(st.lines, st.word);
    assert Letters([]) == [];
    TakeWord(words, st, [], st.lines + [st.word]);
  }

  /** A pass with the last line kept loses no letter when the word is too long for an empty line. */
  lemma StepKeepsLettersLong(words: seq<string>, columns: nat, st: WrapState)
    requires columns >= 2 && st.next <= |words| && st.line == [] && ByteLen(st.word) > columns
    ensures KeepsLetters(words, st, StepOf(words, columns, st, false))
  {
    var sp := SplitAtByte(st.word, columns - 1);
    if sp.Some? {
      var p := sp.value;
      assert StepOf(words, columns, st, false) == Next(WrapState(st.next, p.1, [], st.lines + [p.0 + "-"]));
      SplitFirst(words, st, p.0, p.1);
    }
  }

  /** A pass with the last line kept loses no letter when the word fits the open line. */
  lemma StepKeepsLettersJoin(words: seq<string>, columns: nat, st: WrapState)
    requires columns >= 2 && st.next <= |words| && st.line != []
    requires ByteLen(st.line) + ByteLen(st.word) + 1 <= columns
    ensures KeepsLetters(words, st, StepOf(words, columns, st, false))
  {
    var total := ByteLen(st.line) + ByteLen(st.word) + 1;
    if st.next == |words| {
      JoinIsLast(words, columns, st);
    } else if total < columns {
      JoinKeepsLineOpen(words, columns, st);
    } else {
      JoinFillsLine(words, columns, st);
    }
  }

  lemma JoinIsLast(words: seq<string>, columns: nat, st: WrapState)
    requires columns >= 2 && st.next == |words| && st.line != []
    requires ByteLen(st.line) + ByteLen(st.word) + 1 <= columns
    ensures KeepsLetters(words, st, StepOf(words, columns, st, false))
  {
    var line := st.line + " " + st.word;
    assert StepOf(words, columns, st, false) == Done(Some(st.lines + [line]));
    JoinLetters(st.lines, st.line, st.word);
    Finish(words, st, st.lines + [line]);
  }

  lemma JoinKeepsLineOpen(words: seq<string>, columns: nat, st: WrapState)
    requires columns >= 2 && st.next < |words| && st.line != []
    requires ByteLen(st.line) + ByteLen(st.word) + 1 < columns
    ensures KeepsLetters(words, st, StepOf(words, columns, st, false))
  {
    var line := st.line + " " + st.word;
    assert StepOf(words, columns, st, false) == Next(WrapState(st.next + 1, words[st.next], line, st.lines));
    JoinLetters(st.lines, st.line, st.word);
    TakeWord(words, st, line, st.lines);
  }

  lemma JoinFillsLine(words: seq<string>, columns: nat, st: WrapState)
    requires columns >= 2 && st.next < |words| && st.line != []
    requires ByteLen(st.line) + ByteLen(st.word) + 1 == columns
    ensures KeepsLetters(words, st, StepOf(words, columns, st, false))
  {
    var line := st.line + " " + st.word;
    assert StepOf(words, columns, st, false) == Next(WrapState(st.next + 1, words[st.next], [], st.lines + [line]));
    JoinLetters(st.lines, st.line, st.word);
    TakeWord(words, st, [], st.lines + [line]);
  }

  /** A pass with the last line kept loses no letter when the word overflows the open line. */
  lemma StepKeepsLettersBreak(words: seq<string>, columns: nat, st: WrapState)
    requires columns >= 2 && st.next <= |words| && st.line != []
    requires ByteLen(st.line) + ByteLen(st.word) + 1 > columns
    ensures KeepsLetters(words, st, StepOf(words, columns, st, false))
  {
    if ByteLen(st.line) + 1 == columns || ByteLen(st.line) + 2 == columns {
      BreakEndsLine(words, columns, st);
    } else if ByteLen(st.line) + 2 < columns {
      BreakSplitsWord(words, columns, st);
    }
  }

  lemma BreakEndsLine(words: seq<string>, columns: nat, st: WrapState)
    requires columns >= 2 && st.next <= |words| && st.line != []
    requires ByteLen(st.line) + ByteLen(st.word) + 1 > columns
    requires ByteLen(st.line) + 1 == columns || ByteLen(st.line) + 2 == columns
    ensures KeepsLetters(words, st, StepOf(words, columns, st, false))
  {
    EndLineStep(words, columns, st, false);
    EndLineKeepsPending(words, st);
  }

  lemma EndLineStep(words: seq<string>, columns: nat, st: WrapState, dropLast: bool)
    requires columns >= 2 && st.next <= |words| && st.line != []
    requires ByteLen(st.line) + ByteLen(st.word) + 1 > columns
    requires ByteLen(st.line) + 1 == columns || ByteLen(st.line) + 2 == columns
    ensures StepOf(words, columns, st, dropLast) == Next(WrapState(st.next, st.word, [], st.lines + [st.line]))
  {
  }

  /** Ending the open line keeps the pending letters. */
  lemma EndLineKeepsPending(words: seq<string>, st: WrapState)
    requires st.next <= |words|
    ensures Pending(words, WrapState(st.next, st.word, [], st.lines + [st.line])) == Pending(words, st)
  {
    LettersFlattenOne(st.lines, st.line);
    assert Letters([]) == [];
  }

  lemma BreakSplitsWord(words: seq<string>, columns: nat, st: WrapState)
    requires columns >= 2 && st.next <= |words| && st.line != []
    requires ByteLen(st.line) + ByteLen(st.word) + 1 > columns && ByteLen(st.line) + 2 < columns
    ensures KeepsLetters(words, st, StepOf(words, columns, st, false))
  {
    var sp := SplitAtByte(st.word, columns - ByteLen(st.line) - 2);
    if sp.Some? {
      SplitOntoStep(words, columns, st, false, sp.value.0, sp.value.1);
      SplitOnto(words, st, sp.value.0, sp.value.1);
    } else {
      SplitOntoFails(words, columns, st, false);
    }
  }

  /** A word that cannot be split where the line ends makes the pass panic. */
  lemma SplitOntoFails(words: seq<string>, columns: nat, st: WrapState, dropLast: bool)
    requires columns >= 2 && st.next <= |words| && st.line != []
    requires ByteLen(st.line) + ByteLen(st.word) + 1 > columns && ByteLen(st.line) + 2 < columns
    requires SplitAtByte(st.word, columns - ByteLen(st.line) - 2).None?
    ensures StepOf(words, columns, st, dropLast) == Done(None)
  {
  }

  /** The loop with the last line kept loses no letter. */
  lemma {:induction false} RunKeepsLetters(words: seq<string>, columns: nat, st: WrapState)
    requires columns >= 2 && st.next <= |words|
    ensures Run(words, columns, st, false).Some? ==>
      Letters(Flatten(Run(words, columns, st, false).value)) == Pending(words, st)
    decreases |words| - st.next, |st.word|, if st.line == [] then 0 else 1
  {
    if st.line == [] && ByteLen(st.word) <= columns {
      StepKeepsLettersFirst(words, columns, st);
    } else if st.line == [] {
      StepKeepsLettersLong(words, columns, st);
    } else if ByteLen(st.line) + ByteLen(st.word) + 1 <= columns {
      StepKeepsLettersJoin(words, columns, st);
    } else {
      StepKeepsLettersBreak(words, columns, st);
    }
    var s := StepOf(words, columns, st, false);
    if s.Next? {
      RunKeepsLetters(words, columns, s.st);
    }
  }

  /** A state whose lines fit and whose open line leaves a column free. */
  predicate Fits(st: WrapState, columns: nat) {
    ByteLen(st.line) < columns && LinesFit(st.lines, columns)
  }

  lemma LinesFitAppend(lines: seq<string>, line: string, columns: nat)
    requires LinesFit(lines, columns) && ByteLen(line) <= columns
    ensures LinesFit(lines + [line], columns)
  {
    assert forall i :: 0 <= i < |lines| ==> (lines + [line])[i] == lines[i];
  }

  /** A pass on an empty line keeps every line within the columns. */
  lemma StepFitsFirst(words: seq<string>, columns: nat, st: WrapState, dropLast: bool)
    requires columns >= 2 && st.next <= |words| && Fits(st, columns) && st.line == []
    ensures var s := StepOf(words, columns, st, dropLast);
      && (s.Next? ==> Fits(s.st, columns))
      && (s.Done? && s.result.Some? ==> LinesFit(s.result.value, columns))
  {
    if ByteLen(st.word) <= columns {
      LinesFitAppend(st.lines, st.word, columns);
    } else {
      var sp := SplitAtByte(st.word, columns - 1);
      if sp.Some? {
        var p := sp.value;
        assert StepOf(words, columns, st, dropLast) == Next(WrapState(st.next, p.1, [], st.lines + [p.0 + "-"]));
        ByteLenConcat(p.0, "-");
        LinesFitAppend(st.lines, p.0 + "-", columns);
      }
    }
  }

  /** A pass on an open line keeps every line within the columns. */
  lemma StepFitsOpen(words: seq<string>, columns: nat, st: WrapState, dropLast: bool)
    requires columns >= 2 && st.next <= |words| && Fits(st, columns) && st.line != []
    ensures var s := StepOf(words, columns, st, dropLast);
      && (s.Next? ==> Fits(s.st, columns))
      && (s.Done? && s.result.Some? ==> LinesFit(s.result.value, columns))
  {
    ByteLenJoin(st.line, " ", st.word);
    if ByteLen(st.line + " " + st.word) <= columns {
      LinesFitAppend(st.lines, st.line + " " + st.word, columns);
    } else if ByteLen(st.line) + 1 == columns || ByteLen(st.line) + 2 == columns {
      EndLineStep(words, columns, st, dropLast);
      LinesFitAppend(st.lines, st.line, columns);
    } else if ByteLen(st.line) + 2 < columns {
      SplitOntoFits(words, columns, st, dropLast);
    }
  }

  /** A word split onto the open line fills it to the columns at most, hyphen included. */
  lemma SplitOntoFits(words: seq<string>, columns: nat, st: WrapState, dropLast: bool)
    requires columns >= 2 && st.next <= |words| && Fits(st, columns) && st.line != []
    requires ByteLen(st.line) + ByteLen(st.word) + 1 > columns && ByteLen(st.line) + 2 < columns
    ensures var s := StepOf(words, columns, st, dropLast);
      && (s.Next? ==> Fits(s.st, columns))
      && (s.Done? && s.result.Some? ==> LinesFit(s.result.value, columns))
  {
    var sp := SplitAtByte(st.word, columns - ByteLen(st.line) - 2);
    if sp.Some? {
      var p := sp.value;
      var split := st.line + " " + p.0 + "-";
      SplitOntoStep(words, columns, st, dropLast, p.0, p.1);
      ByteLenJoin(st.line, " ", p.0);
      ByteLenConcat(st.line + " " + p.0, "-");
      LinesFitAppend(st.lines, split, columns);
      assert Fits(WrapState(st.next, p.1, [], st.lines + [split]), columns);
    } else {
      SplitOntoFails(words, columns, st, dropLast);
    }
  }

  lemma SplitOntoStep(words: seq<string>, columns: nat, st: WrapState, dropLast: bool, p0: string, p1: string)
    requires columns >= 2 && st.next <= |words| && st.line != []
    requires ByteLen(st.line) + ByteLen(st.word) + 1 > columns && ByteLen(st.line) + 2 < columns
    requires SplitAtByte(st.word, columns - ByteLen(st.line) - 2) == Some((p0, p1))
    ensures StepOf(words, columns, st, dropLast) == Next(WrapState(st.next, p1, [], st.lines + [st.line + " " + p0 + "-"]))
  {
  }

  /** The loop never produces a line wider than the columns. */
  lemma {:induction false} RunFits(words: seq<string>, columns: nat, st: WrapState, dropLast: bool)
    requires columns >= 2 && st.next <= |words| && Fits(st, columns)
    ensures Run(words, columns, st, dropLast).Some? ==> LinesFit(Run(words, columns, st, dropLast).value, columns)
    decreases |words| - st.next, |st.word|, if st.line == [] then 0 else 1
  {
    if st.line == [] {
      StepFitsFirst(words, columns, st, dropLast);
    } else {
      StepFitsOpen(words, columns, st, dropLast);
    }
    var s := StepOf(words, columns, st, dropLast);
    if s.Next? {
      RunFits(words, columns, s.st, dropLast);
    }
  }

  lemma AsciiSuffix(w: string, k: nat)
    requires k <= |w| && IsAscii(w)
    ensures IsAscii(w[k..])
  {
    forall i | 0 <= i < |w| - k
      ensures w[k..][i] as int < 0x80
    {
      assert w[k..][i] == w[k + i];
    }
  }

  lemma AllAsciiRest(words: seq<string>, i: nat)
    requires i < |words| && AllAscii(words[i..])
    ensures IsAscii(words[i]) && AllAscii(words[i + 1..])
  {
    assert words[i] == words[i..][0];
    assert words[i + 1..] == words[i..][1..];
  }

  /** A state on ASCII words whose open line leaves a column free. */
  predicate AsciiState(words: seq<string>, st: WrapState, columns: nat)
    requires st.next <= |words|
  {
    IsAscii(st.word) && AllAscii(words[st.next..]) && ByteLen(st.line) < columns
  }

  /** On ASCII words a pass on an empty line never panics and keeps to ASCII. */
  lemma StepAsciiFirst(words: seq<string>, columns: nat, st: WrapState, dropLast: bool)
    requires columns >= 2 && st.next <= |words| && AsciiState(words, st, columns) && st.line == []
    ensures var s := StepOf(words, columns, st, dropLast);
      && (s.Next? ==> AsciiState(words, s.st, columns))
      && (s.Done? ==> s.result.Some?)
  {
    if ByteLen(st.word) <= columns {
      if st.next < |words| {
        AllAsciiRest(words, st.next);
      }
    } else {
      var p := SplitAtByte(st.word, columns - 1).value;
      assert StepOf(words, columns, st, dropLast) == Next(WrapState(st.next, p.1, [], st.lines + [p.0 + "-"]));
      assert p.1 == st.word[|p.0|..];
      AsciiSuffix(st.word, |p.0|);
    }
  }

  /** On ASCII words a pass on an open line never panics and keeps to ASCII. */
  lemma StepAsciiOpen(words: seq<string>, columns: nat, st: WrapState, dropLast: bool)
    requires columns >= 2 && st.next <= |words| && AsciiState(words, st, columns) && st.line != []
    ensures var s := StepOf(words, columns, st, dropLast);
      && (s.Next? ==> AsciiState(words, s.st, columns))
      && (s.Done? ==> s.result.Some?)
  {
    var line := st.line + " " + st.word;
    ByteLenJoin(st.line, " ", st.word);
    if ByteLen(line) <= columns {
      if st.next < |words| {
        AllAsciiRest(words, st.next);
      }
    } else if ByteLen(st.line) + 2 < columns {
      var p := SplitAtByte(st.word, columns - ByteLen(st.line) - 2).value;
      assert StepOf(words, columns, st, dropLast) == Next(WrapState(st.next, p.1, [], st.lines + [st.line + " " + p.0 + "-"]));
      assert p.1 == st.word[|p.0|..];
      AsciiSuffix(st.word, |p.0|);
    }
  }

  /** On ASCII words the loop never panics. */
  lemma {:induction false} RunAsciiTotal(words: seq<string>, columns: nat, st: WrapState, dropLast: bool)
    requires columns >= 2 && st.next <= |words| && AsciiState(words, st, columns)
    ensures Run(words, columns, st, dropLast).Some?
    decreases |words| - st.next, |st.word|, if st.line == [] then 0 else 1
  {
    if st.line == [] {
      StepAsciiFirst(words, columns, st, dropLast);
    } else {
      StepAsciiOpen(words, columns, st, dropLast);
    }
    var s := StepOf(words, columns, st, dropLast);
    if s.Next? {
      RunAsciiTotal(words, columns, s.st, dropLast);
    }
  }

  /** The source's pass differs from the corrected one only by leaving out the open line at the end. */
  lemma StepDropsAtMostLast(words: seq<string>, columns: nat, st: WrapState)
    requires columns >= 2 && st.next <= |words|
    ensures var a := StepOf(words, columns, st, true);
      var b := StepOf(words, columns, st, false);
      a.Next? <==> b.Next?
    ensures var a := StepOf(words, columns, st, true);
      var b := StepOf(words, columns, st, false);
      && (a.Next? ==> a == b)
      && (a.Done? ==> a.result.Some? == b.result.Some?)
      && (a.Done? && a.result.Some? ==>
            a.result == b.result || a.result.value + [b.result.value[|b.result.value| - 1]] == b.result.value)
  {
  }

  /**
   * The loop as written yields the corrected loop's lines, save at most
   * the last one: it panics exactly when the corrected loop does.
   */
  lemma {:induction false} RunDropsAtMostLast(words: seq<string>, columns: nat, st: WrapState)
    requires columns >= 2 && st.next <= |words|
    ensures Run(words, columns, st, true).Some? <==> Run(words, columns, st, false).Some?
    ensures Run(words, columns, st, true).Some? ==>
      var a := Run(words, columns, st, true).value;
      var b := Run(words, columns, st, false).value;
      a == b || (b != [] && a == b[..|b| - 1])
    decreases |words| - st.next, |st.word|, if st.line == [] then 0 else 1
  {
    StepDropsAtMostLast(words, columns, st);
    var s := StepOf(words, columns, st, true);
    if s.Next? {
      RunDropsAtMostLast(words, columns, s.st);
    } else if s.result.Some? {
      var b := StepOf(words, columns, st, false).result.value;
      if s.result.value != b {
        assert s.result.value == b[..|b| - 1];
      }
    }
  }

  /** Every character of every word as a line of its own. */
  function Chars(w: string): (r: seq<string>)
    ensures |r| == |w|
    ensures forall k :: 0 <= k < |w| ==> r[k] == [w[k]]
  {
    seq(|w|, k requires 0 <= k < |w| => [w[k]])
  }

  /** The one-column layout: each character its own line, a single space between words. */
  function Column(words: seq<string>): seq<string> {
    if words == [] then []
    else if |words| == 1 then Chars(words[0])
    else Column(words[..|words| - 1]) + [" "] + Chars(words[|words| - 1])
  }

  lemma {:induction false} FlattenChars(w: string)
    ensures Flatten(Chars(w)) == w
  {
    if w != [] {
      var front := w[..|w| - 1];
      assert Chars(w) == Chars(front) + [[w[|w| - 1]]];
      FlattenChars(front);
      assert w == front + [w[|w| - 1]];
    }
  }

  /** Every line of the one-column layout is one character. */
  lemma {:induction false} ColumnWidths(words: seq<string>)
    ensures forall i :: 0 <= i < |Column(words)| ==> |Column(words)[i]| == 1
  {
    if |words| > 1 {
      var front := words[..|words| - 1];
      ColumnWidths(front);
      var c := Column(front) + [" "] + Chars(words[|words| - 1]);
      assert forall i :: 0 <= i < |Column(front)| ==> c[i] == Column(front)[i];
      assert forall i :: |Column(front)| < i < |c| ==> c[i] == Chars(words[|words| - 1])[i - |Column(front)| - 1];
    }
  }

  /** The one-column layout keeps every letter. */
  lemma {:induction false} ColumnLetters(words: seq<string>)
    ensures Letters(Flatten(Column(words))) == Letters(Flatten(words))
  {
    if |words| == 1 {
      FlattenChars(words[0]);
      assert words == [] + [words[0]];
      LettersFlattenOne([], words[0]);
    } else if |words| > 1 {
      ColumnLetters(words[..|words| - 1]);
      ColumnLettersStep(words);
    }
  }

  /** The last word's characters, after a blank line, add that word's letters. */
  lemma ColumnLettersStep(words: seq<string>)
    requires |words| > 1
    requires Letters(Flatten(Column(words[..|words| - 1]))) == Letters(Flatten(words[..|words| - 1]))
    ensures Letters(Flatten(Column(words))) == Letters(Flatten(words))
  {
    ColumnLettersOfLast(words);
    assert Flatten(words) == Flatten(words[..|words| - 1]) + words[|words| - 1];
    LettersConcat(Flatten(words[..|words| - 1]), words[|words| - 1]);
  }

  lemma ColumnLettersOfLast(words: seq<string>)
    requires |words| > 1
    ensures Letters(Flatten(Column(words))) == Letters(Flatten(Column(words[..|words| - 1]))) + Letters(words[|words| - 1])
  {
    var front := words[..|words| - 1];
    var last := words[|words| - 1];
    assert Column(words) == (Column(front) + [" "]) + Chars(last);
    FlattenChars(last);
    LettersFlattenConcat(Column(front) + [" "], Chars(last));
    LettersFlattenOne(Column(front), " ");
    assert Letters(" ") == [] by { assert " "[..0] == []; }
  }

  /** The options each line is padded with: the full width, the alignment and a space. */
  function LineOptions(columns: nat, align: Align): (r: PadOptions)
    ensures r == PadOptions(columns, align, " ")
  {
    NewPadOptionsBuilder().Width(columns).WithAlign(align).Build().value
  }

  function PadAll(lines: seq<string>, columns: nat, align: Align): (r: seq<string>)
    ensures |r| == |lines|
    ensures forall i :: 0 <= i < |lines| ==> r[i] == PadTo(lines[i], LineOptions(columns, align))
  {
    seq(|lines|, i requires 0 <= i < |lines| => PadTo(lines[i], LineOptions(columns, align)))
  }

  lemma LettersAround(s: string, a: nat, b: nat)
    ensures Letters(Spaces(a) + s + Spaces(b)) == Letters(s)
  {
    LettersSpaces(a);
    LettersSpaces(b);
    LettersConcat(Spaces(a), s);
    LettersConcat(Spaces(a) + s, Spaces(b));
  }

  /** Padding with spaces adds no letters. */
  lemma PaddedLetters(s: string, columns: nat, align: Align)
    ensures Letters(PadTo(s, LineOptions(columns, align))) == Letters(s)
  {
    assert SideOptionsOf(LineOptions(columns, align)) == SideOptions(columns, " ");
    match align
    case Left => PaddedLettersLeft(s, columns);
    case Right => PaddedLettersRight(s, columns);
    case Center => PaddedLettersCenter(s, columns);
  }

  lemma PaddedLettersLeft(s: string, columns: nat)
    ensures Letters(PadTo(s, LineOptions(columns, Left))) == Letters(s)
  {
    var n := PadCount(columns, s);
    assert SideOptionsOf(LineOptions(columns, Left)) == SideOptions(columns, " ");
    LeftSpaces(s, columns);
    assert s + Spaces(n) == Spaces(0) + s + Spaces(n);
    LettersAround(s, 0, n);
  }

  lemma PaddedLettersRight(s: string, columns: nat)
    ensures Letters(PadTo(s, LineOptions(columns, Right))) == Letters(s)
  {
    var n := PadCount(columns, s);
    assert SideOptionsOf(LineOptions(columns, Right)) == SideOptions(columns, " ");
    RightSpaces(s, columns);
    assert Spaces(n) + s == Spaces(n) + s + Spaces(0);
    LettersAround(s, n, 0);
  }

  lemma PaddedLettersCenter(s: string, columns: nat)
    ensures Letters(PadTo(s, LineOptions(columns, Center))) == Letters(s)
  {
    var n := PadCount(columns, s);
    var a, b := n / 2, n - n / 2;
    assert PadTo(s, LineOptions(columns, Center)) == Spaces(a) + s + Spaces(b) by {
      assert SideOptionsOf(LineOptions(columns, Center)) == SideOptions(columns, " ");
      CenterSpaces(s, columns);
    }
    LettersAround(s, a, b);
  }

  /** Lists whose strings have the same letters one by one have the same letters overall. */
  lemma {:induction false} FlattenSameLetters(a: seq<string>, b: seq<string>)
    requires |a| == |b| && forall i :: 0 <= i < |a| ==> Letters(a[i]) == Letters(b[i])
    ensures Letters(Flatten(a)) == Letters(Flatten(b))
  {
    if a != [] {
      var n := |a| - 1;
      FlattenSameLetters(a[..n], b[..n]);
      assert a == a[..n] + [a[n]] && b == b[..n] + [b[n]];
      LettersFlattenOne(a[..n], a[n]);
      LettersFlattenOne(b[..n], b[n]);
    }
  }

  lemma PadAllLetters(lines: seq<string>, columns: nat, align: Align)
    ensures Letters(Flatten(PadAll(lines, columns, align))) == Letters(Flatten(lines))
  {
    var padded := PadAll(lines, columns, align);
    forall i | 0 <= i < |lines|
      ensures Letters(padded[i]) == Letters(lines[i])
    {
      PaddedLetters(lines[i], columns, align);
    }
    FlattenSameLetters(padded, lines);
  }

  /**
   * `Yarn::wrapped(text, columns, align)`, the lines' characters: nothing for
   * empty or blank text or no columns; one character per line in one column;
   * otherwise the loop's lines, each padded to the width. With `dropLast`
   * the loop is the source's as written (see `Run`).
   */
  function WrapWith(text: string, columns: nat, align: Align, dropLast: bool): Option<seq<string>> {
    if text == [] || AllWhitespace(text) || columns == 0 then Some([])
    else
      var words := Words(text);
      WordsProps(text);
      if columns == 1 then Some(Column(words))
      else
        match Run(words, columns, WrapState(1, words[0], [], []), dropLast)
        case None => None
        case Some(lines) => Some(PadAll(lines, columns, align))
  }

  /** `Yarn::wrapped` with the last open line kept, the layout the rest of the model uses. */
  function Wrap(text: string, columns: nat, align: Align): Option<seq<string>> {
    WrapWith(text, columns, align, false)
  }

  /** `Yarn::wrapped` as the source writes it. */
  function WrapAsWritten(text: string, columns: nat, align: Align): Option<seq<string>> {
    WrapWith(text, columns, align, true)
  }

  /** Blank text or no columns gives no lines. */
  lemma WrapBlank(text: string, columns: nat, align: Align)
    ensures text == [] || AllWhitespace(text) || columns == 0 ==> Wrap(text, columns, align) == Some([])
  {
  }

  /** Wrapping into one or more columns loses no letter of the text. */
  lemma WrapKeepsLetters(text: string, columns: nat, align: Align)
    ensures columns >= 1 && Wrap(text, columns, align).Some? ==>
      Letters(Flatten(Wrap(text, columns, align).value)) == Letters(text)
  {
    WordsProps(text);
    if text == [] || AllWhitespace(text) || columns == 0 {
      if AllWhitespace(text) {
        LettersBlank(text);
      }
    } else {
      var words := Words(text);
      if columns == 1 {
        ColumnLetters(words);
      } else {
        RunLettersOfWords(words, columns, align);
      }
    }
  }

  /** The pass over the words, padded, keeps the letters of all the words. */
  lemma RunLettersOfWords(words: seq<string>, columns: nat, align: Align)
    requires columns >= 2 && |words| > 0
    ensures Run(words, columns, WrapState(1, words[0], [], []), false).Some? ==>
      Letters(Flatten(PadAll(Run(words, columns, WrapState(1, words[0], [], []), false).value, columns, align))) == Letters(Flatten(words))
  {
    var st := WrapState(1, words[0], [], []);
    assert words[0..] == words;
    LettersRest(words, 0);
    assert Flatten([]) == [] && Letters([]) == [];
    assert Pending(words, st) == Letters(Flatten(words));
    RunKeepsLetters(words, columns, st);
    var r := Run(words, columns, st, false);
    if r.Some? {
      PadAllLetters(r.value, columns, align);
    }
  }

  /** On two or more columns every line is exactly the width; in one column every line is one character. */
  lemma WrapWidths(text: string, columns: nat, align: Align)
    ensures Wrap(text, columns, align).Some? && columns >= 2 ==>
      forall i :: 0 <= i < |Wrap(text, columns, align).value| ==> ByteLen(Wrap(text, columns, align).value[i]) == columns
    ensures Wrap(text, columns, align).Some? && columns == 1 ==>
      forall i :: 0 <= i < |Wrap(text, columns, align).value| ==> |Wrap(text, columns, align).value[i]| == 1
  {
    if !(text == [] || AllWhitespace(text) || columns == 0) {
      WordsProps(text);
      var words := Words(text);
      if columns == 1 {
        ColumnWidths(words);
      } else {
        var st := WrapState(1, words[0], [], []);
        RunFits(words, columns, st, false);
        var r := Run(words, columns, st, false);
        if r.Some? {
          forall i | 0 <= i < |r.value|
            ensures ByteLen(PadAll(r.value, columns, align)[i]) == columns
          {
            PadPlacesString(r.value[i], LineOptions(columns, align));
          }
        }
      }
    }
  }

  /** ASCII text never makes the wrapping panic. */
  lemma WrapAsciiTotal(text: string, columns: nat, align: Align)
    ensures IsAscii(text) ==> Wrap(text, columns, align).Some?
  {
    if IsAscii(text) && !(text == [] || AllWhitespace(text) || columns <= 1) {
      WordsProps(text);
      var words := Words(text);
      assert words[0..] == words;
      AllAsciiRest(words, 0);
      RunAsciiTotal(words, columns, WrapState(1, words[0], [], []), false);
    }
  }

  /**
   * The source's wrapping gives the corrected lines save at most the last
   * one, and panics exactly when the corrected wrapping does.
   */
  lemma WrapAsWrittenDropsAtMostLast(text: string, columns: nat, align: Align)
    ensures WrapAsWritten(text, columns, align).Some? <==> Wrap(text, columns, align).Some?
    ensures WrapAsWritten(text, columns, align).Some? ==>
      var a := WrapAsWritten(text, columns, align).value;
      var b := Wrap(text, columns, align).value;
      a == b || (b != [] && a == b[..|b| - 1])
  {
    if !(text == [] || AllWhitespace(text) || columns <= 1) {
      WordsProps(text);
      var words := Words(text);
      var st := WrapState(1, words[0], [], []);
      RunDropsAtMostLast(words, columns, st);
      var ra := Run(words, columns, st, true);
      var rb := Run(words, columns, st, false);
      if ra.Some? && ra.value != rb.value {
        PadAllPrefix(rb.value, columns, align);
      }
    }
  }

  /** Padding the lines but the last gives the padded lines but the last. */
  lemma PadAllPrefix(lines: seq<string>, columns: nat, align: Align)
    requires lines != []
    ensures PadAll(lines[..|lines| - 1], columns, align) == PadAll(lines, columns, align)[..|lines| - 1]
  {
  }

  lemma {:induction false} LettersBlank(s: string)
    requires AllWhitespace(s)
    ensures Letters(s) == []
  {
    if s != [] {
      LettersBlank(s[..|s| - 1]);
    }
  }

  /** The one-column part of `Yarn::wrapped`: every character its own line, a space line between words. */
  method ColumnLines(words: seq<string>) returns (yarns: seq<string>)
    requires words != []
    ensures yarns == Column(words)
  {
    var word := words[0];
    var next := 1;
    yarns := [];
    while true
      invariant 1 <= next <= |words| && word == words[next - 1]
      invariant yarns == if next == 1 then [] else Column(words[..next - 1]) + [" "]
      decreases |words| - next
    {
      var before := yarns;
      for j := 0 to |word|
        invariant yarns == before + Chars(word[..j])
      {
        assert Chars(word[..j + 1]) == Chars(word[..j]) + [[word[j]]];
        yarns := yarns + [[word[j]]];
      }
      assert word[..|word|] == word;
      assert yarns == Column(words[..next]) by {
        assert words[..next][..next - 1] == words[..next - 1];
        if next == 1 {
          assert words[..next] == [word];
        }
      }
      if next < |words| {
        yarns := yarns + [" "];
        word := words[next];
        next := next + 1;
      } else {
        assert words[..next] == words;
        break;
      }
    }
  }

  /**
   * The multi-column loop of `Yarn::wrapped`, with the last open line kept:
   * the unpadded lines, or `None` where the source panics.
   */
  method WrapLines(words: seq<string>, columns: nat) returns (r: Option<seq<string>>)
    requires words != [] && columns >= 2
    ensures r == Run(words, columns, WrapState(1, words[0], [], []), false)
  {
    var word := words[0];
    var next := 1;
    ghost var start := WrapState(1, words[0], [], []);
    var strings: seq<string> := [];
    var line: string := [];
    while true
      invariant 1 <= next <= |words|
      invariant Run(words, columns, WrapState(next, word, line, strings), false) == Run(words, columns, start, false)
      decreases |words| - next, |word|, if line == [] then 0 else 1
    {
      ghost var cur := WrapState(next, word, line, strings);
      if line == [] {
        var n := ByteLen(word);
        if n < columns {
          if next < |words| {
            line := word;
            word := words[next];
            next := next + 1;
            assert StepOf(words, columns, cur, false) == Next(WrapState(next, word, line, strings));
            continue;
          } else {
            strings := strings + [word];
            assert StepOf(words, columns, cur, false) == Done(Some(strings));
            break;
          }
        } else if n == columns {
          strings := strings + [word];
          if next < |words| {
            word := words[next];
            next := next + 1;
            assert StepOf(words, columns, cur, false) == Next(WrapState(next, word, [], strings));
            continue;
          } else {
            assert StepOf(words, columns, cur, false) == Done(Some(strings));
            break;
          }
        } else {
          var split := SplitAtByte(word, columns - 1);
          if split.None? {
            assert StepOf(words, columns, cur, false) == Done(None);
            return None;
          }
          assert split.value.0 != [];
          strings := strings + [split.value.0 + "-"];
          word := split.value.1;
          assert StepOf(words, columns, cur, false) == Next(WrapState(next, word, [], strings));
          continue;
        }
      }

      var total := ByteLen(line) + ByteLen(word) + 1;
      if total < columns {
        line := line + " " + word;
        if next < |words| {
          word := words[next];
          next := next + 1;
          assert StepOf(words, columns, cur, false) == Next(WrapState(next, word, line, strings));
        } else {
          strings := strings + [line];
          assert StepOf(words, columns, cur, false) == Done(Some(strings));
          break;
        }
      } else if total == columns {
        strings := strings + [line + " " + word];
        line := [];
        if next < |words| {
          word := words[next];
          next := next + 1;
          assert StepOf(words, columns, cur, false) == Next(WrapState(next, word, [], strings));
        } else {
          assert StepOf(words, columns, cur, false) == Done(Some(strings));
          break;
        }
      } else {
        if ByteLen(line) + 1 == columns || ByteLen(line) + 2 == columns {
          strings := strings + [line];
          line := [];
          assert StepOf(words, columns, cur, false) == Next(WrapState(next, word, [], strings));
          continue;
        }
        if ByteLen(line) + 2 > columns {
          assert StepOf(words, columns, cur, false) == Done(None);
          return None;
        }
        var split := SplitAtByte(word, columns - ByteLen(line) - 2);
        if split.None? {
          assert StepOf(words, columns, cur, false) == Done(None);
          return None;
        }
        assert split.value.0 != [];
        strings := strings + [line + " " + split.value.0 + "-"];
        line := [];
        word := split.value.1;
        assert StepOf(words, columns, cur, false) == Next(WrapState(next, word, [], strings));
      }
    }
    return Some(strings);
  }

  /** `Yarn::wrapped`, with the last open line kept: the lines' characters. */
  method Wrapped(text: string, columns: nat, align: Align) returns (r: Option<seq<string>>)
    ensures r == Wrap(text, columns, align)
  {
    if text == [] || AllWhitespace(text) || columns == 0 {
      return Some([]);
    }
    var words := Words(text);
    WordsProps(text);
    if columns == 1 {
      var yarns := ColumnLines(words);
      return Some(yarns);
    }
    var lines := WrapLines(words, columns);
    if lines.None? {
      return None;
    }
    return Some(PadAll(lines.value, columns, align));
  }

  /**
   * Two words that fit on one line are lost as the source writes it: the
   * open line is never pushed.
   */
  lemma WrapDropsLastLine()
    ensures WrapAsWritten("a b", 6, Center) == Some([])
    ensures Wrap("a b", 6, Center) == Some([" a b  "])
  {
    var text := "a b";
    assert !AllWhitespace(text) by { assert !IsWhitespace(text[0]); }
    WordsOfAB();
    RunOfAB();
    assert PadAll(["a b"], 6, Center) == [" a b  "] by {
      PadOfAB();
    }
  }

  lemma WordsOfAB()
    ensures Words("a b") == ["a", "b"]
  {
    assert WordsFrom("b", []) == WordsFrom([], "b") by {
      assert "b"[1..] == [] && [] + ['b'] == "b";
    }
    assert WordsFrom(" b", "a") == ["a"] + WordsFrom("b", []) by {
      assert " b"[1..] == "b";
    }
    assert WordsFrom("a b", []) == WordsFrom(" b", "a") by {
      assert "a b"[1..] == " b" && [] + ['a'] == "a";
    }
  }

  lemma RunOfAB()
    ensures Run(["a", "b"], 6, WrapState(1, "a", [], []), true) == Some([])
    ensures Run(["a", "b"], 6, WrapState(1, "a", [], []), false) == Some(["a b"])
  {
    var words := ["a", "b"];
    assert ByteLen("a") == 1 && ByteLen("b") == 1;
    var first := WrapState(1, "a", [], []);
    var second := WrapState(2, "b", "a", []);
    assert StepOf(words, 6, first, true) == Next(second);
    assert StepOf(words, 6, first, false) == Next(second);
    assert StepOf(words, 6, second, true) == Done(Some([]));
    var none: seq<string> := [];
    assert "a" + " " + "b" == "a b";
    assert none + ["a b"] == ["a b"];
    assert StepOf(words, 6, second, false) == Done(Some(["a b"]));
  }

  lemma PadOfAB()
    ensures PadTo("a b", LineOptions(6, Center)) == " a b  "
  {
    CenteredAB();
    assert Spaces(1) == " " && Spaces(2) == "  ";
  }

  lemma CenteredAB()
    ensures PadTo("a b", LineOptions(6, Center)) == Spaces(1) + "a b" + Spaces(2)
  {
    assert SideOptionsOf(LineOptions(6, Center)) == SideOptions(6, " ");
    assert ByteLen("a b") == 3;
    CenterSpaces("a b", 6);
  }

  /** A run with no whitespace is one word. */
  lemma {:induction false} WordsNoSpace(s: string, cur: string)
    requires cur + s != [] && forall i :: 0 <= i < |s| ==> !IsWhitespace(s[i])
    ensures WordsFrom(s, cur) == [cur + s]
    decreases |s|
  {
    if s == [] {
      assert cur + s == cur;
    } else {
      assert !IsWhitespace(s[0]);
      assert cur + [s[0]] + s[1..] == cur + s;
      assert forall i :: 0 <= i < |s[1..]| ==> s[1..][i] == s[i + 1];
      WordsNoSpace(s[1..], cur + [s[0]]);
    }
  }

  /** A word too long for the line is hyphenated: "foobar" in four columns. */
  lemma HyphenateExample()
    ensures Wrap("foobar", 4, Center) == Some(["foo-", "bar "])
    ensures WrapAsWritten("foobar", 4, Center) == Some(["foo-", "bar "])
  {
    assert !AllWhitespace("foobar") by { assert !IsWhitespace("foobar"[0]); }
    OneWord("foobar");
    HyphenateRun(true);
    HyphenateRun(false);
    HyphenatePad();
  }

  lemma HyphenateRun(dropLast: bool)
    ensures Run(["foobar"], 4, WrapState(1, "foobar", [], []), dropLast) == Some(["foo-", "bar"])
  {
    var words := ["foobar"];
    var second := WrapState(1, "bar", [], ["foo-"]);
    HyphenateFirstStep(dropLast);
    assert ByteLen("bar") == 3;
    assert ["foo-"] + ["bar"] == ["foo-", "bar"];
    assert StepOf(words, 4, second, dropLast) == Done(Some(["foo-", "bar"]));
  }

  lemma HyphenateFirstStep(dropLast: bool)
    ensures StepOf(["foobar"], 4, WrapState(1, "foobar", [], []), dropLast) == Next(WrapState(1, "bar", [], ["foo-"]))
  {
    assert ByteLen("foobar") == 6;
    SplitFoobar();
    var none: seq<string> := [];
    assert "foo" + "-" == "foo-" && none + ["foo-"] == ["foo-"];
  }

  lemma SplitFoobar()
    ensures SplitAtByte("foobar", 3) == Some(("foo", "bar"))
  {
    assert "foobar"[1..] == "oobar" && "oobar"[1..] == "obar" && "obar"[1..] == "bar";
    assert SplitAtByte("obar", 1) == Some(("o", "bar")) by { assert ['o'] + [] == "o"; }
    assert SplitAtByte("oobar", 2) == Some(("oo", "bar")) by { assert ['o'] + "o" == "oo"; }
    assert ['f'] + "oo" == "foo";
  }

  lemma HyphenatePad()
    ensures PadAll(["foo-", "bar"], 4, Center) == ["foo-", "bar "]
  {
    PadFooHyphen();
    PadBar();
  }

  lemma PadFooHyphen()
    ensures PadTo("foo-", LineOptions(4, Center)) == "foo-"
  {
    assert SideOptionsOf(LineOptions(4, Center)) == SideOptions(4, " ");
    assert ByteLen("foo-") == 4;
    CenterSpaces("foo-", 4);
  }

  lemma PadBar()
    ensures PadTo("bar", LineOptions(4, Center)) == "bar "
  {
    assert SideOptionsOf(LineOptions(4, Center)) == SideOptions(4, " ");
    assert ByteLen("bar") == 3;
    CenterSpaces("bar", 4);
    assert Spaces(1) == " ";
  }

  /** One column: each character its own line. */
  lemma OneColumnExample()
    ensures Wrap("foo", 1, Center) == Some(["f", "o", "o"])
  {
    assert !AllWhitespace("foo") by { assert !IsWhitespace("foo"[0]); }
    OneWord("foo");
    CharsOfFoo();
  }

  /** Text without whitespace is one word. */
  lemma OneWord(w: string)
    requires w != [] && forall i :: 0 <= i < |w| ==> !IsWhitespace(w[i])
    ensures Words(w) == [w]
  {
    WordsNoSpace(w, []);
    assert [] + w == w;
  }

  lemma CharsOfFoo()
    ensures Column(["foo"]) == ["f", "o", "o"]
  {
    var c := Chars("foo");
    assert c[0] == "f" && c[1] == "o" && c[2] == "o";
  }

  /** The words collected so far take in a run with no whitespace. */
  lemma {:induction false} WordsCollect(w: string, s: string, cur: string)
    requires forall i :: 0 <= i < |w| ==> !IsWhitespace(w[i])
    ensures WordsFrom(w + s, cur) == WordsFrom(s, cur + w)
    decreases |w|
  {
    if w == [] {
      assert w + s == s && cur + w == cur;
    } else {
      assert (w + s)[0] == w[0] && (w + s)[1..] == w[1..] + s;
      assert forall i :: 0 <= i < |w[1..]| ==> w[1..][i] == w[i + 1];
      WordsCollect(w[1..], s, cur + [w[0]]);
      assert cur + [w[0]] + w[1..] == cur + w;
    }
  }

  /** A word followed by a space is the first word, and the words of the rest follow. */
  lemma WordThenSpace(w: string, rest: string)
    requires w != [] && forall i :: 0 <= i < |w| ==> !IsWhitespace(w[i])
    ensures Words(w + " " + rest) == [w] + Words(rest)
  {
    WordsCollect(w, " " + rest, []);
    assert w + " " + rest == w + (" " + rest);
    assert (" " + rest)[1..] == rest;
    assert [] + w == w;
  }

  /**
   * The source's multi-word example, "a man a plan a canal panama", built
   * word by word, and the lines it wraps to in six columns.
   */
  const CANAL_TEXT := "a" + " " + ("man" + " " + ("a" + " " + ("plan" + " " + ("a" + " " + ("canal" + " " + "panama")))))
  const CANAL_WORDS: seq<string> := ["a", "man", "a", "plan", "a", "canal", "panama"]
  const CANAL_LINES: seq<string> := ["a man", "a plan", "a can-", "al pa-", "nama"]

  lemma CanalWords()
    ensures Words(CANAL_TEXT) == CANAL_WORDS
  {
    OneWord("panama");
    WordThenSpace("canal", "panama");
    WordThenSpace("a", "canal" + " " + "panama");
    WordThenSpace("plan", "a" + " " + ("canal" + " " + "panama"));
    WordThenSpace("a", "plan" + " " + ("a" + " " + ("canal" + " " + "panama")));
    WordThenSpace("man", "a" + " " + ("plan" + " " + ("a" + " " + ("canal" + " " + "panama"))));
    WordThenSpace("a", "man" + " " + ("a" + " " + ("plan" + " " + ("a" + " " + ("canal" + " " + "panama")))));
  }

  /** A pass that goes on leaves the lines of the loop unchanged. */
  lemma RunStep(words: seq<string>, columns: nat, st: WrapState, st': WrapState, dropLast: bool)
    requires columns >= 2 && st.next <= |words|
    requires StepOf(words, columns, st, dropLast) == Next(st')
    ensures Run(words, columns, st, dropLast) == Run(words, columns, st', dropLast)
  {
  }

  lemma CanalStep1(dropLast: bool)
    ensures Run(CANAL_WORDS, 6, WrapState(1, "a", [], []), dropLast)
      == Run(CANAL_WORDS, 6, WrapState(2, "man", "a", []), dropLast)
  {
    assert ByteLen("a") == 1;
    RunStep(CANAL_WORDS, 6, WrapState(1, "a", [], []), WrapState(2, "man", "a", []), dropLast);
  }

  lemma CanalStep2(dropLast: bool)
    ensures Run(CANAL_WORDS, 6, WrapState(2, "man", "a", []), dropLast)
      == Run(CANAL_WORDS, 6, WrapState(3, "a", "a man", []), dropLast)
  {
    assert ByteLen("a") == 1 && ByteLen("man") == 3;
    assert "a" + " " + "man" == "a man";
    RunStep(CANAL_WORDS, 6, WrapState(2, "man", "a", []), WrapState(3, "a", "a man", []), dropLast);
  }

  lemma CanalStep3(dropLast: bool)
    ensures Run(CANAL_WORDS, 6, WrapState(3, "a", "a man", []), dropLast)
      == Run(CANAL_WORDS, 6, WrapState(3, "a", [], ["a man"]), dropLast)
  {
    var none: seq<string> := [];
    assert ByteLen("a") == 1 && ByteLen("a man") == 5;
    assert none + ["a man"] == ["a man"];
    RunStep(CANAL_WORDS, 6, WrapState(3, "a", "a man", []), WrapState(3, "a", [], ["a man"]), dropLast);
  }

  lemma CanalStep4(dropLast: bool)
    ensures Run(CANAL_WORDS, 6, WrapState(3, "a", [], ["a man"]), dropLast)
      == Run(CANAL_WORDS, 6, WrapState(4, "plan", "a", ["a man"]), dropLast)
  {
    assert ByteLen("a") == 1;
    RunStep(CANAL_WORDS, 6, WrapState(3, "a", [], ["a man"]), WrapState(4, "plan", "a", ["a man"]), dropLast);
  }

  lemma CanalStep5(dropLast: bool)
    ensures Run(CANAL_WORDS, 6, WrapState(4, "plan", "a", ["a man"]), dropLast)
      == Run(CANAL_WORDS, 6, WrapState(5, "a", [], ["a man", "a plan"]), dropLast)
  {
    assert ByteLen("a") == 1 && ByteLen("plan") == 4;
    assert "a" + " " + "plan" == "a plan" && ["a man"] + ["a plan"] == ["a man", "a plan"];
    RunStep(CANAL_WORDS, 6, WrapState(4, "plan", "a", ["a man"]), WrapState(5, "a", [], ["a man", "a plan"]), dropLast);
  }

  lemma CanalStep6(dropLast: bool)
    ensures Run(CANAL_WORDS, 6, WrapState(5, "a", [], ["a man", "a plan"]), dropLast)
      == Run(CANAL_WORDS, 6, WrapState(6, "canal", "a", ["a man", "a plan"]), dropLast)
  {
    assert ByteLen("a") == 1;
    RunStep(CANAL_WORDS, 6, WrapState(5, "a", [], ["a man", "a plan"]), WrapState(6, "canal", "a", ["a man", "a plan"]), dropLast);
  }

  lemma SplitCanal()
    ensures SplitAtByte("canal", 3) == Some(("can", "al"))
  {
    assert "canal"[1..] == "anal" && "anal"[1..] == "nal" && "nal"[1..] == "al";
    assert SplitAtByte("nal", 1) == Some(("n", "al")) by { assert ['n'] + [] == "n"; }
    assert SplitAtByte("anal", 2) == Some(("an", "al")) by { assert ['a'] + "n" == "an"; }
    assert ['c'] + "an" == "can";
  }

  lemma CanalStep7(dropLast: bool)
    ensures Run(CANAL_WORDS, 6, WrapState(6, "canal", "a", ["a man", "a plan"]), dropLast)
      == Run(CANAL_WORDS, 6, WrapState(6, "al", [], ["a man", "a plan", "a can-"]), dropLast)
  {
    assert ByteLen("a") == 1 && ByteLen("canal") == 5;
    SplitCanal();
    assert "a" + " " + "can" + "-" == "a can-";
    assert ["a man", "a plan"] + ["a can-"] == ["a man", "a plan", "a can-"];
    RunStep(CANAL_WORDS, 6, WrapState(6, "canal", "a", ["a man", "a plan"]), WrapState(6, "al", [], ["a man", "a plan", "a can-"]), dropLast);
  }

  lemma CanalStep8(dropLast: bool)
    ensures Run(CANAL_WORDS, 6, WrapState(6, "al", [], ["a man", "a plan", "a can-"]), dropLast)
      == Run(CANAL_WORDS, 6, WrapState(7, "panama", "al", ["a man", "a plan", "a can-"]), dropLast)
  {
    assert ByteLen("al") == 2;
    RunStep(CANAL_WORDS, 6, WrapState(6, "al", [], ["a man", "a plan", "a can-"]), WrapState(7, "panama", "al", ["a man", "a plan", "a can-"]), dropLast);
  }

  lemma SplitPanama()
    ensures SplitAtByte("panama", 2) == Some(("pa", "nama"))
  {
    assert "panama"[1..] == "anama" && "anama"[1..] == "nama";
    assert SplitAtByte("anama", 1) == Some(("a", "nama")) by { assert ['a'] + [] == "a"; }
    assert ['p'] + "a" == "pa";
  }

  lemma CanalStep9(dropLast: bool)
    ensures Run(CANAL_WORDS, 6, WrapState(7, "panama", "al", ["a man", "a plan", "a can-"]), dropLast)
      == Run(CANAL_WORDS, 6, WrapState(7, "nama", [], ["a man", "a plan", "a can-", "al pa-"]), dropLast)
  {
    assert ByteLen("al") == 2 && ByteLen("panama") == 6;
    SplitPanama();
    assert "al" + " " + "pa" + "-" == "al pa-";
    assert ["a man", "a plan", "a can-"] + ["al pa-"] == ["a man", "a plan", "a can-", "al pa-"];
    RunStep(CANAL_WORDS, 6, WrapState(7, "panama", "al", ["a man", "a plan", "a can-"]), WrapState(7, "nama", [], ["a man", "a plan", "a can-", "al pa-"]), dropLast);
  }

  lemma CanalStep10(dropLast: bool)
    ensures Run(CANAL_WORDS, 6, WrapState(7, "nama", [], ["a man", "a plan", "a can-", "al pa-"]), dropLast) == Some(CANAL_LINES)
  {
    assert ByteLen("nama") == 4;
    assert ["a man", "a plan", "a can-", "al pa-"] + ["nama"] == CANAL_LINES;
  }

  lemma CanalRun(dropLast: bool)
    ensures Run(CANAL_WORDS, 6, WrapState(1, "a", [], []), dropLast) == Some(CANAL_LINES)
  {
    CanalStep1(dropLast);
    CanalStep2(dropLast);
    CanalStep3(dropLast);
    CanalStep4(dropLast);
    CanalStep5(dropLast);
    CanalStep6(dropLast);
    CanalStep7(dropLast);
    CanalStep8(dropLast);
    CanalStep9(dropLast);
    CanalStep10(dropLast);
  }

  lemma PadFull(s: string)
    requires ByteLen(s) == 6
    ensures PadTo(s, LineOptions(6, Center)) == s
  {
    PadPlacesString(s, LineOptions(6, Center));
  }

  lemma PadAMan()
    ensures PadTo("a man", LineOptions(6, Center)) == "a man "
  {
    assert SideOptionsOf(LineOptions(6, Center)) == SideOptions(6, " ");
    assert ByteLen("a man") == 5;
    CenterSpaces("a man", 6);
    assert Spaces(0) == [] && Spaces(1) == " ";
  }

  lemma PadNama()
    ensures PadTo("nama", LineOptions(6, Center)) == " nama "
  {
    assert SideOptionsOf(LineOptions(6, Center)) == SideOptions(6, " ");
    assert ByteLen("nama") == 4;
    CenterSpaces("nama", 6);
    assert Spaces(1) == " ";
  }

  /** Padding a list line by line. */
  lemma PadAllOf(lines: seq<string>, columns: nat, align: Align, out: seq<string>)
    requires |out| == |lines|
    requires forall i :: 0 <= i < |lines| ==> PadTo(lines[i], LineOptions(columns, align)) == out[i]
    ensures PadAll(lines, columns, align) == out
  {
  }

  lemma CanalPad()
    ensures PadAll(CANAL_LINES, 6, Center) == ["a man ", "a plan", "a can-", "al pa-", " nama "]
  {
    var out := ["a man ", "a plan", "a can-", "al pa-", " nama "];
    forall i | 0 <= i < 5
      ensures PadTo(CANAL_LINES[i], LineOptions(6, Center)) == out[i]
    {
      if i == 0 {
        PadAMan();
      } else if i == 4 {
        PadNama();
      } else {
        assert ByteLen(CANAL_LINES[i]) == 6;
        PadFull(CANAL_LINES[i]);
      }
    }
    PadAllOf(CANAL_LINES, 6, Center, out);
  }

  /** The source's multi-word example: "a man a plan a canal panama" in six centred columns. */
  lemma CanalExample()
    ensures Wrap(CANAL_TEXT, 6, Center) == Some(["a man ", "a plan", "a can-", "al pa-", " nama "])
    ensures WrapAsWritten(CANAL_TEXT, 6, Center) == Some(["a man ", "a plan", "a can-", "al pa-", " nama "])
  {
    assert !AllWhitespace(CANAL_TEXT) by { assert !IsWhitespace(CANAL_TEXT[0]); }
    CanalWords();
    CanalRun(false);
    CanalRun(true);
    CanalPad();
  }
}
