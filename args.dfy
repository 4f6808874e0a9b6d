/**
 * insh's command-line arguments: the `file[:line[,column]]` argument of the
 * `edit` command with its parser, printer and error message, the starting
 * directory, and the effects run at start-up.
 */
module Args {
  import opened Wrappers
  import opened Text
  import opened Strings
  import opened Vim

  /** A file with an optional 1-based line and column. A path is its text. */
  datatype FileLineColumn = FileLineColumn(file: Option<string>, line: Option<nat>, column: Option<nat>)

  /** The parts of a `file[:line[,column]]` argument that could not be parsed. */
  datatype FileLineColumnParseError = FileLineColumnParseError(
    badFile: Option<string>, badLine: Option<string>, badColumn: Option<string>)

  const NO_FILE_LINE_COLUMN := FileLineColumn(None, None, None)

  /** `str::rsplit_once(c)`: the text before and after the last `c`. */
  function RSplitOnce(s: string, c: char): (r: Option<(string, string)>)
    ensures r.None? <==> c !in s
    ensures r.Some? ==> s == r.value.0 + [c] + r.value.1 && c !in r.value.1
  {
    if s == [] then None
    else if s[|s| - 1] == c then Some((s[..|s| - 1], []))
    else match RSplitOnce(s[..|s| - 1], c)
      case None =>
        assert s == s[..|s| - 1] + [s[|s| - 1]];
        None
      case Some((before, after)) =>
        assert s == s[..|s| - 1] + [s[|s| - 1]];
        Some((before, after + [s[|s| - 1]]))
  }

  /** A number's text: `Some(n)` when it parses, the text itself as the bad part when not. */
  function ParseNumber(text: Option<string>): (r: (Option<nat>, Option<string>))
    ensures text.None? ==> r == (None, None)
    ensures text.Some? ==> r.0.Some? != r.1.Some?
    ensures r.1.Some? ==> r.1 == text
  {
    match text
    case None => (None, None)
    case Some(t) =>
      match ParseUnsigned(t)
      case Some(n) => (Some(n), None)
      case None => (None, Some(t))
  }

  /**
   * `FileLineColumn::from_str`: the empty string is no file at all; otherwise
   * the file is the text before the last ':', and what follows it is the line,
   * or the line and column around its last ','. A path always parses; a line
   * or column that is not a 64-bit unsigned number is reported, together with
   * every other bad part.
   */
  function Parse(s: string): (r: Result<FileLineColumn, FileLineColumnParseError>)
    ensures s == [] ==> r == Ok(NO_FILE_LINE_COLUMN)
    ensures r.Err? ==> r.error.badFile.None? && (r.error.badLine.Some? || r.error.badColumn.Some?)
    ensures r.Ok? && s != [] ==> r.value.file.Some? && r.value.file.value <= s
    ensures r.Ok? ==> (r.value.column.Some? ==> r.value.line.Some?)
    ensures s != [] && ':' !in s ==> r == Ok(FileLineColumn(Some(s), None, None))
  {
    if s == [] then Ok(NO_FILE_LINE_COLUMN)
    else
      var (fileText, rest) := match RSplitOnce(s, ':')
        case Some((f, r)) => (f, Some(r))
        case None => (s, None);
      var (lineText, columnText) := match rest
        case None => (None, None)
        case Some(lc) =>
          match RSplitOnce(lc, ',')
          case Some((l, c)) => (Some(l), Some(c))
          case None => (Some(lc), None);
      var (line, badLine) := ParseNumber(lineText);
      var (column, badColumn) := ParseNumber(columnText);
      if badLine.Some? || badColumn.Some? then
        Err(FileLineColumnParseError(None, badLine, badColumn))
      else
        Ok(FileLineColumn(Some(fileText), line, column))
  }

  /** `Display` for a file, line and column: `file`, `file:line` or `file:line,column`; nothing without a file. */
  function Display(x: FileLineColumn): (r: string)
    ensures r == [] <==> x.file.None? || (x.file.value == [] && x.line.None? && x.column.None?)
    ensures x.file.Some? ==> x.file.value <= r
  {
    if x.file.None? then ""
    else
      x.file.value
      + (if x.line.Some? then ":" + NatToString(x.line.value) else "")
      + (if x.column.Some? then "," + NatToString(x.column.value) else "")
  }

  lemma DigitsHaveNoSeparators(n: nat)
    ensures ':' !in NatToString(n) && ',' !in NatToString(n)
  {
  }

  /**
   * Printing and parsing back gives the same file, line and column, for a
   * non-empty file without ':' and a column only together with a line.
   */
  lemma ParseDisplay(x: FileLineColumn)
    requires x.file.Some? && x.file.value != [] && ':' !in x.file.value
    requires x.column.Some? ==> x.line.Some?
    requires x.line.Some? ==> x.line.value < WORD_RANGE
    requires x.column.Some? ==> x.column.value < WORD_RANGE
    ensures Parse(Display(x)) == Ok(x)
  {
    if x.line.None? {
      assert Display(x) == x.file.value;
    } else if x.column.None? {
      ParseDisplayLine(x.file.value, x.line.value);
    } else {
      ParseDisplayColumn(x.file.value, x.line.value, x.column.value);
    }
  }

  lemma ParseDisplayLine(f: string, line: nat)
    requires f != [] && ':' !in f && line < WORD_RANGE
    ensures Parse(Display(FileLineColumn(Some(f), Some(line), None))) == Ok(FileLineColumn(Some(f), Some(line), None))
  {
    var l := NatToString(line);
    DigitsHaveNoSeparators(line);
    ParsePrinted(line);
    var s := f + [':'] + l;
    assert Display(FileLineColumn(Some(f), Some(line), None)) == s;
    RSplitUnique(s, ':', f, l);
    assert RSplitOnce(l, ',').None?;
  }

  lemma ParseDisplayColumn(f: string, line: nat, column: nat)
    requires f != [] && ':' !in f && line < WORD_RANGE && column < WORD_RANGE
    ensures Parse(Display(FileLineColumn(Some(f), Some(line), Some(column))))
      == Ok(FileLineColumn(Some(f), Some(line), Some(column)))
  {
    var l := NatToString(line);
    var c := NatToString(column);
    var lc := l + [','] + c;
    var s := f + [':'] + lc;
    assert Display(FileLineColumn(Some(f), Some(line), Some(column))) == s;
    assert RSplitOnce(s, ':') == Some((f, lc)) by {
      DigitsHaveNoSeparators(line);
      DigitsHaveNoSeparators(column);
      assert forall i :: 0 <= i < |lc| ==> lc[i] == ',' || lc[i] in l || lc[i] in c;
      RSplitUnique(s, ':', f, lc);
    }
    assert RSplitOnce(lc, ',') == Some((l, c)) by {
      DigitsHaveNoSeparators(column);
      RSplitUnique(lc, ',', l, c);
    }
    ParsePrinted(line);
    ParsePrinted(column);
    ParseOfParts(s, f, lc, l, c);
  }

  /** A non-empty text split into a file, a line and a column parses to them when both numbers do. */
  lemma ParseOfParts(s: string, f: string, lc: string, l: string, c: string)
    requires s != [] && RSplitOnce(s, ':') == Some((f, lc)) && RSplitOnce(lc, ',') == Some((l, c))
    requires ParseUnsigned(l).Some? && ParseUnsigned(c).Some?
    ensures Parse(s) == Ok(FileLineColumn(Some(f), ParseUnsigned(l), ParseUnsigned(c)))
  {
  }

  /** A good line and a bad column report the column alone. */
  lemma ParseOfBadColumn(s: string, f: string, lc: string, l: string, c: string)
    requires s != [] && RSplitOnce(s, ':') == Some((f, lc)) && RSplitOnce(lc, ',') == Some((l, c))
    requires ParseUnsigned(l).Some? && ParseUnsigned(c).None?
    ensures Parse(s) == Err(FileLineColumnParseError(None, None, Some(c)))
  {
  }

  /** A bad line and a bad column are both reported. */
  lemma ParseOfBadBoth(s: string, f: string, lc: string, l: string, c: string)
    requires s != [] && RSplitOnce(s, ':') == Some((f, lc)) && RSplitOnce(lc, ',') == Some((l, c))
    requires ParseUnsigned(l).None? && ParseUnsigned(c).None?
    ensures Parse(s) == Err(FileLineColumnParseError(None, Some(l), Some(c)))
  {
  }

  /** The split at the last `c` is the only split whose right part has no `c`. */
  lemma {:induction false} RSplitUnique(s: string, c: char, before: string, after: string)
    requires s == before + [c] + after && c !in after
    ensures RSplitOnce(s, c) == Some((before, after))
    decreases |after|
  {
    if after == [] {
      assert s[..|s| - 1] == before;
    } else {
      var last := after[|after| - 1];
      var shorter := after[..|after| - 1];
      assert s[..|s| - 1] == before + [c] + shorter;
      assert s[|s| - 1] == last;
      RSplitUnique(s[..|s| - 1], c, before, shorter);
      assert after == shorter + [last];
    }
  }

  /** The worked examples of the source's tests: the empty string and a bare file. */
  lemma ParseExamplesFile()
    ensures Parse("") == Ok(FileLineColumn(None, None, None))
    ensures Parse("foo.py") == Ok(FileLineColumn(Some("foo.py"), None, None))
  {
    assert ':' !in "foo.py";
  }

  lemma FortyTwo()
    ensures NatToString(42) == "42" && NatToString(7) == "7"
    ensures ParseUnsigned("42") == Some(42) && ParseUnsigned("7") == Some(7)
  {
    ParsePrinted(42);
    ParsePrinted(7);
  }

  lemma NotNumbers()
    ensures ParseUnsigned("xx").None? && ParseUnsigned("yy").None?
  {
    assert "xx"[0] != '+' && !IsDigit("xx"[0]);
    assert "yy"[0] != '+' && !IsDigit("yy"[0]);
  }

  /** The worked example of the source's tests: a file and a line. */
  lemma ParseExampleLine()
    ensures Parse("foo.py:42") == Ok(FileLineColumn(Some("foo.py"), Some(42), None))
  {
    RSplitUnique("foo.py:42", ':', "foo.py", "42");
    assert ',' !in "42";
    FortyTwo();
  }

  /** The worked example of the source's tests: a file, a line and a column. */
  lemma ParseExampleColumn()
    ensures Parse("foo.py:42,7") == Ok(FileLineColumn(Some("foo.py"), Some(42), Some(7)))
  {
    RSplitUnique("foo.py:42,7", ':', "foo.py", "42,7");
    RSplitUnique("42,7", ',', "42", "7");
    FortyTwo();
  }

  /** The worked example of the source's tests: a bad line. */
  lemma ParseExampleBadLine()
    ensures Parse("foo.py:xx") == Err(FileLineColumnParseError(None, Some("xx"), None))
  {
    RSplitUnique("foo.py:xx", ':', "foo.py", "xx");
    assert ',' !in "xx";
    NotNumbers();
  }

  /** The worked example of the source's tests: a good line and a bad column. */
  lemma ParseExampleBadColumn()
    ensures Parse("foo.py:42,xx") == Err(FileLineColumnParseError(None, None, Some("xx")))
  {
    RSplitUnique("foo.py:42,xx", ':', "foo.py", "42,xx");
    RSplitUnique("42,xx", ',', "42", "xx");
    FortyTwo();
    NotNumbers();
    ParseOfBadColumn("foo.py:42,xx", "foo.py", "42,xx", "42", "xx");
  }

  /** The worked example of the source's tests: both the line and the column are bad, and both are reported. */
  lemma ParseExampleBadBoth()
    ensures Parse("foo.py:xx,yy") == Err(FileLineColumnParseError(None, Some("xx"), Some("yy")))
  {
    RSplitUnique("foo.py:xx,yy", ':', "foo.py", "xx,yy");
    RSplitUnique("xx,yy", ',', "xx", "yy");
    NotNumbers();
    ParseOfBadBoth("foo.py:xx,yy", "foo.py", "xx,yy", "xx", "yy");
  }

  /** `could not parse "<text>" as a <what>`, one problem of the error message. */
  function Problem(text: string, what: string): string {
    "could not parse \"" + text + "\" as a " + what
  }

  /** The problems of a parse error, file first, then line, then column. */
  function Problems(e: FileLineColumnParseError): (r: seq<string>)
    ensures |r| == (if e.badFile.Some? then 1 else 0) + (if e.badLine.Some? then 1 else 0)
      + (if e.badColumn.Some? then 1 else 0)
    ensures forall i :: 0 <= i < |r| ==> |r[i]| > 0 && r[i][0] == 'c'
  {
    (if e.badFile.Some? then [Problem(e.badFile.value, "file path")] else [])
    + (if e.badLine.Some? then [Problem(e.badLine.value, "line number")] else [])
    + (if e.badColumn.Some? then [Problem(e.badColumn.value, "column number")] else [])
  }

  const VAGUE_MESSAGE := "Something went wrong parsing the file, optional line, and or the optional column."

  /**
   * `Display` for a parse error: a fixed sentence when nothing is recorded;
   * otherwise the problems, the first capitalized, conjoined with "and" and
   * ended with a full stop.
   */
  function ErrorMessage(e: FileLineColumnParseError): (r: string)
    ensures Problems(e) == [] ==> r == VAGUE_MESSAGE
    ensures |r| > 0 && r[|r| - 1] == '.'
    ensures Problems(e) != [] ==> r[0] == 'C'
  {
    var problems := Problems(e);
    if problems == [] then VAGUE_MESSAGE
    else
      var first := CapitalizeFirstLetter(problems[0]);
      assert first.Some? && first.value[0] == 'C';
      var capitalized := [first.value] + problems[1..];
      var message := Conjoin(capitalized, "and");
      assert message[0] == 'C' by {
        ConjoinStartsWithFirst(capitalized, "and");
      }
      message + "."
  }

  /** A conjoined list starts with its first item. */
  lemma ConjoinStartsWithFirst(items: seq<string>, conjunction: string)
    requires items != []
    ensures items[0] <= Conjoin(items, conjunction)
  {
    if |items| >= 3 {
      JoinStartsWithFirst(items[..|items| - 1], ", ");
    }
  }

  lemma {:induction false} JoinStartsWithFirst(items: seq<string>, sep: string)
    requires items != []
    ensures items[0] <= Join(items, sep)
  {
    if |items| > 1 {
      JoinStartsWithFirst(items[..|items| - 1], sep);
    }
  }

  /** A problem, capitalized, starts with "Could". */
  lemma CapitalizedProblem(text: string, what: string)
    ensures CapitalizeFirstLetter(Problem(text, what)) == Some("Could not parse \"" + text + "\" as a " + what)
  {
    var tail := text + ("\" as a " + what);
    assert Problem(text, what) == "could not parse \"" + tail;
    assert ("could not parse \"" + tail)[1..] == "ould not parse \"" + tail;
    assert ['C'] + ("ould not parse \"" + tail) == "Could not parse \"" + tail;
    assert "Could not parse \"" + tail == "Could not parse \"" + text + "\" as a " + what;
  }

  /** The message of some problems: the first capitalized, all conjoined with "and", then a full stop. */
  lemma MessageOfProblems(e: FileLineColumnParseError, text: string, rest: seq<string>)
    requires Problems(e) == [Problem(text, if e.badFile.Some? then "file path" else if e.badLine.Some? then "line number" else "column number")] + rest
    ensures var capitalized := CapitalizeFirstLetter(Problems(e)[0]);
      capitalized.Some? && ErrorMessage(e) == Conjoin([capitalized.value] + rest, "and") + "."
  {
    assert Problems(e)[1..] == rest;
  }

  /** A bad line alone is reported in one sentence. */
  lemma ErrorMessageBadLine(line: string)
    ensures ErrorMessage(FileLineColumnParseError(None, Some(line), None))
      == "Could not parse \"" + line + "\" as a " + "line number" + "."
  {
    var e := FileLineColumnParseError(None, Some(line), None);
    assert Problems(e) == [Problem(line, "line number")] + [];
    MessageOfProblems(e, line, []);
    CapitalizedProblem(line, "line number");
    var first := "Could not parse \"" + line + "\" as a " + "line number";
    assert [first] + [] == [first];
    assert Conjoin([first] + [], "and") == first;
  }

  /** A bad line and a bad column are both reported, joined by "and". */
  lemma ErrorMessageBadLineAndColumn(line: string, column: string)
    ensures ErrorMessage(FileLineColumnParseError(None, Some(line), Some(column)))
      == "Could not parse \"" + line + "\" as a " + "line number" + " and " + Problem(column, "column number") + "."
  {
    var e := FileLineColumnParseError(None, Some(line), Some(column));
    var second := Problem(column, "column number");
    assert Problems(e) == [Problem(line, "line number")] + [second];
    MessageOfProblems(e, line, [second]);
    CapitalizedProblem(line, "line number");
    var first := "Could not parse \"" + line + "\" as a " + "line number";
    assert [first] + [second] == [first, second];
    ConjoinTwo(first, second);
  }

  lemma ConjoinTwo(a: string, b: string)
    ensures Conjoin([a, b], "and") == a + " and " + b
  {
    assert a + " " + "and" + " " + b == a + " and " + b;
  }

  /** The subcommands. */
  datatype Command =
    | Browse
    | Find(findPhrase: Option<string>)
    | Search(searchPhrase: Option<string>)
    | Edit(browse: bool, fileLineColumn: Option<FileLineColumn>)

  /** The parsed command line: an optional starting directory and an optional subcommand. */
  datatype Args = Args(dir: Option<string>, command: Option<Command>)

  predicate IsRelative(p: string) {
    p == [] || p[0] != '/'
  }

  /** The last index of '/' in `p`, if any. */
  function LastSlash(p: string): (r: Option<nat>)
    ensures r.Some? ==>
      r.value < |p| && p[r.value] == '/' && forall i :: r.value < i < |p| ==> p[i] != '/'
    ensures r.None? ==> '/' !in p
  {
    if p == [] then None
    else if p[|p| - 1] == '/' then Some(|p| - 1)
    else
      var r := LastSlash(p[..|p| - 1]);
      if r.None? then
        assert p == p[..|p| - 1] + [p[|p| - 1]];
        None
      else
        r
  }

  /** Every character of `p` is a separator. */
  predicate AllSlashes(p: string) {
    forall i :: 0 <= i < |p| ==> p[i] == '/'
  }

  /** `p` without its trailing separators. */
  function TrimEndSlashes(p: string): (r: string)
    ensures r <= p
    ensures r == [] || r[|r| - 1] != '/'
    ensures forall i :: |r| <= i < |p| ==> p[i] == '/'
  {
    if p != [] && p[|p| - 1] == '/' then TrimEndSlashes(p[..|p| - 1]) else p
  }

  /**
   * `Path::parent`: the path cut before its last component, with the
   * separators in between dropped but the root kept; `Some("")` for a single
   * relative component, and nothing for the empty path or the root (any run
   * of separators alone). Trailing and repeated separators separate no
   * component, as the path's components are read.
   */
  function Parent(p: string): (r: Option<string>)
    ensures r.None? <==> AllSlashes(p)
    ensures r.Some? ==> r.value <= p && |r.value| < |p|
    ensures r.Some? && r.value != "/" ==> r.value == [] || r.value[|r.value| - 1] != '/'
  {
    var t := TrimEndSlashes(p);
    if t == [] then
      assert AllSlashes(p);
      None
    else
      assert !AllSlashes(p) by {
        assert p[|t| - 1] == t[|t| - 1];
      }
      match LastSlash(t)
      case None => Some("")
      case Some(k) =>
        var u := TrimEndSlashes(t[..k]);
        if u == [] then
          assert p[0] == t[0] == '/';
          Some("/")
        else Some(u)
  }

  /** A trailing separator does not change the parent. */
  lemma ParentIgnoresTrailing(p: string)
    ensures Parent(p + "/") == Parent(p)
  {
    var q := p + "/";
    assert q[..|q| - 1] == p;
    assert TrimEndSlashes(q) == TrimEndSlashes(p);
    assert AllSlashes(q) <==> AllSlashes(p) by {
      if AllSlashes(p) {
        assert forall i :: 0 <= i < |q| ==> q[i] == '/' by {
          forall i | 0 <= i < |q| ensures q[i] == '/' {
            if i < |p| { assert q[i] == p[i]; }
          }
        }
      }
      if AllSlashes(q) {
        forall i | 0 <= i < |p| ensures p[i] == '/' {
          assert q[i] == p[i];
        }
      }
    }
  }

  /** The parent of `dir/name` is `dir`, when `dir` ends in no separator. */
  lemma ParentOfChild(dir: string, name: string)
    requires name != [] && '/' !in name && dir != [] && dir[|dir| - 1] != '/'
    ensures Parent(dir + "/" + name) == Some(dir)
  {
    var p := dir + "/" + name;
    assert TrimEndSlashes(p) == p by {
      assert p[|p| - 1] == name[|name| - 1];
    }
    assert forall i :: |dir| < i < |p| ==> p[i] != '/' by {
      forall i | |dir| < i < |p| ensures p[i] != '/' {
        assert p[i] == name[i - |dir| - 1];
      }
    }
    LastSlashUnique(p, |dir|);
    assert p[..|dir|] == dir;
  }

  /** A component under the root has the root as parent; a lone relative component has the empty path. */
  lemma ParentOfTopLevel(name: string)
    requires name != [] && '/' !in name
    ensures Parent("/" + name) == Some("/")
    ensures Parent(name) == Some("")
  {
    var p := "/" + name;
    assert TrimEndSlashes(p) == p by {
      assert p[|p| - 1] == name[|name| - 1];
    }
    assert forall i :: 0 < i < |p| ==> p[i] != '/' by {
      forall i | 0 < i < |p| ensures p[i] != '/' {
        assert p[i] == name[i - 1];
      }
    }
    LastSlashUnique(p, 0);
    assert TrimEndSlashes(p[..0]) == [];
    assert TrimEndSlashes(name) == name;
  }

  /** A doubled separator before the last component does not change the parent. */
  lemma ParentIgnoresDoubled(dir: string, name: string)
    requires name != [] && '/' !in name
    ensures Parent(dir + "//" + name) == Parent(dir + "/" + name)
  {
    var p, q := dir + "//" + name, dir + "/" + name;
    assert TrimEndSlashes(p) == p by {
      assert p[|p| - 1] == name[|name| - 1];
    }
    assert TrimEndSlashes(q) == q by {
      assert q[|q| - 1] == name[|name| - 1];
    }
    assert forall i :: |dir| + 1 < i < |p| ==> p[i] != '/' by {
      forall i | |dir| + 1 < i < |p| ensures p[i] != '/' {
        assert p[i] == name[i - |dir| - 2];
      }
    }
    assert forall i :: |dir| < i < |q| ==> q[i] != '/' by {
      forall i | |dir| < i < |q| ensures q[i] != '/' {
        assert q[i] == name[i - |dir| - 1];
      }
    }
    LastSlashUnique(p, |dir| + 1);
    LastSlashUnique(q, |dir|);
    assert p[..|dir| + 1] == q[..|dir|] + "/";
    assert p[..|dir| + 1][..|dir|] == q[..|dir|];
    assert TrimEndSlashes(p[..|dir| + 1]) == TrimEndSlashes(q[..|dir|]);
  }

  /** A start directory with a trailing separator has the root as parent, as `/home` has. */
  lemma ParentExampleTrailing()
    ensures Parent("/home/") == Some("/") && Parent("/home") == Some("/")
  {
    ParentOfTopLevel("home");
    assert "/" + "home" == "/home";
    ParentIgnoresTrailing("/home");
    assert "/home" + "/" == "/home/";
  }

  /** A doubled separator separates no empty component. */
  lemma ParentExampleDoubled()
    ensures Parent("a//b") == Some("a")
  {
    ParentOfChild("a", "b");
    ParentIgnoresDoubled("a", "b");
    assert "a" + "//" + "b" == "a//b";
  }

  /** A run of separators alone is the root, which has no parent. */
  lemma ParentExampleRoot()
    ensures Parent("//") == None
  {
    assert AllSlashes("//");
  }

  /** `PathBuf::push`: an absolute path replaces the base, a relative one is joined with a separator. */
  function Push(base: string, p: string): (r: string)
    ensures !IsRelative(p) ==> r == p
    ensures IsRelative(p) ==> base <= r
  {
    if !IsRelative(p) then p
    else if base == [] || base[|base| - 1] == '/' then base + p
    else base + "/" + p
  }

  /**
   * `Args::dir`: the directory given, or when editing a file and then
   * browsing, the file's directory ("/" when it has none); a relative
   * directory is made absolute against the current directory `cwd`.
   */
  function Dir(args: Args, cwd: string): (r: Option<string>)
    ensures r.None? <==> args.dir.None? && !EditsThenBrowses(args)
    ensures r.Some? && !IsRelative(cwd) ==> !IsRelative(r.value)
  {
    var dir := if args.dir.Some? then args.dir
      else if EditsThenBrowses(args) then
        (var parent := Parent(args.command.value.fileLineColumn.value.file.value);
         if parent.Some? then parent else Some("/"))
      else None;
    match dir
    case None => None
    case Some(d) => if IsRelative(d) then Some(Push(cwd, d)) else Some(d)
  }

  /** The command is `edit --browse` with a file. */
  predicate EditsThenBrowses(args: Args) {
    args.command.Some? && args.command.value.Edit? && args.command.value.browse
    && args.command.value.fileLineColumn.Some? && args.command.value.fileLineColumn.value.file.Some?
  }

  /** A given absolute directory is kept, and without one, `edit --browse dir/file` starts in `dir`. */
  lemma DirChoices(args: Args, cwd: string)
    ensures args.dir.Some? && !IsRelative(args.dir.value) ==> Dir(args, cwd) == args.dir
    ensures args.dir.None? && EditsThenBrowses(args) ==>
      var file := args.command.value.fileLineColumn.value.file.value;
      Dir(args, cwd) == (if Parent(file).None? then Some("/")
                         else if IsRelative(Parent(file).value) then Some(Push(cwd, Parent(file).value))
                         else Parent(file))
  {
  }

  /** A last slash is the one `LastSlash` finds. */
  lemma {:induction false} LastSlashUnique(p: string, k: nat)
    requires k < |p| && p[k] == '/' && forall i :: k < i < |p| ==> p[i] != '/'
    ensures LastSlash(p) == Some(k)
    decreases |p|
  {
    if k < |p| - 1 {
      LastSlashUnique(p[..|p| - 1], k);
    }
  }

  /** Editing `src/main.rs` and then browsing from `/home` starts in `/home/src`. */
  lemma DirExampleNested()
    ensures Dir(Args(None, Some(Edit(true, Some(FileLineColumn(Some("src/main.rs"), None, None))))), "/home")
      == Some("/home/src")
  {
    assert forall i :: 3 < i < 11 ==> "src/main.rs"[i] != '/';
    LastSlashUnique("src/main.rs", 3);
    assert "src/main.rs"[..3] == "src";
    assert Parent("src/main.rs") == Some("src");
    assert Push("/home", "src") == "/home" + "/" + "src" == "/home/src";
    var a := Args(None, Some(Edit(true, Some(FileLineColumn(Some("src/main.rs"), None, None)))));
    assert EditsThenBrowses(a) && IsRelative("src");
  }

  /** A bare file name's directory is the empty path, so browsing starts in the current directory. */
  lemma DirExampleBare()
    ensures Dir(Args(None, Some(Edit(true, Some(FileLineColumn(Some("main.rs"), None, None))))), "/home")
      == Some("/home/")
    ensures Dir(Args(None, Some(Edit(false, Some(FileLineColumn(Some("main.rs"), None, None))))), "/home")
      == None
  {
    assert '/' !in "main.rs";
    assert LastSlash("main.rs").None?;
    assert Parent("main.rs") == Some("");
    assert Push("/home", "") == "/home" + "/" + "" == "/home/";
    var a := Args(None, Some(Edit(true, Some(FileLineColumn(Some("main.rs"), None, None)))));
    assert EditsThenBrowses(a) && IsRelative("");
  }

  /** A file at the root starts browsing at the root. */
  lemma DirExampleRoot()
    ensures Dir(Args(None, Some(Edit(true, Some(FileLineColumn(Some("/main.rs"), None, None))))), "/home")
      == Some("/")
  {
    assert forall i :: 0 < i < 8 ==> "/main.rs"[i] != '/';
    LastSlashUnique("/main.rs", 0);
    assert Parent("/main.rs") == Some("/");
    var a := Args(None, Some(Edit(true, Some(FileLineColumn(Some("/main.rs"), None, None)))));
    assert EditsThenBrowses(a) && !IsRelative("/");
  }

  /** What insh does first: run a program, or exit. */
  datatype SystemEffect = RunProgram(vim: VimArgs) | Exit

  /** The vim arguments for the edited file, line and column. */
  function EditVimArgs(flc: Option<FileLineColumn>): (r: VimArgs)
    ensures flc.None? ==> r == VimArgs(None, None, None)
    ensures flc.Some? ==> r == VimArgs(flc.value.file, flc.value.line, flc.value.column)
  {
    var b := NewBuilder();
    var b := if flc.Some? && flc.value.file.Some? then b.SetPath(flc.value.file.value) else b;
    var b := if flc.Some? && flc.value.line.Some? then b.SetLine(flc.value.line.value) else b;
    var b := if flc.Some? && flc.value.column.Some? then b.SetColumn(flc.value.column.value) else b;
    b.Build()
  }

  /**
   * `Args::starting_effects`: for `edit`, run vim on the file, line and
   * column, and then exit unless browsing afterwards; nothing for the other
   * commands.
   */
  function StartingEffects(args: Args): (r: Option<seq<SystemEffect>>)
    ensures r.Some? <==> args.command.Some? && args.command.value.Edit?
    ensures r.Some? ==>
      |r.value| == (if args.command.value.browse then 1 else 2)
      && r.value[0] == RunProgram(EditVimArgs(args.command.value.fileLineColumn))
      && (!args.command.value.browse ==> r.value[1] == Exit)
  {
    match args.command
    case Some(Edit(browse, flc)) =>
      var effects := [RunProgram(EditVimArgs(flc))];
      Some(if !browse then effects + [Exit] else effects)
    case _ => None
  }

  /**
   * `insh edit file:line` starts vim on that file at that line: the first
   * argument of its command line is the file and the second jumps to the
   * line.
   */
  lemma EditStartsVimAtLine(s: string, browse: bool)
    requires Parse(s).Ok? && Parse(s).value.line.Some?
    ensures var effects := StartingEffects(Args(None, Some(Edit(browse, Some(Parse(s).value))))).value;
      var cmd := CommandLine(effects[0].vim);
      cmd[0] == Parse(s).value.file.value
      && cmd[1][0] == '+' && ParseUnsigned(cmd[1][1..]) == Parse(s).value.line
  {
    var x := Parse(s).value;
    assert x.file.Some?;
    var line := x.line.value;
    assert line < WORD_RANGE by {
      ParseLineBounded(s);
    }
    if x.column.Some? {
      assert x.column.value < WORD_RANGE by {
        ParseLineBounded(s);
      }
    }
    CommandLineCarriesArgs(VimArgs(x.file, x.line, x.column));
  }

  /** Every parsed line and column is a 64-bit number. */
  lemma ParseLineBounded(s: string)
    requires Parse(s).Ok?
    ensures Parse(s).value.line.Some? ==> Parse(s).value.line.value < WORD_RANGE
    ensures Parse(s).value.column.Some? ==> Parse(s).value.column.value < WORD_RANGE
  {
  }
}
