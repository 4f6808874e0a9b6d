/**
 * Running `vim`: the command line built from its arguments, and the pipe
 * that copies vim's output to the terminal while stripping the escape codes
 * that switch the alternative screen on and off.
 */
module Vim {
  import opened Wrappers
  import opened Text
  import opened AnsiEscapedText

  /** The arguments for running `vim`: the path to open, the starting line and column. */
  datatype VimArgs = VimArgs(path: Option<string>, line: Option<nat>, column: Option<nat>)

  /** A builder for `VimArgs`; every field starts unset. */
  datatype ArgsBuilder = ArgsBuilder(path: Option<string>, line: Option<nat>, column: Option<nat>)
  {
    function SetPath(p: string): (r: ArgsBuilder)
      ensures r.path == Some(p) && r.line == line && r.column == column
    {
      this.(path := Some(p))
    }

    function SetLine(l: nat): (r: ArgsBuilder)
      ensures r.line == Some(l) && r.path == path && r.column == column
    {
      this.(line := Some(l))
    }

    function SetColumn(c: nat): (r: ArgsBuilder)
      ensures r.column == Some(c) && r.path == path && r.line == line
    {
      this.(column := Some(c))
    }

    function Build(): (r: VimArgs)
      ensures r.path == path && r.line == line && r.column == column
    {
      VimArgs(path, line, column)
    }
  }

  function NewBuilder(): (r: ArgsBuilder)
    ensures r.path.None? && r.line.None? && r.column.None?
  {
    ArgsBuilder(None, None, None)
  }

  /** Each setter fixes its own field only, so the order of setting does not matter. */
  lemma BuilderOrderIrrelevant(b: ArgsBuilder, p: string, l: nat, c: nat)
    ensures b.SetPath(p).SetLine(l).SetColumn(c).Build() == b.SetColumn(c).SetLine(l).SetPath(p).Build()
    ensures NewBuilder().SetPath(p).SetLine(l).SetColumn(c).Build() == VimArgs(Some(p), Some(l), Some(c))
    ensures NewBuilder().Build() == VimArgs(None, None, None)
  {
  }

  /** The arguments that jump to the column: none for the first column or no column. */
  function ColumnArgs(column: Option<nat>): (r: seq<string>)
    ensures r == [] <==> column.None? || column.value <= 1
  {
    if column.Some? && column.value > 1 then ["-c", "norm " + NatToString(column.value - 1) + "l"]
    else []
  }

  /**
   * vim's command line: the path, `+line`, a normal-mode command moving
   * `column - 1` characters right when the column is past the first, and
   * always the option that stops vim asking the terminal for the cursor
   * position.
   */
  function CommandLine(a: VimArgs): (r: seq<string>)
    ensures |r| >= 2 && r[|r| - 2..] == ["--cmd", "set t_u7="]
  {
    (if a.path.Some? then [a.path.value] else [])
    + (if a.line.Some? then ["+" + NatToString(a.line.value)] else [])
    + ColumnArgs(a.column)
    + ["--cmd", "set t_u7="]
  }

  /**
   * The command line carries back what it was built from: the path comes
   * first, the line argument after it parses back to the line, the column
   * command appears exactly for columns past the first and names the
   * column's distance from the first, and nothing else is added.
   */
  lemma CommandLineCarriesArgs(a: VimArgs)
    requires a.line.Some? ==> a.line.value < WORD_RANGE
    requires a.column.Some? ==> a.column.value < WORD_RANGE
    ensures var r := CommandLine(a);
      var p := if a.path.Some? then 1 else 0;
      var l := if a.line.Some? then 1 else 0;
      |r| == p + l + |ColumnArgs(a.column)| + 2
      && (a.path.Some? ==> r[0] == a.path.value)
      && (a.line.Some? ==> r[p][0] == '+' && ParseUnsigned(r[p][1..]) == Some(a.line.value))
      && (a.column.Some? && a.column.value > 1 <==> |r| == p + l + 4 && r[p + l] == "-c")
      && (a.column.Some? && a.column.value > 1 ==>
            var cmd := r[p + l + 1];
            |cmd| >= 6 && cmd[..5] == "norm " && cmd[|cmd| - 1] == 'l'
            && ParseUnsigned(cmd[5..|cmd| - 1]) == Some(a.column.value - 1))
  {
    CommandLineLine(a);
    CommandLineColumn(a);
  }

  /** The line argument follows the path and parses back to the line. */
  lemma CommandLineLine(a: VimArgs)
    requires a.line.Some? ==> a.line.value < WORD_RANGE
    ensures var r := CommandLine(a);
      var p := if a.path.Some? then 1 else 0;
      var l := if a.line.Some? then 1 else 0;
      |r| == p + l + |ColumnArgs(a.column)| + 2
      && (a.path.Some? ==> r[0] == a.path.value)
      && (a.line.Some? ==> r[p][0] == '+' && ParseUnsigned(r[p][1..]) == Some(a.line.value))
  {
    var r := CommandLine(a);
    var p := if a.path.Some? then 1 else 0;
    if a.line.Some? {
      var arg := "+" + NatToString(a.line.value);
      assert r[p] == arg;
      assert arg[1..] == NatToString(a.line.value);
      ParsePrinted(a.line.value);
    }
  }

  /** The column command is there exactly for columns past the first, and names the distance moved. */
  lemma CommandLineColumn(a: VimArgs)
    requires a.column.Some? ==> a.column.value < WORD_RANGE
    ensures var r := CommandLine(a);
      var p := if a.path.Some? then 1 else 0;
      var l := if a.line.Some? then 1 else 0;
      (a.column.Some? && a.column.value > 1 <==> |r| == p + l + 4 && r[p + l] == "-c")
      && (a.column.Some? && a.column.value > 1 ==>
            var cmd := r[p + l + 1];
            |cmd| >= 6 && cmd[..5] == "norm " && cmd[|cmd| - 1] == 'l'
            && ParseUnsigned(cmd[5..|cmd| - 1]) == Some(a.column.value - 1))
  {
    var r := CommandLine(a);
    var p := if a.path.Some? then 1 else 0;
    var l := if a.line.Some? then 1 else 0;
    if a.column.Some? && a.column.value > 1 {
      var n := NatToString(a.column.value - 1);
      var cmd := "norm " + n + "l";
      assert r[p + l] == "-c" && r[p + l + 1] == cmd;
      assert cmd[5..|cmd| - 1] == n;
      ParsePrinted(a.column.value - 1);
    } else {
      assert |r| == p + l + 2;
    }
  }

  /** The output that reaches the terminal: every character kept, every escape code dropped. */
  function Emitted(t: EscapedText): seq<Byte> {
    match t
    case Character(b) => [b]
    case EscapeCode(_) => []
  }

  /**
   * What the pipe should write for vim's whole output: everything the parser
   * reads, characters kept and codes dropped; a trailing prefix of a code
   * that the output ends in is never completed, so never written.
   */
  function Filter(s: seq<Byte>): seq<Byte>
    decreases |s|
  {
    match Parser(s)
    case Done(rest, t) => Emitted(t) + Filter(rest)
    case Incomplete(_) => []
    case Error => []
  }

  /** Output without an escape byte passes through unchanged. */
  lemma {:induction false} FilterPlain(s: seq<Byte>)
    requires forall i :: 0 <= i < |s| ==> s[i] != 0x1B
    ensures Filter(s) == s
  {
    if s != [] {
      ParserCases(s);
      assert !PrefixOfHead(s) && !StartsWith(s, ENABLE) && !StartsWith(s, DISABLE) by {
        assert s[0] != HEAD[0] && s[0] != ENABLE[0] && s[0] != DISABLE[0];
      }
      FilterPlain(s[1..]);
    }
  }

  /** Both alternative-screen codes are removed whole, wherever they begin. */
  lemma FilterDropsCodes(s: seq<Byte>)
    ensures Filter(ENABLE + s) == Filter(s)
    ensures Filter(DISABLE + s) == Filter(s)
  {
    ParserCases(ENABLE + s);
    ParserCases(DISABLE + s);
    assert StartsWith(ENABLE + s, ENABLE) by {
      assert forall i :: 0 <= i < 8 ==> (ENABLE + s)[i] == ENABLE[i];
    }
    assert StartsWith(DISABLE + s, DISABLE) by {
      assert forall i :: 0 <= i < 8 ==> (DISABLE + s)[i] == DISABLE[i];
    }
    assert (ENABLE + s)[8..] == s;
    assert (DISABLE + s)[8..] == s;
  }

  /** Nothing is written that vim did not write: the output never grows. */
  lemma {:induction false} FilterShrinks(s: seq<Byte>)
    ensures |Filter(s)| <= |s|
    decreases |s|
  {
    match Parser(s)
    case Done(rest, t) =>
      FilterShrinks(rest);
    case Incomplete(_) =>
    case Error =>
  }

  /** Parsing the front of the buffer is parsing the front of the buffer and what follows it. */
  lemma FilterParsed(written: seq<Byte>, buffer: seq<Byte>, tail: seq<Byte>)
    requires Parser(buffer).Done?
    ensures written + Filter(buffer + tail)
         == (written + Emitted(Parser(buffer).value)) + Filter(Parser(buffer).rest + tail)
  {
    var e := Emitted(Parser(buffer).value);
    var f := Filter(Parser(buffer).rest + tail);
    ParserExtends(buffer, tail);
    assert Filter(buffer + tail) == e + f;
    assert written + (e + f) == (written + e) + f;
  }

  /** A buffer that holds no complete text writes nothing. */
  lemma FilterWaiting(buffer: seq<Byte>)
    requires buffer == [] || !Parser(buffer).Done?
    ensures Filter(buffer) == []
  {
  }

  /** Moving one byte from the unread output into the buffer. */
  lemma ReadOne(buffer: seq<Byte>, stdout: seq<Byte>, pos: nat)
    requires pos < |stdout|
    ensures buffer + stdout[pos..] == (buffer + [stdout[pos]]) + stdout[pos + 1..]
  {
    assert stdout[pos..] == [stdout[pos]] + stdout[pos + 1..];
  }

  /**
   * The pipe, with its loop corrected: one byte is read whenever the parser
   * needs more, the parsed text is written or dropped, and parsing resumes on
   * the rest without a read. The read fails or ends when vim's output
   * `stdout` is exhausted.
   */
  method PipeRun(stdout: seq<Byte>) returns (out: seq<Byte>)
    ensures out == Filter(stdout)
  {
    var pos := 0;
    var buffer: seq<Byte> := [];
    var shouldRead := true;
    out := [];
    assert buffer + stdout[pos..] == stdout;
    while true
      invariant 0 <= pos <= |stdout|
      invariant out + Filter(buffer + stdout[pos..]) == Filter(stdout)
      invariant shouldRead ==> buffer == [] || !Parser(buffer).Done?
      invariant !shouldRead ==> buffer != []
      decreases |stdout| - pos, |buffer|, if shouldRead then 0 else 1
    {
      if shouldRead {
        if pos == |stdout| {
          break;
        }
        ReadOne(buffer, stdout, pos);
        buffer := buffer + [stdout[pos]];
        pos := pos + 1;
      }
      var parsed := Parser(buffer);
      if parsed.Done? {
        FilterParsed(out, buffer, stdout[pos..]);
        out := out + Emitted(parsed.value);
        buffer := parsed.rest;
        shouldRead := parsed.rest == [];
      } else {
        // an incomplete parse (and an error, which the parser never gives)
        // waits for the next byte
        shouldRead := true;
      }
    }
    assert buffer + stdout[pos..] == buffer;
    FilterWaiting(buffer);
  }

  /** One pass of the pipe's loop, as the source has it. */
  datatype Pipe = Pipe(pos: nat, buffer: seq<Byte>, shouldRead: bool, out: seq<Byte>, finished: bool)

  /**
   * One iteration of the loop as written: an incomplete parse changes
   * nothing, so when it happens with `shouldRead` off the loop repeats it
   * for ever.
   */
  function PipeStepAsWritten(stdout: seq<Byte>, p: Pipe): (r: Pipe)
    ensures p.finished ==> r == p
    ensures r.pos <= |stdout| || r.pos == p.pos
  {
    if p.finished then p
    else if p.shouldRead && p.pos >= |stdout| then p.(finished := true)
    else
      var buffer := if p.shouldRead then p.buffer + [stdout[p.pos]] else p.buffer;
      var pos := if p.shouldRead then p.pos + 1 else p.pos;
      match Parser(buffer)
      case Done(remaining, t) =>
        Pipe(pos, remaining, remaining == [], p.out + Emitted(t), false)
      case Incomplete(_) => p.(pos := pos, buffer := buffer)
      case Error => p.(pos := pos, buffer := buffer)
  }

  function PipeSteps(stdout: seq<Byte>, p: Pipe, n: nat): Pipe
    decreases n
  {
    if n == 0 then p else PipeSteps(stdout, PipeStepAsWritten(stdout, p), n - 1)
  }

  const START: Pipe := Pipe(0, [], true, [], false)

  /** `ESC [` then `ESC`: a character, a character, then a lone `ESC` left unread. */
  const SPIN_INPUT: seq<Byte> := [0x1B, 0x5B, 0x1B]

  /** The state the loop as written reaches on `SPIN_INPUT` and never leaves. */
  const STUCK: Pipe := Pipe(3, [0x1B], false, [0x1B, 0x5B], false)

  lemma SpinPrefixes()
    ensures Parser([0x1B]).Incomplete?
    ensures Parser([0x1B, 0x5B]).Incomplete?
    ensures Parser([0x1B, 0x5B, 0x1B]) == Done([0x5B, 0x1B], Character(0x1B))
    ensures Parser([0x5B, 0x1B]) == Done([0x1B], Character(0x5B))
  {
    ParserCases([0x1B]);
    ParserCases([0x1B, 0x5B]);
    ParserCases([0x1B, 0x5B, 0x1B]);
    ParserCases([0x5B, 0x1B]);
    assert [0x1B, 0x5B, 0x1B][2] != HEAD[2];
    assert [0x5B, 0x1B][0] != HEAD[0];
  }

  /**
   * The loop as written never ends on `ESC [ ESC`: after five passes it is
   * stuck with `ESC` in its buffer and no read pending, and the next pass
   * leaves it unchanged. The corrected pipe ends, having written `ESC [`.
   */
  lemma PipeSpinsAsWritten()
    ensures PipeSteps(SPIN_INPUT, START, 5) == STUCK
    ensures PipeStepAsWritten(SPIN_INPUT, STUCK) == STUCK && !STUCK.finished
    ensures Filter(SPIN_INPUT) == [0x1B, 0x5B]
  {
    SpinPrefixes();
    var s := SPIN_INPUT;
    var p1 := SpinFirst();
    var p2 := SpinSecond(p1);
    var p3 := SpinThird(p2);
    var p4 := SpinFourth(p3);
    assert PipeSteps(s, START, 5) == PipeSteps(s, p4, 1);
    SpinFiltered();
  }

  /** The first pass reads `ESC` into the buffer. */
  lemma SpinFirst() returns (p1: Pipe)
    ensures p1 == PipeStepAsWritten(SPIN_INPUT, START)
    ensures p1 == Pipe(1, [0x1B], true, [], false)
  {
    SpinPrefixes();
    p1 := PipeStepAsWritten(SPIN_INPUT, START);
    assert [] + [SPIN_INPUT[0]] == [0x1B];
  }

  /** The second pass reads `[` into the buffer. */
  lemma SpinSecond(p1: Pipe) returns (p2: Pipe)
    requires p1 == Pipe(1, [0x1B], true, [], false)
    ensures p2 == PipeStepAsWritten(SPIN_INPUT, p1)
    ensures p2 == Pipe(2, [0x1B, 0x5B], true, [], false)
  {
    SpinPrefixes();
    p2 := PipeStepAsWritten(SPIN_INPUT, p1);
    assert [0x1B] + [SPIN_INPUT[1]] == [0x1B, 0x5B];
  }

  /** The third pass reads the second `ESC`, and the parser yields `ESC` as a character. */
  lemma SpinThird(p2: Pipe) returns (p3: Pipe)
    requires p2 == Pipe(2, [0x1B, 0x5B], true, [], false)
    ensures p3 == PipeStepAsWritten(SPIN_INPUT, p2)
    ensures p3 == Pipe(3, [0x5B, 0x1B], false, [0x1B], false)
  {
    SpinPrefixes();
    p3 := PipeStepAsWritten(SPIN_INPUT, p2);
    assert [0x1B, 0x5B] + [SPIN_INPUT[2]] == [0x1B, 0x5B, 0x1B];
  }

  /** The fourth pass yields `[` and leaves the lone `ESC` with no read pending. */
  lemma SpinFourth(p3: Pipe) returns (p4: Pipe)
    requires p3 == Pipe(3, [0x5B, 0x1B], false, [0x1B], false)
    ensures p4 == PipeStepAsWritten(SPIN_INPUT, p3)
    ensures p4 == STUCK
  {
    SpinPrefixes();
    p4 := PipeStepAsWritten(SPIN_INPUT, p3);
  }

  /** The corrected filter writes `ESC [` and drops the trailing `ESC`. */
  lemma SpinFiltered()
    ensures Filter(SPIN_INPUT) == [0x1B, 0x5B]
  {
    SpinPrefixes();
    assert Filter([0x1B]) == [];
    assert Filter([0x5B, 0x1B]) == [0x5B] + Filter([0x1B]);
  }
}
