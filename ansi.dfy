/**
 * A streaming parser for program output that may hold the ANSI escape codes
 * switching the alternative screen on and off (`ESC [ ? 1049 h` and
 * `ESC [ ? 1049 l`). It follows the parser-combinator library's streaming
 * semantics: a tag that sees only a proper prefix of itself asks for more
 * input, an alternative tries its next branch only on a plain error.
 */
module AnsiEscapedText {
  import opened Text

  datatype AnsiEscapeCode = EnableAlternativeScreen | DisableAlternativeScreen

  datatype EscapedText = EscapeCode(code: AnsiEscapeCode) | Character(byte: Byte)

  /** A streaming parse: the value and the unparsed rest, a need for more input, or an error. */
  datatype Parsed<T> = Done(rest: seq<Byte>, value: T) | Incomplete(needed: nat) | Error

  /** `ESC [`, the control sequence introducer. */
  const CSI: seq<Byte> := [0x1B, 0x5B]

  /** `? 1049`, the alternative screen's parameter. */
  const ALT_SCREEN: seq<Byte> := [0x3F, 0x31, 0x30, 0x34, 0x39]

  /** The common head of both codes, seven bytes. */
  const HEAD: seq<Byte> := CSI + ALT_SCREEN

  const ENABLE: seq<Byte> := HEAD + [0x68]
  const DISABLE: seq<Byte> := HEAD + [0x6C]

  /** The input and `t` agree on every position both have. */
  predicate Agree(input: seq<Byte>, t: seq<Byte>) {
    forall i :: 0 <= i < |input| && i < |t| ==> input[i] == t[i]
  }

  /**
   * The streaming `tag(t)`: `t` and the rest when the input starts with it;
   * a need for the missing bytes when the input is a proper prefix of `t`;
   * an error otherwise.
   */
  function Tag(t: seq<Byte>, input: seq<Byte>): (r: Parsed<seq<Byte>>)
    requires t != []
    ensures r.Done? <==> |input| >= |t| && Agree(input, t)
    ensures r.Done? ==> r.value == t && r.rest == input[|t|..]
    ensures r.Incomplete? <==> |input| < |t| && Agree(input, t)
    ensures r.Incomplete? ==> r.needed == |t| - |input|
  {
    if |input| >= |t| && input[..|t|] == t then
      assert forall i :: 0 <= i < |t| ==> input[i] == input[..|t|][i];
      Done(input[|t|..], t)
    else if |input| < |t| && input == t[..|input|] then
      assert forall i :: 0 <= i < |input| ==> t[i] == t[..|input|][i];
      Incomplete(|t| - |input|)
    else
      assert !Agree(input, t) by {
        if |input| >= |t| {
          assert input[..|t|] != t;
          var k :| 0 <= k < |t| && input[..|t|][k] != t[k];
        } else {
          var k :| 0 <= k < |input| && input[k] != t[..|input|][k];
        }
      }
      Error
  }

  /** The streaming `take(1)`: the first byte, or a need for one byte. */
  function TakeOne(input: seq<Byte>): (r: Parsed<Byte>)
    ensures r.Incomplete? <==> input == []
    ensures !r.Error?
  {
    if input == [] then Incomplete(1) else Done(input[1..], input[0])
  }

  /** `alternative_screen`: `? 1049`, then `h` to enable or `l` to disable. */
  function AlternativeScreen(input: seq<Byte>): Parsed<AnsiEscapeCode> {
    match Tag(ALT_SCREEN, input)
    case Incomplete(n) => Incomplete(n)
    case Error => Error
    case Done(rest, _) =>
      match Tag([0x68], rest)
      case Done(r, _) => Done(r, EnableAlternativeScreen)
      case Incomplete(n) => Incomplete(n)
      case Error =>
        match Tag([0x6C], rest)
        case Done(r, _) => Done(r, DisableAlternativeScreen)
        case Incomplete(n) => Incomplete(n)
        case Error => Error
  }

  /** `ansi_escape_code`: the control sequence introducer, then the alternative screen code. */
  function EscapeCodeParser(input: seq<Byte>): Parsed<AnsiEscapeCode> {
    match Tag(CSI, input)
    case Incomplete(n) => Incomplete(n)
    case Error => Error
    case Done(rest, _) => AlternativeScreen(rest)
  }

  /** The input agrees with the head on the first two bytes and on the five after them. */
  lemma AgreeHead(input: seq<Byte>)
    ensures Agree(input, HEAD) <==> Agree(input, CSI) && (|input| <= 2 || Agree(input[2..], ALT_SCREEN))
  {
    assert forall i :: 0 <= i < 2 ==> HEAD[i] == CSI[i];
    assert forall i :: 0 <= i < 5 ==> HEAD[i + 2] == ALT_SCREEN[i];
    if |input| > 2 {
      assert forall i :: 0 <= i < |input| - 2 ==> input[2..][i] == input[i + 2];
    }
  }

  /** A code agrees with the input exactly when the head does and the eighth byte is the code's. */
  lemma AgreeCode(input: seq<Byte>)
    requires |input| >= 8
    ensures Agree(input, ENABLE) <==> Agree(input, HEAD) && input[7] == 0x68
    ensures Agree(input, DISABLE) <==> Agree(input, HEAD) && input[7] == 0x6C
  {
    assert forall i :: 0 <= i < 7 ==> ENABLE[i] == HEAD[i] && DISABLE[i] == HEAD[i];
  }

  /**
   * The escape-code parser needs more input exactly on a prefix of the head
   * (the head itself included), recognises either code whole, and errs on
   * anything else.
   */
  lemma EscapeCodeCases(input: seq<Byte>)
    ensures EscapeCodeParser(input).Incomplete? <==> |input| <= 7 && Agree(input, HEAD)
    ensures EscapeCodeParser(input).Done? <==>
      |input| >= 8 && (Agree(input, ENABLE) || Agree(input, DISABLE))
    ensures EscapeCodeParser(input).Done? ==>
      EscapeCodeParser(input).rest == input[8..]
      && (EscapeCodeParser(input).value == EnableAlternativeScreen <==> input[7] == 0x68)
  {
    AgreeHead(input);
    if |input| >= 8 {
      AgreeCode(input);
    }
    if Tag(CSI, input).Done? {
      var a := input[2..];
      if Tag(ALT_SCREEN, a).Done? {
        var b := a[5..];
        assert b == input[7..];
        if b != [] {
          assert b[0] == input[7];
        }
      }
    }
  }

  /**
   * `parser`: an escape code, or else, on a plain error, one byte as a
   * character. What is parsed is taken from the front of the input.
   */
  function Parser(input: seq<Byte>): (r: Parsed<EscapedText>)
    ensures r.Done? ==> |r.rest| < |input| && r.rest == input[|input| - |r.rest|..]
  {
    match EscapeCodeParser(input)
    case Done(r, c) =>
      EscapeCodeCases(input);
      Done(r, EscapeCode(c))
    case Incomplete(n) => Incomplete(n)
    case Error =>
      match TakeOne(input)
      case Done(r, b) => Done(r, Character(b))
      case Incomplete(n) => Incomplete(n)
      case Error => Error
  }

  /** The input is a prefix of the escape codes' common head. */
  predicate PrefixOfHead(input: seq<Byte>) {
    |input| <= |HEAD| && Agree(input, HEAD)
  }

  /** The input starts with the code `code`. */
  predicate StartsWith(input: seq<Byte>, code: seq<Byte>) {
    |input| >= |code| && Agree(input, code)
  }

  /**
   * The parser's behaviour on every input: a prefix of the head needs more
   * input; either code is recognised whole, all eight bytes consumed; any
   * other input gives its first byte as a character. It never errs.
   */
  lemma ParserCases(input: seq<Byte>)
    ensures Parser(input).Incomplete? <==> PrefixOfHead(input)
    ensures StartsWith(input, ENABLE) ==> Parser(input) == Done(input[8..], EscapeCode(EnableAlternativeScreen))
    ensures StartsWith(input, DISABLE) ==> Parser(input) == Done(input[8..], EscapeCode(DisableAlternativeScreen))
    ensures !PrefixOfHead(input) && !StartsWith(input, ENABLE) && !StartsWith(input, DISABLE) ==>
      Parser(input) == Done(input[1..], Character(input[0]))
    ensures !Parser(input).Error?
  {
    EscapeCodeCases(input);
    if |input| >= 8 {
      AgreeCode(input);
    }
  }

  /** Agreement with a code survives appending to the input. */
  lemma AgreeAppend(input: seq<Byte>, more: seq<Byte>, t: seq<Byte>)
    requires |input| >= |t| || more == []
    ensures Agree(input + more, t) <==> Agree(input, t)
  {
    if more == [] {
      assert input + more == input;
    } else {
      assert forall i :: 0 <= i < |t| ==> (input + more)[i] == input[i];
    }
  }

  /**
   * Streaming is sound: once a buffer parses, more input behind it does not
   * change what is parsed, only the rest.
   */
  lemma ParserExtends(input: seq<Byte>, more: seq<Byte>)
    requires Parser(input).Done?
    ensures Parser(input + more) == Done(Parser(input).rest + more, Parser(input).value)
  {
    ParserCases(input);
    if StartsWith(input, ENABLE) || StartsWith(input, DISABLE) {
      CodeExtends(input, more);
    } else {
      CharacterExtends(input, more);
    }
  }

  /** A recognised code stays recognised, with the extra input behind it. */
  lemma CodeExtends(input: seq<Byte>, more: seq<Byte>)
    requires StartsWith(input, ENABLE) || StartsWith(input, DISABLE)
    ensures Parser(input + more) == Done(Parser(input).rest + more, Parser(input).value)
  {
    var whole := input + more;
    assert whole[8..] == input[8..] + more;
    if StartsWith(input, ENABLE) {
      AgreeAppend(input, more, ENABLE);
      ParserCases(input);
      ParserCases(whole);
    } else {
      AgreeAppend(input, more, DISABLE);
      ParserCases(input);
      ParserCases(whole);
    }
  }

  /** A byte taken as a character stays one: the longer input starts no code either. */
  lemma CharacterExtends(input: seq<Byte>, more: seq<Byte>)
    requires !PrefixOfHead(input) && !StartsWith(input, ENABLE) && !StartsWith(input, DISABLE)
    ensures Parser(input + more) == Done(Parser(input).rest + more, Parser(input).value)
  {
    ParserCases(input);
    var whole := input + more;
    assert !PrefixOfHead(whole) && !StartsWith(whole, ENABLE) && !StartsWith(whole, DISABLE) by {
      assert forall i :: 0 <= i < 7 ==> ENABLE[i] == HEAD[i] && DISABLE[i] == HEAD[i];
      if Agree(input, HEAD) {
        // a full head followed by a byte that is neither code's
        AgreeCode(input);
        AgreeCode(whole);
        AgreeAppend(input, more, HEAD);
        assert whole[7] == input[7];
      } else {
        // a disagreement within the input's own length stays one in `whole`
        var k :| 0 <= k < |input| && k < |HEAD| && input[k] != HEAD[k];
        assert whole[k] == input[k];
      }
    }
    ParserCases(whole);
    assert whole[0] == input[0];
    assert whole[1..] == input[1..] + more;
  }

  /** The worked examples of the source's tests. */
  lemma ParserExamples()
    ensures Parser([0x61]) == Done([], Character(0x61))
    ensures Parser([0x1B, 0x5B, 0x3F, 0x31, 0x30, 0x34, 0x39, 0x68]) == Done([], EscapeCode(EnableAlternativeScreen))
    ensures Parser([0x1B, 0x5B, 0x3F, 0x31, 0x30, 0x34, 0x39, 0x6C]) == Done([], EscapeCode(DisableAlternativeScreen))
    ensures Tag(CSI, [0x1B, 0x5B]) == Done([], CSI)
  {
    ParsesCharacterExample();
    ParsesEnableExample();
    ParsesDisableExample();
  }

  /** A plain `a` is a character. */
  lemma ParsesCharacterExample()
    ensures Parser([0x61]) == Done([], Character(0x61))
  {
    ParserCases([0x61]);
    assert [0x61][0] != HEAD[0];
  }

  /** `ESC [ ? 1 0 4 9 h` switches to the alternative screen. */
  lemma ParsesEnableExample()
    ensures Parser([0x1B, 0x5B, 0x3F, 0x31, 0x30, 0x34, 0x39, 0x68]) == Done([], EscapeCode(EnableAlternativeScreen))
  {
    ParserCases([0x1B, 0x5B, 0x3F, 0x31, 0x30, 0x34, 0x39, 0x68]);
  }

  /** `ESC [ ? 1 0 4 9 l` switches back from it. */
  lemma ParsesDisableExample()
    ensures Parser([0x1B, 0x5B, 0x3F, 0x31, 0x30, 0x34, 0x39, 0x6C]) == Done([], EscapeCode(DisableAlternativeScreen))
  {
    ParserCases([0x1B, 0x5B, 0x3F, 0x31, 0x30, 0x34, 0x39, 0x6C]);
  }
}
