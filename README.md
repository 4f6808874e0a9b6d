# insh and inshd, modelled in Dafny

insh is a terminal file manager. It has a file browser, a file finder, a
text searcher and an `edit` command that opens vim. inshd is its daemon: it
answers insh's requests over a Unix socket. This project models the
sequential core of both programs and proves properties of that model:

- **Terminal codec** (`term_event.dfy`). One raw-mode input byte decodes to a
  key event, and a key event encodes back to its byte.
- **Styled text** (`yarn.dfy`, `fabric.dfy`, `wrap.dfy`). A `Yarn` is a line
  of characters with colour vectors, and a `Fabric` is a rectangle of them.
  Both are classes whose methods resize, pad, colour and stack them in place.
  Word wrapping is a method with its loop, proved against a specification
  function.
- **String utilities** (`text.dfy`, `pad.dfy`, `strings.dfy`). Padding,
  joining with an Oxford comma, capitalizing and tab expansion. Widths count
  UTF-8 bytes, as Rust's `str::len` does.
- **Command line** (`args.dfy`, `vim.dfy`, `ansi.dfy`). The
  `file[:line[,column]]` argument with its parser, printer and error message;
  the starting directory and effects; vim's command line; and the pipe that
  strips the alternative-screen escape codes from vim's output, with its
  streaming parser.
- **Components** (`list_cursor.dfy`, `browser.dfy`, `finder.dfy`,
  `searcher.dfy`, `phrase.dfy`, `data.dfy`, `search_completer.dfy`). The
  browser, finder and searcher states are classes. Their key maps, scrolling,
  selection and correlation of daemon responses by request uuid are methods
  proved against cursor and view functions. The phrase box, the bounded search
  history and the history completer are modelled the same way.
- **Daemon** (`frames.dfy`, `client_handler.dfy`, `scheduler.dfy`,
  `response_handler.dfy`, `client_handler_monitor.dfy`, `daemon.dfy`).
  - The big-endian length framing.
  - The per-client request loop.
  - Round-robin scheduling.
  - Response routing, with its request, client and count maps.
  - Matching handler handles with disconnects.
  - The pid-file, status, stop, restart and exit-code decisions.

The daemon's threads communicate over channels. Here each loop takes, as a
sequence, what its channels deliver in order. Sockets, the file system, the
clock, uuids and the clipboard are likewise parameters or results. A panic in
the source is an explicit outcome (`Panicked`, `Err`, `None`), not a
precondition.

## Model

| member | source | states |
|---|---|---|
| `TermEvents.Decode` | term/src/event.rs:19-545 | decoding fails exactly on an empty slice, with `Need(1)`; otherwise it yields a key event |
| `TermEvents.Encode` | term/src/event.rs:553-1152 | every encoding is one byte; encoding fails exactly for a `Char` key matching no arm, with `UnhandledKeyChar`; an encoded `Char` key decodes back to itself |
| `TermEvents.DecodeFirstByteOnly` | term/src/event.rs:22-544 | every non-empty slice decodes, and two slices with the same first byte decode alike |
| `TermEvents.UnknownRoundTrip` | term/src/event.rs:540-543 | a byte of 128 or more decodes to `Unknown(b)` with no modifiers, and that key encodes back to `[b]` |
| `TermEvents.RoundTrip` | term/src/event.rs:19-1152 | for every byte, decoding then encoding gives back that byte |
| `TermEvents.ControlSynonyms` | term/src/event.rs:559-566 | Ctrl+letter and the named control key of that letter encode to the same byte, the letter's position in the alphabet |
| `TermEvents.CharEncodedIffDecodable` | term/src/event.rs:553-1150 | a `Char` key with given modifiers encodes exactly when some byte decodes to that very key event |
| `TermEvents.ShiftControlRejected` | term/src/event.rs:1147-1150 | a character held with shift and control is rejected with `UnhandledKeyChar` |
| `Strings.ConjoinIsCommaList` | src/string/mod.rs:16-27 | from three items on, the result is the comma list whose last item carries the conjunction, so the penultimate item is followed by an Oxford comma |
| `Strings.ConjoinExamples` | src/string/mod.rs:37-40 | zero items give "", one item gives itself, two give "foo and bar", three give "foo, bar, and baz" |
| `Strings.CapitalizeFirstLetter` | src/string/mod.rs:59-66 | the result keeps the length and everything after the first character; a lower-case ASCII first letter becomes its upper-case letter (32 code points lower) and any other first character is kept, so the first character is no lower-case ASCII letter; it is `None` (the source's slice panic) exactly when the first character is not one byte long |
| `Strings.CapitalizeIdempotent` | src/string/mod.rs:59-66 | capitalizing a second time changes nothing |
| `Strings.CapitalizeExamples` | src/string/mod.rs:81-85 | "" stays "", "a" and "A" give "A", "foo" and "Foo" give "Foo" |
| `Strings.Detab` | src/string/mod.rs:109-141 | the loop's output is the character-by-character expansion `DetabSpec`; it is `None` exactly when a tab width of 0 makes the counter subtraction underflow |
| `Strings.DetabUnderflowPanics` | src/string/mod.rs:124-132 | with tab width 0, a tab after any non-tab character underflows |
| `Strings.TabStopAligns` | src/string/mod.rs:123-128 | the spaces a tab expands to reach the next multiple of the tab width |
| `Strings.DetabNoTabs` | src/string/mod.rs:121-138 | the expansion contains no tab |
| `Strings.DetabKeepsVisible` | src/string/mod.rs:121-138 | apart from spaces and tabs, the expansion holds exactly the input's characters, in order |
| `Strings.DetabWidths` | src/string/mod.rs:121-138 | with a positive width the expansion is at least as long as the input, and one that ends in a tab ends on a tab stop |
| `Strings.DetabExamples` | src/string/mod.rs:154-156 | "\tfoo\t" expands to "    foo " and "\ttoad\t" to "    toad    " with width 4 |
| `Pad.PadOptionsBuilder.Build` | src/string/pad.rs:86-97 | building fails exactly when no width was set (the source's "Width not set." panic); otherwise it copies width, alignment and pad string |
| `Pad.SideOptionsBuilder.Build` | src/string/pad.rs:151-158 | the one-sided builders fail exactly without a width and otherwise copy width and pad string |
| `Pad.SideOptionsOf` | src/string/pad.rs:25-48 | the one-sided options taken from `PadOptions` keep its width and pad string |
| `Text.RepeatCopies` | src/string/pad.rs:307 | `repeat(pad).take(n)` collected is exactly `n` copies of the pad string back to back |
| `Pad.PadLeft` | src/string/pad.rs:304-309 | the string is a prefix of the result and what follows it is `width - len` copies of the pad string (none when the string is already as wide); with a one-byte pad the result is `max(width, len)` bytes long |
| `Pad.PadCenter` | src/string/pad.rs:317-328 | the result is `pad_len / 2` copies of the pad string, the string, then the remaining `pad_len - pad_len / 2` copies; a string already as wide is unchanged; with a one-byte pad the result is `max(width, len)` bytes |
| `Pad.PadRight` | src/string/pad.rs:336-340 | the string is a suffix of the result and what precedes it is `width - len` copies of the pad string (none when the string is already as wide); with a one-byte pad the result is `max(width, len)` bytes |
| `Pad.LeftSpaces` | src/string/pad.rs:304-309 | padding on the right with spaces appends exactly `width.saturating_sub(len)` spaces |
| `Pad.RightSpaces` | src/string/pad.rs:336-340 | padding on the left with spaces prepends exactly `width.saturating_sub(len)` spaces |
| `Pad.CenterSpaces` | src/string/pad.rs:317-328 | centring with spaces puts `pad_len / 2` spaces before and the rest after, so a tie leaves the extra space on the right |
| `Pad.PadPlacesString` | src/string/pad.rs:290-296 | `Pad::pad` dispatches on the alignment: with a one-byte pad the result reaches the width and holds the string at the start, at `pad_len / 2`, or at the end |
| `Pad.BuildNeedsWidth` | src/string/pad.rs:62-68 | a fresh builder (left alignment, space pad) that is never given a width cannot build, whatever alignment and pad string it gets |
| `Pad.PadExamples` | src/string/pad.rs:349-369 | "foo" at width 5 left, centre and right gives "foo  ", " foo ", "  foo"; "42" centred with "0" at width 4 gives "0420"; "a" centred at 4 gives " a  "; "" padded to 3 gives three spaces |
| `Yarns.CenterChars` | rend/src/yarn.rs:41-73 | a length of 0 gives no characters; for ASCII text the result has exactly `len` characters |
| `Yarns.CenterFits` | rend/src/yarn.rs:56-71 | text that fits sits after `(len - len(s)) / 2` spaces with as many or one more after it, so a tie leaves the extra space on the right |
| `Yarns.CenterCuts` | rend/src/yarn.rs:47-55 | text that is too long becomes `len` dots when `len` is at most 3, and otherwise its first `len - 3` characters followed by "..." |
| `Yarns.CenterFitExamples` | rend/src/yarn.rs:243-247 | "" at 0 and 3, and "foo" at 3, 5 and 6, give "", three spaces, "foo", " foo " and " foo  " |
| `Yarns.CenterCutExamples` | rend/src/yarn.rs:248-249 | "foobar" at 5 gives "fo..." and at 2 gives ".." |
| `Yarns.ConcatStyle` | rend/src/yarn.rs:92-100 | a style vector stays as it was when the other yarn has none; otherwise it is padded with `None` to the old length and the other's entries follow |
| `Yarns.ConcatExample` | rend/src/yarn.rs:259 | an unstyled space followed by a black one has colours `[None, black]` |
| `Yarns.ColorAfterAsWritten` | rend/src/yarn.rs:173-185 | the colours reach the character count when shorter, and every position from `p` up to the character count has the new colour |
| `Yarns.ColorAfterIntended` | rend/src/yarn.rs:172-185 | exactly the positions from `p` to the character count get the new colour; others keep theirs or stay unstyled |
| `Yarns.ColorAfterColorsBeforePosition` | rend/src/yarn.rs:175-179 | on five unstyled characters coloured from position 3, the loop as written colours position 0 as well, where the intended colouring leaves it unstyled |
| `Yarns.ColorAfterAgreesWhenCovered` | rend/src/yarn.rs:175-184 | whenever the colours reach the character count or position `p`, the as-written and intended colourings agree |
| `Yarns.Yarn.Blank` | rend/src/yarn.rs:31-37 | `len` spaces with no styles |
| `Yarns.Yarn.FromChars` | rend/src/yarn.rs:208-235 | the characters unchanged, with no styles |
| `Yarns.Yarn.Center` | rend/src/yarn.rs:41-73 | the centred characters, with no styles |
| `Yarns.Yarn.Concat` | rend/src/yarn.rs:88-103 | the characters are the two yarns' characters in order, and each style vector is the padded concatenation `ConcatStyle` |
| `Yarns.Yarn.Truncate` | rend/src/yarn.rs:122-126 | each of the three vectors keeps its first `n` entries at most |
| `Yarns.Yarn.Resize` | rend/src/yarn.rs:106-117 | the yarn has exactly `n` characters; shrinking truncates every vector; growing appends spaces and leaves the styles unchanged |
| `Yarns.Yarn.Pad` | rend/src/yarn.rs:132-153 | a smaller length fails (the source's panic) and changes nothing; otherwise the characters are centred in `n` with the smaller half on the left, and the styles get `None` entries on the left only |
| `Yarns.Yarn.SetColor` | rend/src/yarn.rs:156-158 | every character gets the text colour, and nothing else changes |
| `Yarns.Yarn.SetBackground` | rend/src/yarn.rs:188-190 | every character gets the background colour, and nothing else changes |
| `Yarns.Yarn.ColorBefore` | rend/src/yarn.rs:161-170 | the first `position` colours become `c` and the rest are kept; colours shorter than `position` become exactly `position` copies of `c` |
| `Yarns.Yarn.ColorAfter` | rend/src/yarn.rs:173-185 | the loop leaves the colours `ColorAfterAsWritten` describes, and nothing else changes |
| `Yarns.Yarn.ColorAfterCorrected` | rend/src/yarn.rs:172-185 | the corrected method leaves the colours `ColorAfterIntended` describes, and nothing else changes |
| `Fabrics.SizeOf` | rend/src/fabric.rs:166-182 | the size has one row per yarn and as many columns as the longest yarn; no yarns give 0 by 0 |
| `Fabrics.CenterRowsPlaces` | rend/src/fabric.rs:47-58 | with rows and columns, there are `rows` rows; row `(rows - 1) / 2` holds the centred text and every other row is blank |
| `Fabrics.CenterRowsSize` | rend/src/fabric.rs:43-58 | for ASCII text the centred fabric has exactly the requested size |
| `Fabrics.CenterRowsExamples` | rend/src/fabric.rs:226-229 | "foo" in 0 by 0, 1 by 3, 3 by 3 and 4 by 3 stacks the rows the source's tests expect, a tie leaving the extra blank row below |
| `Fabrics.CenterRowExamples` | rend/src/fabric.rs:230-232 | "foo" in 1 by 5 and 1 by 6, and "foobar" in 1 by 5, give " foo ", " foo  " and "fo..." |
| `Fabrics.OneRow` | rend/src/fabric.rs:47-58 | a single row is the text centred in it |
| `Fabrics.Fabric.New` | rend/src/fabric.rs:28-38 | `rows` rows of `columns` spaces, with empty colour and background rows |
| `Fabrics.Fabric.FromYarns` | rend/src/fabric.rs:165-196 | one row per yarn, holding its characters and styles, sized by `SizeOf` |
| `Fabrics.Fabric.FromYarn` | rend/src/fabric.rs:199-218 | one row as wide as the yarn, holding its characters and styles |
| `Fabrics.Fabric.Center` | rend/src/fabric.rs:43-58 | the centred rows with no styles; a size with no rows or no columns keeps that size, as `Fabric::new` does |
| `Fabrics.Fabric.Pad` | rend/src/fabric.rs:86-118 | a smaller row count fails (the source's panic) and changes nothing; otherwise `diff / 2` blank rows go above and the rest below, while the size is left as it was |
| `Fabrics.Fabric.PadIntended` | rend/src/fabric.rs:82-118 | the corrected `pad` lays out the rows as `pad` does (`diff / 2` blank rows above the old rows, the rest below, for characters, colours and backgrounds) and keeps the size in step: the fabric holds and claims `n` rows; a smaller `n` fails and changes nothing |
| `Fabrics.Fabric.PadBottom` | rend/src/fabric.rs:123-139 | a smaller row count fails and changes nothing; otherwise blank, unstyled rows are appended up to `n`, the columns are kept and the size says `n` rows |
| `Fabrics.Fabric.QuiltBottom` | rend/src/fabric.rs:143-155 | the other fabric's rows follow this one's, as many as its shortest row vector holds, and the row counts add up |
| `Fabrics.PadLeavesSizeStale` | rend/src/fabric.rs:86-118 | a 1 by 1 fabric padded to 3 rows holds 3 rows but still claims 1 |
| `Fabrics.PadBottomExample` | rend/src/fabric.rs:239-244 | 1 by 1 padded at the bottom to 2 rows equals `new` of 2 by 1 |
| `Fabrics.QuiltBottomExample` | rend/src/fabric.rs:246-255 | 2 by 3 quilted above 1 by 3 equals `new` of 3 by 3 |
| `Wrap.WordsKeepLetters` | src/rendering/yarn.rs:85 | splitting on whitespace keeps every non-whitespace character of the text, in order |
| `Wrap.WordsEmptyIffBlank` | src/rendering/yarn.rs:81-86 | there are no words exactly when the text is all whitespace, so the source's `unwrap` of the first word cannot fail past its guard |
| `Wrap.WordsProps` | src/rendering/yarn.rs:85-86 | every word is non-empty, the words keep the text's letters, there are none exactly when the text is all whitespace, and ASCII text has ASCII words |
| `Wrap.SplitAtByte` | src/rendering/yarn.rs:135 | `split_at` gives two parts that make up the word, the first exactly `k` bytes long; an ASCII word with `k` at most its length never panics |
| `Wrap.StepOf` | src/rendering/yarn.rs:109-181 | every pass that goes on moves to a state with fewer words left, a shorter word, or no open line, so the loop ends |
| `Wrap.RunKeepsLetters` | src/rendering/yarn.rs:107-181 | the loop, with the last open line kept, loses no letter of its words (hyphens and spaces aside) |
| `Wrap.RunFits` | src/rendering/yarn.rs:107-181 | the loop never produces a line wider than the columns |
| `Wrap.RunAsciiTotal` | src/rendering/yarn.rs:107-181 | on ASCII words the loop never panics |
| `Wrap.RunDropsAtMostLast` | src/rendering/yarn.rs:144-150 | the loop as written gives the corrected lines or the corrected lines without the last one, and panics exactly when the corrected loop does |
| `Wrap.ColumnWidths` | src/rendering/yarn.rs:88-105 | in one column every line is one character |
| `Wrap.ColumnLetters` | src/rendering/yarn.rs:88-105 | the one-column layout keeps every letter of the words |
| `Wrap.PaddedLetters` | src/rendering/yarn.rs:184-191 | padding a line with spaces adds no letter |
| `Wrap.PadAllLetters` | src/rendering/yarn.rs:184-191 | padding every line adds no letter to the lines |
| `Wrap.WrapBlank` | src/rendering/yarn.rs:81-83 | empty or all-whitespace text, or zero columns, gives no lines |
| `Wrap.WrapKeepsLetters` | src/rendering/yarn.rs:80-192 | wrapping into one or more columns loses no letter of the text |
| `Wrap.WrapWidths` | src/rendering/yarn.rs:88-191 | in two or more columns every line is exactly the width; in one column every line is one character |
| `Wrap.WrapAsciiTotal` | src/rendering/yarn.rs:80-192 | ASCII text never makes the wrapping panic |
| `Wrap.WrapAsWrittenDropsAtMostLast` | src/rendering/yarn.rs:144-150 | the source's wrapping panics exactly when the corrected one does, and otherwise gives its lines or all of them but the last |
| `Wrap.ColumnLines` | src/rendering/yarn.rs:88-105 | the one-column loop yields `Column(words)`: each character its own line, a " " line between words |
| `Wrap.WrapLines` | src/rendering/yarn.rs:107-181 | the multi-column loop, with the last open line kept, yields exactly what `Run` gives from the first word, panics included |
| `Wrap.Wrapped` | src/rendering/yarn.rs:80-192 | the whole method yields exactly `Wrap(text, columns, align)` |
| `Wrap.WrapDropsLastLine` | src/rendering/yarn.rs:144-150 | "a b" in six centred columns gives no lines as written, where the corrected wrapping gives " a b  " |
| `Wrap.HyphenateExample` | src/rendering/yarn.rs:388 | "foobar" in four centred columns gives "foo-" and "bar " |
| `Wrap.OneColumnExample` | src/rendering/yarn.rs:389 | "foo" in one column gives "f", "o", "o" |
| `Wrap.CanalExample` | src/rendering/yarn.rs:387 | "a man a plan a canal panama" in six centred columns gives "a man ", "a plan", "a can-", "al pa-", " nama ", both as written and corrected |
| `Args.RSplitOnce` | insh/src/args.rs:251 | `rsplit_once` finds a split exactly when the separator occurs; the two parts around it rebuild the text, and the right part holds no separator |
| `Args.ParseNumber` | insh/src/args.rs:298-318 | an absent number is neither parsed nor bad; a present one is exactly one of the two, and a bad one is reported as its own text |
| `Args.Parse` | insh/src/args.rs:245-327 | the empty string gives no file; an error never blames the file but names a bad line or column; a successful parse of non-empty text has a file that prefixes it and a column only with a line; text without ':' is just a file |
| `Args.Display` | insh/src/args.rs:224-239 | printing gives nothing without a file (or with an empty file alone) and otherwise starts with the file |
| `Args.ParseDisplay` | insh/src/args.rs:224-327 | printing then parsing gives back the same file, line and column, for a non-empty file without ':' and 64-bit numbers |
| `Args.ParseDisplayLine` | insh/src/args.rs:224-327 | `file:line` round-trips |
| `Args.ParseDisplayColumn` | insh/src/args.rs:224-327 | `file:line,column` round-trips |
| `Args.ParseOfParts` | insh/src/args.rs:251-327 | text whose last ':' and ',' split off two numbers parses to that file, line and column |
| `Args.RSplitUnique` | insh/src/args.rs:251 | the split at the last separator is the only one whose right part has no separator |
| `Args.ParseExamplesFile` | insh/src/args.rs:335-336 | the empty string and `foo.py` parse as the source's tests expect |
| `Args.ParseExampleLine` | insh/src/args.rs:338 | `foo.py:42` parses to file and line |
| `Args.ParseExampleColumn` | insh/src/args.rs:340 | `foo.py:42,7` parses to file, line and column |
| `Args.ParseExampleBadLine` | insh/src/args.rs:337 | `foo.py:xx` reports the bad line `xx` |
| `Args.ParseExampleBadColumn` | insh/src/args.rs:339 | `foo.py:42,xx` reports only the bad column |
| `Args.ParseExampleBadBoth` | insh/src/args.rs:341 | `foo.py:xx,yy` reports both the bad line and the bad column |
| `Args.Problems` | insh/src/args.rs:420-432 | one problem per bad part, each a non-empty lower-case `could not parse` sentence |
| `Args.ErrorMessage` | insh/src/args.rs:410-437 | with nothing recorded the fixed vague sentence; otherwise a message starting with a capital `C`; always ending with a full stop |
| `Args.MessageOfProblems` | insh/src/args.rs:434-436 | the message is the first problem capitalized, conjoined with the rest by "and", and a full stop |
| `Args.ErrorMessageBadLine` | insh/src/args.rs:424-436 | a bad line alone gives `Could not parse "<line>" as a line number.` |
| `Args.ErrorMessageBadLineAndColumn` | insh/src/args.rs:424-436 | a bad line and column give both problems joined by " and " |
| `Args.Parent` | insh/src/args.rs:58-61 | `Path::parent` is a shorter prefix of the path, ends in no separator unless it is the root, and is absent exactly for a path made only of separators (the root) or the empty path |
| `Args.ParentIgnoresTrailing` | insh/src/args.rs:58-61 | a trailing separator does not change the parent |
| `Args.ParentOfChild` | insh/src/args.rs:58-61 | the parent of `dir/name` is `dir` |
| `Args.ParentOfTopLevel` | insh/src/args.rs:58-61 | `/name` has the root as parent and a lone `name` the empty path |
| `Args.ParentIgnoresDoubled` | insh/src/args.rs:58-61 | a doubled separator before the last component gives the same parent as a single one |
| `Args.ParentExampleTrailing` | insh/src/args.rs:58-61 | `/home/` and `/home` both have the parent `/` |
| `Args.ParentExampleDoubled` | insh/src/args.rs:58-61 | `a//b` has the parent `a` |
| `Args.ParentExampleRoot` | insh/src/args.rs:58-61 | `//` is the root and has no parent |
| `Args.Push` | insh/src/args.rs:71-72 | `PathBuf::push` of an absolute path replaces the base, of a relative one extends it |
| `Args.Dir` | insh/src/args.rs:43-78 | there is a directory exactly when one was given or `edit --browse` names a file; against an absolute current directory the result is absolute |
| `Args.DirChoices` | insh/src/args.rs:49-75 | a given absolute directory is kept; without one, `edit --browse` starts in the file's parent, `/` when it has none, made absolute when relative |
| `Args.DirExampleNested` | insh/src/args.rs:49-75 | editing `src/main.rs` and browsing from `/home` starts in `/home/src` |
| `Args.DirExampleBare` | insh/src/args.rs:49-75 | a bare file name starts browsing in the current directory, and without `--browse` there is no directory |
| `Args.DirExampleRoot` | insh/src/args.rs:58-60 | a file at the root starts browsing at `/` |
| `Args.EditVimArgs` | insh/src/args.rs:118-130 | the vim arguments carry exactly the edited file, line and column, and are empty without an argument |
| `Args.StartingEffects` | insh/src/args.rs:112-142 | only `edit` has starting effects: running vim on its file, line and column, then exiting unless browsing afterwards |
| `Args.EditStartsVimAtLine` | insh/src/args.rs:112-142 | `insh edit file:line` runs vim with the file first and a `+line` argument that reads back as the line |
| `Args.ParseLineBounded` | insh/src/args.rs:299-317 | every parsed line and column fits in a 64-bit `usize` |
| `AnsiEscapedText.Tag` | insh/src/ansi_escaped_text.rs:42-51 | the streaming `tag` succeeds exactly when the input starts with the tag, leaving the rest; it asks for the missing bytes exactly when the input is a proper prefix of the tag; otherwise it errs |
| `AnsiEscapedText.TakeOne` | insh/src/ansi_escaped_text.rs:28 | the streaming `take(1)` never errs and needs more input exactly on empty input |
| `AnsiEscapedText.EscapeCodeCases` | insh/src/ansi_escaped_text.rs:34-52 | `ansi_escape_code` needs more input exactly on a prefix of `ESC [ ? 1049`, recognises exactly the two eight-byte codes (`h` enables), consuming all eight bytes, and errs otherwise |
| `AnsiEscapedText.Parser` | insh/src/ansi_escaped_text.rs:23-32 | what is parsed is a non-empty part taken from the front of the input |
| `AnsiEscapedText.ParserCases` | insh/src/ansi_escaped_text.rs:23-52 | `parser` needs more input exactly on a prefix of the head, gives either code whole, gives any other input's first byte as a character, and never errs |
| `AnsiEscapedText.ParserExtends` | insh/src/ansi_escaped_text.rs:23-52 | streaming is sound: once a buffer parses, more input behind it changes only the rest, not what is parsed |
| `AnsiEscapedText.CodeExtends` | insh/src/ansi_escaped_text.rs:34-47 | a recognised code stays recognised with more input behind it |
| `AnsiEscapedText.CharacterExtends` | insh/src/ansi_escaped_text.rs:28-31 | a byte taken as a character stays one with more input behind it |
| `AnsiEscapedText.ParserExamples` | insh/src/ansi_escaped_text.rs:60-62 | the source's test inputs: `a`, the enable code, the disable code, and the control sequence introducer alone |
| `AnsiEscapedText.ParsesCharacterExample` | insh/src/ansi_escaped_text.rs:60 | `a` parses as a character with nothing left |
| `AnsiEscapedText.ParsesEnableExample` | insh/src/ansi_escaped_text.rs:61 | `ESC [ ? 1049 h` enables the alternative screen |
| `AnsiEscapedText.ParsesDisableExample` | insh/src/ansi_escaped_text.rs:62 | `ESC [ ? 1049 l` disables it |
| `Vim.ArgsBuilder.SetPath` | insh/src/programs/vim.rs:119-122 | sets the path and leaves the line and column as they were |
| `Vim.ArgsBuilder.SetLine` | insh/src/programs/vim.rs:125-128 | sets the line and leaves the path and column as they were |
| `Vim.ArgsBuilder.SetColumn` | insh/src/programs/vim.rs:131-134 | sets the column and leaves the path and line as they were |
| `Vim.ArgsBuilder.Build` | insh/src/programs/vim.rs:137-143 | the built arguments carry exactly the builder's path, line and column |
| `Vim.NewBuilder` | insh/src/programs/vim.rs:112-116 | a new builder has nothing set |
| `Vim.BuilderOrderIrrelevant` | insh/src/programs/vim.rs:112-143 | the setters commute, and a builder given all three builds exactly them |
| `Vim.ColumnArgs` | insh/src/programs/vim.rs:53-58 | there is a column command exactly when a column past the first is given |
| `Vim.CommandLine` | insh/src/programs/vim.rs:42-65 | the command line always ends with `--cmd` `set t_u7=` |
| `Vim.CommandLineCarriesArgs` | insh/src/programs/vim.rs:42-65 | the command line carries back what it was built from: the path first, `+line` reading back as the line, `-c` `norm <column-1>l` exactly for columns past the first, and nothing else |
| `Vim.CommandLineLine` | insh/src/programs/vim.rs:45-51 | the line argument follows the path and reads back as the line |
| `Vim.CommandLineColumn` | insh/src/programs/vim.rs:53-58 | the column command appears exactly for columns past the first and names the distance moved |
| `Vim.FilterPlain` | insh/src/programs/vim.rs:162-228 | output without an escape byte reaches the terminal unchanged |
| `Vim.FilterDropsCodes` | insh/src/programs/vim.rs:199-209 | both alternative-screen codes are removed whole, and what follows is filtered as if they were not there |
| `Vim.FilterShrinks` | insh/src/programs/vim.rs:162-228 | nothing is written that vim did not write |
| `Vim.FilterParsed` | insh/src/programs/vim.rs:185-225 | writing the parsed front of the buffer and filtering the rest with the unread output is filtering the whole |
| `Vim.FilterWaiting` | insh/src/programs/vim.rs:189 | a buffer holding no complete text writes nothing |
| `Vim.PipeRun` | insh/src/programs/vim.rs:162-228 | the pipe, with its stall corrected, writes exactly the filtered output: every character vim wrote, the two codes removed, an unfinished code at the end not written |
| `Vim.PipeStepAsWritten` | insh/src/programs/vim.rs:173-226 | a finished pipe stays finished, and a pass never reads past vim's output |
| `Vim.SpinPrefixes` | insh/src/ansi_escaped_text.rs:23-52 | `ESC` and `ESC [` need more input; `ESC [ ESC` and `[ ESC` each give their first byte as a character |
| `Vim.PipeSpinsAsWritten` | insh/src/programs/vim.rs:173-226 | on `ESC [ ESC` the loop as written reaches, after five passes, a state it never leaves and that is not finished, while the filtered output is `ESC [` |
| `Vim.SpinFirst` | insh/src/programs/vim.rs:174-189 | the first pass on `ESC [ ESC` reads `ESC` and waits |
| `Vim.SpinSecond` | insh/src/programs/vim.rs:174-189 | the second pass reads `[` and waits |
| `Vim.SpinThird` | insh/src/programs/vim.rs:174-224 | the third pass reads the second `ESC` and writes the first as a character, keeping `[ ESC` without a read |
| `Vim.SpinFourth` | insh/src/programs/vim.rs:185-224 | the fourth pass writes `[` and keeps the lone `ESC` with no read pending |
| `Vim.SpinFiltered` | insh/src/programs/vim.rs:162-228 | the filtered output of `ESC [ ESC` is `ESC [` |
| `ListCursor.Visible` | insh/src/components/browser/contents.rs:223-245 | the shown entries are those from the offset on, at most one window's worth, and none for an empty list |
| `ListCursor.VisibleHoldsSelection` | insh/src/components/browser/contents.rs:223-249 | for a cursor that fits, the selected row of the window is the selected entry |
| `ListCursor.SelectedEntry` | insh/src/components/browser/contents.rs:247-266 | nothing without a selection; the entry at offset plus selected row when there is one; an index past the end (a panic) otherwise |
| `ListCursor.FitsFindsEntry` | insh/src/components/browser/contents.rs:251-266 | a cursor that fits never indexes past the end, and finds an entry exactly when the list is non-empty |
| `ListCursor.Down` | insh/src/components/browser/contents.rs:317-348 | `down` keeps the cursor fitting, selects the next entry (staying on the last), and scrolls only with the selection on the window's last row |
| `ListCursor.ReallyDown` | insh/src/components/browser/contents.rs:351-378 | `really_down` keeps the cursor fitting and selects the last entry, showing the last page when the list is longer than the window |
| `ListCursor.Up` | insh/src/components/browser/contents.rs:380-390 | `up` keeps a selection a selection and never scrolls down |
| `ListCursor.UpMovesBack` | insh/src/components/browser/contents.rs:380-390 | on a list the cursor fits, `up` keeps it fitting and selects the previous entry, staying on the first |
| `ListCursor.ReallyUpAsWritten` | insh/src/components/browser/contents.rs:393-397 | `really_up` as written always selects entry 0 |
| `ListCursor.ReallyUpAsWrittenSelectsMissingEntry` | insh/src/components/browser/contents.rs:393-397 | on an empty list `really_up` as written turns a fitting cursor into one selecting an entry past the end |
| `ListCursor.ReallyUp` | insh/src/components/browser/contents.rs:393-397 | `really_up` as intended keeps the cursor fitting, changes nothing in an empty list and otherwise selects the first entry |
| `ListCursor.Placed` | insh/src/components/browser/contents.rs:567-604 | after a listing arrives the cursor fits, selects the starting entry when found (else the first), unscrolled when that entry is on the first page |
| `ListCursor.UpUndoesDown` | insh/src/components/browser/contents.rs:317-390 | `down` then `up` returns to the same entry unless already at the last |
| `ListCursor.DownTimes` | insh/src/components/browser/contents.rs:317-348 | any number of `down` presses keep the cursor fitting |
| `ListCursor.DownTimesReaches` | insh/src/components/browser/contents.rs:317-348 | `n` presses of `down` move `n` entries on, stopping at the last entry |
| `Browser.ActionOf` | insh/src/components/browser/contents.rs:95-177 | responses are handled, terminal resizes map to nothing, the Control-modified letters have no action, and the movement and copy actions come only from unmodified or shifted keys |
| `Browser.Position` | insh/src/components/browser/contents.rs:575 | the index found is the first entry with the path, and none means no entry has it |
| `Browser.Arrived` | insh/src/components/browser/contents.rs:565-604 | a listing's cursor fits it and selects the starting file when listed; otherwise the first entry, and the first row for an unreadable directory |
| `Browser.NameText` | insh/src/components/browser/contents.rs:478-481 | `y` copies the name, with a slash added exactly for a directory |
| `Browser.PathText` | insh/src/components/browser/contents.rs:500-504 | `Y` copies the path, with a slash added exactly for a directory |
| `Browser.BrowserState.Entry` | insh/src/components/browser/contents.rs:251-266 | the selected entry of a valid state is never past the end, and is the listing's selected entry |
| `Browser.BrowserState.constructor` | insh/src/components/browser/contents.rs:200-215 | a new browser keeps its size, directory, starting file and pending request, with nothing listed or selected |
| `Browser.BrowserState.MoveDown` | insh/src/components/browser/contents.rs:317-348 | moves the cursor by `down` over a listing, and changes nothing else |
| `Browser.BrowserState.MoveReallyDown` | insh/src/components/browser/contents.rs:351-378 | moves the cursor by `really_down` over a listing, and changes nothing else |
| `Browser.BrowserState.MoveUp` | insh/src/components/browser/contents.rs:380-390 | moves the cursor by `up`, keeping it fitting, and changes nothing else |
| `Browser.BrowserState.MoveReallyUp` | insh/src/components/browser/contents.rs:393-397 | moves the cursor by the corrected `really_up`, keeping it fitting, and changes nothing else |
| `Browser.BrowserState.Refresh` | insh/src/components/browser/contents.rs:400-415 | drops the listing and selection and requests the directory again, the new request pending |
| `Browser.BrowserState.Push` | insh/src/components/browser/contents.rs:417-444 | a selected directory becomes the browsed one and is requested; a selected file opens in vim; with no selected entry (or neither kind) nothing happens |
| `Browser.BrowserState.Pop` | insh/src/components/browser/contents.rs:446-465 | moves to the parent directory (`Path::parent`, so `/home/` goes to `/`) exactly when there is one, resetting the listing and cursor and requesting the parent's files; otherwise nothing changes |
| `Browser.BrowserState.Copied` | insh/src/components/browser/contents.rs:470-510 | there is something to copy exactly when an entry is selected: its name or its path text |
| `Browser.BrowserState.HandleResponse` | insh/src/components/browser/contents.rs:537-609 | only a files response to the pending request replaces the listing, places the cursor and forgets the starting file; anything else changes nothing |
| `Browser.BrowserState.Handle` | insh/src/components/browser/contents.rs:40-45 | a key without an action rings the bell and changes nothing; every other action leaves the state and effect of the operation `perform` dispatches it to (moves, refresh, push, pop, yanks, file creation, find, search, bash, responses); the state stays valid |
| `Browser.ReallyUpAsWrittenBreaksEmptyListing` | insh/src/components/browser/contents.rs:393-397 | after an empty listing arrives, `really_up` as written selects an entry past the end, so a following push or yank panics |
| `Finder.ActionOf` | insh/src/components/finder/contents.rs:36-97 | a find and a response always have an action; Ctrl+q unfocuses; only a plain `r` refreshes; a letter outside the key map has no action |
| `Finder.FitsGrows` | insh/src/components/finder/contents.rs:461 | appending entries keeps a cursor that fits |
| `Finder.YankText` | insh/src/components/finder/contents.rs:409-418 | `Y` copies the whole path; `y` copies the path relative to the searched directory, which exists exactly when the directory prefixes the path (otherwise the `unwrap` panics), with exactly one separator after the directory stripped |
| `Finder.YankTextStripsOneSeparator` | insh/src/components/finder/contents.rs:412-417 | `y` on `dir/name` copies `name`, even when `name` itself starts with a separator, and on `dir` followed by a name without a leading separator copies that name |
| `Finder.FinderState.constructor` | insh/src/components/finder/contents.rs:195-208 | a new finder is unfocused, with no phrase, no hits, no entries and no pending request |
| `Finder.FinderState.Find` | insh/src/components/finder/contents.rs:292-303 | focuses, remembers the phrase, makes the new request pending and not yet answered, and sends it for the directory; the entries stay until the first response |
| `Finder.FinderState.Refresh` | insh/src/components/finder/contents.rs:358-363 | finds the last phrase again: a new pending request for it, focused, with the entries, hits and cursor kept until the first response; before any find nothing changes |
| `Finder.FinderState.MoveDown` | insh/src/components/finder/contents.rs:305-321 | moves the cursor by `down` over a non-empty list, and changes nothing else |
| `Finder.FinderState.MoveReallyDown` | insh/src/components/finder/contents.rs:324-337 | moves the cursor by `really_down` over a non-empty list, and changes nothing else |
| `Finder.FinderState.MoveUp` | insh/src/components/finder/contents.rs:339-348 | moves the cursor by `up`, and changes nothing else |
| `Finder.FinderState.MoveReallyUp` | insh/src/components/finder/contents.rs:351-355 | selects the first row of an unscrolled window, as written, even in an empty list |
| `Finder.FinderState.EntryPath` | insh/src/components/finder/contents.rs:237-246 | the selected entry; an index past the end exactly when an empty list has its first row selected |
| `Finder.FinderState.Edited` | insh/src/components/finder/contents.rs:365-373 | `l` opens the selected entry in vim, does nothing without a selection, and panics exactly on an index past the end |
| `Finder.FinderState.Went` | insh/src/components/finder/contents.rs:383-397 | `g`/`G` go to the selected entry's parent (with the entry for `G`); they panic on an index past the end or an entry without a parent |
| `Finder.FinderState.Yanked` | insh/src/components/finder/contents.rs:409-423 | copies the yank text of the selected entry, and panics exactly on an index past the end or a path outside the directory |
| `Finder.FinderState.HandleResponse` | insh/src/components/finder/contents.rs:425-479 | ignored without a pending request; the first response after a find clears the old results; one for the pending request appends its entries, and either reports no hits and unfocuses, or reports hits, selects entry 0 when nothing was selected (at offset 0 after a fresh find), keeps an existing selection, and ends the request on the last response |
| `Finder.FinderState.AcceptEntries` | insh/src/components/finder/contents.rs:461-478 | appends the entries; an empty final result reports no hits and unfocuses; otherwise reports hits, selects entry 0 when nothing was selected, keeps an existing selection and the offset, and ends the request on the last response |
| `Finder.FinderState.Defocus` | insh/src/components/finder/contents.rs:287-290 | gives up the focus with an `Unfocus` effect, and changes nothing else |
| `Finder.FinderState.Handle` | insh/src/components/finder/contents.rs:36-104 | a key without an action rings the bell and changes nothing; every other action leaves the state and effect of the operation `perform` dispatches it to (unfocus, find, moves, refresh, go to, yanks, responses); `l` gives the edit effect; the state stays valid |
| `Finder.Collect` | insh/src/components/finder/contents.rs:425-479 | a find's responses in the daemon's order leave every entry found, in order, with the first one selected and the request finished; with nothing found the finder unfocuses and the request stays pending |
| `Searcher.RowsBeforeGrows` | insh/src/components/searcher/contents.rs:361-372 | a later file hit starts below all the rows of an earlier one (path, lines and blank row) |
| `Searcher.ItemAt` | insh/src/components/searcher/contents.rs:318-337 | the item of a hit is its path, or the given line of it |
| `Searcher.LineOf` | insh/src/components/searcher/contents.rs:342-345 | an item has a line exactly when it is a line, and it is that line |
| `Searcher.Next` | insh/src/components/searcher/contents.rs:444-457 | the item after another stays among the hits |
| `Searcher.Prev` | insh/src/components/searcher/contents.rs:518-576 | the item before another stays among the hits |
| `Searcher.NextIsLower` | insh/src/components/searcher/contents.rs:444-457 | the next item is an item further down the page, unless there is none |
| `Searcher.PrevUndoesNext` | insh/src/components/searcher/contents.rs:444-576 | previous and next undo each other except at the ends; only the last line has no next item and only the first path has no previous one |
| `Searcher.LineNumberOf` | insh/src/components/searcher/contents.rs:318-329 | a line number exactly when a line is selected, never less than the selected row |
| `Searcher.WithinPage` | insh/src/components/searcher/contents.rs:492-516 | a kept view never scrolls past the last hit's blank row, and its selection is never below it |
| `Searcher.SelectionBelowTop` | insh/src/components/searcher/contents.rs:349-382 | a selected path scrolled off the top is above the page top; any other selection is on or below it |
| `Searcher.ScrollDownStepMoves` | insh/src/components/searcher/contents.rs:493-513 | one scroll-down step scrolls exactly one row except at the last position, keeps the view well formed, and keeps a selection below the top row |
| `Searcher.ScrollDownStepKeepsWellFormed` | insh/src/components/searcher/contents.rs:493-513 | one step keeps the view well formed |
| `Searcher.ScrollDownStepScrolls` | insh/src/components/searcher/contents.rs:493-513 | one step moves the page top one row, except at the last position |
| `Searcher.ScrollDownStepKeepsSelection` | insh/src/components/searcher/contents.rs:499-506 | one step keeps a selection below the top row |
| `Searcher.ScrollDownBy` | insh/src/components/searcher/contents.rs:493-514 | any number of steps keep the view well formed |
| `Searcher.ScrollDownByMoves` | insh/src/components/searcher/contents.rs:492-516 | `k` steps scroll `k` rows, stopping at the last position, and keep a selection further down than that |
| `Searcher.ScrolledBackMoves` | insh/src/components/searcher/contents.rs:598-617 | scrolling back within the first visible hit moves the page top up by exactly that many rows, keeps the view well formed and keeps the selection |
| `Searcher.ScrolledBackTop` | insh/src/components/searcher/contents.rs:598-617 | the page top moves up by the rows scrolled |
| `Searcher.ScrolledBackEmpty` | insh/src/components/searcher/contents.rs:598-617 | on a page without hits, scrolling back keeps every position at 0 |
| `Searcher.ScrolledBackKeepsWellFormed` | insh/src/components/searcher/contents.rs:598-617 | scrolling back within the first visible hit keeps the view well formed |
| `Searcher.ScrolledBackKeepsSelection` | insh/src/components/searcher/contents.rs:598-617 | scrolling back within the first visible hit keeps the selected item |
| `Searcher.PreviousHitMoves` | insh/src/components/searcher/contents.rs:619-641 | scrolling back past the first visible hit's path shows the previous hit's blank row, keeps the view well formed and keeps the selection |
| `Searcher.ScrollBack` | insh/src/components/searcher/contents.rs:595-645 | the intended `scroll_up` keeps the view well formed |
| `Searcher.ScrollBackOnce` | insh/src/components/searcher/contents.rs:596-643 | one round of `scroll_up`'s loop stops within the first visible hit or at the page top, or goes on from the previous hit with the rows left |
| `Searcher.ScrollBackMoves` | insh/src/components/searcher/contents.rs:595-645 | the intended `scroll_up` by `n` moves the page top up `n` rows, stopping at the top, and keeps the selection |
| `Searcher.NextView` | insh/src/components/searcher/contents.rs:445-457 | selecting the next item does not scroll |
| `Searcher.NextViewMoves` | insh/src/components/searcher/contents.rs:445-457 | `down` selects the next item without scrolling, and a path scrolled off the top is followed by the first line on the screen |
| `Searcher.ScrollsIntoView` | insh/src/components/searcher/contents.rs:459-461 | scrolling by `down`'s adjustment keeps the selection and puts it on the screen |
| `Searcher.DownViewMoves` | insh/src/components/searcher/contents.rs:444-464 | `down` selects the next item, never scrolls back, and leaves the selection on the screen |
| `Searcher.UpViewMoves` | insh/src/components/searcher/contents.rs:518-579 | `up` selects the previous item and never scrolls down; with no hits it only forgets a selected line |
| `Searcher.UpViewKeepsWellFormed` | insh/src/components/searcher/contents.rs:518-579 | `up` keeps the view well formed |
| `Searcher.UpViewSelectsPrev` | insh/src/components/searcher/contents.rs:518-579 | `up` selects the previous item |
| `Searcher.UpFromPath` | insh/src/components/searcher/contents.rs:520-551 | `up` from a selected path selects the previous item |
| `Searcher.UpFromLine` | insh/src/components/searcher/contents.rs:552-575 | `up` from a selected line selects the previous item |
| `Searcher.UpViewScrollsBack` | insh/src/components/searcher/contents.rs:518-579 | `up` never moves the page top down |
| `Searcher.UpAdjustmentAsWritten` | insh/src/components/searcher/contents.rs:477-482 | `rows - (lines + 1)` in unsigned arithmetic underflows exactly when the last hit has as many lines as the screen has rows, and is otherwise the rows left under the hit |
| `Searcher.UpAdjustment` | insh/src/components/searcher/contents.rs:477-482 | the intended adjustment agrees with the source's whenever that does not underflow, and is 0 otherwise |
| `Searcher.ReallyDownUnderflows` | insh/src/components/searcher/contents.rs:481 | a last hit with two lines on a two-row screen makes the subtraction underflow |
| `Searcher.LastPathOnTop` | insh/src/components/searcher/contents.rs:472-475 | `really_down` first shows the last hit's path, selected, at the top of the page |
| `Searcher.LastLineOnBottom` | insh/src/components/searcher/contents.rs:477-487 | after scrolling back by the adjustment the last hit's last line is on the screen's bottom row, unless the page top came first |
| `Searcher.LastLineRow` | insh/src/components/searcher/contents.rs:349-382 | the row of the last hit's last line |
| `Searcher.ScrollUpAsWritten` | insh/src/components/searcher/contents.rs:595-645 | `scroll_up` as written never scrolls down |
| `Searcher.ScrollUpAsWrittenExamples` | insh/src/components/searcher/contents.rs:762-802 | the three cases of the source's `scroll_up` test |
| `Searcher.ScrollUpAsWrittenLosesLine` | insh/src/components/searcher/contents.rs:609-616 | with a line of the first visible hit selected, scrolling up one row to its path moves the selection two lines down, past the hit's end when one of its last two lines was selected |
| `Searcher.ScrollUpAsWrittenMovesSelection` | insh/src/components/searcher/contents.rs:619-631 | below the first hit, scrolling up two rows scrolls three and moves the selection into the previous hit, past its end |
| `Searcher.ActionOf` | insh/src/components/searcher/contents.rs:50-128 | a search always has an action; Ctrl+q unfocuses, Ctrl+j and Ctrl+k scroll; only a plain `r` refreshes; a letter outside the key map has no action |
| `Searcher.SearcherState.constructor` | insh/src/components/searcher/contents.rs:268-285 | a new searcher has not searched, has no hits and shows the top of the page |
| `Searcher.SearcherState.HitNumber` | insh/src/components/searcher/contents.rs:301-308 | the selected hit's index exactly when it exists, the selected item's hit |
| `Searcher.SearcherState.LineHitNumber` | insh/src/components/searcher/contents.rs:318-329 | the selected line's index in its hit, counting the scrolled-off lines only in the first visible hit; the selected item's line |
| `Searcher.SearcherState.SetView` | insh/src/components/searcher/contents.rs:425-428 | sets the four view fields and nothing else |
| `Searcher.SearcherState.ScrollDown` | insh/src/components/searcher/contents.rs:492-516 | scrolls `n` rows, stopping at the last hit's blank row, keeping a selection below the rows scrolled off; with no hits it panics on a second row |
| `Searcher.SearcherState.ScrollUp` | insh/src/components/searcher/contents.rs:595-645 | scrolls back `n` rows as intended, stopping at the top |
| `Searcher.SearcherState.SelectedRowNumber` | insh/src/components/searcher/contents.rs:349-382 | the loop's count is the selection's screen row |
| `Searcher.SearcherState.Down` | insh/src/components/searcher/contents.rs:444-464 | selects the next item and scrolls it onto the screen's last row; with no hits the second press panics |
| `Searcher.SearcherState.Up` | insh/src/components/searcher/contents.rs:518-579 | selects the previous item, never scrolling down |
| `Searcher.SearcherState.ReallyDown` | insh/src/components/searcher/contents.rs:467-490 | selects the last hit's path and scrolls back so its last line is on the bottom row, with the scroll-back adjustment corrected (see Findings); nothing with no hits |
| `Searcher.SearcherState.ShowLastHit` | insh/src/components/searcher/contents.rs:472-487 | the part of `really_down` over some hits, with the scroll-back adjustment corrected (see Findings) |
| `Searcher.SearcherState.ScrollUpToLastLine` | insh/src/components/searcher/contents.rs:485-487 | the loop of `really_down` keeps the last path selected and moves the page top up by the adjustment |
| `Searcher.SearcherState.ReallyUp` | insh/src/components/searcher/contents.rs:582-593 | selects the first hit's path on an unscrolled page; nothing with no hits |
| `Searcher.SearcherState.Search` | insh/src/components/searcher/contents.rs:415-435 | focuses, keeps the phrase and its hits, adds the phrase to the history, resets the view, and unfocuses when nothing is found |
| `Searcher.SearcherState.Hit` | insh/src/components/searcher/contents.rs:332-337 | the selected file hit exactly when there is one |
| `Searcher.SearcherState.SelectedLine` | insh/src/components/searcher/contents.rs:662-665 | the selected line hit, or an index past the end |
| `Searcher.SearcherState.Edited` | insh/src/components/searcher/contents.rs:655-669 | opens the hit in vim at the selected line's number; with no hit or a line past the end it panics |
| `Searcher.SearcherState.Went` | insh/src/components/searcher/contents.rs:679-692 | goes to the hit's directory (with the file for `G`), nothing without a hit, a panic for a path without a parent |
| `Searcher.SearcherState.Yanked` | insh/src/components/searcher/contents.rs:704-728 | copies the selected line's text or the path (relative for `y`), and panics on a line past the end or a path outside the directory |
| `Searcher.SearcherState.Perform` | insh/src/components/searcher/contents.rs:732-753 | each action leaves the state and effect of its operation: unfocus, search and refresh (the last phrase again), edit, go to, yanks, and the moves and scrolls; the state stays valid unless it panics |
| `Searcher.SearcherState.Handle` | insh/src/components/searcher/contents.rs:50-128 | a key without an action rings the bell and changes nothing; any other event leaves the state and effect `Perform` gives for its action; the state stays valid unless it panics |
| `ResponseHandlers.AwaitRequest` | inshd/src/response_handler.rs:98-109 | waiting for a request's client takes no more messages than arrive |
| `ResponseHandlers.AwaitClient` | inshd/src/response_handler.rs:124-135 | waiting for a client takes no more messages than arrive |
| `ResponseHandlers.NewClientRecorded` | inshd/src/response_handler.rs:227-234 | a new client starts with nothing handled and an empty stream, nothing else changes, and the maps stay consistent |
| `ResponseHandlers.CleanupForgetsOnlyClient` | inshd/src/response_handler.rs:237-240 | forgetting a client drops its count and its stream and nothing else |
| `ResponseHandlers.MaybeCleanupExactly` | inshd/src/response_handler.rs:243-253 | the client is forgotten exactly when its handled count equals its recorded total; a client without a count panics |
| `ResponseHandlers.AwaitRequestFinds` | inshd/src/response_handler.rs:98-109 | every client request up to the awaited one is recorded; it is found exactly when it arrives, and the first such arrival gives the client |
| `ResponseHandlers.AwaitClientFinds` | inshd/src/response_handler.rs:124-135 | every new client up to the awaited one is announced; it is found exactly when it arrives, with an empty stream and nothing handled |
| `ResponseHandlers.DeliverWritesFrame` | inshd/src/response_handler.rs:140-178 | a delivery raises the handled count and appends the big-endian length and the payload (only the length, or nothing, when a write fails); the client is forgotten exactly when its count reaches its total |
| `ResponseHandlers.RespondBooks` | inshd/src/response_handler.rs:80-181 | a last response drops its request's mapping and any other keeps it; a connected client's response is delivered; a payload longer than 64 bits can count panics |
| `ResponseHandlers.RespondWaitsForRequest` | inshd/src/response_handler.rs:98-135 | a response whose client request has not come stalls exactly when that request never arrives, or its client is never announced |
| `ResponseHandlers.DisconnectDecides` | inshd/src/response_handler.rs:191-218 | a disconnect forgets the client at once when all its requests are answered, and otherwise records its total |
| `ResponseHandlers.DisconnectBeforeAnnounce` | inshd/src/response_handler.rs:193-218 | a disconnect from an unannounced client waits for it; once it arrives it is forgotten if it made no requests, and otherwise its total is recorded |
| `ResponseHandlers.NonLastKeepsClient` | inshd/src/response_handler.rs:140-178 | counting last responses only, a response that is not the last never makes the handler forget its client |
| `ResponseHandlers.AsWrittenForgetsClientEarly` | inshd/src/response_handler.rs:141-144 | counting every response, a client that made one request is forgotten after the first of its two responses, and the second stalls |
| `ResponseHandlers.IntendedForgetsClientAfterLast` | inshd/src/response_handler.rs:141-144 | counting last responses only, both responses are delivered and the client is forgotten after the last |
| `ResponseHandlers.ResponseHandler.constructor` | inshd/src/response_handler.rs:50 | a new handler has empty maps |
| `ResponseHandlers.ResponseHandler.HandleNewClient` | inshd/src/response_handler.rs:227-234 | records the client's stream and a count of 0 |
| `ResponseHandlers.ResponseHandler.CleanupClient` | inshd/src/response_handler.rs:237-240 | removes the client's count and stream |
| `ResponseHandlers.ResponseHandler.MaybeCleanupClient` | inshd/src/response_handler.rs:243-253 | agrees with the bookkeeping function, panicking without a count |
| `ResponseHandlers.ResponseHandler.HandleClientRequest` | inshd/src/response_handler.rs:256-260 | maps the request to its client |
| `ResponseHandlers.ResponseHandler.AwaitClientRequest` | inshd/src/response_handler.rs:98-109 | the receiving loop agrees with waiting for the request |
| `ResponseHandlers.ResponseHandler.AwaitNewClient` | inshd/src/response_handler.rs:124-135 | the receiving loop agrees with waiting for the client |
| `ResponseHandlers.ResponseHandler.HandleResponse` | inshd/src/response_handler.rs:80-181 | the response branch agrees with responding as intended |
| `ResponseHandlers.ResponseHandler.Send` | inshd/src/response_handler.rs:140-178 | counting and writing agree with delivering |
| `ResponseHandlers.ResponseHandler.HandleDisconnect` | inshd/src/response_handler.rs:182-219 | the disconnect branch agrees with the disconnect function |
| `Scheduler.RequestsBeforeStop` | inshd/src/scheduler.rs:29-53 | the requests taken before a stop or a closed channel are no more than what was received |
| `Scheduler.Run` | inshd/src/scheduler.rs:24-56 | the k-th request received before the stop goes to handler k mod n, every one of them is sent, and with no handlers the first request panics |
| `ClientHandlerMonitor.InHandleClients` | inshd/src/client_handler_monitor.rs:39-54 | a client's handle has arrived exactly when some event is its handle |
| `ClientHandlerMonitor.InDisconnectClients` | inshd/src/client_handler_monitor.rs:55-72 | a client has disconnected exactly when some event is its disconnect |
| `ClientHandlerMonitor.StopIndex` | inshd/src/client_handler_monitor.rs:34-38 | the first stop, before which no event is a stop |
| `ClientHandlerMonitor.HandleStep` | inshd/src/client_handler_monitor.rs:48-53 | a handle arriving is joined at once when its client already disconnected, and is stored otherwise |
| `ClientHandlerMonitor.DisconnectStep` | inshd/src/client_handler_monitor.rs:64-71 | a disconnect joins the stored handle, or leaves the client waiting for it |
| `ClientHandlerMonitor.ErrorStep` | inshd/src/client_handler_monitor.rs:42-45 | an error receiving changes nothing |
| `ClientHandlerMonitor.Run` | inshd/src/client_handler_monitor.rs:28-101 | the monitor blocks exactly when no stop comes and panics only after one; when each client sends one handle and one disconnect, it panics exactly when a handle awaited at the stop never comes, and otherwise joins each handler at most once, joins every client that disconnected and stops exactly the clients still connected |
| `ClientHandlerMonitor.Drained` | inshd/src/client_handler_monitor.rs:84-98 | after the drain, no handler has been joined twice, every disconnected client has been joined, and none of the joined is stopped |
| `Frames.FromBigEndian` | inshd/src/client_handler.rs:75 | the number a byte string spells is below 256 to the power of its length |
| `Frames.ToBigEndian` | inshd/src/response_handler.rs:159 | the bytes of a number have the width asked for |
| `Frames.FromToBigEndian` | inshd/src/client_handler.rs:75 | reading back the bytes of a number that fits gives the number |
| `Frames.ToFromBigEndian` | inshd/src/response_handler.rs:159 | writing the number bytes spell gives the bytes back |
| `Frames.U64Range` | inshd/src/client_handler.rs:75 | eight bytes hold exactly the numbers below 2 to the 64 |
| `Frames.ToBeBytes` | inshd/src/response_handler.rs:159 | `u64::to_be_bytes` gives eight bytes |
| `Frames.FromBeBytes` | inshd/src/client_handler.rs:75 | `u64::from_be_bytes` gives a 64-bit number |
| `Frames.BeBytesRoundTrip` | inshd/src/response_handler.rs:159 | the header decoding undoes the encoding, both ways round |
| `Frames.Frame` | inshd/src/response_handler.rs:152-173 | a frame is the eight-byte length header of the payload followed by the payload |
| `Frames.UnframedFrame` | inshd/src/client_handler.rs:62-109 | a reader takes a frame's payload from the front of a stream, then goes on with the rest |
| `Frames.UnframedFramed` | inshd/src/client_handler.rs:62-109 | reading a stream of frames gives back exactly the payloads written |
| `Frames.TruncatedFrame` | inshd/src/client_handler.rs:63-105 | a stream cut inside a header or a payload yields nothing more |
| `Frames.HeaderExample` | inshd/src/response_handler.rs:159 | a 258-byte payload's header is the bytes 0,0,0,0,0,0,1,2 |
| `ClientHandler.Take` | inshd/src/client_handler.rs:58-60 | the first `n` requests, or all of them, as a prefix |
| `ClientHandler.ReadFrame` | inshd/src/client_handler.rs:62-105 | reading one request: the length, then that many bytes, or nothing when the stream ends inside either |
| `ClientHandler.ReadOne` | inshd/src/client_handler.rs:109-116 | a request read is the next frame of the stream |
| `ClientHandler.StopTakes` | inshd/src/client_handler.rs:58-60 | stopping after the requests read means those are all received |
| `ClientHandler.EndTakes` | inshd/src/client_handler.rs:63-74 | running out of frames means every frame was received |
| `ClientHandler.PanicTakes` | inshd/src/client_handler.rs:109 | a payload that is not a request is the next frame |
| `ClientHandler.Run` | inshd/src/client_handler.rs:39-136 | every complete frame before the stop is sent on as a request with its client-request pair, and the report counts them; a payload that does not deserialize panics before any report |
| `Daemon.GetPid` | inshd/src/main.rs:709-733 | the pid is the file's contents without trailing whitespace read as a 64-bit number; a missing file, a file that cannot be opened or read, and contents that are not a number give distinct errors |
| `Daemon.TrimEndPrinted` | inshd/src/main.rs:725 | printed digits followed by whitespace trim back to the digits |
| `Daemon.PidFileRoundTrip` | inshd/src/main.rs:709-733 | a pid file holding a printed pid and a line ending gives that pid back |
| `Daemon.GetStatus` | inshd/src/main.rs:636-650 | not running exactly when there is no pid file, running with the pid when it is read, otherwise the pid error |
| `Daemon.SignalFor` | inshd/src/main.rs:227-230 | SIGKILL exactly when forced, otherwise SIGTERM |
| `Daemon.Stop` | inshd/src/main.rs:206-272 | no pid file is "not running"; a pid beyond a `pid_t` panics; otherwise the signal is sent to the pid, and the stop succeeds exactly when sending and waiting both succeed |
| `Daemon.StartEffects` | inshd/src/main.rs:97-105 | starting ends by daemonizing, and removes the socket and the pid file first exactly when forced |
| `Daemon.Restart` | inshd/src/main.rs:555-569 | a restart stops first and starts only when the stop succeeded or found nothing running, and succeeds exactly when it started and starting succeeded |
| `Daemon.RestartWhenStopped` | inshd/src/main.rs:555-569 | with no pid file a restart sends no signal and starts |
| `Daemon.RestartWithStalePidFile` | inshd/src/main.rs:555-569 | a pid file left by a daemon that is gone fails the signal, so a restart does not start, even forced |
| `Daemon.ExitCode` | inshd/src/main.rs:54-90 | the exit code is 0 exactly on success and 1 exactly on failure |
| `Daemon.ExitOf` | inshd/src/main.rs:47-94 | each command exits with 0 or 1; status exits with 0 exactly when it is known; stopping with no pid file exits with 1 |
| `Phrase.ActionOf` | insh/src/components/common/phrase.rs:43-76 | a resize has no action; a character typed plain or with shift is pushed, and only such a key pushes |
| `Phrase.ControlCharactersAreNotTyped` | insh/src/components/common/phrase.rs:49-74 | a character with control is quit for `q` and nothing otherwise |
| `Phrase.PhraseState.constructor` | insh/src/components/common/phrase.rs:140-147 | a default phrase is empty, focused and without a completion |
| `Phrase.PhraseState.WithValue` | insh/src/components/common/phrase.rs:34-41 | a new phrase holds the value given, if any |
| `Phrase.PhraseState.PushCharacter` | insh/src/components/common/phrase.rs:177-190 | appends the character and, with a completer, completes the new value |
| `Phrase.PhraseState.PopCharacter` | insh/src/components/common/phrase.rs:192-207 | removes the last character if any, and with a completer completes the value, or clears the completion once it is empty |
| `Phrase.PhraseState.CompleteValue` | insh/src/components/common/phrase.rs:209-215 | takes the completion as the value and clears it |
| `Phrase.PhraseState.Perform` | insh/src/components/common/phrase.rs:230-244 | each action leaves the value, completion and focus its operation leaves: push and pop as `PushCharacter` and `PopCharacter` (with the completion), complete as `CompleteValue`; enter unfocuses and gives the value, quit gives the quit effect |
| `Phrase.PhraseState.Handle` | insh/src/components/common/phrase.rs:43-83 | a key without an action rings the bell and changes nothing; any other event leaves the state and effect `Perform` gives for its action; Enter gives the value and unfocuses |
| `Data.Added` | insh/src/data.rs:145-150 | the phrase is the newest entry, appended while there is room and replacing the oldest once the history is full |
| `Data.AddedKeepsBound` | insh/src/data.rs:145-150 | a history within the maximum stays within it, growing by one until it is full, and empty with a maximum of 0 |
| `Data.AddedIsSuffix` | insh/src/data.rs:145-150 | the new history is the old one with the phrase appended, minus at most its oldest entry |
| `Data.SearcherData.constructor` | insh/src/data.rs:136-141 | a new searcher history is empty |
| `Data.SearcherData.AddToHistory` | insh/src/data.rs:145-150 | the history becomes the one with the phrase added |
| `SearchCompleter.NewestWithPrefixMeaning` | src/auto_completers/search_completer.rs:28-42 | the completion starts with the text typed, is in the history, and no newer entry starts with that text; there is none exactly when no entry does |
| `SearchCompleter.NoneMeansNoMatch` | src/auto_completers/search_completer.rs:28-42 | there is no completion exactly when no entry starts with the text typed |
| `SearchCompleter.SomeIsNewestMatch` | src/auto_completers/search_completer.rs:28-42 | a completion is an entry that starts with the text typed, after which none does |
| `SearchCompleter.NewestWithEmptyPrefix` | src/auto_completers/search_completer.rs:28-42 | with nothing typed the completion is the newest search |
| `SearchCompleter.Complete` | src/auto_completers/search_completer.rs:20-43 | scanning the history from its newest entry gives the newest entry starting with the text typed |

## Left out

- Threads, channels, sockets and `select!`. Each daemon loop takes, as a sequence, the messages its channels deliver in order. The order in which `select!` picks between ready channels is whatever that sequence says. The response handler writes with `stream.write`, which may write only part of a buffer; `ResponseHandlers.Writes` has only whole writes, a failed length write and a failed payload write, so a partly written frame is not modelled.
- The file system, the daemon's file walker and the phrase searcher. Listings, found paths, search hits and whether a path is a directory are inputs of the operations that receive them.
- Reading and writing the data file and its lock. `Data.SearcherData.AddToHistory` works on the history in memory, and `SearchCompleter.Complete` takes that history as a parameter instead of reading it from disk.
- The clipboard, the terminal and rendering to the screen. The yank operations return the text they would copy.
- Fresh uuids. Each operation that sends a request takes the uuid as a parameter (`next`).
- Serialization with bincode. A response's serialized bytes are a sequence of bytes. Deserializing a request is a function parameter of `ClientHandler.Run` that may fail.
- Daemonizing, forking, `kill`, pidfd waiting and the stop timeout. `Daemon.Stop` and `Daemon.Restart` take whether the signal, the wait and the start succeed.
- `parse_duration` and the daemon's other argument parsing are not modelled.
- Logging is not modelled.
- The resize handlers of the browser, the finder and the searcher compute with `f64` percentages.
- Browser.BrowserState.Handle: requires that the event is not a resize, because resizing uses floating point.
- Finder.FinderState.Handle: requires that the event is not a resize, because resizing uses floating point.
- Searcher.SearcherState.Handle: requires that the event is not a resize, because resizing uses floating point. It also requires that every file hit the search returns has at least one line hit, which the phrase searcher guarantees.
- Browser.BrowserState.constructor: requires at least one row. With none, the source's `rows - 1` underflows.
- Finder.FinderState.constructor: requires at least one row. With none, the source's `rows - 1` underflows.
- Searcher.SearcherState.constructor: requires at least one row. With none, the source's `rows - 1` underflows.
- The client handler's request buffer: at inshd/src/client_handler.rs:81-94 it grows to the largest request so far. Slicing it to a shorter length after `reserve_exact` depends on the capacity the allocator returns. The model reads each payload as exactly the bytes its header announces.
- Finder.FinderState.MoveReallyUp: keeps `really_up` as written, selecting row 0 even in an empty list. The finder's entry lookups then report the out-of-range index as the source's panic (`Finder.FinderState.EntryPath`). The browser uses the corrected `really_up` instead (see Findings).
- ClientHandlerMonitor.Run: the handlers still connected at the stop are stopped and joined in the hash map's iteration order. The model returns them as a set.
- Args.Dir: paths are strings. `Path::parent` drops trailing and repeated separators as Rust does, but a `.` component inside a path is kept, where Rust's component reading skips it.
- Args.Parent: a `.` component after the first is kept as an ordinary component, so `a/./b` has the parent `a/.` and `a/b/.` the parent `a/b`, where Rust skips such components and gives `a` for both.
- Text.Utf8Len: a string's `len()` is the UTF-8 byte count of its characters. Dafny strings are sequences of Unicode scalar values, so invalid UTF-8 cannot arise.
- Colours are compared for equality only. Their terminal codes are not modelled.

## Findings

| source | as written | input that shows it | evidently intended | confidence | as-written member | corrected member |
|---|---|---|---|---|---|---|
| src/rendering/yarn.rs:144-150 | when the last word does not fill the open line, the loop ends without pushing that line | "a b" in 6 centred columns gives no lines | the last line " a b  " is kept | not executed | `Wrap.WrapDropsLastLine` | `Wrap.WrapKeepsLetters` |
| insh/src/components/searcher/contents.rs:609-617 | scrolling up from the first visible hit's path adds `rows + 1` to `line_selected`, instead of the lines scrolled | a line of the first visible hit selected, scrolled up one row to its path | the selection stays on the same line | not executed | `Searcher.ScrollUpAsWrittenLosesLine` | `Searcher.ScrollBackMoves` |
| insh/src/components/searcher/contents.rs:481 | `rows - (lines + 1)` underflows `usize` when the last hit has at least as many lines as the screen has rows | a last hit with 2 lines on a 2-row screen | no scrolling back is needed, so the adjustment is 0 | not executed | `Searcher.ReallyDownUnderflows` | `Searcher.UpAdjustment` |
| insh/src/programs/vim.rs:173-226 | after an incomplete escape code with `should_read` false, the loop never reads again and spins | vim writes `ESC [ ESC` | the pipe reads more input and forwards the rest | not executed | `Vim.PipeSpinsAsWritten` | `Vim.PipeRun` |
| rend/src/yarn.rs:175-179 | when the colours are shorter than the text, `color_after` pads them with the new colour from their end, which can be before the position | five unstyled characters coloured from position 3 | only positions 3 and 4 get the colour | not executed | `Yarns.ColorAfterColorsBeforePosition` | `Yarns.Yarn.ColorAfterCorrected` |
| rend/src/fabric.rs:86-118 | `pad` adds rows but leaves `size.rows` as it was | a 1 by 1 fabric padded to 3 rows | the size claims 3 rows | not executed | `Fabrics.PadLeavesSizeStale` | `Fabrics.Fabric.PadIntended` |
| inshd/src/response_handler.rs:141-144 | every response, last or not, counts as one handled, but the count is compared with the number of requests | a client that disconnects after one find-files request, before its two responses | the client is forgotten after its last response | not executed | `ResponseHandlers.AsWrittenForgetsClientEarly` | `ResponseHandlers.IntendedForgetsClientAfterLast` |
| insh/src/components/browser/contents.rs:393-397 | `really_up` selects entry 0 even when the listing is empty | `K` in an empty directory | nothing is selected in an empty listing | not executed | `Browser.ReallyUpAsWrittenBreaksEmptyListing` | `Browser.BrowserState.MoveReallyUp` |
