/**
 * The terminal's byte <-> key codec: a single input byte read from a raw-mode
 * terminal is decoded into a key event, and a key event is encoded back into
 * the byte a terminal would have sent for it.
 */
module TermEvents {
  import opened Wrappers
  import opened Text

  /** The modifier bit set, an 8-bit flags value. */
  type KeyMods = m: int | 0 <= m < 256

  const NONE: KeyMods := 0
  const SHIFT: KeyMods := 1
  const CONTROL: KeyMods := 2

  datatype Key =
    | Null
    | StartOfHeading | StartOfText | EndOfText | EndOfTransmission | Enquiry | Ack | Bell
    | Backspace | HorizontalTab | LineFeed | VertialTab | FormFeed | CarriageReturn
    | ShiftOut | ShiftIn | DataLinkEscape
    | DeviceControl1 | DeviceControl2 | DeviceControl3 | DeviceControl4
    | Nack | SynchronousIdle | EndOfTransmissionBlock | Cancel | EndOfMedium | Substitute
    | Escape | FileSep | GroupSep | RecordSep | UnitSep
    | Char(c: char)
    | Delete
    | Unknown(value: Byte)

  datatype KeyEvent = KeyEvent(key: Key, mods: KeyMods)

  datatype Size = Size(rows: nat, columns: nat)

  datatype TermEvent = KeyInput(event: KeyEvent) | Resize(size: Size)

  datatype TermEventParseError = Need(count: nat)

  datatype KeyEventToBytesError = UnhandledKeyChar(character: char)

  /** The printable characters a US keyboard produces with shift held; they decode with SHIFT. */
  predicate IsShifted(b: Byte) {
    (33 <= b <= 38) || (40 <= b <= 43) || b == 58 || b == 60 || (62 <= b <= 90)
    || b == 94 || b == 95 || (123 <= b <= 126)
  }

  /** The modifiers a printable character (space through tilde) decodes with. */
  function PrintableMods(b: Byte): KeyMods {
    if IsShifted(b) then SHIFT else NONE
  }

  /** The key event a single byte stands for. */
  function DecodeByte(b: Byte): KeyEvent {
    if b == 0 then KeyEvent(Null, NONE)
    else if b == 9 then KeyEvent(HorizontalTab, NONE)
    else if b == 13 then KeyEvent(CarriageReturn, NONE)
    else if b <= 26 then KeyEvent(Char(('a' as int + b - 1) as char), CONTROL)
    else if b == 27 then KeyEvent(Escape, NONE)
    else if b == 28 then KeyEvent(FileSep, NONE)
    else if b == 29 then KeyEvent(GroupSep, NONE)
    else if b == 30 then KeyEvent(RecordSep, NONE)
    else if b == 31 then KeyEvent(UnitSep, NONE)
    else if b <= 126 then KeyEvent(Char(b as char), PrintableMods(b))
    else if b == 127 then KeyEvent(Delete, NONE)
    else KeyEvent(Unknown(b), NONE)
  }

  /** Decode the terminal event at the start of a byte slice. */
  function Decode(bytes: seq<Byte>): (r: Result<TermEvent, TermEventParseError>)
    ensures r.Err? <==> bytes == []
    ensures r.Err? ==> r.error == Need(1)
    ensures r.Ok? ==> r.value.KeyInput?
  {
    if bytes == [] then Err(Need(1))
    else Ok(KeyInput(DecodeByte(bytes[0])))
  }

  /** The byte of a named control key, whatever modifiers come with it. */
  function NamedKeyByte(k: Key): Option<Byte> {
    match k
    case Null => Some(0)
    case StartOfHeading => Some(1)
    case StartOfText => Some(2)
    case EndOfText => Some(3)
    case EndOfTransmission => Some(4)
    case Enquiry => Some(5)
    case Ack => Some(6)
    case Bell => Some(7)
    case Backspace => Some(8)
    case HorizontalTab => Some(9)
    case LineFeed => Some(10)
    case VertialTab => Some(11)
    case FormFeed => Some(12)
    case CarriageReturn => Some(13)
    case ShiftOut => Some(14)
    case ShiftIn => Some(15)
    case DataLinkEscape => Some(16)
    case DeviceControl1 => Some(17)
    case DeviceControl2 => Some(18)
    case DeviceControl3 => Some(19)
    case DeviceControl4 => Some(20)
    case Nack => Some(21)
    case SynchronousIdle => Some(22)
    case EndOfTransmissionBlock => Some(23)
    case Cancel => Some(24)
    case EndOfMedium => Some(25)
    case Substitute => Some(26)
    case Escape => Some(27)
    case FileSep => Some(28)
    case GroupSep => Some(29)
    case RecordSep => Some(30)
    case UnitSep => Some(31)
    case Delete => Some(127)
    case Char(_) => None
    case Unknown(_) => None
  }

  /** Encode a key event as the bytes a terminal sends for it. */
  function Encode(e: KeyEvent): (r: Result<seq<Byte>, KeyEventToBytesError>)
    ensures r.Ok? ==> |r.value| == 1
    ensures r.Err? <==> e.key.Char? && r == Err(UnhandledKeyChar(e.key.c))
    ensures r.Ok? && e.key.Char? ==> Decode(r.value) == Ok(KeyInput(e))
  {
    match e.key
    case Char(c) =>
      if e.mods == CONTROL && 'a' <= c <= 'z' && c != 'i' && c != 'm' then
        Ok([c as int - 'a' as int + 1])
      else if ' ' <= c <= '~' && e.mods == PrintableMods(c as int) then
        Ok([c as int])
      else
        Err(UnhandledKeyChar(c))
    case Unknown(v) => Ok([v])
    case _ => Ok([NamedKeyByte(e.key).value])
  }

  /** The named control key whose byte is the control code of a letter. */
  function ControlKeyFor(letter: char): Key
    requires 'a' <= letter <= 'z'
  {
    var code := letter as int - 'a' as int + 1;
    if code == 1 then StartOfHeading else if code == 2 then StartOfText
    else if code == 3 then EndOfText else if code == 4 then EndOfTransmission
    else if code == 5 then Enquiry else if code == 6 then Ack
    else if code == 7 then Bell else if code == 8 then Backspace
    else if code == 9 then HorizontalTab else if code == 10 then LineFeed
    else if code == 11 then VertialTab else if code == 12 then FormFeed
    else if code == 13 then CarriageReturn else if code == 14 then ShiftOut
    else if code == 15 then ShiftIn else if code == 16 then DataLinkEscape
    else if code == 17 then DeviceControl1 else if code == 18 then DeviceControl2
    else if code == 19 then DeviceControl3 else if code == 20 then DeviceControl4
    else if code == 21 then Nack else if code == 22 then SynchronousIdle
    else if code == 23 then EndOfTransmissionBlock else if code == 24 then Cancel
    else if code == 25 then EndOfMedium else Substitute
  }

  /** Decoding any non-empty slice succeeds and looks at the first byte only. */
  lemma DecodeFirstByteOnly(a: seq<Byte>, b: seq<Byte>)
    requires a != [] && b != [] && a[0] == b[0]
    ensures Decode(a).Ok? && Decode(a) == Decode(b)
  {
  }

  /** Bytes 128 and above decode to Unknown with no modifiers, and encode back to themselves. */
  lemma UnknownRoundTrip(b: Byte)
    requires b >= 128
    ensures Decode([b]) == Ok(KeyInput(KeyEvent(Unknown(b), NONE)))
    ensures Encode(KeyEvent(Unknown(b), NONE)) == Ok([b])
  {
  }

  /** Every byte survives decoding and re-encoding. */
  lemma RoundTrip(b: Byte)
    ensures Decode([b]).Ok? && Encode(Decode([b]).value.event) == Ok([b])
  {
    var e := DecodeByte(b);
    if 1 <= b <= 26 && b != 9 && b != 13 {
      assert e.key == Char(('a' as int + b - 1) as char);
    } else if 32 <= b <= 126 {
      assert e.key == Char(b as char);
    }
  }

  /** A control-code key and its Ctrl+letter synonym encode to the same byte. */
  lemma ControlSynonyms(letter: char, mods: KeyMods)
    requires 'a' <= letter <= 'z' && letter != 'i' && letter != 'm'
    ensures Encode(KeyEvent(Char(letter), CONTROL)) == Encode(KeyEvent(ControlKeyFor(letter), mods))
    ensures Encode(KeyEvent(Char(letter), CONTROL)) == Ok([letter as int - 'a' as int + 1])
  {
  }

  /** A character key is encoded exactly when it is a key the decoder can produce. */
  lemma CharEncodedIffDecodable(c: char, mods: KeyMods)
    ensures Encode(KeyEvent(Char(c), mods)).Ok?
        <==> exists b: Byte :: DecodeByte(b) == KeyEvent(Char(c), mods)
  {
    var e := KeyEvent(Char(c), mods);
    if exists b: Byte :: DecodeByte(b) == e {
      var b: Byte :| DecodeByte(b) == e;
      RoundTrip(b);
    }
    if Encode(e).Ok? {
      var b := Encode(e).value[0];
      assert DecodeByte(b) == e;
    }
  }

  /** A character held with both shift and control matches no arm and is rejected. */
  lemma ShiftControlRejected(c: char)
    ensures Encode(KeyEvent(Char(c), SHIFT + CONTROL)) == Err(UnhandledKeyChar(c))
  {
  }
}
