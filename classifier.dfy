/**
 * The MIDI message classifier of `Controller::parseMessage`
 * (src/controller.cpp:229-496) as a function of the message bytes: whether
 * the message is valid, its status description and its data description.
 * Descriptions are structured values; each constructor names the English
 * text the program shows for it.
 */
module Classifier {
  import opened Wrappers
  import opened Bytes
  import opened Strings
  import opened StatusTable

  /** The seven channel voice messages, by the high nibble of their status byte. */
  datatype ChannelKind =
    | NoteOff          // 0x8n "Note Off, Channel <n>"
    | NoteOn           // 0x9n "Note On, Channel <n>"
    | Aftertouch       // 0xAn "Aftertouch, Channel <n>"
    | ControlChange    // 0xBn "Controller, Channel <n>"
    | ProgramChange    // 0xCn "Program Change, Channel <n>"
    | ChannelPressure  // 0xDn "Channel Pressure, Channel <n>"
    | PitchWheel       // 0xEn "Pitch Wheel, Channel <n>"

  /** The status description. */
  datatype Status =
    | EmptyMessage                      // "empty message"
    | InvalidStatus(byte: Byte)         // "<xx> (invalid status)"
    | UndefinedStatus(byte: Byte)       // "<xx> (undefined status)"
    | SysExNoData                       // "System Exclusive (no data)"
    | SysExEndNotFound                  // "System Exclusive (end not found)"
    | IncorrectLength(byte: Byte)       // "<xx> (incorrect length)"
    | InvalidData(byte: Byte)           // "<xx> (invalid data)"
    | Channel(kind: ChannelKind, channel: int)
    | SystemExclusive                   // "System Exclusive"
    | MtcQuarterFrame                   // "MTC Quarter Frame"
    | SongPositionPointer               // "Song Position Pointer"
    | SongSelect                        // "Song Select"
    | TuneRequest                       // "Tune Request"
    | MidiClock                         // "MIDI Clock"
    | MidiTick                          // "MIDI Tick"
    | MidiStart                         // "MIDI Start"
    | MidiContinue                      // "MIDI Continue"
    | MidiStop                          // "MIDI Stop"
    | ActiveSense                       // "Active Sense"
    | Reset                             // "Reset"
  {
    /** The descriptions the program gives to messages it rejects. */
    predicate IsError() {
      EmptyMessage? || InvalidStatus? || UndefinedStatus? || SysExNoData? || SysExEndNotFound?
      || IncorrectLength? || InvalidData?
    }
  }

  /** The seven MTC quarter-frame pieces whose nibble is shown as it is. */
  datatype TimeCodePiece =
    | FramesLow | FramesHigh | SecondsLow | SecondsHigh | MinutesLow | MinutesHigh | HoursLow

  /** The SMPTE frame rates of the "Hours High Nibble" piece. */
  datatype SmpteType = Fps24 | Fps25 | Fps30DropFrame | Fps30

  /**
   * The data description. The note and controller numbers are kept as bytes:
   * the program shows them through getMIDINoteString and
   * getMIDIControlString, which are not part of this model.
   */
  datatype Data =
    | Blank                                         // ""
    | HexDump(text: string)                         // getGenericDataDescription
    | NoteVelocity(note: Byte, velocity: Byte)      // "Note: <note>, Velocity: <v>"
    | NotePressure(note: Byte, pressure: Byte)      // "Note: <note>, Pressure: <p>"
    | ControllerValue(control: Byte, value: Byte)   // "Controller: <name>, Value: <v>"
    | ProgramNumber(number: Byte)                   // "Number: <n>"
    | PressureValue(pressure: Byte)                 // "Pressure: <p>"
    | PitchValue(pitch: int)                        // "Value: <v>"
    | TimeCodeNibble(piece: TimeCodePiece, nibble: int)  // "Frames Low Nibble: <v>", ...
    | HoursHighNibble(hoursBit: int, smpte: SmpteType)  // "Hours High Nibble: <b>, SMPTE Type: <t>"
    | MidiBeat(beat: int)                           // "MIDI Beat: <b>"
    | SongNumber(song: Byte)                        // "Song Number: <n>"

  /** The three fields parseMessage sets. */
  datatype Parse = Parse(valid: bool, status: Status, data: Data)

  // ---------------------------------------------------------------------
  // Framing, stated by message kind

  /** The message is framed as its status byte demands, whatever its data bytes. */
  predicate Framed(message: seq<Byte>) {
    && |message| > 0
    && IsStatus(message[0])
    && match MidiFraming(message[0])
       case Undefined => false
       case Variable => |message| >= 2 && message[|message| - 1] == EndOfExclusive
       case Fixed(n) => |message| == n
  }

  /** The index of the last data byte: the End of Exclusive byte is not data. */
  function LastDataIndex(message: seq<Byte>): int
    requires Framed(message)
  {
    if MidiFraming(message[0]).Variable? then |message| - 2 else |message| - 1
  }

  /** Every byte from index 1 through `last` is a data byte. */
  predicate DataBytes(message: seq<Byte>, last: int)
    requires last < |message|
  {
    forall i :: 1 <= i <= last ==> IsData(message[i])
  }

  /** A well-formed MIDI 1.0 message: correctly framed, and all its data bytes below 0x80. */
  predicate WellFormed(message: seq<Byte>) {
    Framed(message) && DataBytes(message, LastDataIndex(message))
  }

  // ---------------------------------------------------------------------
  // Rendering of raw bytes

  /** The bytes from index 1 through `last`. */
  function DataRange(message: seq<Byte>, last: int): seq<Byte>
    requires last < 1 || last < |message|
  {
    if last < 1 then [] else message[1..last + 1]
  }

  /** The "(<n> bytes)" part. */
  function CountText(n: int): string {
    "(" + Decimal(n) + " bytes)"
  }

  /**
   * getGenericDataDescription: the bytes from index 1 through `lastIndex`
   * (-1 standing for the last byte) as hex tokens, then their count. Each
   * byte shown takes three characters, its two hex digits and a space, and
   * the count follows the last of them.
   */
  function GenericText(message: seq<Byte>, lastIndex: int): (r: string)
    requires -1 <= lastIndex < |message|
    ensures var last := if lastIndex == -1 then |message| - 1 else lastIndex;
      var shown := DataRange(message, last);
      && |r| == 3 * |shown| + |CountText(last)|
      && r[3 * |shown|..] == CountText(last)
      && forall k :: 0 <= k < |shown| ==>
        r[3 * k] == Hex2(shown[k])[0] && r[3 * k + 1] == Hex2(shown[k])[1] && r[3 * k + 2] == ' '
  {
    var last := if lastIndex == -1 then |message| - 1 else lastIndex;
    HexDumpLayout(DataRange(message, last), CountText(last));
    Join(HexTokens(DataRange(message, last)) + [CountText(last)])
  }

  /** The hex tokens of some bytes joined with a final part: three characters per byte, then that part. */
  lemma HexDumpLayout(bytes: seq<Byte>, tail: string)
    ensures var r := Join(HexTokens(bytes) + [tail]);
      && |r| == 3 * |bytes| + |tail|
      && r[3 * |bytes|..] == tail
      && forall k :: 0 <= k < |bytes| ==>
        r[3 * k] == Hex2(bytes[k])[0] && r[3 * k + 1] == Hex2(bytes[k])[1] && r[3 * k + 2] == ' '
  {
    var hex := HexTokens(bytes);
    JoinTwoCharParts(hex);
    JoinAppend(hex, tail);
  }

  /**
   * The generic description splits into exactly one token per byte shown,
   * each reading back as that byte, then "(<n>" and "bytes)" where <n> reads
   * back as the last index shown.
   */
  lemma GenericTextTokens(message: seq<Byte>, lastIndex: int)
    requires -1 <= lastIndex < |message|
    ensures var last := if lastIndex == -1 then |message| - 1 else lastIndex;
      var tokens := Split(GenericText(message, lastIndex));
      && tokens == HexTokens(DataRange(message, last)) + ["(" + Decimal(last), "bytes)"]
      && (forall k :: 0 <= k < last ==> ToUIntBase16(tokens[k]) == Some(message[k + 1] as nat))
      && ReadDecimal(Decimal(last)) == last
  {
    var last := if lastIndex == -1 then |message| - 1 else lastIndex;
    var hex := HexTokens(DataRange(message, last));
    JoinLastSpace(hex, "(" + Decimal(last), "bytes)");
    assert "(" + Decimal(last) + " bytes)" == ("(" + Decimal(last)) + " " + "bytes)";
    var parts := hex + ["(" + Decimal(last), "bytes)"];
    forall i | 0 <= i < |parts| ensures IsWord(parts[i]) {
      if i < |hex| {
        HexTokenHasNoSpace(DataRange(message, last)[i]);
      } else if i == |hex| {
        assert parts[i] == "(" + Decimal(last);
        assert parts[i][0] == '(' && parts[i][1..] == Decimal(last);
      } else {
        assert parts[i] == "bytes)";
      }
    }
    SplitJoin(parts);
    forall k | 0 <= k < last ensures ToUIntBase16(parts[k]) == Some(message[k + 1] as nat) {
      HexRoundTrip(message[k + 1]);
    }
    DecimalRoundTrip(last);
  }

  // ---------------------------------------------------------------------
  // Decoding of well-formed messages

  /**
   * `(msb << 7) | lsb` for two data bytes: the 14-bit value whose high seven
   * bits are `msb` and whose low seven bits are `lsb`.
   */
  function Combine14(lsb: Byte, msb: Byte): (v: int)
    requires IsData(lsb) && IsData(msb)
    ensures v == msb as int * 128 + lsb as int
    ensures 0 <= v < 0x4000
  {
    (((msb as bv16) << 7) | (lsb as bv16)) as int
  }

  /**
   * The MTC quarter-frame decoding applied to byte `b`: bits 4-6 select the
   * piece, the low nibble is its value; for "Hours High Nibble" bits 1-2
   * give the SMPTE type and bit 0 the hours bit. Every byte reaches a case.
   */
  function DescribeQuarterFrame(b: Byte): (d: Data)
    ensures d.TimeCodeNibble? || d.HoursHighNibble?
    ensures d.HoursHighNibble? <==> b & 0x70 == 0x70
    ensures d.TimeCodeNibble? ==> 0 <= d.nibble < 16 && d.nibble == (b & 0x0F) as int
    ensures d.HoursHighNibble? ==> d.hoursBit == (b & 0x01) as int
    ensures d.TimeCodeNibble? ==>
      d.piece == [FramesLow, FramesHigh, SecondsLow, SecondsHigh, MinutesLow, MinutesHigh, HoursLow]
                 [((b & 0x70) >> 4) as int]
    ensures d.HoursHighNibble? ==>
      d.smpte == [Fps24, Fps25, Fps30DropFrame, Fps30][((b & 0x06) >> 1) as int]
  {
    var value := b & 0x0F;
    var piece := b & 0x70;
    if piece == 0x00 then TimeCodeNibble(FramesLow, value as int)
    else if piece == 0x10 then TimeCodeNibble(FramesHigh, value as int)
    else if piece == 0x20 then TimeCodeNibble(SecondsLow, value as int)
    else if piece == 0x30 then TimeCodeNibble(SecondsHigh, value as int)
    else if piece == 0x40 then TimeCodeNibble(MinutesLow, value as int)
    else if piece == 0x50 then TimeCodeNibble(MinutesHigh, value as int)
    else if piece == 0x60 then TimeCodeNibble(HoursLow, value as int)
    else if piece == 0x70 then
      var rate := (value & 0x6) >> 1;
      var smpte :=
        if rate == 0 then Fps24
        else if rate == 1 then Fps25
        else if rate == 2 then Fps30DropFrame
        else if rate == 3 then Fps30
        else assert false; Fps24;
      HoursHighNibble((value & 1) as int, smpte)
    else
      assert false; TimeCodeNibble(FramesLow, 0)
  }

  /**
   * The decoding switch of parseMessage, reached only by well-formed
   * messages. Every such message gets a message label, never an error, and
   * never the switch's unreachable default.
   */
  function Describe(message: seq<Byte>): (r: (Status, Data))
    requires WellFormed(message)
    ensures !r.0.IsError()
    ensures r.0.Channel? <==> message[0] < 0xF0
    ensures r.0.Channel? ==> 1 <= r.0.channel <= 16 && r.0.channel == (message[0] & 0x0F) as int + 1
    ensures r.1.PitchValue? ==> -0x2000 <= r.1.pitch < 0x2000
    ensures r.1.MidiBeat? ==> 0 <= r.1.beat < 0x4000
  {
    var status := message[0];
    var channel := (status & 0x0F) as int + 1;
    var kind := status & 0xF0;
    if kind == 0x80 then (Channel(NoteOff, channel), NoteVelocity(message[1], message[2]))
    else if kind == 0x90 then (Channel(NoteOn, channel), NoteVelocity(message[1], message[2]))
    else if kind == 0xA0 then (Channel(Aftertouch, channel), NotePressure(message[1], message[2]))
    else if kind == 0xB0 then (Channel(ControlChange, channel), ControllerValue(message[1], message[2]))
    else if kind == 0xC0 then (Channel(ProgramChange, channel), ProgramNumber(message[1]))
    else if kind == 0xD0 then (Channel(ChannelPressure, channel), PressureValue(message[1]))
    else if kind == 0xE0 then
      (Channel(PitchWheel, channel), PitchValue(Combine14(message[1], message[2]) - 0x2000))
    else if kind == 0xF0 then DescribeSystem(message)
    else assert false; (Reset, Blank)
  }

  /** The system-message half of the decoding switch, by the low nibble of the status byte. */
  function DescribeSystem(message: seq<Byte>): (r: (Status, Data))
    requires WellFormed(message) && message[0] & 0xF0 == 0xF0
    ensures !r.0.IsError() && !r.0.Channel?
    ensures r.1.MidiBeat? ==> 0 <= r.1.beat < 0x4000
    ensures !r.1.PitchValue?
  {
    var status := message[0];
    var low := status & 0x0F;
    if low == 0x0 then (SystemExclusive, HexDump(GenericText(message, |message| - 2)))
    // The program decodes the status byte here, not the data byte.
    else if low == 0x1 then (MtcQuarterFrame, DescribeQuarterFrame(message[0]))
    else if low == 0x2 then (SongPositionPointer, MidiBeat(Combine14(message[1], message[2])))
    else if low == 0x3 then (SongSelect, SongNumber(message[1]))
    else if low == 0x6 then (TuneRequest, Blank)
    else if low == 0x8 then (MidiClock, Blank)
    else if low == 0x9 then (MidiTick, Blank)
    else if low == 0xA then (MidiStart, Blank)
    else if low == 0xB then (MidiContinue, Blank)
    else if low == 0xC then (MidiStop, Blank)
    else if low == 0xE then (ActiveSense, Blank)
    else if low == 0xF then (Reset, Blank)
    else assert false; (Reset, Blank)
  }

  // ---------------------------------------------------------------------
  // The classifier

  /**
   * parseMessage as a function: the checks in the program's order (empty,
   * status byte, table entry, framing or exact length, data bytes), then the
   * decoding. Valid exactly for well-formed messages.
   */
  function Classify(message: seq<Byte>): (r: Parse)
    ensures r.valid <==> WellFormed(message)
    ensures r.valid <==> !r.status.IsError()
  {
    if |message| == 0 then Parse(false, EmptyMessage, Blank)
    else
      var status := message[0];
      if status < 0x80 then Parse(false, InvalidStatus(status), HexDump(GenericText(message, -1)))
      else
        var expectedLength := ExpectedLength(status);
        if expectedLength == -1 then
          Parse(false, UndefinedStatus(status), HexDump(GenericText(message, -1)))
        else if expectedLength == 0 && |message| == 1 then
          Parse(false, SysExNoData, Blank)
        else if expectedLength == 0 && message[|message| - 1] != 0xF7 then
          Parse(false, SysExEndNotFound, HexDump(GenericText(message, -1)))
        else if expectedLength != 0 && |message| != expectedLength then
          Parse(false, IncorrectLength(status), HexDump(GenericText(message, -1)))
        else
          var lastDataIndex := if expectedLength == 0 then |message| - 2 else |message| - 1;
          if !DataBytes(message, lastDataIndex) then
            Parse(false, InvalidData(status), HexDump(GenericText(message, -1)))
          else
            var described := Describe(message);
            Parse(true, described.0, described.1)
  }

  // ---------------------------------------------------------------------
  // What the classifier promises

  /**
   * Which check rejects a message, in terms of its bytes, in the program's
   * order; each rejection names the status byte it saw, and shows the whole
   * message after the status byte except when there is nothing to show.
   */
  lemma RejectionReasons(message: seq<Byte>)
    ensures var r := Classify(message);
      && (r.status == EmptyMessage <==> |message| == 0)
      && (r.status.InvalidStatus? <==> |message| > 0 && IsData(message[0]))
      && (r.status.UndefinedStatus? <==>
            |message| > 0 && IsStatus(message[0]) && MidiFraming(message[0]).Undefined?)
      && (r.status == SysExNoData <==> message == [0xF0])
      && (r.status == SysExEndNotFound <==>
            |message| >= 2 && message[0] == 0xF0 && message[|message| - 1] != EndOfExclusive)
      && (r.status.IncorrectLength? <==>
            |message| > 0 && IsStatus(message[0]) && MidiFraming(message[0]).Fixed?
            && |message| != MidiFraming(message[0]).length)
      && (r.status.InvalidData? <==> Framed(message) && !DataBytes(message, LastDataIndex(message)))
      && ((r.status.InvalidStatus? || r.status.UndefinedStatus? || r.status.IncorrectLength?
             || r.status.InvalidData?) ==> r.status.byte == message[0])
      && (!r.valid ==> r.data == if r.status == EmptyMessage || r.status == SysExNoData then Blank
                                 else HexDump(GenericText(message, -1)))
  {
  }

  /**
   * A valid channel voice message is labelled with its kind and a channel
   * 1..16 from its low nibble, and shows its data bytes as that kind reads
   * them.
   */
  lemma ChannelVoiceLabels(message: seq<Byte>)
    requires Classify(message).valid && message[0] < 0xF0
    ensures var r := Classify(message);
      && r.status.Channel?
      && r.status.channel == (message[0] & 0x0F) as int + 1 && 1 <= r.status.channel <= 16
      && r.status.kind == [NoteOff, NoteOn, Aftertouch, ControlChange, ProgramChange,
                           ChannelPressure, PitchWheel][(message[0] as int - 0x80) / 16]
      && |message| == (if r.status.kind == ProgramChange || r.status.kind == ChannelPressure then 2 else 3)
      && (r.status.kind == NoteOff ==> r.data == NoteVelocity(message[1], message[2]))
      && (r.status.kind == NoteOn ==> r.data == NoteVelocity(message[1], message[2]))
      && (r.status.kind == Aftertouch ==> r.data == NotePressure(message[1], message[2]))
      && (r.status.kind == ControlChange ==> r.data == ControllerValue(message[1], message[2]))
      && (r.status.kind == ProgramChange ==> r.data == ProgramNumber(message[1]))
      && (r.status.kind == ChannelPressure ==> r.data == PressureValue(message[1]))
  {
  }

  /** A valid Pitch Wheel message carries the signed 14-bit value of its two data bytes. */
  lemma PitchWheelValue(message: seq<Byte>)
    requires Classify(message).valid && message[0] & 0xF0 == 0xE0
    ensures Classify(message).data
            == PitchValue(message[2] as int * 128 + message[1] as int - 0x2000)
    ensures -8192 <= Classify(message).data.pitch <= 8191
  {
  }

  /**
   * A valid Song Position Pointer is labelled as one and carries the
   * unsigned 14-bit value of its two data bytes.
   */
  lemma SongPositionValue(message: seq<Byte>)
    requires Classify(message).valid && message[0] == 0xF2
    ensures Classify(message).status == SongPositionPointer
    ensures Classify(message).data == MidiBeat(message[2] as int * 128 + message[1] as int)
    ensures 0 <= Classify(message).data.beat <= 16383
  {
  }

  /**
   * A valid System Exclusive message shows its payload, the bytes between
   * the status byte and the End of Exclusive byte, as the generic text.
   */
  lemma SysExPayload(message: seq<Byte>)
    requires Classify(message).valid && message[0] == 0xF0
    ensures Classify(message) == Parse(true, SystemExclusive, HexDump(GenericText(message, |message| - 2)))
    ensures |message| >= 2 && message[|message| - 1] == EndOfExclusive
    ensures forall i :: 0 < i < |message| - 1 ==> IsData(message[i])
  {
  }

  /**
   * The MTC Quarter Frame branch decodes the status byte 0xF1, not the data
   * byte: every valid quarter-frame message reads "Hours High Nibble: 1,
   * SMPTE Type: 24 fps".
   */
  lemma QuarterFrameShowsStatusByte(message: seq<Byte>)
    requires Classify(message).valid && message[0] == 0xF1
    ensures Classify(message) == Parse(true, MtcQuarterFrame, HoursHighNibble(1, Fps24))
  {
  }

  /** Consequently two quarter-frame messages with different data bytes get the same description. */
  lemma QuarterFrameIgnoresDataByte(a: Byte, b: Byte)
    requires IsData(a) && IsData(b)
    ensures Classify([0xF1, a]) == Classify([0xF1, b])
    ensures Classify([0xF1, a]).valid
  {
  }

  /** The messages a valid classification can carry, by status byte, for the system messages. */
  lemma SystemLabels(message: seq<Byte>)
    requires Classify(message).valid && message[0] >= 0xF3
    ensures var r := Classify(message);
      && (message[0] == 0xF3 ==> r.status == SongSelect && r.data == SongNumber(message[1]))
      && (message[0] > 0xF3 ==> r.data == Blank && |message| == 1)
      && (message[0] == 0xF6 ==> r.status == TuneRequest)
      && (message[0] == 0xF8 ==> r.status == MidiClock)
      && (message[0] == 0xF9 ==> r.status == MidiTick)
      && (message[0] == 0xFA ==> r.status == MidiStart)
      && (message[0] == 0xFB ==> r.status == MidiContinue)
      && (message[0] == 0xFC ==> r.status == MidiStop)
      && (message[0] == 0xFE ==> r.status == ActiveSense)
      && (message[0] == 0xFF ==> r.status == Reset)
  {
    assert message[0] & 0xF0 == 0xF0;
    var described := DescribeSystem(message);
    assert Classify(message) == Parse(true, described.0, described.1);
  }

  /** Classifications of a few concrete valid channel messages. */
  lemma ChannelExamples()
    ensures Classify([0x90, 0x3C, 0x40]) == Parse(true, Channel(NoteOn, 1), NoteVelocity(60, 64))
    ensures Classify([0xE0, 0x00, 0x40]) == Parse(true, Channel(PitchWheel, 1), PitchValue(0))
    ensures Classify([0xBF, 0x07, 0x7F]) == Parse(true, Channel(ControlChange, 16), ControllerValue(7, 127))
  {
  }

  /** The System Exclusive payload excludes the status and End of Exclusive bytes. */
  lemma SysExExample()
    ensures Classify([0xF0, 0x01, 0x02, 0xF7]) == Parse(true, SystemExclusive, HexDump("01 02 (2 bytes)"))
  {
    var sysEx: seq<Byte> := [0xF0, 0x01, 0x02, 0xF7];
    SysExExampleText();
    assert WellFormed(sysEx);
  }

  /** The generic text of that message, from index 1 through index 2. */
  lemma SysExExampleText()
    ensures GenericText([0xF0, 0x01, 0x02, 0xF7], 2) == "01 02 (2 bytes)"
  {
    var sysEx: seq<Byte> := [0xF0, 0x01, 0x02, 0xF7];
    assert DataRange(sysEx, 2) == [0x01, 0x02];
    SysExExampleTokens();
    SysExExampleCount();
    assert HexTokens(DataRange(sysEx, 2)) + [CountText(2)] == ["01", "02", "(2 bytes)"];
    JoinThree("01", "02", "(2 bytes)");
  }

  /** The count part of that text. */
  lemma SysExExampleCount()
    ensures CountText(2) == "(2 bytes)"
  {
    assert Decimal(2) == "2";
  }

  /** The hex tokens of its two payload bytes. */
  lemma SysExExampleTokens()
    ensures HexTokens([0x01, 0x02]) == ["01", "02"]
  {
    assert Hex2(0x01) == "01" && Hex2(0x02) == "02";
  }

  /** An empty System Exclusive message is valid, with no payload. */
  lemma EmptySysExExample()
    ensures Classify([0xF0, 0xF7]) == Parse(true, SystemExclusive, HexDump("(0 bytes)"))
  {
    EmptySysExExampleText();
  }

  /** The generic text of F0 F7 up to index 0 is the count alone. */
  lemma EmptySysExExampleText()
    ensures GenericText([0xF0, 0xF7], 0) == "(0 bytes)"
  {
    assert CountText(0) == "(0 bytes)" by {
      assert Decimal(0) == "0";
    }
    assert DataRange([0xF0, 0xF7], 0) == [];
    assert HexTokens([]) + [CountText(0)] == [CountText(0)];
  }

  /** Classifications of a few concrete rejected messages. */
  lemma RejectionExamples()
    ensures Classify([]) == Parse(false, EmptyMessage, Blank)
    ensures Classify([0xF0]) == Parse(false, SysExNoData, Blank)
    ensures Classify([0xF0, 0x01]).status == SysExEndNotFound
    ensures Classify([0xC0, 0x80]).status == InvalidData(0xC0)
    ensures Classify([0x80, 0x3C, 0x40, 0x00]).status == IncorrectLength(0x80)
    ensures Classify([0x3C]).status == InvalidStatus(0x3C)
    ensures Classify([0xF7]).status == UndefinedStatus(0xF7)
  {
  }

  /** The generic text of a rejected message shows every byte after the status byte. */
  lemma InvalidDataExample()
    ensures Classify([0xC0, 0x80]) == Parse(false, InvalidData(0xC0), HexDump("80 (1 bytes)"))
  {
    InvalidDataExampleText();
  }

  /** The generic text of C0 80, through its last byte, is "80 (1 bytes)". */
  lemma InvalidDataExampleText()
    ensures GenericText([0xC0, 0x80], -1) == "80 (1 bytes)"
  {
    var message: seq<Byte> := [0xC0, 0x80];
    InvalidDataExampleParts();
    assert DataRange(message, 1) == [0x80];
    var parts := HexTokens(DataRange(message, 1)) + [CountText(1)];
    assert parts == ["80", "(1 bytes)"];
    assert Join(parts[1..]) == "(1 bytes)";
  }

  /** The hex token and the count part of that text. */
  lemma InvalidDataExampleParts()
    ensures HexTokens([0x80]) == ["80"] && CountText(1) == "(1 bytes)"
  {
    assert Hex2(0x80) == "80";
    assert Decimal(1) == "1";
  }
}
