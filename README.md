# midisnoop message classifier, in Dafny

midisnoop is a MIDI monitor and prober. Every message it receives from a
MIDI input port goes through `Controller::parseMessage`, and so does every
message the operator types in to send, once each of its tokens has been
read as a byte (a bad token is reported and the send stops there). That method decides whether the bytes
form a valid MIDI 1.0 message and produces the two strings shown in the
message log: a status description and a data description. This project
models that classifier and the controller code around it:

- the `statusLengths` table, which gives each status byte's expected
  length (`StatusTable`);
- `getGenericDataDescription`, the hex dump shown for rejected messages
  and for System Exclusive payloads (`Classifier.GenericText`,
  `Controller.GenericDataDescription`);
- `parseMessage`, with its checks in the program's order and its decoding
  switch (`Classifier.Classify`, `Controller.ParseMessage`);
- `handleMessageSend`, which splits the operator's text at spaces, reads
  each token as a base-16 byte, classifies the bytes and sends them only
  when they are valid (`Send`, `Controller.TextToBytes`,
  `Controller.HandleMessageSend`);
- `handleReceivedMessage`, which classifies an incoming message and logs
  it.

Modules and files:

- `wrappers.dfy`: `Option` and `Result`.
- `bytes.dfy`: bytes (`bv8`), two-digit hex rendering, and `QString::toUInt(&ok, 16)`.
- `strings.dfy`: `join(" ")`, `split(' ', SkipEmptyParts)` and decimal rendering.
- `status_table.dfy`: the length table and the MIDI framing it encodes.
- `classifier.dfy`: `parseMessage` as a pure function, with its properties.
- `send.dfy`: the operator's text read as bytes.
- `controller.dfy`: class `Controller`. Its fields are `valid`,
  `statusDescription` and `dataDescription`, plus the sent messages, the
  shown errors (`errors`) and the log rows. Its methods assign those fields
  the way the C++ methods do and are proved equal to the functions.

Descriptions are structured values (`Classifier.Status`, `Classifier.Data`)
rather than translated strings. Each constructor's comment gives the English
text the program shows. The one exception is the generic hex dump, which is
modelled as real text: "01 02 (2 bytes)".

The model reproduces one behaviour of the code exactly as written. The MTC
Quarter Frame branch (src/controller.cpp:367-369) decodes `message[0]`,
which is the status byte 0xF1, rather than the data byte. A MIDI reading
of the protocol would decode the data byte. Because the model follows the
code, every valid quarter-frame message is described as "Hours High Nibble:
1, SMPTE Type: 24 fps" (`Classifier.QuarterFrameShowsStatusByte`).

## Model

| member | source | states |
|---|---|---|
| StatusTable.ExpectedLength | src/controller.cpp:30-39 | The table entry for a status byte is -1 exactly for an undefined status (F4, F5, F7, FD), 0 exactly for System Exclusive (F0), and otherwise the exact total length of the message kind. Every entry lies in -1..3. |
| StatusTable.TableFollowsFraming | src/controller.cpp:30-39 | Each of the 128 table entries agrees with the MIDI framing of its status byte, stated kind by kind: channel voice messages by their high nibble, system messages one by one. |
| Bytes.ToByte | src/controller.cpp:205 | A value in 0..0xff becomes the byte with exactly that value. |
| Bytes.Hex2 | src/controller.cpp:175-176 | A byte is rendered as exactly two hex digits, neither of them an upper-case letter, whose value, high digit first, is the byte. |
| Bytes.ToUIntBase16 | src/controller.cpp:199 | A token reads as a number exactly when, once leading and trailing white space, one optional '+' and one optional 0x/0X prefix are taken off, what is left is a non-empty run of hex digits whose value fits 32 bits. The number is then the value of those digits. |
| Bytes.TrimStartRemovesLeadingSpace | src/controller.cpp:199 | Skipping leading white space leaves a suffix of the token that does not start with white space, and everything removed is white space. |
| Bytes.TrimEndRemovesTrailingSpace | src/controller.cpp:199 | Skipping trailing white space leaves a prefix of the token that does not end with white space, and everything removed is white space. |
| Bytes.TrailingNewlineIsIgnored | src/controller.cpp:199-200 | "40" followed by a newline reads as 0x40. |
| Bytes.SignAndPrefixAreAccepted | src/controller.cpp:199-200 | A tab, '+' and "0X" before "3c" are accepted, and the token reads as 0x3C. |
| Bytes.MinusIsRefused | src/controller.cpp:199-200 | "-1" does not read as a number. |
| Bytes.BarePrefixIsRefused | src/controller.cpp:199-200 | "0x" with no digits after it does not read as a number. |
| Bytes.InnerSpaceIsRefused | src/controller.cpp:199-200 | A tab between two digits makes the token fail to read. |
| Bytes.TwoDigitToken | src/controller.cpp:199 | A token of two hex digits reads as the number they spell, high digit first. |
| Bytes.HexRoundTrip | src/controller.cpp:175-176 | Reading a rendered byte back as a base-16 number gives that byte. |
| Bytes.HexTokenHasNoSpace | src/controller.cpp:175-176 | A rendered byte is a non-empty token with no space in it. |
| Strings.Split | src/controller.cpp:193 | Splitting at spaces while skipping empty parts yields only non-empty, space-free tokens. |
| Strings.SplitFromAtSpace | src/controller.cpp:193 | Splitting in the middle of a word, a space ends that word: what comes after it is split on its own and appended. |
| Strings.SplitAtSpace | src/controller.cpp:193 | The split of two texts joined by a space is the split of the first followed by the split of the second. |
| Strings.SplitOfWord | src/controller.cpp:193 | A text with no space splits into itself alone, or into nothing when it is empty. |
| Strings.SplitJoin | src/controller.cpp:179 | Splitting at spaces undoes joining with spaces, for any list of non-empty, space-free tokens. |
| Strings.JoinAppend | src/controller.cpp:179 | Joining one more part adds a single space and then that part, or is that part alone when there was nothing before it. |
| Strings.JoinTwoCharParts | src/controller.cpp:179 | Joined parts of two characters each put part k at positions 3k and 3k+1, and a space after every part but the last. The joined text is 3n-1 characters long for n parts. |
| Strings.JoinThree | src/controller.cpp:179 | Three parts join to the first, a space, the second, a space, the third. |
| Strings.JoinLastSpace | src/controller.cpp:178-179 | Joining a list whose last element holds one space gives the same text as joining with that element's two halves. |
| Strings.Decimal | src/controller.cpp:178 | The decimal rendering of an int is one non-empty, space-free token, with a leading '-' exactly for negative values. |
| Strings.DecimalRoundTrip | src/controller.cpp:178 | Reading back the decimal rendering of any int gives that int. |
| Classifier.GenericText | src/controller.cpp:165-180 | The generic description gives three characters to each byte shown (from index 1 through the last index, -1 standing for the last byte): its two hex digits and a space. The "(n bytes)" count follows, and nothing else. |
| Classifier.HexDumpLayout | src/controller.cpp:173-179 | The hex tokens of some bytes joined with a final part take three characters per byte, digits then a space, followed by that part. |
| Classifier.GenericTextTokens | src/controller.cpp:165-180 | The generic description splits into one token per shown byte, then "(n" and "bytes)". Token k reads back as byte k+1 of the message, and n reads back as the last index shown (-1 standing for the last byte). |
| Classifier.Combine14 | src/controller.cpp:353-354 | Shifting msb left by 7 bits and or-ing in lsb, for two data bytes, gives msb*128 + lsb, which lies in 0..0x3FFF. |
| Classifier.DescribeQuarterFrame | src/controller.cpp:367-431 | Bits 4-6 select the piece and every byte reaches a case. Values 0 to 6 select frames low, frames high, seconds low, seconds high, minutes low, minutes high and hours low, each showing the low nibble. Value 7 selects the hours-high piece, whose hours bit is bit 0 and whose SMPTE type is selected by bits 1-2: 24, 25, 30 drop-frame or 30 fps. |
| Classifier.Describe | src/controller.cpp:302-495 | The decoding switch applies to well-formed messages only and never yields an error. It yields a channel label exactly for status bytes below 0xF0, with channel = low nibble + 1 in 1..16, a pitch in -0x2000..0x1FFF and a beat below 0x4000. |
| Classifier.DescribeSystem | src/controller.cpp:359-490 | The system-message switch yields neither an error nor a channel label, and never reaches its unreachable default. |
| Classifier.Classify | src/controller.cpp:229-496 | A message is valid exactly when it is well formed: correctly framed for its status byte, with every data byte below 0x80. It is valid exactly when its status description is not an error. |
| Classifier.RejectionReasons | src/controller.cpp:232-300 | Each rejection reason is given exactly when its condition on the bytes holds, the conditions following the program's order of checks: empty message; data byte as status; undefined status; lone F0; SysEx without a final F7; wrong length; a non-data byte in the data range. Each rejection names the status byte. Its data description is empty for the two cases with nothing to show, and the generic dump of the whole message otherwise. |
| Classifier.ChannelVoiceLabels | src/controller.cpp:306-357 | A valid channel voice message is labelled with the kind its high nibble selects and the channel (low nibble + 1) in 1..16. Program Change and Channel Pressure messages are two bytes long and the others three. Note Off and Note On show note and velocity, Aftertouch note and pressure, Control Change controller and value, Program Change the program and Channel Pressure the pressure, each taken from the data bytes in order. |
| Classifier.PitchWheelValue | src/controller.cpp:351-357 | A valid Pitch Wheel message shows msb*128 + lsb - 0x2000, which lies in -8192..8191. |
| Classifier.SongPositionValue | src/controller.cpp:433-438 | A valid message with status F2 is labelled Song Position Pointer and shows msb*128 + lsb, which lies in 0..16383. |
| Classifier.SysExPayload | src/controller.cpp:264-278 | A valid System Exclusive message ends in F7, holds only data bytes in between, and shows exactly those in-between bytes as its generic description. |
| Classifier.QuarterFrameShowsStatusByte | src/controller.cpp:367-431 | Every valid MTC Quarter Frame message is described as hours-high nibble 1 at 24 fps, because the status byte is what gets decoded. |
| Classifier.QuarterFrameIgnoresDataByte | src/controller.cpp:367-369 | Two quarter-frame messages that differ only in their data byte get the same, valid, classification. |
| Classifier.SystemLabels | src/controller.cpp:440-484 | Valid system messages from F3 upward get their label: Song Select shows its song byte, and the single-byte messages show an empty data description. |
| Classifier.ChannelExamples | src/controller.cpp:315-357 | 90 3C 40 is Note On on channel 1 with note 60 and velocity 64. E0 00 40 is a centred pitch wheel (0). BF 07 7F is a Controller on channel 16. |
| Classifier.SysExExample | src/controller.cpp:362-365 | F0 01 02 F7 is System Exclusive, shown as "01 02 (2 bytes)". |
| Classifier.SysExExampleText | src/controller.cpp:165-180 | The generic text of F0 01 02 F7 up to index 2 is "01 02 (2 bytes)". |
| Classifier.SysExExampleCount | src/controller.cpp:178 | The count part for index 2 is "(2 bytes)". |
| Classifier.SysExExampleTokens | src/controller.cpp:174-177 | Bytes 01 and 02 are rendered as "01" and "02". |
| Classifier.EmptySysExExample | src/controller.cpp:264-278 | F0 F7 is a valid System Exclusive message shown as "(0 bytes)". |
| Classifier.EmptySysExExampleText | src/controller.cpp:165-180 | The generic text of F0 F7 up to index 0 is the count alone, "(0 bytes)". |
| Classifier.RejectionExamples | src/controller.cpp:232-300 | Concrete rejections, one per check: empty, F0 alone, F0 01, C0 80, an over-long Note Off, 3C, and F7. |
| Classifier.InvalidDataExample | src/controller.cpp:291-299 | C0 80 is rejected for invalid data, and its whole data range is shown as "80 (1 bytes)". |
| Classifier.InvalidDataExampleText | src/controller.cpp:165-180 | The generic text of C0 80 through its last byte is "80 (1 bytes)". |
| Classifier.InvalidDataExampleParts | src/controller.cpp:174-178 | Byte 80 is rendered as "80", and the count part for index 1 is "(1 bytes)". |
| Send.ByteToken | src/controller.cpp:199-205 | A token is accepted as a byte exactly when it reads as a base-16 number no larger than 0xff, and the byte then has the value read. |
| Send.ParseTokens | src/controller.cpp:196-206 | Reading a list of tokens gives one byte per token, or fails naming one of the tokens, which is a token the reading refuses. |
| Send.OperatorBytes | src/controller.cpp:193-206 | The operator's text gives one byte per token of its split, or fails naming one of those tokens: a non-empty, space-free token that is not a byte. |
| Send.ParseTokensAccepts | src/controller.cpp:196-206 | Tokens convert exactly when every token is read as a byte. The message then has one byte per token, the byte read from it, in token order. This holds for any way of reading a token. |
| Send.ParseTokensExtend | src/controller.cpp:196-205 | When the first i tokens gave some bytes and token i reads as byte b, the first i+1 tokens give those bytes followed by b. |
| Send.ParseTokensRejects | src/controller.cpp:196-204 | Conversion fails at the first token that is not read as a byte, and reports that token. |
| Send.RetypedBytes | src/controller.cpp:193-206 | Typing the two-digit hex tokens of any byte sequence, separated by spaces, converts back to exactly that sequence. |
| Send.ReadsAsByte | src/controller.cpp:199-205 | A token that reads as the value of a byte is accepted as that byte. |
| Send.TypedNoteOnTokens | src/controller.cpp:193 | "90 3c 40" followed by a newline splits into "90", "3c" and "40" with the newline. |
| Send.TypedNoteOnPlainBytes | src/controller.cpp:199-205 | "90" and "3c" are accepted as the bytes 0x90 and 0x3C. |
| Send.ThreeTokens | src/controller.cpp:196-206 | Three tokens read as three bytes give those bytes in order. |
| Send.TypedNoteOnExample | src/controller.cpp:193-206 | "90 3c 40" followed by the newline a text edit may leave converts to the message 90 3C 40. |
| Controllers.RetypedMessageIsValid | src/controller.cpp:193-213 | Retyping the hex tokens of a well-formed message gives that message back, and it classifies as valid, which is the condition for sending it. |
| Controllers.Controller.GenericDataDescription | src/controller.cpp:165-180 | The loop that builds the token list produces exactly the generic description. |
| Controllers.Controller.ParseMessage | src/controller.cpp:229-496 | The three fields, set through the early-return checks and the data-byte loop, equal the classification of the message. |
| Controllers.Controller.TextToBytes | src/controller.cpp:192-206 | The token loop yields the message the text stands for, or the first token that is not a byte. |
| Controllers.Controller.HandleMessageSend | src/controller.cpp:189-219 | A bad token adds an error naming it and changes nothing else. Otherwise the fields hold the classification. A valid message is sent and logged as valid; an invalid one adds an error and is not sent. Only well-formed messages are ever sent, and received rows are untouched. |
| Controllers.Controller.HandleReceivedMessage | src/controller.cpp:221-227 | The fields hold the classification of the received message, one row with those descriptions and the given time stamp is logged, and nothing sent changes. |

## Left out

- The Qt GUI, views, signal/slot wiring and the constructor's set-up are not part of this model: configure, about, error and message views, driver and port selection, `handleDriverChange`, `run` and the destructor. The constructor's "no MIDI drivers found" error is left out too. None of these classify messages.
- `Engine` (src/engine.cpp) is not part of this model. A send is the `sent` field, and the time stamp the engine returns is the `sendTime` parameter. Driver exceptions are not modelled.
- `showError` is modelled as the `errors` list of structured reasons, not as the error view.
- `tr()` translation and `QString::arg` formatting of the label texts are left out. Labels are datatype constructors, and only the generic hex dump is modelled as text.
- `getMIDINoteString` and `getMIDIControlString` are not part of this model. The note and controller bytes are kept as raw numbers in the data description.
- Bytes.Hex2: renders every byte as two unsigned hex digits. The program passes a possibly signed `char` to `static_cast<uint>`, so on platforms where `char` is signed a byte of 0x80 or more would be sign-extended (for example "ffffff80"). This only reaches the dump of a rejected message. The model treats per-byte rendering as two digits, as the generic description is meant to read.
- Bytes.ToUIntBase16: white space is the fixed set of characters `QChar::isSpace` reports in current Unicode versions (`SpaceChars`). A character whose white-space status changed between Unicode versions, such as U+180E MONGOLIAN VOWEL SEPARATOR, is not white space in the model, whatever the Qt build in use reports.
- `handleMessageSend`'s conversion loop is a method of its own (`TextToBytes`). Its caller shows the error for the returned token, which matches the program's early return from inside the loop.
