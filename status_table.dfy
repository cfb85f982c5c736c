/**
 * The expected-length table of src/controller.cpp:30-39, and the framing of
 * MIDI 1.0 messages it encodes (Table I, "Summary of Status Bytes", of the
 * MIDI 1.0 Detailed Specification), stated by message kind.
 */
module StatusTable {
  import opened Bytes

  /** A status byte has its high bit set; a data byte does not. */
  predicate IsStatus(b: Byte) { b >= 0x80 }

  predicate IsData(b: Byte) { b < 0x80 }

  const EndOfExclusive: Byte := 0xF7

  /** How a message that starts with a given status byte is framed. */
  datatype Framing =
    | Undefined          // not a defined leading status byte
    | Variable           // System Exclusive: data bytes up to an End of Exclusive byte
    | Fixed(length: nat) // exactly `length` bytes, the status byte included

  /**
   * The framing of each status byte, by message kind: channel voice messages
   * by their high nibble, system messages one by one.
   */
  function MidiFraming(status: Byte): Framing
    requires IsStatus(status)
  {
    var kind := status & 0xF0;
    if kind == 0xC0 || kind == 0xD0 then Fixed(2)         // Program Change, Channel Pressure
    else if kind != 0xF0 then Fixed(3)                    // Note Off/On, Aftertouch, Controller, Pitch Wheel
    else if status == 0xF0 then Variable                  // System Exclusive
    else if status == 0xF1 || status == 0xF3 then Fixed(2) // MTC Quarter Frame, Song Select
    else if status == 0xF2 then Fixed(3)                  // Song Position Pointer
    else if status == 0xF4 || status == 0xF5 || status == EndOfExclusive || status == 0xFD then Undefined
    else Fixed(1)                                         // Tune Request and the real-time messages
  }

  /**
   * `statusLengths`: one entry per status byte 0x80..0xFF; -1 undefined,
   * 0 variable length, otherwise the exact total length. Written as its
   * eight rows of sixteen entries.
   */
  const StatusLengths: seq<int> :=
    [3, 3, 3, 3, 3, 3, 3, 3, 3, 3, 3, 3, 3, 3, 3, 3] +
    [3, 3, 3, 3, 3, 3, 3, 3, 3, 3, 3, 3, 3, 3, 3, 3] +
    [3, 3, 3, 3, 3, 3, 3, 3, 3, 3, 3, 3, 3, 3, 3, 3] +
    [3, 3, 3, 3, 3, 3, 3, 3, 3, 3, 3, 3, 3, 3, 3, 3] +
    [2, 2, 2, 2, 2, 2, 2, 2, 2, 2, 2, 2, 2, 2, 2, 2] +
    [2, 2, 2, 2, 2, 2, 2, 2, 2, 2, 2, 2, 2, 2, 2, 2] +
    [3, 3, 3, 3, 3, 3, 3, 3, 3, 3, 3, 3, 3, 3, 3, 3] +
    [0, 2, 3, 2, -1, -1, 1, -1, 1, 1, 1, 1, 1, -1, 1, 1]

  /**
   * `statusLengths[status - 0x80]`. Past the status-byte guard the index is
   * within the table, and the entry agrees with the framing of the status.
   */
  function ExpectedLength(status: Byte): (n: int)
    requires IsStatus(status)
    ensures n == -1 <==> MidiFraming(status).Undefined?
    ensures n == 0 <==> MidiFraming(status).Variable?
    ensures MidiFraming(status).Fixed? ==> n == MidiFraming(status).length
    ensures n == -1 <==> status == 0xF4 || status == 0xF5 || status == 0xF7 || status == 0xFD
    ensures n == 0 <==> status == 0xF0
    ensures -1 <= n <= 3
  {
    TableFollowsFraming(status);
    StatusLengths[(status - 0x80) as int]
  }

  lemma TableFollowsFraming(status: Byte)
    requires IsStatus(status)
    ensures var n, f := StatusLengths[(status - 0x80) as int], MidiFraming(status);
      (n == -1 <==> f.Undefined?) && (n == 0 <==> f.Variable?) && (f.Fixed? ==> n == f.length)
  {
    if status < 0xC0 {
      assert status & 0xF0 != 0xC0 && status & 0xF0 != 0xD0 && status & 0xF0 != 0xF0;
    } else if status < 0xE0 {
      assert status & 0xF0 == 0xC0 || status & 0xF0 == 0xD0;
    } else if status < 0xF0 {
      assert status & 0xF0 == 0xE0;
    } else {
      assert status & 0xF0 == 0xF0;
    }
  }
}
